/**
 * The roster view: appendSprites appends one image per roster line to the
 * `pokedex-view` element, in list order.
 */
module Sprites {
  import opened Wrappers
  import opened JsText
  import opened Pokedex

  /** The images appendSprites builds for a list of roster lines. */
  function SpritesFor(lines: seq<string>): (imgs: seq<Image>)
    ensures |imgs| == |lines|
    ensures forall k :: 0 <= k < |lines| ==> imgs[k] == SpriteFor(lines[k])
  {
    seq(|lines|, k requires 0 <= k < |lines| => SpriteFor(lines[k]))
  }

  /** The children of the `pokedex-view` element. */
  class PokedexView {
    var images: seq<Image>

    constructor ()
      ensures images == []
    {
      images := [];
    }

    /** appendSprites: one image per roster line, appended in order. */
    method AppendSprites(namesList: seq<string>)
      modifies this
      ensures images == old(images) + SpritesFor(namesList)
    {
      for i := 0 to |namesList|
        invariant images == old(images) + SpritesFor(namesList[..i])
      {
        var image := BuildSprite(namesList[i]);
        SpritesForAppend(namesList, i);
        assert images + [image] == old(images) + (SpritesFor(namesList[..i]) + [image]);
        images := images + [image];
      }
      assert namesList[..|namesList|] == namesList;
    }
  }

  /** The body of appendSprites' loop: the image for one roster line. */
  method BuildSprite(line: string) returns (image: Image)
    ensures image == SpriteFor(line)
  {
    var nameElements := Split(line, ':');
    var name := Field(nameElements, 1);
    var imgEndPoint := ENDPOINT + "sprites/" + Str(name) + ".png";
    var classes: seq<string> := [];
    var clickable := false;
    if name == Some("bulbasaur") || name == Some("charmander") || name == Some("squirtle") {
      classes := AddClass(classes, "found");
      clickable := true;
    }
    classes := AddClass(classes, "sprite");
    var id := "pokemon-" + Str(name);
    assert clickable == IsStarter(name);
    assert imgEndPoint == SpriteUrl(Str(name));
    assert id == SpriteId(Str(name));
    image := Image(id, imgEndPoint, classes, clickable);
  }

  /** The images of one more roster line extend the images of the lines before it. */
  lemma SpritesForAppend(lines: seq<string>, i: nat)
    requires i < |lines|
    ensures SpritesFor(lines[..i + 1]) == SpritesFor(lines[..i]) + [SpriteFor(lines[i])]
  {
    assert lines[..i + 1] == lines[..i] + [lines[i]];
  }

  /** Roster text rendered by onLoad: one image per line, that is one more than there are newlines. */
  lemma RosterImageCount(text: string)
    ensures |SpritesFor(GetNamesList(text))| == Count(text, '\n') + 1
  {
  }

  /** The names the roster lines carry, as the page concatenates them. */
  function Names(lines: seq<string>): (names: seq<string>)
    ensures |names| == |lines|
  {
    seq(|lines|, k requires 0 <= k < |lines| => Str(RosterName(lines[k])))
  }

  /** When no two roster lines carry the same name, no two images share an id. */
  lemma DistinctNamesDistinctIds(lines: seq<string>)
    requires forall i, j :: 0 <= i < j < |lines| ==> Names(lines)[i] != Names(lines)[j]
    ensures var imgs := SpritesFor(lines);
            forall i, j :: 0 <= i < j < |imgs| ==> imgs[i].id != imgs[j].id && imgs[i].src != imgs[j].src
  {
    var imgs := SpritesFor(lines);
    forall i, j | 0 <= i < j < |imgs| ensures imgs[i].id != imgs[j].id && imgs[i].src != imgs[j].src {
      SpriteIdUrlInjective(Names(lines)[i], Names(lines)[j]);
    }
  }

  /** Exactly the starters are found and clickable, and a click on one recovers its name. */
  lemma FoundExactlyStarters(lines: seq<string>, k: nat)
    requires k < |lines|
    ensures var img := SpritesFor(lines)[k];
            ("found" in img.classes <==> RosterName(lines[k]).Some? && RosterName(lines[k]).value in STARTERS)
            && (img.clickable <==> "found" in img.classes)
            && (img.clickable ==> DecodeId(img.id) == RosterName(lines[k]))
  {
    SpriteForStarters(lines[k]);
    if SpriteFor(lines[k]).clickable {
      ClickableSpriteDecodes(lines[k]);
    }
  }
}
