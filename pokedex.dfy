/**
 * The pure logic of the Pokedex page: the roster text, the sprite records,
 * the element ids and their decoding, name display, the selectors of the
 * two player cards, the text of a card and the response status check.
 * DOM nodes are modelled as records; querying and rendering are not.
 */
module Pokedex {
  import opened Wrappers
  import opened JsText
  import opened Decimal

  /** Base URL of the web service that serves the roster, cards and images. */
  const ENDPOINT: string := "https://courses.cs.washington.edu/courses/cse154/webservices/pokedex/"

  /** What JavaScript prints when `undefined` is concatenated to a string. */
  const UNDEFINED: string := "undefined"

  /** The three creatures that start out found. */
  const STARTERS: set<string> := {"bulbasaur", "charmander", "squirtle"}

  // ---------------------------------------------------------------- roster

  /** `text.split("\n")`: one roster line per line of the service's reply. */
  function GetNamesList(text: string): (lines: seq<string>)
    ensures |lines| == Count(text, '\n') + 1
    ensures Join(lines, '\n') == text
    ensures forall k :: 0 <= k < |lines| ==> '\n' !in lines[k]
  {
    SplitCount(text, '\n');
    JoinSplit(text, '\n');
    Split(text, '\n')
  }

  /** `pieces[i]`, which is `undefined` past the end. */
  function Field(pieces: seq<string>, i: nat): (f: Option<string>)
    ensures f.Some? <==> i < |pieces|
    ensures f.Some? ==> f.value == pieces[i]
  {
    if i < |pieces| then Some(pieces[i]) else None
  }

  /** The string a possibly `undefined` value turns into when concatenated. */
  function Str(o: Option<string>): (s: string)
    ensures o.Some? ==> s == o.value
    ensures o.None? ==> s == UNDEFINED
  {
    match o
    case Some(v) => v
    case None => UNDEFINED
  }

  /**
   * `line.split(":")[1]`: the name field of a `category:name` roster line.
   * It exists exactly when the line holds a colon, and holds no colon itself.
   */
  function RosterName(line: string): (name: Option<string>)
    ensures name.Some? <==> ':' in line
    ensures name.Some? ==> ':' !in name.value
  {
    SplitCount(line, ':');
    Field(Split(line, ':'), 1)
  }

  /** The name of a well-formed `category:name` line is its second part. */
  lemma RosterNameOfEntry(category: string, name: string)
    requires ':' !in category && ':' !in name
    ensures RosterName(category + ":" + name) == Some(name)
  {
    SplitAfterPrefix(category, name, ':');
    SplitNoSeparator(name, ':');
    assert category + ":" + name == category + [':'] + name;
  }

  // ---------------------------------------------------------------- sprites

  /** `classList.add(token)`: appends the token unless it is already there. */
  function AddClass(classes: seq<string>, token: string): (r: seq<string>)
    ensures token in r
    ensures forall x :: x in r <==> x in classes || x == token
    ensures token in classes ==> r == classes
    ensures |r| <= |classes| + 1
  {
    if token in classes then classes else classes + [token]
  }

  /** A class list never holds the same token twice. */
  ghost predicate NoDuplicates(classes: seq<string>)
  {
    forall i, j :: 0 <= i < j < |classes| ==> classes[i] != classes[j]
  }

  /** Adding a class keeps a class list free of duplicates, and doing it twice is doing it once. */
  lemma AddClassKeepsList(classes: seq<string>, token: string)
    requires NoDuplicates(classes)
    ensures NoDuplicates(AddClass(classes, token))
    ensures AddClass(AddClass(classes, token), token) == AddClass(classes, token)
  {
  }

  /** An `<img>` element of the roster view. */
  datatype Image = Image(id: string, src: string, classes: seq<string>, clickable: bool)

  /** The element id of a creature's sprite. */
  function SpriteId(name: string): (id: string)
    ensures |id| == |name| + 8 && id[..8] == "pokemon-" && id[8..] == name
  {
    "pokemon-" + name
  }

  /** The URL of a creature's sprite. */
  function SpriteUrl(name: string): (url: string)
    ensures StripEndpoint(url) == Some("sprites/" + name + ".png")
  {
    var path := "sprites/" + name + ".png";
    assert (ENDPOINT + path)[|ENDPOINT|..] == path;
    ENDPOINT + path
  }

  /** Whether a (possibly missing) name is one of the starters; `undefined` never is. */
  predicate IsStarter(name: Option<string>)
  {
    name.Some? && name.value in STARTERS
  }

  /** The image appended for one roster line (one iteration of appendSprites). */
  function SpriteFor(line: string): (img: Image)
    ensures "sprite" in img.classes
    ensures img.clickable <==> "found" in img.classes
  {
    var name := RosterName(line);
    var classes := if IsStarter(name) then AddClass([], "found") else [];
    Image(SpriteId(Str(name)), SpriteUrl(Str(name)), AddClass(classes, "sprite"), IsStarter(name))
  }

  /** Exactly the starters get class `found` and the click handler; every image gets class `sprite`, last. */
  lemma SpriteForStarters(line: string)
    ensures SpriteFor(line).clickable <==> IsStarter(RosterName(line))
    ensures SpriteFor(line).classes == if IsStarter(RosterName(line)) then ["found", "sprite"] else ["sprite"]
  {
  }

  /** Different names give different sprite ids and different sprite URLs. */
  lemma SpriteIdUrlInjective(a: string, b: string)
    requires a != b
    ensures SpriteId(a) != SpriteId(b)
    ensures SpriteUrl(a) != SpriteUrl(b)
  {
    var pa, pb := "sprites/" + a + ".png", "sprites/" + b + ".png";
    assert pa[8..8 + |a|] == a && pb[8..8 + |b|] == b;
    assert StripEndpoint(SpriteUrl(a)) == Some(pa) && StripEndpoint(SpriteUrl(b)) == Some(pb);
  }

  // ---------------------------------------------------------------- ids

  /**
   * `id.split("-")[1]`: the name onCardClick reads back from an element id.
   * It exists exactly when the id holds a dash, and holds no dash itself.
   */
  function DecodeId(id: string): (name: Option<string>)
    ensures name.Some? <==> '-' in id
    ensures name.Some? ==> '-' !in name.value
  {
    SplitCount(id, '-');
    Field(Split(id, '-'), 1)
  }

  /** Decoding a sprite id gives the part of the name before its first dash. */
  lemma DecodeSpriteId(name: string)
    ensures DecodeId(SpriteId(name)) == Some(Split(name, '-')[0])
  {
    assert SpriteId(name) == "pokemon" + ['-'] + name;
    SplitAfterPrefix("pokemon", name, '-');
  }

  /** Decoding a sprite id gives back the name exactly when the name has no dash. */
  lemma DecodeSpriteIdRoundTrip(name: string)
    ensures DecodeId(SpriteId(name)) == Some(name) <==> '-' !in name
  {
    DecodeSpriteId(name);
    if '-' !in name {
      SplitNoSeparator(name, '-');
    } else {
      assert '-' !in Split(name, '-')[0];
    }
  }

  lemma StarterHasNoDash(name: string)
    requires name in STARTERS
    ensures '-' !in name
  {
  }

  /** A clickable sprite's id decodes back to the name on its roster line. */
  lemma ClickableSpriteDecodes(line: string)
    requires SpriteFor(line).clickable
    ensures DecodeId(SpriteFor(line).id) == RosterName(line)
  {
    SpriteForStarters(line);
    var name := RosterName(line).value;
    StarterHasNoDash(name);
    DecodeSpriteIdRoundTrip(name);
    assert SpriteFor(line).id == SpriteId(name);
  }

  // ---------------------------------------------------------------- name

  /** `name.substring(0, 1).toUpperCase() + name.substring(1)`. */
  function Capitalize(name: string): (r: string)
    ensures |r| == |name|
    ensures |r| > 0 ==> r[0] == AsciiUpper(name[0])
    ensures forall k :: 1 <= k < |r| ==> r[k] == name[k]
  {
    if name == [] then [] else [AsciiUpper(name[0])] + name[1..]
  }

  /** The display name never starts with a lower-case letter, so capitalizing twice changes nothing more. */
  lemma CapitalizeIdempotent(name: string)
    ensures Capitalize(Capitalize(name)) == Capitalize(name)
    ensures |name| > 0 ==> !IsLower(Capitalize(name)[0])
  {
  }

  // ---------------------------------------------------------------- selectors

  /** The card a player value designates: `'p1'` is the player, anything else the opponent. */
  function Scope(player: string): (s: string)
    ensures s == "#p1" <==> player == "p1"
    ensures s == "#p2" <==> player != "p1"
  {
    if player == "p1" then "#p1" else "#p2"
  }

  /** The selector setName writes the display name into. */
  function NameSelector(player: string): (q: string)
    ensures player == "p1" ==> q == "#p1" + " .name"
    ensures player != "p1" ==> q == "#p2" + " .name"
  {
    Scope(player) + " .name"
  }

  /** The selectors setMoves queries the move slots with. */
  datatype MoveQueries = MoveQueries(moves: string, images: string, dps: string, buttons: string)

  function MoveSelectors(player: string): (q: MoveQueries)
    ensures player == "p1" ==> q == MoveQueries("#p1" + " .move", "#p1" + " .moves img", "#p1" + " .dp", "#p1" + " button")
    ensures player != "p1" ==> q == MoveQueries("#p2" + " .move", "#p2" + " .moves img", "#p2" + " .dp", "#p2" + " button")
  {
    var s := Scope(player);
    MoveQueries(s + " .move", s + " .moves img", s + " .dp", s + " button")
  }

  /** The selectors setOthers queries the rest of a card with. */
  datatype CardQueries = CardQueries(pokepic: string, weakness: string, description: string, hp: string, typeIcon: string)

  function CardSelectors(player: string): (q: CardQueries)
    ensures player == "p1" ==>
              q == CardQueries("#p1" + " .pokepic", "#p1" + "  .weakness", "#p1" + " .info", "#p1" + " .hp", "#p1" + " .type")
    ensures player != "p1" ==>
              q == CardQueries("#p2" + " .pokepic", "#p2" + "  .weakness", "#p2" + " .info", "#p2" + " .hp", "#p2" + " .type")
  {
    var s := Scope(player);
    CardQueries(s + " .pokepic", s + "  .weakness", s + " .info", s + " .hp", s + " .type")
  }

  /** Two player values that pick different cards never share a selector. */
  lemma SelectorsSeparateCards(p: string, q: string)
    requires (p == "p1") != (q == "p1")
    ensures NameSelector(p) != NameSelector(q)
    ensures var m, n := MoveSelectors(p), MoveSelectors(q);
            m.moves != n.moves && m.images != n.images && m.dps != n.dps && m.buttons != n.buttons
    ensures var m, n := CardSelectors(p), CardSelectors(q);
            m.pokepic != n.pokepic && m.weakness != n.weakness && m.description != n.description
            && m.hp != n.hp && m.typeIcon != n.typeIcon
  {
    ScopesDiffer(p, q, " .name");
    ScopesDiffer(p, q, " .move");
    ScopesDiffer(p, q, " .moves img");
    ScopesDiffer(p, q, " .dp");
    ScopesDiffer(p, q, " button");
    ScopesDiffer(p, q, " .pokepic");
    ScopesDiffer(p, q, "  .weakness");
    ScopesDiffer(p, q, " .info");
    ScopesDiffer(p, q, " .hp");
    ScopesDiffer(p, q, " .type");
  }

  /** The same query under the two cards' scopes gives two different selector strings. */
  lemma ScopesDiffer(p: string, q: string, query: string)
    requires (p == "p1") != (q == "p1")
    ensures Scope(p) + query != Scope(q) + query
  {
    assert (Scope(p) + query)[2] == Scope(p)[2];
    assert (Scope(q) + query)[2] == Scope(q)[2];
  }

  // ---------------------------------------------------------------- card

  /** A move of a card; `dp` is absent for moves without damage points. */
  datatype Move = Move(name: string, moveType: string, dp: Option<int>)

  datatype CardImages = CardImages(photo: string, typeIcon: string, weaknessIcon: string)

  /** The card data the service returns for one creature. */
  datatype Card = Card(name: string, hp: int, description: string, images: CardImages, moves: seq<Move>)

  /** What setOthers writes into a card: three image sources, the description and the HP text. */
  datatype CardFace = CardFace(photoSrc: string, weaknessSrc: string, typeIconSrc: string, description: string, hpText: string)

  /** The service path of a URL built on ENDPOINT; `None` for any other URL. */
  function StripEndpoint(url: string): (path: Option<string>)
    ensures path.Some? ==> ENDPOINT + path.value == url
  {
    if |url| >= |ENDPOINT| && url[..|ENDPOINT|] == ENDPOINT then Some(url[|ENDPOINT|..]) else None
  }

  /** `hp + 'HP'`: the one text that reads back as `hp` followed by `HP`. */
  function HpText(hp: int): (text: string)
    ensures forall t :: ParseWithUnit(t, "HP") == Some(hp) <==> t == text
  {
    WithUnitUnique(hp, "HP");
    WithUnit(hp, "HP")
  }

  function CardFaceOf(card: Card): (f: CardFace)
    ensures StripEndpoint(f.photoSrc) == Some(card.images.photo)
    ensures StripEndpoint(f.weaknessSrc) == Some(card.images.weaknessIcon)
    ensures StripEndpoint(f.typeIconSrc) == Some(card.images.typeIcon)
    ensures f.description == card.description
    ensures forall t :: ParseWithUnit(t, "HP") == Some(card.hp) <==> t == f.hpText
  {
    var f := CardFace(ENDPOINT + card.images.photo, ENDPOINT + card.images.weaknessIcon,
                      ENDPOINT + card.images.typeIcon, card.description, HpText(card.hp));
    assert (ENDPOINT + card.images.photo)[|ENDPOINT|..] == card.images.photo;
    assert (ENDPOINT + card.images.weaknessIcon)[|ENDPOINT|..] == card.images.weaknessIcon;
    assert (ENDPOINT + card.images.typeIcon)[|ENDPOINT|..] == card.images.typeIcon;
    f
  }

  /** The URL of the icon for a move type. */
  function IconUrl(moveType: string): (url: string)
    ensures StripEndpoint(url) == Some("icons/" + moveType + ".jpg")
  {
    var path := "icons/" + moveType + ".jpg";
    assert (ENDPOINT + path)[|ENDPOINT|..] == path;
    ENDPOINT + path
  }

  /** The text nodes a move appends to its DP slot: `dp + ' DP'` if it has a `dp` key, none otherwise. */
  function DpNodes(m: Move): (nodes: seq<string>)
    ensures m.dp.None? ==> nodes == []
    ensures m.dp.Some? ==> |nodes| == 1 && forall t :: ParseWithUnit(t, " DP") == m.dp <==> t == nodes[0]
  {
    if m.dp.Some? then WithUnitUnique(m.dp.value, " DP"); [WithUnit(m.dp.value, " DP")] else []
  }

  // ---------------------------------------------------------------- status

  /** A fetch response, reduced to what the page reads of it. */
  datatype Response = Response(ok: bool)

  /** The error statusCheck throws on a failed response. */
  datatype FetchError = BadStatus

  /** statusCheck: the response itself when it is ok, an error otherwise. */
  function StatusCheck(res: Response): (r: Result<Response, FetchError>)
    ensures r.Ok? <==> res.ok
    ensures r.Ok? ==> r.value == res
  {
    if !res.ok then Err(BadStatus) else Ok(res)
  }
}
