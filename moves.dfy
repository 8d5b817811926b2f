/**
 * The move slots of a card: appendMoves writes each move of a card into the
 * slot with the same index (name, type icon, DP label) and then runs a loop
 * meant to hide the buttons of the unused slots.
 */
module MoveSlots {
  import opened Decimal
  import opened Pokedex

  /** Slot names after the fill loop: slot k shows move k's name while there is a move k. */
  function FilledNames(slots: seq<string>, moves: seq<Move>): (r: seq<string>)
    ensures |r| == |slots|
  {
    seq(|slots|, k requires 0 <= k < |slots| => if k < |moves| then moves[k].name else slots[k])
  }

  /** Slot icons after the fill loop. */
  function FilledIcons(slots: seq<string>, moves: seq<Move>): (r: seq<string>)
    ensures |r| == |slots|
  {
    seq(|slots|, k requires 0 <= k < |slots| => if k < |moves| then IconUrl(moves[k].moveType) else slots[k])
  }

  /** A DP element's text nodes after one move is written into it: its first node removed, the move's label appended. */
  function DpAfter(nodes: seq<string>, m: Move): (r: seq<string>)
    ensures |r| == (if |nodes| > 0 then |nodes| - 1 else 0) + |DpNodes(m)|
    ensures forall k :: 0 <= k < |nodes| - 1 ==> r[k] == nodes[k + 1]
    ensures r[|r| - |DpNodes(m)|..] == DpNodes(m)
  {
    (if |nodes| > 0 then nodes[1..] else nodes) + DpNodes(m)
  }

  /** DP elements after the fill loop. */
  function FilledDps(slots: seq<seq<string>>, moves: seq<Move>): (r: seq<seq<string>>)
    ensures |r| == |slots|
  {
    seq(|slots|, k requires 0 <= k < |slots| => if k < |moves| then DpAfter(slots[k], moves[k]) else slots[k])
  }

  /** Button class lists after the hiding loop as written: only button `used` gets `hidden`, and only if it exists. */
  function HiddenAsWritten(buttons: seq<seq<string>>, used: nat): (r: seq<seq<string>>)
    ensures |r| == |buttons|
  {
    if used < |buttons| then buttons[used := AddClass(buttons[used], "hidden")] else buttons
  }

  /** Button class lists with every unused button hidden. */
  function HiddenAllUnused(buttons: seq<seq<string>>, used: nat): (r: seq<seq<string>>)
    ensures |r| == |buttons|
  {
    seq(|buttons|, k requires 0 <= k < |buttons| => if k < used then buttons[k] else AddClass(buttons[k], "hidden"))
  }

  /** One iteration of appendMoves' first loop: move `m` written into slot `i`. */
  method WriteSlot(moveEls: array<string>, dps: array<seq<string>>, images: array<string>, i: nat, m: Move)
    requires moveEls != images
    requires i < moveEls.Length && i < dps.Length && i < images.Length
    modifies moveEls, dps, images
    ensures moveEls[..] == old(moveEls[..])[i := m.name]
    ensures images[..] == old(images[..])[i := IconUrl(m.moveType)]
    ensures dps[..] == old(dps[..])[i := DpAfter(old(dps[i]), m)]
  {
    moveEls[i] := m.name;
    images[i] := ENDPOINT + "icons/" + m.moveType + ".jpg";
    assert images[i] == IconUrl(m.moveType);
    if |dps[i]| > 0 {
      // remove the label of the card shown before
      dps[i] := dps[i][1..];
    }
    if m.dp.Some? {
      dps[i] := dps[i] + [IntToDecimal(m.dp.value) + " DP"];
    }
    assert dps[i] == DpAfter(old(dps[i]), m);
  }

  /**
   * appendMoves' first loop. With more moves than slots every slot is
   * filled and then the loop fails (`ok` is false): the source throws on
   * the missing slot element.
   */
  method FillSlots(moveEls: array<string>, moves: seq<Move>, dps: array<seq<string>>, images: array<string>)
    returns (ok: bool)
    requires moveEls != images
    requires images.Length == moveEls.Length && dps.Length == moveEls.Length
    modifies moveEls, dps, images
    ensures ok <==> |moves| <= moveEls.Length
    ensures moveEls[..] == FilledNames(old(moveEls[..]), moves)
    ensures images[..] == FilledIcons(old(images[..]), moves)
    ensures dps[..] == FilledDps(old(dps[..]), moves)
  {
    var i := 0;
    for j := 0 to |moves|
      invariant i == j <= moveEls.Length
      invariant moveEls[..] == FilledNames(old(moveEls[..]), moves[..j])
      invariant images[..] == FilledIcons(old(images[..]), moves[..j])
      invariant dps[..] == FilledDps(old(dps[..]), moves[..j])
    {
      if i == moveEls.Length {
        // MOVES_HTML_ELEMENT[i] is undefined: the assignment to its innerHTML throws
        FilledBeyondSlots(old(moveEls[..]), old(images[..]), old(dps[..]), moves, j);
        return false;
      }
      FilledStep(old(moveEls[..]), old(images[..]), old(dps[..]), moves, j);
      WriteSlot(moveEls, dps, images, i, moves[i]);
      i := i + 1;
    }
    assert moves[..|moves|] == moves;
    ok := true;
  }

  /** Filling one more move changes slot j only. */
  lemma FilledStep(names: seq<string>, icons: seq<string>, dps: seq<seq<string>>, moves: seq<Move>, j: nat)
    requires j < |moves| && j < |names| && |icons| == |names| && |dps| == |names|
    ensures FilledNames(names, moves[..j + 1]) == FilledNames(names, moves[..j])[j := moves[j].name]
    ensures FilledIcons(icons, moves[..j + 1]) == FilledIcons(icons, moves[..j])[j := IconUrl(moves[j].moveType)]
    ensures FilledDps(dps, moves[..j + 1]) == FilledDps(dps, moves[..j])[j := DpAfter(dps[j], moves[j])]
  {
  }

  /** Moves past the last slot change nothing. */
  lemma FilledBeyondSlots(names: seq<string>, icons: seq<string>, dps: seq<seq<string>>, moves: seq<Move>, j: nat)
    requires |names| <= j <= |moves| && |icons| == |names| && |dps| == |names|
    ensures FilledNames(names, moves[..j]) == FilledNames(names, moves)
    ensures FilledIcons(icons, moves[..j]) == FilledIcons(icons, moves)
    ensures FilledDps(dps, moves[..j]) == FilledDps(dps, moves)
  {
  }

  /** appendMoves' second loop, as written: it indexes the buttons with `used` on every pass. */
  method HideExtraButtons(buttons: array<seq<string>>, used: nat, slotCount: nat)
    requires buttons.Length == slotCount
    modifies buttons
    ensures buttons[..] == HiddenAsWritten(old(buttons[..]), used)
  {
    var j := used;
    while j < slotCount
      invariant buttons[..] == if j > used then HiddenAsWritten(old(buttons[..]), used) else old(buttons[..])
    {
      buttons[used] := AddClass(buttons[used], "hidden");
      j := j + 1;
    }
  }

  /**
   * appendMoves: the four slot arrays come from one card and have one
   * element per move button.
   */
  method AppendMoves(moveEls: array<string>, moves: seq<Move>, dps: array<seq<string>>,
                     buttons: array<seq<string>>, images: array<string>) returns (ok: bool)
    requires moveEls != images && dps != buttons
    requires images.Length == moveEls.Length && dps.Length == moveEls.Length && buttons.Length == moveEls.Length
    modifies moveEls, dps, buttons, images
    ensures ok <==> |moves| <= moveEls.Length
    ensures moveEls[..] == FilledNames(old(moveEls[..]), moves)
    ensures images[..] == FilledIcons(old(images[..]), moves)
    ensures dps[..] == FilledDps(old(dps[..]), moves)
    ensures buttons[..] == HiddenAsWritten(old(buttons[..]), |moves|)
  {
    ok := FillSlots(moveEls, moves, dps, images);
    if ok {
      HideExtraButtons(buttons, |moves|, moveEls.Length);
    }
  }

  /** As written, the hiding loop changes button `used` only, however many slots are unused. */
  lemma HidingLoopAsWritten(buttons: seq<seq<string>>, used: nat, k: nat)
    requires k < |buttons|
    ensures k != used ==> HiddenAsWritten(buttons, used)[k] == buttons[k]
    ensures k == used ==> "hidden" in HiddenAsWritten(buttons, used)[k]
  {
  }

  /** Two moves on a four-button card: the fourth button stays visible. */
  lemma HidingLoopMissesLastButton()
    ensures var b := [["move"], ["move"], ["move"], ["move"]];
            "hidden" !in HiddenAsWritten(b, 2)[3] && "hidden" in HiddenAllUnused(b, 2)[3]
  {
  }

  /** Hides the button of every slot from `used` on, as the documentation of appendMoves describes. */
  method HideUnusedButtons(buttons: array<seq<string>>, used: nat)
    modifies buttons
    ensures buttons[..] == HiddenAllUnused(old(buttons[..]), used)
  {
    var j := used;
    while j < buttons.Length
      invariant used <= j
      invariant forall k :: 0 <= k < buttons.Length ==>
                  buttons[k] == if used <= k < j then AddClass(old(buttons[k]), "hidden") else old(buttons[k])
    {
      buttons[j] := AddClass(buttons[j], "hidden");
      j := j + 1;
    }
  }

  /** appendMoves as its documentation describes it: the same slots filled, every unused button hidden. */
  method AppendMovesIntended(moveEls: array<string>, moves: seq<Move>, dps: array<seq<string>>,
                             buttons: array<seq<string>>, images: array<string>) returns (ok: bool)
    requires moveEls != images && dps != buttons
    requires images.Length == moveEls.Length && dps.Length == moveEls.Length && buttons.Length == moveEls.Length
    modifies moveEls, dps, buttons, images
    ensures ok <==> |moves| <= moveEls.Length
    ensures moveEls[..] == FilledNames(old(moveEls[..]), moves)
    ensures images[..] == FilledIcons(old(images[..]), moves)
    ensures dps[..] == FilledDps(old(dps[..]), moves)
    ensures buttons[..] == if ok then HiddenAllUnused(old(buttons[..]), |moves|) else old(buttons[..])
  {
    ok := FillSlots(moveEls, moves, dps, images);
    if ok {
      HideUnusedButtons(buttons, |moves|);
    }
  }

  /** With every unused button hidden, the used buttons are untouched and every other one is hidden. */
  lemma HiddenAllUnusedSpec(buttons: seq<seq<string>>, used: nat)
    ensures forall k :: 0 <= k < |buttons| && k < used ==> HiddenAllUnused(buttons, used)[k] == buttons[k]
    ensures forall k :: used <= k < |buttons| ==> "hidden" in HiddenAllUnused(buttons, used)[k]
  {
  }

  /** A DP element holding at most one text node shows exactly the move's label afterwards, and still holds at most one. */
  lemma DpAfterSingleNode(nodes: seq<string>, m: Move)
    requires |nodes| <= 1
    ensures |DpAfter(nodes, m)| <= 1
    ensures m.dp.Some? ==> DpAfter(nodes, m) == [WithUnit(m.dp.value, " DP")]
    ensures m.dp.None? ==> DpAfter(nodes, m) == []
  {
  }
}
