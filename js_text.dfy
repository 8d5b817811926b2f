/**
 * The JavaScript string built-ins that pokedex.js relies on:
 * `String.prototype.split` with a one-character separator and upper-casing
 * of a single character. `Join` is not called by pokedex.js; it is the
 * inverse of `Split` that the lemmas use.
 */
module JsText {

  /** Number of occurrences of `c` in `s`. */
  function Count(s: string, c: char): (n: nat)
    ensures n <= |s|
    ensures n == 0 <==> c !in s
  {
    if s == [] then 0 else (if s[0] == c then 1 else 0) + Count(s[1..], c)
  }

  /**
   * `s.split(c)`: the pieces of `s` between occurrences of `c`, in order.
   * Like JavaScript, the empty string splits into one empty piece.
   */
  function Split(s: string, c: char): (r: seq<string>)
    ensures |r| >= 1
    ensures forall k :: 0 <= k < |r| ==> c !in r[k]
  {
    if s == [] then [[]]
    else
      var rest := Split(s[1..], c);
      if s[0] == c then [[]] + rest
      else [[s[0]] + rest[0]] + rest[1..]
  }

  /** `pieces.join(c)`. */
  function Join(pieces: seq<string>, c: char): string
  {
    if pieces == [] then []
    else if |pieces| == 1 then pieces[0]
    else pieces[0] + [c] + Join(pieces[1..], c)
  }

  /** Prepending to the first piece prepends to the joined string. */
  lemma JoinPrependFirst(x: string, pieces: seq<string>, c: char)
    requires |pieces| >= 1
    ensures Join([x + pieces[0]] + pieces[1..], c) == x + Join(pieces, c)
  {
  }

  /** Joining the pieces of a split with the same separator gives back the text. */
  lemma {:induction false} JoinSplit(s: string, c: char)
    ensures Join(Split(s, c), c) == s
  {
    if s != [] {
      var rest := Split(s[1..], c);
      JoinSplit(s[1..], c);
      if s[0] == c {
        assert ([[]] + rest)[1..] == rest;
      } else {
        JoinPrependFirst([s[0]], rest, c);
      }
    }
  }

  /** A split yields one piece more than there are separators. */
  lemma {:induction false} SplitCount(s: string, c: char)
    ensures |Split(s, c)| == Count(s, c) + 1
  {
    if s != [] {
      SplitCount(s[1..], c);
    }
  }

  /** A text without the separator splits into itself alone. */
  lemma {:induction false} SplitNoSeparator(s: string, c: char)
    requires c !in s
    ensures Split(s, c) == [s]
  {
    if s != [] {
      SplitNoSeparator(s[1..], c);
      assert [s[0]] + s[1..] == s;
    }
  }

  /** The text before the first separator is the first piece. */
  lemma {:induction false} SplitAfterPrefix(a: string, t: string, c: char)
    requires c !in a
    ensures Split(a + [c] + t, c) == [a] + Split(t, c)
  {
    if a == [] {
      assert a + [c] + t == [c] + t;
      assert ([c] + t)[1..] == t;
    } else {
      var s := a + [c] + t;
      assert s[0] == a[0] && s[1..] == a[1..] + [c] + t;
      SplitAfterPrefix(a[1..], t, c);
      assert [a[0]] + a[1..] == a;
    }
  }

  /** Splitting a join of separator-free pieces gives back the pieces. */
  lemma {:induction false} SplitJoin(pieces: seq<string>, c: char)
    requires |pieces| >= 1
    requires forall k :: 0 <= k < |pieces| ==> c !in pieces[k]
    ensures Split(Join(pieces, c), c) == pieces
  {
    if |pieces| == 1 {
      SplitNoSeparator(pieces[0], c);
    } else {
      SplitJoin(pieces[1..], c);
      SplitAfterPrefix(pieces[0], Join(pieces[1..], c), c);
      assert [pieces[0]] + pieces[1..] == pieces;
    }
  }

  predicate IsLower(ch: char) { 'a' <= ch <= 'z' }

  /** `toUpperCase` on one character, for the ASCII letters. */
  function AsciiUpper(ch: char): (u: char)
    ensures !IsLower(u)
    ensures IsLower(ch) ==> u as int == ch as int - 32
    ensures !IsLower(ch) ==> u == ch
  {
    if IsLower(ch) then (ch as int - 32) as char else ch
  }
}
