/**
 * String searches used by the identifier parser and the sign block:
 * the first occurrence of a character (`str::split_once`,
 * `Iterator::position`), reversal (`chars().rev()`) and, as an independent
 * reference, the last occurrence of a character.
 *
 * Strings are sequences of `char`; names and identifiers are ASCII, so a
 * character index and a byte index coincide.
 */
module Text {
  import opened Wrappers

  /** Index of the first `c` in `s`, as `s.chars().position(|x| x == c)`. */
  function IndexOf(s: string, c: char): (r: Option<nat>)
    ensures r.None? <==> c !in s
    ensures r.Some? ==> r.value < |s| && s[r.value] == c && c !in s[..r.value]
  {
    if s == [] then None
    else if s[0] == c then Some(0)
    else match IndexOf(s[1..], c)
      case None => None
      case Some(i) =>
        assert s[..i + 1] == [s[0]] + s[1..][..i];
        Some(i + 1)
  }

  /** `s` read backwards, as `s.chars().rev()`. */
  function Reverse(s: string): (r: string)
    ensures |r| == |s|
    ensures forall i :: 0 <= i < |s| ==> r[i] == s[|s| - 1 - i]
  {
    if s == [] then [] else Reverse(s[1..]) + [s[0]]
  }

  /** Index of the last `c` in `s`, searched from the end. */
  function LastIndexOf(s: string, c: char): (r: Option<nat>)
    ensures r.None? <==> c !in s
    ensures r.Some? ==> r.value < |s| && s[r.value] == c && c !in s[r.value + 1..]
  {
    if s == [] then None
    else if s[|s| - 1] == c then Some(|s| - 1)
    else
      assert s == s[..|s| - 1] + [s[|s| - 1]];
      LastIndexOf(s[..|s| - 1], c)
  }

  /**
   * `s.split_once(c)`: the text before the first `c` and the text after it,
   * or None when `s` holds no `c`.
   */
  function SplitOnce(s: string, c: char): (r: Option<(string, string)>)
    ensures r.None? <==> c !in s
    ensures r.Some? ==> s == r.value.0 + [c] + r.value.1 && c !in r.value.0
  {
    match IndexOf(s, c)
    case None => None
    case Some(i) =>
      assert s == s[..i] + [c] + s[i + 1..];
      Some((s[..i], s[i + 1..]))
  }

  /**
   * Counting from the back, as `rev().position` does, lands on the last
   * occurrence: `|s| - revIndex - 1` is the index of the last `c`.
   */
  lemma {:induction false} RevPositionIsLast(s: string, c: char)
    ensures IndexOf(Reverse(s), c).Some? <==> LastIndexOf(s, c).Some?
    ensures IndexOf(Reverse(s), c).Some? ==>
      |s| - IndexOf(Reverse(s), c).value - 1 == LastIndexOf(s, c).value
  {
    var rev := Reverse(s);
    assert c in rev <==> c in s by {
      if c in s {
        var k :| 0 <= k < |s| && s[k] == c;
        assert rev[|s| - 1 - k] == c;
      }
      if c in rev {
        var k :| 0 <= k < |rev| && rev[k] == c;
        assert s[|s| - 1 - k] == c;
      }
    }
    match IndexOf(rev, c)
    case None =>
    case Some(j) =>
      var i := |s| - j - 1;
      assert s[i] == c;
      forall k | i < k < |s|
        ensures s[k] != c
      {
        assert rev[..j][|s| - 1 - k] == s[k];
      }
      LastIndexOfAt(s, c, i);
  }

  /** The last `c` is the one with no `c` after it. */
  lemma {:induction false} LastIndexOfAt(s: string, c: char, i: nat)
    requires i < |s| && s[i] == c
    requires forall k :: i < k < |s| ==> s[k] != c
    ensures LastIndexOf(s, c) == Some(i)
  {
    if i < |s| - 1 {
      assert s[|s| - 1] != c;
      LastIndexOfAt(s[..|s| - 1], c, i);
    }
  }

  /** Splitting gives back the text it was given, with the separator. */
  lemma SplitOnceJoin(a: string, c: char, b: string)
    requires c !in a
    ensures SplitOnce(a + [c] + b, c) == Some((a, b))
  {
    var s := a + [c] + b;
    assert s[|a|] == c;
    assert s[..|a|] == a;
    assert s[|a| + 1..] == b;
  }
}
