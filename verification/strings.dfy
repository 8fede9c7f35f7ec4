/** Lower-casing and substring search, as the webview filter uses them. */
module Strings {

  /** Lower-cases one character. Only the ASCII letters A-Z are mapped. */
  function LowerChar(ch: char): char {
    if 'A' <= ch <= 'Z' then (ch as int + 32) as char else ch
  }

  /**
   * Lower-cases every character of `s`, keeping its length: each ASCII
   * capital becomes its small letter, every other character stays, and no
   * ASCII capital is left.
   */
  function Lower(s: string): (r: string)
    ensures |r| == |s|
    ensures forall i :: 0 <= i < |s| && 'A' <= s[i] <= 'Z' ==> r[i] as int == s[i] as int + 32
    ensures forall i :: 0 <= i < |s| && !('A' <= s[i] <= 'Z') ==> r[i] == s[i]
    ensures forall i :: 0 <= i < |r| ==> !('A' <= r[i] <= 'Z')
  {
    seq(|s|, i requires 0 <= i < |s| => LowerChar(s[i]))
  }

  /** `needle` sits in `hay` starting at index `i`. */
  ghost predicate OccursAt(needle: string, hay: string, i: int) {
    0 <= i && i + |needle| <= |hay| && hay[i..i + |needle|] == needle
  }

  /** `needle` is a contiguous substring of `hay` (the empty string is one of every string). */
  ghost predicate OccursIn(needle: string, hay: string) {
    exists i :: OccursAt(needle, hay, i)
  }

  /** An occurrence in `hay` is either at its start or an occurrence in its tail. */
  lemma OccursInTail(needle: string, hay: string)
    requires |hay| > 0
    ensures OccursIn(needle, hay) <==> OccursAt(needle, hay, 0) || OccursIn(needle, hay[1..])
  {
    if OccursIn(needle, hay) && !OccursAt(needle, hay, 0) {
      var i :| OccursAt(needle, hay, i);
      assert hay[1..][i - 1..i - 1 + |needle|] == hay[i..i + |needle|];
      assert OccursAt(needle, hay[1..], i - 1);
    }
    if OccursIn(needle, hay[1..]) {
      var i :| OccursAt(needle, hay[1..], i);
      assert hay[1..][i..i + |needle|] == hay[i + 1..i + 1 + |needle|];
      assert OccursAt(needle, hay, i + 1);
    }
  }

  /**
   * String.prototype.includes: scans `hay` left to right for `needle`.
   * Agrees with the occurrence definition on every input.
   */
  function Includes(hay: string, needle: string): (r: bool)
    ensures r <==> OccursIn(needle, hay)
    decreases |hay|
  {
    if |needle| > |hay| then
      false
    else if hay[..|needle|] == needle then
      assert OccursAt(needle, hay, 0);
      true
    else
      OccursInTail(needle, hay);
      Includes(hay[1..], needle)
  }

  /** The empty search text occurs in every string. */
  lemma EmptyOccursEverywhere(hay: string)
    ensures OccursIn("", hay)
  {
    assert OccursAt("", hay, 0);
  }

  /** Lower-casing twice is lower-casing once. */
  lemma LowerIdempotent(s: string)
    ensures Lower(Lower(s)) == Lower(s)
  {
  }

  /** Lower-casing maps an occurrence to an occurrence at the same index. */
  lemma LowerKeepsOccurrence(needle: string, hay: string)
    requires OccursIn(needle, hay)
    ensures OccursIn(Lower(needle), Lower(hay))
  {
    var i :| OccursAt(needle, hay, i);
    assert Lower(hay)[i..i + |needle|] == Lower(needle) by {
      forall k | 0 <= k < |needle|
        ensures Lower(hay)[i..i + |needle|][k] == Lower(needle)[k]
      {
        assert hay[i..i + |needle|][k] == needle[k];
      }
    }
    assert OccursAt(Lower(needle), Lower(hay), i);
  }

  /** Being a substring is transitive. */
  lemma OccursTransitive(a: string, b: string, c: string)
    requires OccursIn(a, b) && OccursIn(b, c)
    ensures OccursIn(a, c)
  {
    var i :| OccursAt(a, b, i);
    var j :| OccursAt(b, c, j);
    assert c[j + i..j + i + |a|] == a by {
      forall k | 0 <= k < |a|
        ensures c[j + i..j + i + |a|][k] == a[k]
      {
        assert b[i..i + |a|][k] == a[k];
        assert c[j..j + |b|][i + k] == b[i + k];
      }
    }
    assert OccursAt(a, c, j + i);
  }

  /** A string in which the needle's first character never appears does not contain it. */
  lemma AbsentFirstCharacter(needle: string, hay: string)
    requires |needle| > 0
    requires forall k :: 0 <= k < |hay| ==> hay[k] != needle[0]
    ensures !OccursIn(needle, hay)
  {
    forall i
      ensures !OccursAt(needle, hay, i)
    {
      if 0 <= i && i + |needle| <= |hay| {
        assert hay[i..i + |needle|][0] == hay[i];
      }
    }
  }
}
