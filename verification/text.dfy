/** Case folding and substring search, as `str::to_lowercase` and
    `str::contains` are used by the search boxes. Folding is ASCII only. */
module Text {

  function LowerChar(c: char): char
  {
    if 'A' <= c <= 'Z' then (c as int + 32) as char else c
  }

  /** `to_lowercase`, restricted to ASCII letters: length preserving. */
  function Lower(s: string): (r: string)
    ensures |r| == |s|
    ensures forall i :: 0 <= i < |s| ==> r[i] == LowerChar(s[i])
  {
    seq(|s|, i requires 0 <= i < |s| => LowerChar(s[i]))
  }

  predicate IsPrefix(needle: string, hay: string)
  {
    |needle| <= |hay| && hay[..|needle|] == needle
  }

  /** `hay.contains(needle)`: `needle` occurs in `hay` as a contiguous block. */
  predicate Contains(hay: string, needle: string)
    decreases |hay|
  {
    IsPrefix(needle, hay) || (|hay| > 0 && Contains(hay[1..], needle))
  }

  /** `Contains` agrees with the occurrence-at-an-offset reading. */
  lemma {:induction false} ContainsAt(hay: string, needle: string)
    ensures Contains(hay, needle) <==>
      exists k :: 0 <= k && k + |needle| <= |hay| && IsPrefix(needle, hay[k..])
    decreases |hay|
  {
    if IsPrefix(needle, hay) {
      assert hay[0..] == hay;
    } else if |hay| > 0 {
      ContainsAt(hay[1..], needle);
      if Contains(hay[1..], needle) {
        var k :| 0 <= k && k + |needle| <= |hay[1..]| && IsPrefix(needle, hay[1..][k..]);
        assert hay[1..][k..] == hay[k + 1..];
      }
      if exists k :: 0 <= k && k + |needle| <= |hay| && IsPrefix(needle, hay[k..]) {
        var k :| 0 <= k && k + |needle| <= |hay| && IsPrefix(needle, hay[k..]);
        assert k != 0 by { assert hay[0..] == hay; }
        assert hay[1..][k - 1..] == hay[k..];
      }
    }
  }

  /** Every text contains the empty search string. */
  lemma ContainsEmpty(hay: string)
    ensures Contains(hay, "")
  {
  }
}
