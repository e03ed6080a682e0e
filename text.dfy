/** The string operations the search endpoint relies on: `str.lower()` and
    the substring test `needle in haystack`. */
module Text {

  /** Lower-cases one character. Only the ASCII letters A-Z are mapped. */
  function LowerChar(c: char): (r: char)
    ensures 'A' <= c <= 'Z' ==> r as int == c as int + 32
    ensures !('A' <= c <= 'Z') ==> r == c
    ensures !('A' <= r <= 'Z')
  {
    if 'A' <= c <= 'Z' then (c as int + 32) as char else c
  }

  /** `s.lower()`, character by character. */
  function Lower(s: string): (r: string)
    ensures |r| == |s|
    ensures forall i :: 0 <= i < |s| ==> r[i] == LowerChar(s[i])
  {
    seq(|s|, i requires 0 <= i < |s| => LowerChar(s[i]))
  }

  /** Lower-casing twice is lower-casing once. */
  lemma LowerIdempotent(s: string)
    ensures Lower(Lower(s)) == Lower(s)
  {
  }

  /** `needle` occurs in `hay` starting at position `i`. */
  ghost predicate OccursAt(needle: string, hay: string, i: int)
  {
    0 <= i && i + |needle| <= |hay| && hay[i..i + |needle|] == needle
  }

  /** The meaning of `needle in hay`: `needle` occurs at some position of `hay`. */
  ghost predicate Contains(needle: string, hay: string)
  {
    exists i :: OccursAt(needle, hay, i)
  }

  /** Dropping a first character that cannot start `needle` keeps every
      occurrence, shifted by one. */
  lemma ContainsTail(needle: string, hay: string)
    requires hay != [] && !(needle <= hay)
    ensures Contains(needle, hay) <==> Contains(needle, hay[1..])
  {
    if Contains(needle, hay) {
      var i :| OccursAt(needle, hay, i);
      assert i != 0;
      assert hay[1..][i - 1..i - 1 + |needle|] == hay[i..i + |needle|];
      assert OccursAt(needle, hay[1..], i - 1);
    }
    if Contains(needle, hay[1..]) {
      var i :| OccursAt(needle, hay[1..], i);
      assert hay[1..][i..i + |needle|] == hay[i + 1..i + 1 + |needle|];
      assert OccursAt(needle, hay, i + 1);
    }
  }

  /** Python's `needle in hay` for strings, computed by trying each start
      position in turn. */
  function In(needle: string, hay: string): (r: bool)
    ensures r <==> Contains(needle, hay)
    decreases |hay|
  {
    if needle <= hay then
      assert OccursAt(needle, hay, 0) by {
        assert hay[0..|needle|] == hay[..|needle|];
      }
      true
    else if hay == [] then
      assert !Contains(needle, hay);
      false
    else
      ContainsTail(needle, hay);
      In(needle, hay[1..])
  }

  /** The empty string is a substring of every string, including `""`. */
  lemma EmptyIsInEverything(hay: string)
    ensures In("", hay)
  {
  }
}
