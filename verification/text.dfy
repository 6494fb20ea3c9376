/** Strings as `seq<char>`: ASCII lower-casing (the model of Python's
    `str.lower`) and substring containment (Python's `needle in hay`). */
module Text {

  predicate IsUpper(c: char) { 'A' <= c <= 'Z' }

  predicate IsLower(c: char) { 'a' <= c <= 'z' }

  predicate IsAsciiLetter(c: char) { IsUpper(c) || IsLower(c) }

  /** Lower-cases one ASCII letter and leaves every other character alone. */
  function LowerChar(c: char): (r: char)
    ensures IsUpper(c) ==> IsLower(r) && r as int == c as int + 32
    ensures !IsUpper(c) ==> r == c
    ensures IsLower(r) ==> IsAsciiLetter(c)
  {
    if IsUpper(c) then (c as int + 32) as char else c
  }

  function Lower(s: string): (r: string)
    ensures |r| == |s|
    ensures forall i :: 0 <= i < |s| ==> r[i] == LowerChar(s[i])
  {
    seq(|s|, i requires 0 <= i < |s| => LowerChar(s[i]))
  }

  /** Lower-casing distributes over concatenation. */
  lemma LowerAppend(a: string, b: string)
    ensures Lower(a + b) == Lower(a) + Lower(b)
  {
  }

  /** Lower-casing twice is lower-casing once. */
  lemma LowerIdempotent(s: string)
    ensures Lower(Lower(s)) == Lower(s)
  {
  }

  predicate IsPrefix(p: string, s: string) {
    |p| <= |s| && s[..|p|] == p
  }

  /** `needle` occurs in `hay` at position `i`. */
  predicate OccursAt(needle: string, hay: string, i: int) {
    0 <= i && i + |needle| <= |hay| && hay[i..i + |needle|] == needle
  }

  /** Python's `needle in hay` on strings, scanning start positions left to right. */
  predicate Contains(needle: string, hay: string)
    decreases |hay|
  {
    IsPrefix(needle, hay) || (|hay| > 0 && Contains(needle, hay[1..]))
  }

  /** The scan finds the needle exactly when it occurs at some position. */
  lemma {:induction false} ContainsIff(needle: string, hay: string)
    ensures Contains(needle, hay) <==> exists i :: OccursAt(needle, hay, i)
    decreases |hay|
  {
    if |hay| > 0 {
      ContainsIff(needle, hay[1..]);
      if IsPrefix(needle, hay) {
        assert OccursAt(needle, hay, 0);
      }
      if Contains(needle, hay) && !IsPrefix(needle, hay) {
        var i :| OccursAt(needle, hay[1..], i);
        assert hay[1..][i..i + |needle|] == hay[i + 1..i + 1 + |needle|];
        assert OccursAt(needle, hay, i + 1);
      }
      if exists i :: OccursAt(needle, hay, i) {
        var i :| OccursAt(needle, hay, i);
        if i > 0 {
          assert hay[1..][i - 1..i - 1 + |needle|] == hay[i..i + |needle|];
          assert OccursAt(needle, hay[1..], i - 1);
        } else {
          assert IsPrefix(needle, hay);
        }
      }
    } else {
      if exists i :: OccursAt(needle, hay, i) {
        var i :| OccursAt(needle, hay, i);
        assert |needle| == 0;
        assert IsPrefix(needle, hay);
      } else {
        assert !OccursAt(needle, hay, 0);
      }
    }
  }

  /** Every character of a contained needle is a character of the haystack. */
  lemma ContainsChars(needle: string, hay: string)
    requires Contains(needle, hay)
    ensures forall k :: 0 <= k < |needle| ==> needle[k] in hay
  {
    ContainsIff(needle, hay);
    var i :| OccursAt(needle, hay, i);
    forall k | 0 <= k < |needle| ensures needle[k] in hay {
      assert hay[i..i + |needle|][k] == hay[i + k];
    }
  }
}
