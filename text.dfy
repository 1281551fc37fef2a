/** The two string operations the filter relies on: lower-casing (`toLowerCase`) and substring
    search (`includes`). Lower-casing is modelled on ASCII letters only. */
module Text {

  /** ASCII lower-casing of one character: 'A'..'Z' map to 'a'..'z', every other character is kept. */
  function LowerChar(c: char): char
  {
    if 'A' <= c <= 'Z' then (c as int - 'A' as int + 'a' as int) as char else c
  }

  function Lower(s: string): string
  {
    seq(|s|, i requires 0 <= i < |s| => LowerChar(s[i]))
  }

  predicate IsUpper(c: char)
  {
    'A' <= c <= 'Z'
  }

  /** A lower-cased string has no ASCII capital left, keeps its length, and lower-casing it again
      changes nothing. */
  lemma LowerIsLower(s: string)
    ensures |Lower(s)| == |s|
    ensures forall i :: 0 <= i < |s| ==> !IsUpper(Lower(s)[i])
    ensures Lower(Lower(s)) == Lower(s)
  {
  }

  /** `needle` occurs in `hay` starting at position `i`. */
  ghost predicate OccursAt(hay: string, needle: string, i: nat)
  {
    i + |needle| <= |hay| && hay[i..i + |needle|] == needle
  }

  /** The specification of substring search: some position of `hay` starts a copy of `needle`. */
  ghost predicate Contains(hay: string, needle: string)
  {
    exists i: nat :: OccursAt(hay, needle, i)
  }

  /** When `needle` does not start at the head of `hay`, it occurs in `hay` exactly when it occurs
      in the tail. */
  lemma ContainsTail(hay: string, needle: string)
    requires hay != [] && !OccursAt(hay, needle, 0)
    ensures Contains(hay, needle) <==> Contains(hay[1..], needle)
  {
    if Contains(hay, needle) {
      var i: nat :| OccursAt(hay, needle, i);
      assert i != 0;
      assert hay[1..][i - 1..i - 1 + |needle|] == hay[i..i + |needle|];
      assert OccursAt(hay[1..], needle, i - 1);
    }
    if Contains(hay[1..], needle) {
      var j: nat :| OccursAt(hay[1..], needle, j);
      assert hay[1..][j..j + |needle|] == hay[j + 1..j + 1 + |needle|];
      assert OccursAt(hay, needle, j + 1);
    }
  }

  /** String.prototype.includes as a left-to-right scan: try each start position in turn. */
  function Includes(hay: string, needle: string): (b: bool)
    ensures b <==> Contains(hay, needle)
    decreases |hay|
  {
    if |needle| > |hay| then
      false
    else if hay[..|needle|] == needle then
      assert OccursAt(hay, needle, 0);
      true
    else
      ContainsTail(hay, needle);
      Includes(hay[1..], needle)
  }

  /** Every string contains the empty string, so an empty search text matches everything. */
  lemma ContainsEmpty(hay: string)
    ensures Contains(hay, "")
  {
    assert OccursAt(hay, "", 0);
  }

  /** Substring containment is transitive. */
  lemma ContainsTransitive(a: string, b: string, c: string)
    requires Contains(a, b) && Contains(b, c)
    ensures Contains(a, c)
  {
    var i: nat :| OccursAt(a, b, i);
    var j: nat :| OccursAt(b, c, j);
    forall k | 0 <= k < |c|
      ensures a[i + j..i + j + |c|][k] == c[k]
    {
      assert c[k] == b[j + k] == a[i + j + k];
    }
    assert OccursAt(a, c, i + j);
  }
}
