/**
 * The string operations the list query relies on: SQL `lower()` folding
 * (ASCII letters only), substring containment for `ILIKE '%c%'`, and the
 * code-point lexicographic order used to sort by `to_account`.
 */
module Strings {

  function LowerChar(c: char): char
  {
    if 'A' <= c <= 'Z' then (c as int + 32) as char else c
  }

  function Lower(s: string): (r: string)
    ensures |r| == |s|
    ensures forall i :: 0 <= i < |s| ==> r[i] == LowerChar(s[i])
  {
    seq(|s|, i requires 0 <= i < |s| => LowerChar(s[i]))
  }

  /** `needle` appears in `hay` starting at position `i`. */
  predicate OccursAt(hay: string, needle: string, i: int)
  {
    0 <= i && i + |needle| <= |hay| && hay[i..i + |needle|] == needle
  }

  /** Substring search: `needle` is a prefix of `hay` or of one of its suffixes. */
  predicate Contains(hay: string, needle: string)
    decreases |hay|
  {
    (|needle| <= |hay| && hay[..|needle|] == needle)
    || (hay != [] && Contains(hay[1..], needle))
  }

  lemma {:induction false} ContainsIffOccurs(hay: string, needle: string)
    ensures Contains(hay, needle) <==> exists i :: OccursAt(hay, needle, i)
    decreases |hay|
  {
    if |needle| <= |hay| && hay[..|needle|] == needle {
      assert OccursAt(hay, needle, 0);
    } else if hay == [] {
    } else {
      ContainsIffOccurs(hay[1..], needle);
      if Contains(hay[1..], needle) {
        var i :| OccursAt(hay[1..], needle, i);
        assert hay[1..][i..i + |needle|] == hay[i + 1..i + 1 + |needle|];
        assert OccursAt(hay, needle, i + 1);
      }
      if exists i :: OccursAt(hay, needle, i) {
        var i :| OccursAt(hay, needle, i);
        assert i != 0;
        assert hay[1..][i - 1..i - 1 + |needle|] == hay[i..i + |needle|];
        assert OccursAt(hay[1..], needle, i - 1);
      }
    }
  }

  /** `ILIKE '%needle%'` without wildcards inside `needle`. */
  predicate ContainsIgnoringCase(hay: string, needle: string)
  {
    Contains(Lower(hay), Lower(needle))
  }

  /** Case-insensitive containment is an occurrence of the folded needle in the folded text. */
  lemma ContainsIgnoringCaseIffOccurs(hay: string, needle: string)
    ensures ContainsIgnoringCase(hay, needle) <==> exists i :: OccursAt(Lower(hay), Lower(needle), i)
  {
    ContainsIffOccurs(Lower(hay), Lower(needle));
  }

  /** Lexicographic order on code points: `a` sorts at or before `b`. */
  predicate LexLe(a: string, b: string)
    decreases |a|
  {
    if a == [] then true
    else if b == [] then false
    else if a[0] < b[0] then true
    else if b[0] < a[0] then false
    else LexLe(a[1..], b[1..])
  }

  lemma {:induction false} LexLeTotal(a: string, b: string)
    ensures LexLe(a, b) || LexLe(b, a)
    decreases |a|
  {
    if a != [] && b != [] && a[0] == b[0] {
      LexLeTotal(a[1..], b[1..]);
    }
  }

  lemma {:induction false} LexLeTransitive(a: string, b: string, c: string)
    requires LexLe(a, b) && LexLe(b, c)
    ensures LexLe(a, c)
    decreases |a|
  {
    if a != [] && b != [] && c != [] && a[0] == b[0] && b[0] == c[0] {
      LexLeTransitive(a[1..], b[1..], c[1..]);
    }
  }

  lemma {:induction false} LexLeAntisymmetric(a: string, b: string)
    requires LexLe(a, b) && LexLe(b, a)
    ensures a == b
    decreases |a|
  {
    if a != [] && b != [] {
      LexLeAntisymmetric(a[1..], b[1..]);
      assert a == [a[0]] + a[1..] && b == [b[0]] + b[1..];
    }
  }
}
