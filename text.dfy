/**
 * The two string operations the search filter uses: `toLowerCase`, restricted
 * to ASCII letters, and `String.prototype.includes`.
 */
module Text {

  predicate IsUpper(c: char)
  {
    'A' <= c <= 'Z'
  }

  function LowerChar(c: char): char
  {
    if IsUpper(c) then (c as int + 32) as char else c
  }

  /**
   * `s.toLowerCase()` on ASCII: same length, no upper-case letter left, and every
   * character either kept or moved from its upper-case to its lower-case form.
   */
  function Lower(s: string): (r: string)
    ensures |r| == |s|
    ensures forall i :: 0 <= i < |r| ==> !IsUpper(r[i])
    ensures forall i :: 0 <= i < |r| ==> r[i] == s[i] || (IsUpper(s[i]) && r[i] as int == s[i] as int + 32)
  {
    seq(|s|, i requires 0 <= i < |s| => LowerChar(s[i]))
  }

  /** Lower-casing twice is lower-casing once. */
  lemma LowerIdempotent(s: string)
    ensures Lower(Lower(s)) == Lower(s)
  {
  }

  /** Lower-casing commutes with taking a slice. */
  lemma LowerSlice(s: string, i: nat, j: nat)
    requires i <= j <= |s|
    ensures Lower(s)[i..j] == Lower(s[i..j])
  {
  }

  /**
   * `s.includes(part)`: `part` is a prefix of `s` or of one of its suffixes.
   * The empty string is included in every string.
   */
  predicate Includes(s: string, part: string)
    decreases |s|
  {
    part <= s || (s != [] && Includes(s[1..], part))
  }

  /** `part` occurs in `s` starting at position `i`. */
  ghost predicate OccursAt(s: string, part: string, i: int)
  {
    0 <= i && i + |part| <= |s| && s[i..i + |part|] == part
  }

  /** The reference definition of "is a substring of". */
  ghost predicate IsSubstring(part: string, s: string)
  {
    exists i :: OccursAt(s, part, i)
  }

  /** Includes is exactly the substring relation. */
  lemma IncludesIsSubstring(s: string, part: string)
    ensures Includes(s, part) <==> IsSubstring(part, s)
  {
    if Includes(s, part) {
      IncludesOccurs(s, part);
    }
    if IsSubstring(part, s) {
      var i :| OccursAt(s, part, i);
      OccursIncludes(s, part, i);
    }
  }

  lemma {:induction false} IncludesOccurs(s: string, part: string)
    requires Includes(s, part)
    ensures exists i :: OccursAt(s, part, i)
    decreases |s|
  {
    if part <= s {
      assert OccursAt(s, part, 0);
    } else {
      IncludesOccurs(s[1..], part);
      var i :| OccursAt(s[1..], part, i);
      assert s[1..][i..i + |part|] == s[i + 1..i + 1 + |part|];
      assert OccursAt(s, part, i + 1);
    }
  }

  lemma {:induction false} OccursIncludes(s: string, part: string, i: int)
    requires OccursAt(s, part, i)
    ensures Includes(s, part)
    decreases i
  {
    if i == 0 {
      assert part <= s;
    } else {
      assert s[1..][i - 1..i - 1 + |part|] == s[i..i + |part|];
      OccursIncludes(s[1..], part, i - 1);
    }
  }

  /** A substring of a substring is a substring. */
  lemma SubstringTransitive(a: string, b: string, c: string)
    requires IsSubstring(a, b) && IsSubstring(b, c)
    ensures IsSubstring(a, c)
  {
    var i :| OccursAt(b, a, i);
    var j :| OccursAt(c, b, j);
    forall k | 0 <= k < |a| ensures c[j + i + k] == a[k] {
      assert c[j..j + |b|][i + k] == b[i + k];
    }
    assert c[j + i..j + i + |a|] == a;
    assert OccursAt(c, a, j + i);
  }

  /** Lower-casing keeps every occurrence. */
  lemma LowerKeepsSubstring(part: string, s: string)
    requires IsSubstring(part, s)
    ensures IsSubstring(Lower(part), Lower(s))
  {
    var i :| OccursAt(s, part, i);
    LowerSlice(s, i, i + |part|);
    assert OccursAt(Lower(s), Lower(part), i);
  }
}
