/**
 * String helpers used by the lister: ASCII lower-casing, substring search
 * (`str::contains`) and joining with a separator (`join`).
 */
module Text {

  /** An upper-case ASCII letter. */
  predicate IsUpper(c: char) {
    'A' <= c <= 'Z'
  }

  /** Lower-cases one ASCII letter; every other character is left alone. */
  function LowerChar(c: char): (d: char)
    ensures !IsUpper(d)
    ensures IsUpper(c) ==> d as int == c as int + 32
    ensures !IsUpper(c) ==> d == c
  {
    if IsUpper(c) then (c as int + 32) as char else c
  }

  /** Lower-cases a string character by character (`to_lowercase`, ASCII only). */
  function LowerStr(s: string): (r: string)
    ensures |r| == |s|
  {
    if s == [] then [] else [LowerChar(s[0])] + LowerStr(s[1..])
  }

  lemma {:induction false} LowerStrAt(s: string, i: nat)
    requires i < |s|
    ensures LowerStr(s)[i] == LowerChar(s[i])
  {
    if i > 0 {
      LowerStrAt(s[1..], i - 1);
    }
  }

  /** Lower-casing leaves no upper-case letter and is idempotent. */
  lemma {:induction false} LowerStrIdempotent(s: string)
    ensures forall i :: 0 <= i < |s| ==> !IsUpper(LowerStr(s)[i])
    ensures LowerStr(LowerStr(s)) == LowerStr(s)
  {
    if s != [] {
      LowerStrIdempotent(s[1..]);
      assert LowerStr(s)[1..] == LowerStr(s[1..]);
    }
  }

  /** `c` and `d` are the same character up to the case of an ASCII letter. */
  predicate SameIgnoringCase(c: char, d: char) {
    c == d
    || (IsUpper(c) && d as int == c as int + 32)
    || (IsUpper(d) && c as int == d as int + 32)
  }

  /** `a` and `b` spell the same text in possibly different letter case. */
  predicate CaseVariants(a: string, b: string) {
    |a| == |b| && forall i :: 0 <= i < |a| ==> SameIgnoringCase(a[i], b[i])
  }

  /** Two strings lower-case to the same text exactly when they are case variants. */
  lemma CaseVariantsIff(a: string, b: string)
    ensures LowerStr(a) == LowerStr(b) <==> CaseVariants(a, b)
  {
    if |a| == |b| {
      forall i | 0 <= i < |a|
        ensures LowerStr(a)[i] == LowerChar(a[i]) && LowerStr(b)[i] == LowerChar(b[i])
      {
        LowerStrAt(a, i);
        LowerStrAt(b, i);
      }
      if CaseVariants(a, b) {
        assert forall i :: 0 <= i < |a| ==> LowerStr(a)[i] == LowerStr(b)[i];
      }
    }
  }

  /** `t` is a prefix of `s`. */
  predicate IsPrefix(t: string, s: string) {
    |t| <= |s| && s[..|t|] == t
  }

  /** `s` contains `t` as a contiguous substring; the empty string is contained everywhere. */
  predicate Contains(s: string, t: string)
    ensures Contains(s, t) ==> |t| <= |s|
    decreases |s|
  {
    IsPrefix(t, s) || (|s| > 0 && Contains(s[1..], t))
  }

  /** `t` occurs in `s` starting at offset `i`. */
  predicate OccursAt(s: string, t: string, i: int) {
    0 <= i && i + |t| <= |s| && s[i..i + |t|] == t
  }

  /** The recursive search agrees with "there is an offset where `t` occurs". */
  lemma {:induction false} ContainsIff(s: string, t: string)
    ensures Contains(s, t) <==> exists i :: OccursAt(s, t, i)
    decreases |s|
  {
    if IsPrefix(t, s) {
      assert OccursAt(s, t, 0);
    } else if |s| == 0 {
      assert t != [];
    } else {
      ContainsIff(s[1..], t);
      if exists i :: OccursAt(s[1..], t, i) {
        var i :| OccursAt(s[1..], t, i);
        assert s[1..][i..i + |t|] == s[i + 1..i + 1 + |t|];
        assert OccursAt(s, t, i + 1);
      }
      if exists i :: OccursAt(s, t, i) {
        var i :| OccursAt(s, t, i);
        assert i != 0;
        assert s[1..][i - 1..i - 1 + |t|] == s[i..i + |t|];
        assert OccursAt(s[1..], t, i - 1);
      }
    }
  }

  /** Every string contains the empty string. */
  lemma ContainsEmpty(s: string)
    ensures Contains(s, [])
  {
  }

  /** Joins `parts` with `sep` between consecutive parts (`[..].join(sep)`). */
  function Join(parts: seq<string>, sep: string): (r: string)
    ensures parts == [] ==> r == []
    ensures parts != [] ==> IsPrefix(parts[0], r)
  {
    if |parts| == 0 then []
    else if |parts| == 1 then parts[0]
    else parts[0] + sep + Join(parts[1..], sep)
  }

  /** Total length of the parts. */
  function SumLen(parts: seq<string>): nat
  {
    if parts == [] then 0 else |parts[0]| + SumLen(parts[1..])
  }

  /** Where the `k`-th part starts inside the joined string. */
  function Offset(parts: seq<string>, sep: string, k: nat): nat
    requires k <= |parts|
  {
    if k == 0 then 0 else |parts[0]| + |sep| + Offset(parts[1..], sep, k - 1)
  }

  /** The joined string holds every part and one separator between each two. */
  lemma {:induction false} JoinLength(parts: seq<string>, sep: string)
    requires parts != []
    ensures |Join(parts, sep)| == SumLen(parts) + (|parts| - 1) * |sep|
  {
    if |parts| > 1 {
      JoinLength(parts[1..], sep);
    }
  }

  /**
   * Segment law: part `k` sits at `Offset(parts, sep, k)` of the joined string,
   * and, unless it is the last part, is followed by exactly `sep`.
   */
  lemma {:induction false} JoinSegment(parts: seq<string>, sep: string, k: nat)
    requires k < |parts|
    ensures Offset(parts, sep, k) + |parts[k]| <= |Join(parts, sep)|
    ensures Join(parts, sep)[Offset(parts, sep, k)..Offset(parts, sep, k) + |parts[k]|] == parts[k]
    ensures k + 1 < |parts| ==>
      Offset(parts, sep, k) + |parts[k]| + |sep| <= |Join(parts, sep)|
      && Join(parts, sep)[Offset(parts, sep, k) + |parts[k]|..Offset(parts, sep, k) + |parts[k]| + |sep|] == sep
  {
    var j := Join(parts, sep);
    if |parts| == 1 {
      assert j == parts[0];
    } else if k == 0 {
      assert j == parts[0] + sep + Join(parts[1..], sep);
      assert j[..|parts[0]|] == parts[0];
      assert j[|parts[0]|..|parts[0]| + |sep|] == sep;
    } else {
      var rest := Join(parts[1..], sep);
      var pre := |parts[0]| + |sep|;
      assert j == parts[0] + sep + rest;
      JoinSegment(parts[1..], sep, k - 1);
      var o := Offset(parts[1..], sep, k - 1);
      assert Offset(parts, sep, k) == pre + o;
      assert parts[1..][k - 1] == parts[k];
      assert |j| == pre + |rest|;
      assert j[pre..] == rest;
      assert j[pre + o..pre + o + |parts[k]|] == j[pre..][o..o + |parts[k]|];
      if k + 1 < |parts| {
        assert j[pre + o + |parts[k]|..pre + o + |parts[k]| + |sep|]
            == j[pre..][o + |parts[k]|..o + |parts[k]| + |sep|];
      }
    }
  }

  /** With no empty part, the joined string is empty exactly when there are no parts. */
  lemma JoinEmptyIff(parts: seq<string>, sep: string)
    requires forall k :: 0 <= k < |parts| ==> parts[k] != []
    ensures Join(parts, sep) == [] <==> parts == []
  {
  }
}
