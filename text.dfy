/** The three Python string built-ins the channel step relies on: the
    substring test `f in s`, `s.replace(old, new)` and `str(n)` for an int. */
module Text {

  /** `f` occurs in `s` starting at index `i`. */
  predicate OccursAt(s: string, f: string, i: int) {
    0 <= i && i + |f| <= |s| && s[i..i + |f|] == f
  }

  /** Python's `f in s` on strings: a left-to-right scan for `f`. */
  function Contains(s: string, f: string): bool
    decreases |s|
  {
    if |f| > |s| then false
    else if s[..|f|] == f then true
    else Contains(s[1..], f)
  }

  /** The scan finds `f` exactly when `f` occurs somewhere in `s`. */
  lemma {:induction false} ContainsIffOccurs(s: string, f: string)
    ensures Contains(s, f) <==> exists i :: OccursAt(s, f, i)
    decreases |s|
  {
    if |f| > |s| {
    } else if s[..|f|] == f {
      assert OccursAt(s, f, 0);
    } else {
      ContainsIffOccurs(s[1..], f);
      if Contains(s[1..], f) {
        var j :| OccursAt(s[1..], f, j);
        assert s[j + 1..j + 1 + |f|] == s[1..][j..j + |f|];
        assert OccursAt(s, f, j + 1);
      } else {
        forall i | OccursAt(s, f, i) ensures false {
          assert i != 0;
          assert s[1..][i - 1..i - 1 + |f|] == s[i..i + |f|];
          assert OccursAt(s[1..], f, i - 1);
        }
      }
    }
  }

  /** Python's `s.replace(pat, rep)` with no count: every non-overlapping
      occurrence of `pat`, found left to right, is replaced by `rep`. An empty
      `pat` matches before every character and at the end. */
  function ReplaceAll(s: string, pat: string, rep: string): string
    decreases |s|
  {
    if pat == [] then Interleave(s, rep)
    else if |s| < |pat| then s
    else if s[..|pat|] == pat then rep + ReplaceAll(s[|pat|..], pat, rep)
    else [s[0]] + ReplaceAll(s[1..], pat, rep)
  }

  /** `rep` inserted before every character of `s` and once after the last. */
  function Interleave(s: string, rep: string): string
    decreases |s|
  {
    if s == [] then rep else rep + [s[0]] + Interleave(s[1..], rep)
  }

  /** Replacing an empty pattern inserts `rep` `|s| + 1` times. */
  lemma {:induction false} InterleaveLength(s: string, rep: string)
    ensures |Interleave(s, rep)| == |s| + (|s| + 1) * |rep|
    decreases |s|
  {
    if s != [] {
      InterleaveLength(s[1..], rep);
    }
  }

  /** Where everything sits after replacing an empty pattern: block `k` of
      `|rep| + 1` characters is `rep` followed by `s[k]`, and after the
      `|s|` blocks comes one more `rep`, ending the text. */
  lemma {:induction false} InterleaveAt(s: string, rep: string, k: nat)
    requires k <= |s|
    ensures var p := k * (|rep| + 1);
            var r := Interleave(s, rep);
            p + |rep| <= |r|
            && r[p..p + |rep|] == rep
            && (k < |s| ==> p + |rep| < |r| && r[p + |rep|] == s[k])
            && (k == |s| ==> p + |rep| == |r|)
    decreases |s|
  {
    var m := |rep| + 1;
    var r := Interleave(s, rep);
    if s == [] {
      assert k == 0 && r == rep;
    } else if k == 0 {
      assert r == rep + [s[0]] + Interleave(s[1..], rep);
      assert r[..|rep|] == rep;
    } else {
      InterleaveAt(s[1..], rep, k - 1);
      var t := Interleave(s[1..], rep);
      var p, q := k * m, (k - 1) * m;
      MulStep(k, m);
      assert p == m + q;
      assert r == (rep + [s[0]]) + t;
      assert |rep + [s[0]]| == m;
      assert r[p..p + |rep|] == t[q..q + |rep|];
      if k < |s| {
        assert r[p + |rep|] == t[q + |rep|];
      }
    }
  }

  lemma MulStep(k: nat, m: nat)
    requires k > 0
    ensures k * m == m + (k - 1) * m
  {
  }

  /** Replacing a pattern by itself changes nothing. */
  lemma {:induction false} ReplaceBySelf(s: string, pat: string)
    ensures ReplaceAll(s, pat, pat) == s
    decreases |s|
  {
    if pat == [] {
      InterleaveEmpty(s);
    } else if |s| < |pat| {
    } else if s[..|pat|] == pat {
      ReplaceBySelf(s[|pat|..], pat);
      assert s == s[..|pat|] + s[|pat|..];
    } else {
      ReplaceBySelf(s[1..], pat);
      assert s == [s[0]] + s[1..];
    }
  }

  lemma {:induction false} InterleaveEmpty(s: string)
    ensures Interleave(s, "") == s
    decreases |s|
  {
    if s != [] {
      InterleaveEmpty(s[1..]);
      assert s == [s[0]] + s[1..];
    }
  }

  /** A prefix in which no occurrence of `pat` starts is copied as it is. */
  lemma {:induction false} ReplaceSkip(s: string, pat: string, rep: string, i: nat)
    requires pat != [] && i <= |s|
    requires forall j :: 0 <= j < i ==> !OccursAt(s, pat, j)
    ensures ReplaceAll(s, pat, rep) == s[..i] + ReplaceAll(s[i..], pat, rep)
    decreases i
  {
    if i > 0 {
      assert !OccursAt(s, pat, 0);
      if |s| < |pat| {
        ReplaceShort(s[i..], pat, rep);
        assert s == s[..i] + s[i..];
      } else {
        ShiftNoOccurrence(s, pat, i);
        ReplaceSkip(s[1..], pat, rep, i - 1);
        assert s[1..][i - 1..] == s[i..];
        assert s[..i] == [s[0]] + s[1..][..i - 1];
      }
    }
  }

  /** A string shorter than a non-empty pattern is left as it is. */
  lemma ReplaceShort(s: string, pat: string, rep: string)
    requires pat != [] && |s| < |pat|
    ensures ReplaceAll(s, pat, rep) == s
  {
  }

  /** No occurrence starting before `i` in `s` means none starting before
      `i - 1` in `s[1..]`. */
  lemma ShiftNoOccurrence(s: string, pat: string, i: nat)
    requires 0 < i <= |s|
    requires forall j :: 0 <= j < i ==> !OccursAt(s, pat, j)
    ensures forall j :: 0 <= j < i - 1 ==> !OccursAt(s[1..], pat, j)
  {
    forall j | 0 <= j < i - 1 && OccursAt(s[1..], pat, j) ensures false {
      assert s[j + 1..j + 1 + |pat|] == s[1..][j..j + |pat|];
      assert OccursAt(s, pat, j + 1);
    }
  }

  /** The first occurrence of a non-empty pattern is replaced by `rep`; the
      text before it is kept and the scan goes on after it. */
  lemma ReplaceFirst(s: string, pat: string, rep: string, i: nat)
    requires pat != [] && OccursAt(s, pat, i)
    requires forall j :: 0 <= j < i ==> !OccursAt(s, pat, j)
    ensures ReplaceAll(s, pat, rep) == s[..i] + rep + ReplaceAll(s[i + |pat|..], pat, rep)
  {
    ReplaceSkip(s, pat, rep, i);
    var t := s[i..];
    assert t[..|pat|] == pat by {
      assert t[..|pat|] == s[i..i + |pat|];
    }
    ReplaceAtStart(t, pat, rep);
    assert t[|pat|..] == s[i + |pat|..];
    calc {
      ReplaceAll(s, pat, rep);
      s[..i] + ReplaceAll(t, pat, rep);
      s[..i] + (rep + ReplaceAll(s[i + |pat|..], pat, rep));
    }
  }

  /** An occurrence at the very start is replaced. */
  lemma ReplaceAtStart(t: string, pat: string, rep: string)
    requires pat != [] && |pat| <= |t| && t[..|pat|] == pat
    ensures ReplaceAll(t, pat, rep) == rep + ReplaceAll(t[|pat|..], pat, rep)
  {
  }

  /** A non-empty pattern that does not occur leaves the string unchanged. */
  lemma {:induction false} ReplaceAbsent(s: string, pat: string, rep: string)
    requires pat != [] && !Contains(s, pat)
    ensures ReplaceAll(s, pat, rep) == s
    decreases |s|
  {
    if |s| >= |pat| {
      ReplaceAbsent(s[1..], pat, rep);
      assert s == [s[0]] + s[1..];
    }
  }

  /** The decimal digit `d` as a character. */
  function DigitChar(d: int): (c: char)
    requires 0 <= d < 10
    ensures '0' <= c <= '9' && c as int - '0' as int == d
  {
    ('0' as int + d) as char
  }

  predicate IsDigits(s: string) {
    forall k :: 0 <= k < |s| ==> '0' <= s[k] <= '9'
  }

  /** Python's `str(n)` for a non-negative int: decimal, without leading zeros. */
  function NatToString(n: nat): (r: string)
    ensures r != [] && IsDigits(r)
    ensures |r| > 1 ==> r[0] != '0'
    decreases n
  {
    if n < 10 then [DigitChar(n)] else NatToString(n / 10) + [DigitChar(n % 10)]
  }

  /** The number a string of decimal digits denotes. */
  function DigitsValue(s: string): int
    requires IsDigits(s)
    decreases |s|
  {
    if s == [] then 0
    else 10 * DigitsValue(s[..|s| - 1]) + (s[|s| - 1] as int - '0' as int)
  }

  /** Reading the digits back gives the number. */
  lemma {:induction false} NatToStringRoundTrip(n: nat)
    ensures DigitsValue(NatToString(n)) == n
    decreases n
  {
    if n >= 10 {
      NatToStringRoundTrip(n / 10);
      var r := NatToString(n);
      assert r[..|r| - 1] == NatToString(n / 10);
    }
  }

  /** Python's `str(i)` for any int: a leading `-` for negative values. */
  function IntToString(i: int): string {
    if i < 0 then "-" + NatToString(-i) else NatToString(i)
  }

  /** `str` of an int is one line of text. */
  lemma IntToStringNoNewline(i: int)
    ensures '\n' !in IntToString(i)
  {
  }

  /** The inverse of `IntToString` on the strings it produces. */
  function ParseInt(s: string): int
    requires s != [] && (s[0] == '-' ==> IsDigits(s[1..])) && (s[0] != '-' ==> IsDigits(s))
  {
    if s[0] == '-' then -DigitsValue(s[1..]) else DigitsValue(s)
  }

  /** `str` of an int is never empty and reads back as the same int. */
  lemma IntToStringRoundTrip(i: int)
    ensures IntToString(i) != []
    ensures ParseInt(IntToString(i)) == i
  {
    if i < 0 {
      NatToStringRoundTrip(-i);
      assert IntToString(i)[1..] == NatToString(-i);
    } else {
      NatToStringRoundTrip(i);
    }
  }
}
