/** Literal string operations the repository relies on: substring search
    (`String.prototype.includes`), first-occurrence replacement
    (`String.prototype.replace` with a string pattern), global literal
    replacement (`replace` with a `g` regular expression that has no
    metacharacters), and number-to-decimal conversion. */
module Text {
  import opened Wrappers

  /** `p` is a prefix of `s`. */
  predicate StartsWith(s: string, p: string)
  {
    |p| <= |s| && s[..|p|] == p
  }

  /** `p` occurs in `s` at position `i`. */
  predicate OccursAt(s: string, p: string, i: int)
  {
    0 <= i && i + |p| <= |s| && s[i..i + |p|] == p
  }

  /** `s.includes(p)`. */
  predicate Contains(s: string, p: string)
    decreases |s|
  {
    StartsWith(s, p) || (|s| > 0 && Contains(s[1..], p))
  }

  /** Position of the first occurrence of `p` in `s`, if any (`indexOf`). */
  function FindFirst(s: string, p: string): (r: Option<nat>)
    decreases |s|
    ensures r.Some? ==> OccursAt(s, p, r.value)
    ensures r.Some? ==> forall j :: 0 <= j < r.value ==> !OccursAt(s, p, j)
    ensures r.None? ==> forall j :: 0 <= j ==> !OccursAt(s, p, j)
  {
    if StartsWith(s, p) then Some(0)
    else if |s| == 0 then None
    else
      match FindFirst(s[1..], p)
      case None =>
        assert forall j :: 1 <= j ==> OccursAt(s, p, j) ==> OccursAt(s[1..], p, j - 1);
        None
      case Some(k) =>
        assert forall j :: 1 <= j ==> OccursAt(s, p, j) ==> OccursAt(s[1..], p, j - 1);
        assert s[k + 1..k + 1 + |p|] == s[1..][k..k + |p|];
        Some(k + 1)
  }

  /** `Contains` is the same as having an occurrence somewhere. */
  lemma {:induction false} ContainsIff(s: string, p: string)
    decreases |s|
    ensures Contains(s, p) <==> FindFirst(s, p).Some?
  {
    if !StartsWith(s, p) && |s| > 0 {
      ContainsIff(s[1..], p);
    }
  }

  /** `s.replace(p, rep)` with a string pattern: only the first occurrence is
      rewritten; without an occurrence the text is returned unchanged. */
  function ReplaceFirst(s: string, p: string, rep: string): (r: string)
    ensures FindFirst(s, p).None? ==> r == s
    ensures FindFirst(s, p).Some? ==>
      var k := FindFirst(s, p).value;
      r == s[..k] + rep + s[k + |p|..]
  {
    match FindFirst(s, p)
    case None => s
    case Some(k) => s[..k] + rep + s[k + |p|..]
  }

  /** Occurrences after the first one are not rewritten: they survive,
      shifted by the change in length. */
  lemma ReplaceFirstKeepsLater(s: string, p: string, rep: string, j: int)
    requires FindFirst(s, p).Some? && OccursAt(s, p, j)
    requires j >= FindFirst(s, p).value + |p|
    ensures OccursAt(ReplaceFirst(s, p, rep), p, j - |p| + |rep|)
  {
    var k := FindFirst(s, p).value;
    var r := ReplaceFirst(s, p, rep);
    var at := j - |p| + |rep|;
    var front := s[..k] + rep;
    assert r == front + s[k + |p|..];
    assert |front| == k + |rep|;
    var window := r[at..at + |p|];
    forall i | 0 <= i < |p|
      ensures window[i] == s[j..j + |p|][i]
    {
      assert window[i] == r[at + i] == s[k + |p|..][at + i - |front|];
    }
    assert window == s[j..j + |p|];
  }

  /** `s.replace(new RegExp(p, 'g'), rep)` for a non-empty pattern without
      regular-expression metacharacters: a left-to-right scan replacing every
      non-overlapping occurrence. */
  function ReplaceAll(s: string, p: string, rep: string): (r: string)
    requires |p| > 0
    decreases |s|
    ensures !Contains(s, p) ==> r == s
  {
    if |s| < |p| then s
    else if StartsWith(s, p) then rep + ReplaceAll(s[|p|..], p, rep)
    else [s[0]] + ReplaceAll(s[1..], p, rep)
  }

  /** The scan rewrites an occurrence that no earlier occurrence overlaps:
      the text before it is kept, the occurrence becomes `rep`, and the scan
      goes on after it. */
  lemma {:induction false} ReplaceAllAt(a: string, p: string, b: string, rep: string)
    requires |p| > 0
    requires forall j :: 0 <= j < |a| ==> !OccursAt(a + p + b, p, j)
    decreases |a|
    ensures ReplaceAll(a + p + b, p, rep) == a + rep + ReplaceAll(b, p, rep)
  {
    var s := a + p + b;
    if a == [] {
      assert s == p + b && s[..|p|] == p && s[|p|..] == b;
    } else {
      assert !OccursAt(s, p, 0);
      ReplaceAllSkips(s, p, rep);
      assert s[0] == a[0] && s[1..] == a[1..] + p + b;
      NoOccurrenceShifts(a, p, b);
      ReplaceAllAt(a[1..], p, b, rep);
      assert [a[0]] + (a[1..] + rep + ReplaceAll(b, p, rep)) == a + rep + ReplaceAll(b, p, rep);
    }
  }

  /** Without an occurrence at the front, the scan keeps the first character. */
  lemma ReplaceAllSkips(s: string, p: string, rep: string)
    requires |p| > 0 && |p| <= |s| && !OccursAt(s, p, 0)
    ensures ReplaceAll(s, p, rep) == [s[0]] + ReplaceAll(s[1..], p, rep)
  {
  }

  /** The hypothesis of `ReplaceAllAt`, one character further on. */
  lemma NoOccurrenceShifts(a: string, p: string, b: string)
    requires a != []
    requires forall j :: 0 <= j < |a| ==> !OccursAt(a + p + b, p, j)
    ensures forall j :: 0 <= j < |a[1..]| ==> !OccursAt(a[1..] + p + b, p, j)
  {
    var s := a + p + b;
    assert s[1..] == a[1..] + p + b;
    forall j | 0 <= j < |a[1..]|
      ensures !OccursAt(a[1..] + p + b, p, j)
    {
      assert !OccursAt(s, p, j + 1);
      SliceOfTail(s, j, |p|);
    }
  }

  /** A window of the tail is the window one position further on. */
  lemma SliceOfTail(s: string, j: nat, n: nat)
    requires j + n < |s|
    ensures s[1..][j..j + n] == s[j + 1..j + 1 + n]
  {
    var w := s[1..][j..j + n];
    forall i | 0 <= i < n
      ensures w[i] == s[j + 1..j + 1 + n][i]
    {
      assert w[i] == s[j + 1 + i];
    }
  }

  /** No character of `s` is in `cs`. */
  predicate NoneOf(s: string, cs: set<char>)
  {
    forall i :: 0 <= i < |s| ==> s[i] !in cs
  }

  /** Replacing every occurrence by text free of `cs` keeps a text free of `cs`. */
  lemma {:induction false} ReplaceAllKeepsNoneOf(s: string, p: string, rep: string, cs: set<char>)
    requires |p| > 0
    requires NoneOf(s, cs) && NoneOf(rep, cs)
    decreases |s|
    ensures NoneOf(ReplaceAll(s, p, rep), cs)
  {
    if |s| < |p| {
    } else if StartsWith(s, p) {
      ReplaceAllKeepsNoneOf(s[|p|..], p, rep, cs);
    } else {
      ReplaceAllKeepsNoneOf(s[1..], p, rep, cs);
    }
  }

  /** Decimal digits of a non-negative number, as JavaScript's `String(n)`. */
  function NatToDecimal(n: nat): (r: string)
    ensures |r| > 0
    ensures forall i :: 0 <= i < |r| ==> '0' <= r[i] <= '9'
    ensures |r| > 1 ==> r[0] != '0'
    decreases n
  {
    if n < 10 then [Digit(n)] else NatToDecimal(n / 10) + [Digit(n % 10)]
  }

  /** The digit character for `d < 10`. */
  function Digit(d: nat): (c: char)
    requires d < 10
    ensures '0' <= c <= '9' && c as int - '0' as int == d
  {
    ('0' as int + d) as char
  }

  /** Value of a string of decimal digits (the inverse of `NatToDecimal`). */
  function DecimalValue(s: string): nat
    requires forall i :: 0 <= i < |s| ==> '0' <= s[i] <= '9'
  {
    if s == [] then 0
    else DecimalValue(s[..|s| - 1]) * 10 + (s[|s| - 1] as int - '0' as int)
  }

  lemma {:induction false} DecimalRoundTrip(n: nat)
    decreases n
    ensures DecimalValue(NatToDecimal(n)) == n
  {
    var r := NatToDecimal(n);
    if n >= 10 {
      DecimalRoundTrip(n / 10);
      assert r[..|r| - 1] == NatToDecimal(n / 10);
    }
  }
}
