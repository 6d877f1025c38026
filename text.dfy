/** String helpers shared by the model: decimal printing (Python `str(n)`),
    leftmost substring search, `str.replace(old, new, 1)`, `str.split(sep)`
    on a one-character separator, `str.endswith` and character removal. */
module Text {
  import opened Wrappers

  predicate IsDigit(c: char) { '0' <= c <= '9' }

  predicate AllDigits(s: string) { forall i :: 0 <= i < |s| ==> IsDigit(s[i]) }

  function DigitChar(d: nat): (c: char)
    requires d < 10
    ensures IsDigit(c)
  {
    ('0' as int + d) as char
  }

  function DigitValue(c: char): (d: nat)
    requires IsDigit(c)
    ensures d < 10
  {
    c as int - '0' as int
  }

  /** Python's `str(n)` for a non-negative integer: most significant digit first. */
  function Decimal(n: nat): (s: string)
    ensures 0 < |s| && AllDigits(s)
  {
    if n < 10 then [DigitChar(n)] else Decimal(n / 10) + [DigitChar(n % 10)]
  }

  /** The number a run of decimal digits denotes. */
  function DigitsValue(s: string): nat
    requires AllDigits(s)
  {
    if s == [] then 0 else DigitsValue(s[..|s| - 1]) * 10 + DigitValue(s[|s| - 1])
  }

  lemma {:induction false} DecimalRoundTrip(n: nat)
    ensures DigitsValue(Decimal(n)) == n
  {
    if n >= 10 {
      DecimalRoundTrip(n / 10);
      var s := Decimal(n);
      assert s[..|s| - 1] == Decimal(n / 10);
    }
  }

  /** `str(n)` starts with `0` only for `n == 0`, which prints as the one digit. */
  lemma {:induction false} DecimalLead(n: nat)
    ensures Decimal(n)[0] == '0' ==> n == 0 && Decimal(n) == "0"
  {
    if n >= 10 {
      DecimalLead(n / 10);
      assert Decimal(n)[0] == Decimal(n / 10)[0];
    }
  }

  /** Distinct numbers have distinct decimal texts, so numbered keys never collide. */
  lemma DecimalInjective(m: nat, n: nat)
    requires Decimal(m) == Decimal(n)
    ensures m == n
  {
    DecimalRoundTrip(m);
    DecimalRoundTrip(n);
  }

  /** `p` occurs in `s` starting at index `j`. */
  predicate OccursAt(s: string, p: string, j: nat)
  {
    j + |p| <= |s| && s[j..j + |p|] == p
  }

  /** Leftmost index at which `p` occurs in `s` (Python `s.find(p)`, or `None` for -1). */
  function Find(s: string, p: string): (r: Option<nat>)
    ensures r.Some? ==> OccursAt(s, p, r.value)
    ensures r.Some? ==> forall j :: 0 <= j < r.value ==> !OccursAt(s, p, j)
    ensures r.None? ==> forall j :: 0 <= j ==> !OccursAt(s, p, j)
  {
    if |s| < |p| then None
    else if s[..|p|] == p then Some(0)
    else
      assert !OccursAt(s, p, 0) by { assert s[0..|p|] == s[..|p|]; }
      OccursAtTail(s, p);
      match Find(s[1..], p)
      case None => None
      case Some(i) => Some(i + 1)
  }

  lemma OccursAtTail(s: string, p: string)
    requires s != []
    ensures forall j: nat :: 1 <= j ==> (OccursAt(s, p, j) <==> OccursAt(s[1..], p, j - 1))
  {
    forall j: nat | 1 <= j
      ensures OccursAt(s, p, j) <==> OccursAt(s[1..], p, j - 1)
    {
      if j + |p| <= |s| {
        assert s[j..j + |p|] == s[1..][j - 1..j - 1 + |p|];
      }
    }
  }

  /** Python's `p in s` for strings. */
  predicate Contains(s: string, p: string) { Find(s, p).Some? }

  /** Python's `s.replace(p, r, 1)`: only the leftmost occurrence is rewritten. */
  function ReplaceFirst(s: string, p: string, r: string): (t: string)
    ensures Find(s, p).None? ==> t == s
    ensures Find(s, p).Some? ==>
      var i := Find(s, p).value;
      t == s[..i] + r + s[i + |p|..]
  {
    match Find(s, p)
    case None => s
    case Some(i) => s[..i] + r + s[i + |p|..]
  }

  /** Python's `s.endswith(suffix)`. */
  predicate EndsWith(s: string, suffix: string)
  {
    |suffix| <= |s| && s[|s| - |suffix|..] == suffix
  }

  /** Python's `s.replace(c, '')` for a single character `c`. */
  function RemoveChar(s: string, c: char): (t: string)
    ensures multiset(t) == multiset(s)[c := 0]
    ensures |s| == 1 ==> t == (if s[0] == c then [] else s)
    ensures c !in t
    ensures |t| <= |s|
  {
    if s == [] then []
    else
      assert s == [s[0]] + s[1..];
      if s[0] == c then RemoveChar(s[1..], c)
      else [s[0]] + RemoveChar(s[1..], c)
  }

  lemma {:induction false} RemoveCharAppend(a: string, b: string, c: char)
    ensures RemoveChar(a + b, c) == RemoveChar(a, c) + RemoveChar(b, c)
  {
    if a == [] {
      assert a + b == b;
    } else {
      assert (a + b)[0] == a[0];
      assert (a + b)[1..] == a[1..] + b;
      RemoveCharAppend(a[1..], b, c);
      if a[0] != c {
        assert [a[0]] + (RemoveChar(a[1..], c) + RemoveChar(b, c))
            == ([a[0]] + RemoveChar(a[1..], c)) + RemoveChar(b, c);
      }
    }
  }

  lemma {:induction false} RemoveCharAbsent(s: string, c: char)
    requires c !in s
    ensures RemoveChar(s, c) == s
  {
    if s != [] {
      RemoveCharAbsent(s[1..], c);
    }
  }

  /** Removing one character never brings back another. */
  lemma {:induction false} RemoveCharKeepsAbsent(s: string, absent: char, c: char)
    requires absent !in s
    ensures absent !in RemoveChar(s, c)
  {
    if s != [] {
      RemoveCharKeepsAbsent(s[1..], absent, c);
    }
  }

  /** Python's `s.split(sep)` for a one-character separator: always at least one part. */
  function Split(s: string, sep: char): (parts: seq<string>)
    ensures 0 < |parts|
    ensures forall i :: 0 <= i < |parts| ==> sep !in parts[i]
  {
    if s == [] then [""]
    else
      var rest := Split(s[1..], sep);
      if s[0] == sep then [""] + rest
      else [[s[0]] + rest[0]] + rest[1..]
  }

  lemma {:induction false} SplitNoSeparator(s: string, sep: char)
    requires sep !in s
    ensures Split(s, sep) == [s]
  {
    if s != [] {
      SplitNoSeparator(s[1..], sep);
      assert [s[0]] + s[1..] == s;
    }
  }

  /** Splitting distributes over a separator placed between two strings. */
  lemma {:induction false} SplitAround(a: string, sep: char, b: string)
    ensures Split(a + [sep] + b, sep) == Split(a, sep) + Split(b, sep)
  {
    if a == [] {
      assert a + [sep] + b == [sep] + b;
      assert ([sep] + b)[1..] == b;
    } else {
      assert (a + [sep] + b)[1..] == a[1..] + [sep] + b;
      SplitAround(a[1..], sep, b);
    }
  }
}
