/**
 * The few JavaScript string operations the renderer relies on:
 * `String.prototype.trim`, `String(n)` for integers, `padStart(2, '0')`
 * and `String.prototype.includes`.
 */
module JsText {

  /** WhiteSpace and LineTerminator code points of ECMAScript, the ones `trim` strips. */
  predicate IsTrimmable(c: char) {
    || c == '\t' || c == '\n' || c == '\U{000B}' || c == '\U{000C}' || c == '\r' || c == ' '
    || c == '\U{00A0}' || c == '\U{1680}' || ('\U{2000}' <= c <= '\U{200A}')
    || c == '\U{2028}' || c == '\U{2029}' || c == '\U{202F}' || c == '\U{205F}'
    || c == '\U{3000}' || c == '\U{FEFF}'
  }

  predicate AllTrimmable(s: string) {
    forall k :: 0 <= k < |s| ==> IsTrimmable(s[k])
  }

  /** `s` with its leading trimmable characters removed. */
  function TrimStart(s: string): (r: string)
    ensures |r| <= |s| && r == s[|s| - |r|..]
    ensures r != [] ==> !IsTrimmable(r[0])
  {
    if s != [] && IsTrimmable(s[0]) then TrimStart(s[1..]) else s
  }

  /** `s` with its trailing trimmable characters removed. */
  function TrimEnd(s: string): (r: string)
    ensures |r| <= |s| && r == s[..|r|]
    ensures r != [] ==> !IsTrimmable(r[|r| - 1])
  {
    if s != [] && IsTrimmable(s[|s| - 1]) then TrimEnd(s[..|s| - 1]) else s
  }

  /** What `TrimStart` cuts is trimmable. */
  lemma {:induction false} TrimStartCuts(s: string)
    ensures AllTrimmable(s[..|s| - |TrimStart(s)|])
  {
    if s != [] && IsTrimmable(s[0]) {
      TrimStartCuts(s[1..]);
      var r := TrimStart(s[1..]);
      assert s[1..][|s| - 1 - |r|..] == s[|s| - |r|..];
      assert s[..|s| - |r|] == [s[0]] + s[1..][..|s| - 1 - |r|];
    }
  }

  /** What `TrimEnd` cuts is trimmable. */
  lemma {:induction false} TrimEndCuts(s: string)
    ensures AllTrimmable(s[|TrimEnd(s)|..])
  {
    if s != [] && IsTrimmable(s[|s| - 1]) {
      TrimEndCuts(s[..|s| - 1]);
      var r := TrimEnd(s[..|s| - 1]);
      assert s[..|s| - 1][..|r|] == s[..|r|];
      assert s[|r|..] == s[..|s| - 1][|r|..] + [s[|s| - 1]];
    }
  }

  /** `String.prototype.trim`: the middle of `s` once trimmable characters are cut from both ends. */
  function Trim(s: string): (r: string)
    ensures |r| <= |s|
    ensures r != [] ==> !IsTrimmable(r[0]) && !IsTrimmable(r[|r| - 1])
  {
    TrimEnd(TrimStart(s))
  }

  /** `s` is a trimmable prefix of length `i`, then `r`, then a trimmable suffix. */
  predicate TrimmedAt(s: string, r: string, i: nat) {
    i + |r| <= |s| && s[i..i + |r|] == r && AllTrimmable(s[..i]) && AllTrimmable(s[i + |r|..])
  }

  /** What `Trim` cuts away is trimmable: `s` is a trimmable prefix, `Trim(s)` and a
      trimmable suffix. */
  lemma TrimSplits(s: string)
    ensures exists i: nat :: TrimmedAt(s, Trim(s), i)
  {
    var t := TrimStart(s);
    TrimStartCuts(s);
    TrimEndCuts(t);
    SlicesSplit(s, t, TrimEnd(t));
    var i: nat := |s| - |t|;
    assert TrimmedAt(s, Trim(s), i);
  }

  lemma SlicesSplit(s: string, t: string, r: string)
    requires |t| <= |s| && t == s[|s| - |t|..] && AllTrimmable(s[..|s| - |t|])
    requires |r| <= |t| && r == t[..|r|] && AllTrimmable(t[|r|..])
    ensures TrimmedAt(s, r, |s| - |t|)
  {
    var i := |s| - |t|;
    assert s[i..i + |r|] == r;
    assert s[i + |r|..] == t[|r|..];
  }

  /** Trimming is determined by what it keeps: any split of `s` into a trimmable
      prefix, a middle without trimmable ends and a trimmable suffix has `Trim(s)`
      as its middle. */
  lemma {:induction false} TrimUnique(a: string, m: string, b: string)
    requires AllTrimmable(a) && AllTrimmable(b)
    requires m != [] ==> !IsTrimmable(m[0]) && !IsTrimmable(m[|m| - 1])
    ensures Trim(a + m + b) == m
  {
    var s := a + m + b;
    if m == [] {
      assert AllTrimmable(s);
      TrimOfAllTrimmable(s);
    } else {
      assert s == a + (m + b);
      TrimStartDrops(a, m + b);
      TrimEndDrops(m, b);
      assert Trim(s) == TrimEnd(m + b);
    }
  }

  lemma {:induction false} TrimStartDrops(a: string, t: string)
    requires AllTrimmable(a)
    requires t != [] && !IsTrimmable(t[0])
    ensures TrimStart(a + t) == t
  {
    if a != [] {
      assert (a + t)[1..] == a[1..] + t;
      TrimStartDrops(a[1..], t);
    } else {
      assert a + t == t;
    }
  }

  lemma {:induction false} TrimEndDrops(t: string, b: string)
    requires AllTrimmable(b)
    requires t != [] && !IsTrimmable(t[|t| - 1])
    ensures TrimEnd(t + b) == t
  {
    if b != [] {
      assert (t + b)[..|t + b| - 1] == t + b[..|b| - 1];
      TrimEndDrops(t, b[..|b| - 1]);
    } else {
      assert t + b == t;
    }
  }

  lemma TrimOfAllTrimmable(s: string)
    requires AllTrimmable(s)
    ensures Trim(s) == []
  {
  }

  /** A trimmed string is empty exactly when the input is all whitespace. */
  lemma TrimEmptyIff(s: string)
    ensures Trim(s) == [] <==> AllTrimmable(s)
  {
    if AllTrimmable(s) {
      TrimOfAllTrimmable(s);
    }
    if Trim(s) == [] {
      TrimEmptyAll(s);
    }
  }

  lemma TrimEmptyAll(s: string)
    requires Trim(s) == []
    ensures AllTrimmable(s)
  {
    TrimSplits(s);
    var i: nat :| TrimmedAt(s, Trim(s), i);
    forall k | 0 <= k < |s|
      ensures IsTrimmable(s[k])
    {
      if k < i {
        assert s[..i][k] == s[k];
      } else {
        assert s[i..][k - i] == s[k];
      }
    }
  }

  /** Trimming twice changes nothing more. */
  lemma TrimIdempotent(s: string)
    ensures Trim(Trim(s)) == Trim(s)
  {
    var m := Trim(s);
    assert TrimStart(m) == m;
    assert TrimEnd(m) == m;
  }

  function DigitChar(d: nat): (c: char)
    requires d < 10
    ensures '0' <= c <= '9'
  {
    "0123456789"[d]
  }

  function DigitValue(c: char): nat
    requires '0' <= c <= '9'
  {
    (c as int - '0' as int) as nat
  }

  /** `String(n)` for a non-negative integer: its decimal digits without leading zeros. */
  function NatToString(n: nat): (r: string)
    ensures |r| >= 1
    ensures forall k :: 0 <= k < |r| ==> '0' <= r[k] <= '9'
    ensures |r| > 1 ==> r[0] != '0'
  {
    if n < 10 then [DigitChar(n)] else NatToString(n / 10) + [DigitChar(n % 10)]
  }

  /** The number a string of decimal digits denotes. */
  function DecimalValue(s: string): nat
    requires forall k :: 0 <= k < |s| ==> '0' <= s[k] <= '9'
  {
    if s == [] then 0 else 10 * DecimalValue(s[..|s| - 1]) + DigitValue(s[|s| - 1])
  }

  /** Reading back the digits of `NatToString(n)` gives `n`. */
  lemma {:induction false} DecimalRoundTrip(n: nat)
    ensures DecimalValue(NatToString(n)) == n
  {
    var r := NatToString(n);
    if n < 10 {
      DigitRoundTrip(n);
    } else {
      var q, d := n / 10, n % 10;
      DecimalRoundTrip(q);
      DigitRoundTrip(d);
      assert r == NatToString(q) + [DigitChar(d)];
      assert r[..|r| - 1] == NatToString(q) && r[|r| - 1] == DigitChar(d);
      assert n == 10 * q + d;
    }
  }

  lemma DigitRoundTrip(d: nat)
    requires d < 10
    ensures DigitValue(DigitChar(d)) == d
  {
  }

  lemma NatToStringInjective(m: nat, n: nat)
    requires NatToString(m) == NatToString(n)
    ensures m == n
  {
    DecimalRoundTrip(m);
    DecimalRoundTrip(n);
  }

  /** `String(i)` for any integer: a minus sign before the digits of a negative one. */
  function IntToString(i: int): (r: string)
    ensures |r| >= 1
    ensures r[0] == '-' <==> i < 0
  {
    if i < 0 then "-" + NatToString(-i) else NatToString(i)
  }

  lemma IntToStringInjective(i: int, j: int)
    requires IntToString(i) == IntToString(j)
    ensures i == j
  {
    if i < 0 {
      assert j < 0;
      var m, n: nat := -i, -j;
      DropSign(m);
      DropSign(n);
      NatToStringInjective(m, n);
    } else {
      assert j >= 0;
      NatToStringInjective(i, j);
    }
  }

  lemma DropSign(n: nat)
    ensures ("-" + NatToString(n))[1..] == NatToString(n)
  {
  }

  /** `s.padStart(2, '0')`. */
  function PadStart2(s: string): (r: string)
    ensures |s| >= 2 ==> r == s
    ensures |s| < 2 ==> |r| == 2 && r[2 - |s|..] == s && AllZeros(r[..2 - |s|])
  {
    if |s| >= 2 then s else if |s| == 1 then "0" + s else "00"
  }

  predicate AllZeros(s: string) {
    forall k :: 0 <= k < |s| ==> s[k] == '0'
  }

  /** The two decimal digits of `n < 100`, tens first. */
  function Digits2(n: nat): (r: string)
    requires n < 100
  {
    [DigitChar(n / 10), DigitChar(n % 10)]
  }

  /** `String(n).padStart(2, '0')` for `n < 100` is exactly its two decimal digits. */
  lemma TwoDigits(n: nat)
    requires n < 100
    ensures PadStart2(NatToString(n)) == Digits2(n)
  {
    if n >= 10 {
      assert NatToString(n / 10) == [DigitChar(n / 10)];
    }
  }

  predicate StartsWith(s: string, sub: string) {
    |sub| <= |s| && s[..|sub|] == sub
  }

  /** `s.includes(sub)`. */
  predicate Contains(s: string, sub: string)
  {
    if StartsWith(s, sub) then true
    else if s == [] then false
    else Contains(s[1..], sub)
  }

  /** `sub` occurs in `s` starting at position `i`. */
  predicate OccursAt(s: string, sub: string, i: int) {
    0 <= i <= |s| - |sub| && s[i..i + |sub|] == sub
  }

  /** `includes` holds exactly when `sub` occurs at some position of `s`. */
  lemma {:induction false} ContainsIff(s: string, sub: string)
    ensures Contains(s, sub) <==> exists i :: OccursAt(s, sub, i)
  {
    if StartsWith(s, sub) {
      assert OccursAt(s, sub, 0);
    } else if s == [] {
    } else {
      ContainsIff(s[1..], sub);
      if exists i :: OccursAt(s, sub, i) {
        var i :| OccursAt(s, sub, i);
        assert i != 0;
        assert s[1..][i - 1..i - 1 + |sub|] == s[i..i + |sub|];
        assert OccursAt(s[1..], sub, i - 1);
      }
      if Contains(s[1..], sub) {
        var i :| OccursAt(s[1..], sub, i);
        assert s[1..][i..i + |sub|] == s[i + 1..i + 1 + |sub|];
        assert OccursAt(s, sub, i + 1);
      }
    }
  }
}
