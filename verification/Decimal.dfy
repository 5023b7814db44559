/** Decimal numbers as octets: ll2string and string2ll of util.c, which are each other's inverse. */
module Decimal {
  import opened Bytes
  import opened Wrappers

  const LLONG_MAX: int := 0x7fff_ffff_ffff_ffff
  const ULLONG_MAX: int := 0xffff_ffff_ffff_ffff
  const ZERO: u8 := 48
  const MINUS: u8 := 45

  predicate IsDigit(b: u8) { 48 <= b <= 57 }

  predicate InRange(v: int) { -LLONG_MAX - 1 <= v <= LLONG_MAX }

  function Digits(n: nat): bytes {
    if n < 10 then [48 + n] else Digits(n / 10) + [48 + n % 10]
  }

  function Print(v: int): bytes {
    if v < 0 then [MINUS] + Digits(-v) else Digits(v)
  }

  predicate AllDigits(s: bytes) {
    forall i :: 0 <= i < |s| ==> IsDigit(s[i])
  }

  /** The number that a string of digits stands for. */
  function Value(s: bytes): nat
    requires AllDigits(s)
  {
    if s == [] then 0 else Value(s[..|s| - 1]) * 10 + (s[|s| - 1] - 48) as int
  }

  /** A number without needless zeros in front. */
  predicate Canonical(s: bytes) {
    s != [] && AllDigits(s) && (|s| > 1 ==> s[0] != ZERO)
  }

  function IfInRange(v: int): Option<int> {
    if InRange(v) then Some(v) else None
  }

  /** What string2ll accepts. */
  function Parse(s: bytes): Option<int> {
    if s != [] && s[0] == MINUS then
      if Canonical(s[1..]) && s[1] != ZERO then IfInRange(0 - Value(s[1..])) else None
    else if Canonical(s) then IfInRange(Value(s))
    else None
  }

  lemma {:induction false} DigitsCanonical(n: nat)
    ensures Canonical(Digits(n)) && Value(Digits(n)) == n && (Digits(n)[0] == ZERO <==> n == 0)
  {
    var s := Digits(n);
    if n < 10 {
      assert s[..0] == [];
    } else {
      DigitsCanonical(n / 10);
      assert s[..|s| - 1] == Digits(n / 10);
    }
  }

  lemma {:induction false} CanonicalPositive(s: bytes)
    requires Canonical(s) && s[0] != ZERO
    ensures Value(s) > 0
    decreases |s|
  {
    if |s| > 1 {
      CanonicalPositive(s[..|s| - 1]);
    }
  }

  lemma {:induction false} CanonicalDigits(s: bytes)
    requires Canonical(s)
    ensures Digits(Value(s)) == s
    decreases |s|
  {
    var init, last: int := s[..|s| - 1], s[|s| - 1] as int - 48;
    if init == [] {
      assert Value(s) == last;
    } else {
      assert Canonical(init);
      CanonicalDigits(init);
      CanonicalPositive(init);
      assert Value(s) / 10 == Value(init) && Value(s) % 10 == last;
    }
  }

  /** Parsing accepts exactly the printed forms of 64-bit numbers. */
  lemma ParseIffPrinted(s: bytes, v: int)
    ensures Parse(s) == Some(v) <==> InRange(v) && s == Print(v)
  {
    if Parse(s) == Some(v) {
      if s[0] == MINUS {
        CanonicalDigits(s[1..]);
        CanonicalPositive(s[1..]);
        assert s == [MINUS] + s[1..];
      } else {
        CanonicalDigits(s);
      }
    }
    if InRange(v) && s == Print(v) {
      DigitsCanonical(if v < 0 then -v else v);
      if v < 0 {
        assert s[1..] == Digits(-v);
      } else {
        assert IsDigit(s[0]);
      }
    }
  }

  lemma PrintInjective(v: int, w: int)
    ensures Print(v) == Print(w) ==> v == w
  {
    DigitsCanonical(if v < 0 then -v else v);
    DigitsCanonical(if w < 0 then -w else w);
    if v < 0 && w < 0 {
      assert Print(v)[1..] == Digits(-v) && Print(w)[1..] == Digits(-w);
    }
    assert IsDigit(Digits(if v < 0 then -v else v)[0]) && IsDigit(Digits(if w < 0 then -w else w)[0]);
  }

  function Power10(k: nat): nat {
    if k == 0 then 1 else 10 * Power10(k - 1)
  }

  /** At most k digits below 10^k. */
  lemma {:induction false} DigitsLength(n: nat, k: nat, bound: nat)
    requires k > 0 && n < bound && bound <= Power10(k)
    ensures |Digits(n)| <= k
    decreases k
  {
    if n >= 10 {
      DigitsLength(n / 10, k - 1, Power10(k - 1));
    }
  }

  lemma PrintedLength(value: int)
    requires InRange(value)
    ensures |Print(value)| <= 20
  {
    assert Power10(9) == 1_000_000_000 && Power10(18) == 1_000_000_000 * Power10(9);
    DigitsLength(if value < 0 then -value else value, 19, LLONG_MAX + 2);
  }

  // Reading without checks ----------------------------------------------------------------------

  function LeadingDigits(s: bytes, v: nat): nat
    decreases |s|
  {
    if s != [] && IsDigit(s[0]) then LeadingDigits(s[1..], 10 * v + (s[0] as int - 48)) else v
  }

  /** The number at the front of some octets, as atoi reads it. */
  function Atoi(s: bytes): int {
    if s != [] && (s[0] == 32 || 9 <= s[0] <= 13) then Atoi(s[1..])
    else if s != [] && s[0] == MINUS then 0 - LeadingDigits(s[1..], 0)
    else if s != [] && s[0] == 43 then LeadingDigits(s[1..], 0)
    else LeadingDigits(s, 0)
  }

  // The loops ------------------------------------------------------------------------------------

  method Ll2string(value: int) returns (s: bytes)
    ensures s == Print(value)
  {
    var v: nat := if value < 0 then -value else value;
    s := [48 + v % 10];
    ghost var n := v;
    v := v / 10;
    while v != 0
      invariant Digits(n) == if v == 0 then s else Digits(v) + s
      decreases v
    {
      ghost var v0, s0 := v, s;
      s := [48 + v % 10] + s;
      v := v / 10;
      if v != 0 {
        assert Digits(v0) == Digits(v) + [48 + v0 % 10];
        assert Digits(v0) + s0 == Digits(v) + ([48 + v0 % 10] + s0);
      }
    }
    if value < 0 {
      s := [MINUS] + s;
    }
  }

  lemma {:induction false} ValueGrows(s: bytes, k: nat)
    requires AllDigits(s) && k <= |s|
    ensures Value(s) >= Value(s[..k])
    decreases |s|
  {
    if k < |s| {
      ValueGrows(s[..|s| - 1], k);
      assert s[..|s| - 1][..k] == s[..k];
    } else {
      assert s[..k] == s;
    }
  }

  /** One more digit, and what it means for a number of digits only. */
  lemma LongerValue(s: bytes, start: nat, plen: nat)
    requires start < plen < |s| && AllDigits(s[start..plen]) && IsDigit(s[plen])
    ensures AllDigits(s[start..plen + 1])
    ensures Value(s[start..plen + 1]) == Value(s[start..plen]) * 10 + (s[plen] as int - 48)
    ensures AllDigits(s[start..]) ==> Value(s[start..]) >= Value(s[start..plen + 1])
  {
    var longer := s[start..plen + 1];
    assert longer[..|longer| - 1] == s[start..plen];
    if AllDigits(s[start..]) {
      ValueGrows(s[start..], plen + 1 - start);
      assert s[start..][..plen + 1 - start] == longer;
    }
  }

  /** The digits after the first one, with the overflow checks of unsigned 64-bit arithmetic. */
  method ReadDigits(s: bytes, plen0: nat, v0: int, start: nat) returns (ok: bool, plen: nat, v: int)
    requires start < plen0 <= |s| && AllDigits(s[start..plen0]) && v0 == Value(s[start..plen0]) <= ULLONG_MAX
    ensures plen0 <= plen <= |s| && AllDigits(s[start..plen])
    ensures ok ==> v == Value(s[start..plen]) && (plen < |s| ==> !IsDigit(s[plen]))
    ensures !ok && AllDigits(s[start..]) ==> Value(s[start..]) > ULLONG_MAX
  {
    hide AllDigits, Value;
    plen, v := plen0, v0;
    while plen < |s| && IsDigit(s[plen])
      invariant plen0 <= plen <= |s| && AllDigits(s[start..plen]) && v == Value(s[start..plen]) <= ULLONG_MAX
    {
      LongerValue(s, start, plen);
      if v > ULLONG_MAX / 10 {
        return false, plen, v;
      }
      v := v * 10;
      if v > ULLONG_MAX - (s[plen] as int - 48) {
        return false, plen, v;
      }
      v := v + (s[plen] as int - 48);
      plen := plen + 1;
    }
    ok := true;
  }

  method String2ll(s: bytes) returns (ok: bool, value: int)
    ensures Parse(s) == if ok then Some(value) else None
  {
    value := 0;
    if s == [] {
      return false, 0;
    }
    if |s| == 1 && s[0] == ZERO {
      assert s[..0] == [] && Canonical(s) && Value(s) == 0;
      return true, 0;
    }
    var plen, negative := 0, false;
    if s[0] == MINUS {
      negative, plen := true, 1;
      if plen == |s| {
        return false, 0;
      }
    }
    ghost var t := s[plen..];
    if !(49 <= s[plen] <= 57) {
      assert t[0] == s[plen];
      return false, 0;
    }
    var v: int := s[plen] as int - 48;
    plen := plen + 1;
    var ok1;
    ok1, plen, v := ReadDigits(s, plen, v, if negative then 1 else 0);
    if !ok1 {
      return false, 0;
    }
    if plen < |s| {
      assert t[plen - (if negative then 1 else 0)] == s[plen];
      return false, 0;
    }
    assert t == s[(if negative then 1 else 0)..plen];
    if negative {
      if v > LLONG_MAX + 1 {
        return false, 0;
      }
      return true, -v;
    }
    if v > LLONG_MAX {
      return false, 0;
    }
    return true, v;
  }
}
