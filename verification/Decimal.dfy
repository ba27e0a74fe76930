/** Decimal text of integers: the reader's strict `string2ll` and the writer's `sdsll2str`.
    Text is a `string`; every C byte is a `char`, so what holds for all strings holds for all byte
    strings. */
module Decimal {

  import opened Basics

  const LLONG_MAX: int := 0x7fff_ffff_ffff_ffff
  const LLONG_MIN: int := -0x8000_0000_0000_0000
  const ULLONG_MAX: int := 0xffff_ffff_ffff_ffff

  predicate IsInt64(v: int) { LLONG_MIN <= v <= LLONG_MAX }

  predicate IsDigit(c: char) { '0' <= c <= '9' }

  predicate AllDigits(s: string) { forall i :: 0 <= i < |s| ==> IsDigit(s[i]) }

  function DigitChar(d: nat): char
    requires d < 10
  {
    (48 + d) as char
  }

  function DigitValue(c: char): nat
    requires IsDigit(c)
  {
    c as int - 48
  }

  /** The digits of n, most significant first, without leading zeros. */
  function Unsigned(n: nat): (s: string)
    ensures 1 <= |s| && AllDigits(s)
  {
    if n < 10 then [DigitChar(n)] else Unsigned(n / 10) + [DigitChar(n % 10)]
  }

  /** The canonical text of a signed number. */
  function Signed(v: int): string {
    if v < 0 then "-" + Unsigned(-v) else Unsigned(v)
  }

  /** The number a string of digits denotes, leading zeros allowed. */
  function Value(s: string): nat
    requires AllDigits(s)
  {
    if s == [] then 0 else Value(s[..|s| - 1]) * 10 + DigitValue(s[|s| - 1])
  }

  /** The language `string2ll` accepts, by its grammar: an optional minus sign, digits without a
      leading zero unless the text is exactly "0", and a value that fits 64 bits. */
  function Read(s: string): Option<int> {
    if s == "" then None else
    var digits := if s[0] == '-' then s[1..] else s;
    if digits == "" || !AllDigits(digits) || (digits[0] == '0' && s != "0") then None else
    var n: int := Value(digits);
    var v := if s[0] == '-' then -n else n;
    if IsInt64(v) then Some(v) else None
  }

  // ----- digits and values are inverse to each other

  lemma {:induction false} ValueOfUnsigned(n: nat)
    ensures Value(Unsigned(n)) == n
  {
    if n < 10 {
      assert Unsigned(n)[..0] == "";
    } else {
      ValueOfUnsigned(n / 10);
      assert Unsigned(n)[..|Unsigned(n)| - 1] == Unsigned(n / 10);
    }
  }

  lemma {:induction false} UnsignedHead(n: nat)
    ensures Unsigned(n)[0] == '0' <==> n == 0
  {
    if n >= 10 { UnsignedHead(n / 10); }
  }

  lemma {:induction false} ValuePositive(s: string)
    requires s != "" && AllDigits(s) && s[0] != '0'
    ensures Value(s) > 0
  {
    if |s| == 1 {
      assert s[..0] == "";
    } else {
      ValuePositive(s[..|s| - 1]);
    }
  }

  lemma {:induction false} UnsignedOfValue(s: string)
    requires s != "" && AllDigits(s)
    requires s[0] != '0' || |s| == 1
    ensures Unsigned(Value(s)) == s
  {
    var init, last := s[..|s| - 1], s[|s| - 1];
    assert s == init + [last];
    if init != "" {
      UnsignedOfValue(init);
      ValuePositive(init);
      assert Value(s) / 10 == Value(init) && Value(s) % 10 == DigitValue(last);
    }
  }

  /** `string2ll`'s language is exactly the set of canonical texts of 64-bit numbers, and reading
      inverts writing both ways. */
  lemma ReadIffSigned(s: string, v: int)
    ensures Read(s) == Some(v) <==> IsInt64(v) && s == Signed(v)
  {
    hide Read, Signed;
    if Read(s) == Some(v) { ReadIsSigned(s, v); }
    if IsInt64(v) && s == Signed(v) { SignedReads(v); }
  }

  lemma ReadIsSigned(s: string, v: int)
    requires Read(s) == Some(v)
    ensures IsInt64(v) && s == Signed(v)
  {
    hide Unsigned, Value;
    var digits := if s[0] == '-' then s[1..] else s;
    UnsignedOfValue(digits);
    if s[0] == '-' {
      ValuePositive(digits);
      assert s == "-" + digits;
    }
  }

  lemma SignedReads(v: int)
    requires IsInt64(v)
    ensures Read(Signed(v)) == Some(v)
  {
    assert Unsigned(0) == "0";
    hide Unsigned, Value;
    var n := if v < 0 then -v else v;
    var digits := Unsigned(n);
    ValueOfUnsigned(n);
    UnsignedHead(n);
    assert IsDigit(digits[0]);
    if v < 0 {
      var s := "-" + digits;
      assert s[0] == '-' && s[1..] == digits && s != "0";
    }
  }

  lemma {:induction false} ValueMonotone(s: string, k: nat)
    requires AllDigits(s) && k <= |s|
    ensures Value(s[..k]) <= Value(s)
    decreases |s| - k
  {
    if k == |s| {
      assert s[..k] == s;
    } else {
      ValueMonotone(s, k + 1);
      assert s[..k + 1][..k] == s[..k];
    }
  }

  /** Overflow seen on a prefix means the whole text is no 64-bit number. */
  lemma PrefixTooLarge(s: string, start: nat, k: nat)
    requires start <= k <= |s| && start == (if s != "" && s[0] == '-' then 1 else 0)
    requires AllDigits(s[start..k]) && Value(s[start..k]) > -LLONG_MIN
    ensures Read(s) == None
  {
    if s != "" && AllDigits(s[start..]) {
      ValueMonotone(s[start..], k - start);
      assert s[start..][..k - start] == s[start..k];
      assert s[0] != '-' ==> s[start..] == s;
    }
  }

  lemma ValueExtend(s: string, start: nat, k: nat)
    requires start <= k < |s| && AllDigits(s[start..k]) && IsDigit(s[k])
    ensures AllDigits(s[start..k + 1])
    ensures Value(s[start..k + 1]) == Value(s[start..k]) * 10 + DigitValue(s[k])
  {
    assert s[start..k + 1] == s[start..k] + [s[k]];
  }

  lemma ReadZero()
    ensures Read("0") == Some(0)
  {
    assert "0"[..0] == "" && Value("") == 0;
    assert Value("0") == 0;
  }

  /** `string2ll`: the scan with its overflow tests. `v` never leaves the unsigned 64-bit range. */
  method String2ll(s: string) returns (r: Option<int>)
    ensures r == Read(s)
  {
    var slen := |s|;
    var plen := 0;
    if plen == slen { return None; }
    if slen == 1 && s[0] == '0' {
      assert s == "0";
      ReadZero();
      return Some(0);
    }
    var negative := false;
    if s[0] == '-' {
      negative := true;
      plen := plen + 1;
      if plen == slen { return None; }
    }
    ghost var start := plen;
    ghost var digits := s[start..];
    assert digits == if negative then s[1..] else s;
    if !('1' <= s[plen] <= '9') {
      assert !IsDigit(digits[0]) || digits[0] == '0';
      return None;
    }
    var v: int := s[plen] as int - 48;
    assert s[start..start] == "";
    ValueExtend(s, start, plen);
    plen := plen + 1;
    while plen < slen && '0' <= s[plen] <= '9'
      invariant start < plen <= slen
      invariant AllDigits(s[start..plen]) && v == Value(s[start..plen])
      invariant 0 < v <= ULLONG_MAX
    {
      ValueExtend(s, start, plen);
      if v > ULLONG_MAX / 10 {
        PrefixTooLarge(s, start, plen + 1);
        return None;
      }
      v := v * 10;
      assert v <= ULLONG_MAX;
      if v > ULLONG_MAX - (s[plen] as int - 48) {
        PrefixTooLarge(s, start, plen + 1);
        return None;
      }
      v := v + (s[plen] as int - 48);
      plen := plen + 1;
    }
    if plen < slen {
      assert !IsDigit(digits[plen - start]);
      return None;
    }
    assert s[start..plen] == digits;
    if negative {
      if v > -LLONG_MIN { return None; }
      return Some(-v);
    } else {
      if v > LLONG_MAX { return None; }
      return Some(v);
    }
  }

  // ----- sdsll2str / sdsull2str

  function Reversed(s: string): (r: string)
    ensures |r| == |s|
    ensures forall i :: 0 <= i < |s| ==> r[i] == s[|s| - 1 - i]
  {
    if s == "" then "" else Reversed(s[1..]) + [s[0]]
  }

  lemma ReversedTwice(s: string)
    ensures Reversed(Reversed(s)) == s
  {
  }

  /** The in-place reversal loop over the first l characters. */
  method ReverseInPlace(a: array<char>, l: nat)
    requires l <= a.Length
    modifies a
    ensures a[..l] == Reversed(old(a[..l]))
    ensures a[l..] == old(a[l..])
  {
    var s, p := 0, l - 1;
    while s < p
      invariant 0 <= s <= l && p == l - 1 - s && s <= p + 1
      invariant forall k :: 0 <= k < s ==> a[k] == old(a[l - 1 - k]) && a[l - 1 - k] == old(a[k])
      invariant forall k :: s <= k <= p ==> a[k] == old(a[k])
      invariant forall k :: l <= k < a.Length ==> a[k] == old(a[k])
    {
      a[s], a[p] := a[p], a[s];
      s, p := s + 1, p - 1;
    }
    ghost var was := old(a[..l]);
    hide Reversed;
    forall k | 0 <= k < l ensures a[..l][k] == Reversed(was)[k] {
      assert was[l - 1 - k] == old(a[l - 1 - k]);
    }
  }

  /** `sdsull2str`: digits come out least significant first and are then reversed; twenty digits and
      a terminator always fit the 21-byte buffer. */
  method Ull2str(a: array<char>, value: nat) returns (l: nat)
    requires value <= ULLONG_MAX && a.Length >= 21
    modifies a
    ensures l < a.Length && a[..l] == Unsigned(value) && a[l] == '\0'
  {
    UnsignedShort(value, 20);
    l := EmitDigits(a, value);
    a[l] := '\0';
    ghost var raw := a[..l];
    ReverseInPlace(a, l);
    assert a[l] == a[l..][0];
    ReversedTwice(Unsigned(value));
  }

  /** `sdsll2str`, with the magnitude of LLONG_MIN taken as 2^63. */
  method Ll2str(a: array<char>, value: int) returns (l: nat)
    requires IsInt64(value) && a.Length >= 21
    modifies a
    ensures l < a.Length && a[..l] == Signed(value) && a[l] == '\0'
  {
    hide Unsigned, Reversed, Signed;
    var v: nat := if value < 0 then -value else value;
    UnsignedShort(v, 19);
    l := EmitDigits(a, v);
    ghost var digits := a[..l];
    if value < 0 {
      a[l] := '-';
      assert a[..l + 1] == digits + "-";
      l := l + 1;
    }
    a[l] := '\0';
    ghost var raw := a[..l];
    SignedBack(value, raw);
    ReverseInPlace(a, l);
    assert a[l] == a[l..][0];
  }

  /** The reversed digits with a sign behind them are the text backwards. */
  lemma SignedBack(value: int, raw: string)
    requires raw == if value < 0 then Reversed(Unsigned(-value)) + "-" else Reversed(Unsigned(value))
    ensures Reversed(raw) == Signed(value)
  {
    hide Unsigned;
    ReversedTwice(Unsigned(if value < 0 then -value else value));
  }

  /** One emitted digit moves from the number still to print to the digits printed. */
  lemma EmitStep(v: nat, done: string)
    requires v >= 10
    ensures Unsigned(v / 10) + Reversed(done + [DigitChar(v % 10)]) == Unsigned(v) + Reversed(done)
    ensures |Unsigned(v)| == |Unsigned(v / 10)| + 1
  {
    var d := DigitChar(v % 10);
    assert Reversed(done + [d]) == [d] + Reversed(done);
    assert Unsigned(v / 10) + ([d] + Reversed(done)) == (Unsigned(v / 10) + [d]) + Reversed(done);
  }

  lemma SmallDigit(v: nat)
    requires v < 10
    ensures |Unsigned(v)| == 1
  {
  }

  lemma EmitLast(v: nat, done: string)
    requires v < 10
    ensures Reversed(Unsigned(v) + Reversed(done)) == done + [DigitChar(v)]
  {
  }

  method EmitDigits(a: array<char>, value: nat) returns (l: nat)
    requires |Unsigned(value)| < a.Length
    modifies a
    ensures l == |Unsigned(value)| && a[..l] == Reversed(Unsigned(value))
  {
    hide Unsigned, DigitChar;
    var v := value;
    l := 0;
    assert a[..0] == "" && Reversed("") == "" && Unsigned(value) + "" == Unsigned(value);
    hide Reversed;
    while true
      invariant l + |Unsigned(v)| == |Unsigned(value)| < a.Length
      invariant Unsigned(value) == Unsigned(v) + Reversed(a[..l])
      decreases v
    {
      ghost var done := a[..l];
      a[l] := DigitChar(v % 10);
      assert a[..l + 1] == done + [DigitChar(v % 10)];
      l := l + 1;
      if v < 10 {
        EmitLast(v, done);
        SmallDigit(v);
        return;
      }
      EmitStep(v, done);
      v := v / 10;
    }
  }

  function Pow10(k: nat): (p: nat)
    ensures p > 0
  {
    if k == 0 then 1 else 10 * Pow10(k - 1)
  }

  /** A number has at most k digits exactly when it is below 10^k. */
  lemma {:induction false} DigitsBound(n: nat, k: nat)
    requires k >= 1
    ensures |Unsigned(n)| <= k <==> n < Pow10(k)
  {
    if k == 1 {
      assert Pow10(1) == 10 * Pow10(0);
    } else if n >= 10 {
      DigitsBound(n / 10, k - 1);
    } else {
      assert Pow10(k) == 10 * Pow10(k - 1);
    }
  }

  lemma UnsignedShort(n: nat, k: nat)
    requires (k == 20 && n <= ULLONG_MAX) || (k == 19 && n <= -LLONG_MIN)
    ensures |Unsigned(n)| <= k
  {
    assert Pow10(10) == 1_0000_0000_00 by { assert Pow10(5) == 100000; }
    DigitsBound(n, k);
    assert Pow10(15) == 1_000_000_000_000_000;
    assert Pow10(19) == 10_000_000_000_000_000_000;
  }

  /** Dropping four digits. */
  lemma UnsignedDrop(v: nat)
    ensures v >= 10 ==> |Unsigned(v)| == |Unsigned(v / 10)| + 1
    ensures v >= 100 ==> |Unsigned(v)| == |Unsigned(v / 100)| + 2
    ensures v >= 1000 ==> |Unsigned(v)| == |Unsigned(v / 1000)| + 3
    ensures v >= 10000 ==> |Unsigned(v)| == |Unsigned(v / 10000)| + 4
  {
    var a, b, c := v / 10, v / 100, v / 1000;
    assert a / 10 == b && b / 10 == c && c / 10 == v / 10000;
  }

  /** `countDigits`: four digits a turn. */
  method CountDigits(value: nat) returns (result: nat)
    ensures result == |Unsigned(value)|
  {
    var v := value;
    result := 1;
    while true
      invariant result >= 1 && result - 1 + |Unsigned(v)| == |Unsigned(value)|
      decreases v
    {
      UnsignedDrop(v);
      if v < 10 { return; }
      if v < 100 { result := result + 1; return; }
      if v < 1000 { result := result + 2; return; }
      if v < 10000 { result := result + 3; return; }
      v := v / 10000;
      result := result + 4;
    }
  }
}
