/** Decimal conversion as in redis-stable/src/util.c:217-305, and strtoll as rdb.c uses it. */
module Decimal {
  import opened Bytes

  const ULLONG_MAX := 0xffff_ffff_ffff_ffff
  const LLONG_MAX := 0x7fff_ffff_ffff_ffff
  const LLONG_MIN := -0x8000_0000_0000_0000
  const MINUS: byte := 45

  predicate IsDigit(b: byte) { 48 <= b <= 57 }

  predicate AllDigits(s: seq<byte>) {
    forall i :: 0 <= i < |s| ==> IsDigit(s[i])
  }

  /** The digits of n, without leading zeros. */
  function Digits(n: nat): (s: seq<byte>)
    ensures s != [] && AllDigits(s)
    ensures n > 0 ==> s[0] != 48
    ensures n < 10 ==> |s| == 1
  {
    if n < 10 then [48 + n] else Digits(n / 10) + [48 + n % 10]
  }

  /** ll2string, for a buffer that has room. */
  function Ll2String(v: int): seq<byte> {
    if v < 0 then [MINUS] + Digits(-v) else Digits(v)
  }

  /** The accumulator of the parsing loop, in unbounded arithmetic. */
  function Accumulate(s: seq<byte>, v: nat): (r: nat)
    requires AllDigits(s)
    ensures r >= v
    decreases |s|
  {
    if s == [] then v
    else
      var d: int := s[0];
      Accumulate(s[1..], v * 10 + d - 48)
  }

  /** The parsing loop of string2ll: fails on a byte that is no digit and on unsigned overflow. */
  function ParseDigits(s: seq<byte>, v: nat): Option<nat>
    requires v <= ULLONG_MAX
    decreases |s|
  {
    if s == [] then Some(v)
    else if !IsDigit(s[0]) then None
    else
      var c: int := s[0];
      var d := c - 48;
      if v > ULLONG_MAX / 10 then None
      else if v * 10 > ULLONG_MAX - d then None
      else ParseDigits(s[1..], v * 10 + d)
  }

  /** string2ll. */
  function String2ll(s: seq<byte>): Option<int> {
    if s == [] then None
    else if s == [48] then Some(0)
    else
      var negative := s[0] == MINUS;
      var t := if negative then s[1..] else s;
      if t == [] then None
      else if !(49 <= t[0] <= 57) then None
      else
        var c: int := t[0];
        match ParseDigits(t[1..], c - 48)
        case None => None
        case Some(u) =>
          var v: int := u;
          if negative then (if v > -LLONG_MIN then None else Some(-v))
          else if v > LLONG_MAX then None else Some(v)
  }

  lemma {:induction false} ParseIsAccumulate(s: seq<byte>, v: nat)
    requires v <= ULLONG_MAX
    ensures ParseDigits(s, v) == if AllDigits(s) && Accumulate(s, v) <= ULLONG_MAX then Some(Accumulate(s, v)) else None
    decreases |s|
  {
    if s != [] && IsDigit(s[0]) {
      var c: int := s[0];
      var d := c - 48;
      assert AllDigits(s) <==> AllDigits(s[1..]);
      if v <= ULLONG_MAX / 10 && v * 10 <= ULLONG_MAX - d {
        ParseIsAccumulate(s[1..], v * 10 + d);
      }
    }
  }

  lemma {:induction false} AccumulateSnoc(s: seq<byte>, d: byte, v: nat)
    requires AllDigits(s) && IsDigit(d)
    ensures var x: int := d; Accumulate(s + [d], v) == Accumulate(s, v) * 10 + x - 48
    decreases |s|
  {
    if s == [] {
      assert s + [d] == [d];
    } else {
      var c: int := s[0];
      assert (s + [d])[1..] == s[1..] + [d];
      AccumulateSnoc(s[1..], d, v * 10 + c - 48);
    }
  }

  lemma {:induction false} DigitsValue(n: nat)
    ensures Accumulate(Digits(n), 0) == n
  {
    if n >= 10 {
      DigitsValue(n / 10);
      AccumulateSnoc(Digits(n / 10), 48 + n % 10, 0);
    }
  }

  lemma {:induction false} ValueDigits(s: seq<byte>)
    requires s != [] && AllDigits(s) && s[0] != 48
    ensures Digits(Accumulate(s, 0)) == s && Accumulate(s, 0) > 0
    decreases |s|
  {
    var init, d := s[..|s| - 1], s[|s| - 1];
    assert s == init + [d];
    AccumulateSnoc(init, d, 0);
    var x: int := d;
    if init == [] {
      assert Accumulate(init, 0) == 0;
    } else {
      assert init[0] == s[0];
      ValueDigits(init);
      hide Accumulate;
      var a := Accumulate(init, 0);
      assert (a * 10 + x - 48) / 10 == a && (a * 10 + x - 48) % 10 == x - 48;
    }
  }

  lemma HeadDigit(t: seq<byte>)
    requires t != [] && 49 <= t[0] <= 57 && AllDigits(t[1..])
    ensures AllDigits(t)
    ensures var c: int := t[0]; Accumulate(t, 0) == Accumulate(t[1..], c - 48)
  {
    forall i | 0 <= i < |t| ensures IsDigit(t[i]) {
      assert i > 0 ==> t[i] == t[1..][i - 1];
    }
  }

  /** string2ll accepts exactly what ll2string prints of the values of a long long, and gives that value. */
  lemma String2llIsCanonical(s: seq<byte>, v: int)
    ensures String2ll(s) == Some(v) <==> LLONG_MIN <= v <= LLONG_MAX && s == Ll2String(v)
  {
    if String2ll(s) == Some(v) {
      ParsedIsCanonical(s, v);
    }
    if LLONG_MIN <= v <= LLONG_MAX && s == Ll2String(v) {
      CanonicalParses(v);
    }
  }

  lemma ParsedIsCanonical(s: seq<byte>, v: int)
    requires String2ll(s) == Some(v)
    ensures LLONG_MIN <= v <= LLONG_MAX && s == Ll2String(v)
  {
    if s == [48] {
      assert s == Digits(0);
    } else {
      var m := if v < 0 then -v else v;
      ParsedText(s, v);
      var t := if s[0] == MINUS then s[1..] else s;
      hide Digits, String2ll;
      ParsedDigits(t, m);
    }
  }

  lemma ParsedText(s: seq<byte>, v: int)
    requires String2ll(s) == Some(v) && s != [48]
    ensures LLONG_MIN <= v <= LLONG_MAX && s != []
    ensures var t := if s[0] == MINUS then s[1..] else s;
            && t != [] && 49 <= t[0] <= 57
            && (var c: int, m: nat := t[0], if v < 0 then -v else v; ParseDigits(t[1..], c - 48) == Some(m))
            && (s[0] == MINUS ==> v <= 0 && s == [MINUS] + t) && (s[0] != MINUS ==> v >= 0)
  {
    hide ParseDigits;
  }

  lemma ParsedDigits(t: seq<byte>, m: nat)
    requires t != [] && 49 <= t[0] <= 57 && (var c: int := t[0]; ParseDigits(t[1..], c - 48) == Some(m))
    ensures m > 0 && t == Digits(m)
  {
    hide Digits, Accumulate, ParseDigits;
    var c: int := t[0];
    ParseIsAccumulate(t[1..], c - 48);
    HeadDigit(t);
    ValueDigits(t);
  }

  lemma CanonicalParses(v: int)
    requires LLONG_MIN <= v <= LLONG_MAX
    ensures String2ll(Ll2String(v)) == Some(v)
  {
    var m := if v < 0 then -v else v;
    if v == 0 {
      assert Ll2String(v) == [48];
    } else {
      DigitsParse(m);
      var t := Digits(m);
      assert Ll2String(v) == if v < 0 then [MINUS] + t else t;
      hide Digits, ParseDigits, Ll2String, String2ll;
      ParsesText(v, t, m);
    }
  }

  lemma DigitsParse(m: nat)
    requires 0 < m <= ULLONG_MAX
    ensures var t := Digits(m); 49 <= t[0] <= 57 && (var c: int := t[0]; ParseDigits(t[1..], c - 48) == Some(m))
  {
    var t := Digits(m);
    DigitsValue(m);
    assert IsDigit(t[0]);
    assert AllDigits(t[1..]);
    hide Digits, Accumulate;
    HeadDigit(t);
    var c: int := t[0];
    ParseIsAccumulate(t[1..], c - 48);
  }

  lemma ParsesText(v: int, t: seq<byte>, m: nat)
    requires LLONG_MIN <= v <= LLONG_MAX && m == if v < 0 then -v else v
    requires t != [] && 49 <= t[0] <= 57 && (var c: int := t[0]; ParseDigits(t[1..], c - 48) == Some(m))
    ensures String2ll(if v < 0 then [MINUS] + t else t) == Some(v)
  {
    hide ParseDigits;
    assert ([MINUS] + t)[1..] == t;
  }

  // ---- strtoll ----

  predicate IsSpace(b: byte) { b == 32 || 9 <= b <= 13 }

  function SkipSpaces(s: seq<byte>): (n: nat)
    ensures n <= |s|
  {
    if s != [] && IsSpace(s[0]) then 1 + SkipSpaces(s[1..]) else 0
  }

  function SpanDigits(s: seq<byte>): (n: nat)
    ensures n <= |s| && AllDigits(s[..n]) && (n < |s| ==> !IsDigit(s[n]))
  {
    if s != [] && IsDigit(s[0]) then
      var n := SpanDigits(s[1..]);
      assert s[..1 + n] == [s[0]] + s[1..][..n];
      1 + n
    else 0
  }

  function Clamp(v: int): int {
    if v > LLONG_MAX then LLONG_MAX else if v < LLONG_MIN then LLONG_MIN else v
  }

  /** strtoll in base 10: the value, and how many bytes it used (none when there is no digit). */
  function Strtoll(s: seq<byte>): (r: (int, nat))
    ensures r.1 <= |s|
  {
    var i := SkipSpaces(s);
    var signed := i < |s| && (s[i] == MINUS || s[i] == 43);
    var start := if signed then i + 1 else i;
    var n := SpanDigits(s[start..]);
    if n == 0 then (0, 0)
    else
      var v: int := Accumulate(s[start..][..n], 0);
      (Clamp(if signed && s[i] == MINUS then -v else v), start + n)
  }

  lemma {:induction false} SpanDigitsOf(d: seq<byte>, tail: seq<byte>)
    requires AllDigits(d) && (tail == [] || !IsDigit(tail[0]))
    ensures SpanDigits(d + tail) == |d|
  {
    if d == [] {
      assert d + tail == tail;
    } else {
      assert (d + tail)[1..] == d[1..] + tail;
      SpanDigitsOf(d[1..], tail);
    }
  }

  lemma SpanPrefix(d: seq<byte>, tail: seq<byte>)
    requires AllDigits(d) && (tail == [] || !IsDigit(tail[0]))
    ensures SpanDigits(d + tail) == |d| && (d + tail)[..|d|] == d
  {
    SpanDigitsOf(d, tail);
  }

  /** strtoll on a string that starts with its digits or with a minus sign before them. */
  lemma StrtollAt(s: seq<byte>, start: nat, d: seq<byte>, tail: seq<byte>, m: int)
    requires d != [] && AllDigits(d) && Accumulate(d, 0) == m && (tail == [] || !IsDigit(tail[0]))
    requires start <= 1 && start <= |s| && s[start..] == d + tail && (start == 1 ==> s[0] == MINUS)
    ensures Strtoll(s) == (Clamp(if start == 1 then -m else m), start + |d|)
  {
    SpanPrefix(d, tail);
    NoSpaces(s, d, tail, start);
    hide Accumulate, SpanDigits, AllDigits, SkipSpaces, Clamp;
  }

  lemma NoSpaces(s: seq<byte>, d: seq<byte>, tail: seq<byte>, start: nat)
    requires d != [] && AllDigits(d)
    requires start <= 1 && start <= |s| && s[start..] == d + tail && (start == 1 ==> s[0] == MINUS)
    ensures s != [] && SkipSpaces(s) == 0 && (start == 0 ==> IsDigit(s[0]))
  {
    assert IsDigit(d[0]);
    assert s[start] == (d + tail)[0];
    hide AllDigits;
  }

  lemma TextParts(v: int, tail: seq<byte>)
    requires LLONG_MIN <= v <= LLONG_MAX
    ensures var m := if v < 0 then -v else v;
            var start := if v < 0 then 1 else 0;
            var s := Ll2String(v) + tail;
            && start <= |s| && s[start..] == Digits(m) + tail && (start == 1 ==> s[0] == MINUS)
            && |Ll2String(v)| == start + |Digits(m)| && AllDigits(Digits(m)) && Clamp(v) == v
  {
    hide Digits;
  }

  /** strtoll reads back what ll2string prints, up to a byte that is no digit. */
  lemma StrtollReadsBack(v: int, tail: seq<byte>)
    requires LLONG_MIN <= v <= LLONG_MAX && (tail == [] || !IsDigit(tail[0]))
    ensures Strtoll(Ll2String(v) + tail) == (v, |Ll2String(v)|)
  {
    var m := if v < 0 then -v else v;
    var s := Ll2String(v) + tail;
    var start := if v < 0 then 1 else 0;
    DigitsValue(m);
    TextParts(v, tail);
    hide *;
    StrtollAt(s, start, Digits(m), tail, m);
  }

  // ---- Lengths ----

  function Pow10(k: nat): nat {
    if k == 0 then 1 else 10 * Pow10(k - 1)
  }

  lemma {:induction false} DigitsLength(n: nat, k: nat)
    requires k >= 1 && n < Pow10(k)
    ensures |Digits(n)| <= k
    decreases n
  {
    if n >= 10 {
      DigitsLength(n / 10, k - 1);
    }
  }

  lemma Pow10Is()
    ensures Pow10(10) == 10_000_000_000
  {
    assert Pow10(5) == 100_000;
  }

  lemma TextFits(n: int)
    requires LLONG_MIN <= n <= LLONG_MAX
    ensures |Ll2String(n)| <= 20
  {
    assert Pow10(19) == 10_000_000_000_000_000_000 by {
      Pow10Is();
      assert Pow10(13) == 10_000_000_000_000;
      assert Pow10(16) == 10_000_000_000_000_000;
    }
    DigitsLength(if n < 0 then -n else n, 19);
  }
}
