/** Byte strings, first-occurrence search and the decimal notation the record header uses. */
module Bytes {
  import opened Wrappers

  newtype Byte = b: int | 0 <= b < 256

  const NEWLINE: Byte := 10
  const SPACE: Byte := 32
  const PLUS: Byte := 43
  const ZERO: Byte := 48

  const U64_MAX: nat := 0xFFFF_FFFF_FFFF_FFFF
  type U64 = n: nat | n <= U64_MAX

  /** Position of the first `b` in `s`, or |s| when there is none. */
  function IndexOf(s: seq<Byte>, b: Byte): (i: nat)
    ensures i <= |s|
    ensures i < |s| ==> s[i] == b
    ensures forall j | 0 <= j < i :: s[j] != b
  {
    if |s| == 0 || s[0] == b then 0 else 1 + IndexOf(s[1..], b)
  }

  /** The first occurrence does not move when bytes are appended. */
  lemma IndexOfAppend(s: seq<Byte>, t: seq<Byte>, b: Byte)
    ensures IndexOf(s, b) < |s| ==> IndexOf(s + t, b) == IndexOf(s, b)
    ensures IndexOf(s, b) == |s| ==> IndexOf(s + t, b) == |s| + IndexOf(t, b)
  {
    var i := IndexOf(s + t, b);
    if IndexOf(s, b) < |s| {
      assert (s + t)[IndexOf(s, b)] == b;
    } else {
      assert i >= |s| by { assert forall j | 0 <= j < |s| :: (s + t)[j] == s[j]; }
      assert forall j | 0 <= j < |t| :: (s + t)[|s| + j] == t[j];
    }
  }

  /** Pieces put together in order. */
  function Concat(pieces: seq<seq<Byte>>): seq<Byte> {
    if |pieces| == 0 then [] else pieces[0] + Concat(pieces[1..])
  }

  lemma {:induction false} ConcatAppend(a: seq<seq<Byte>>, b: seq<seq<Byte>>)
    ensures Concat(a + b) == Concat(a) + Concat(b)
  {
    if |a| == 0 {
      assert a + b == b;
    } else {
      assert (a + b)[1..] == a[1..] + b;
      ConcatAppend(a[1..], b);
    }
  }

  predicate IsDigit(b: Byte) { 48 <= b <= 57 }

  predicate AllDigits(s: seq<Byte>) { forall i | 0 <= i < |s| :: IsDigit(s[i]) }

  /** Decimal notation of an unsigned integer: no sign, no leading zero. */
  function Decimal(n: nat): (s: seq<Byte>)
    ensures |s| >= 1
    ensures AllDigits(s)
  {
    if n < 10 then [(48 + n) as Byte] else Decimal(n / 10) + [(48 + n % 10) as Byte]
  }

  /** Value of a digit string, most significant digit first. */
  function DigitsValue(s: seq<Byte>): nat
    requires AllDigits(s)
  {
    if |s| == 0 then 0
    else DigitsValue(s[..|s| - 1]) * 10 + (s[|s| - 1] as int - 48)
  }

  /** Rust's `str::parse::<u64>`: an optional `+`, then at least one digit, then nothing else;
      a value above u64::MAX is an error. Bytes that are not UTF-8 are not digits either. */
  function ParseU64(s: seq<Byte>): Option<U64>
  {
    var t := if |s| > 0 && s[0] == PLUS then s[1..] else s;
    if |t| == 0 || !AllDigits(t) || DigitsValue(t) > U64_MAX then None
    else Some(DigitsValue(t))
  }

  lemma {:induction false} DigitsValueOfDecimal(n: nat)
    ensures DigitsValue(Decimal(n)) == n
  {
    if n >= 10 {
      DigitsValueOfDecimal(n / 10);
      assert Decimal(n)[..|Decimal(n)| - 1] == Decimal(n / 10);
    } else {
      assert Decimal(n)[..0] == [];
    }
  }

  lemma ParseDecimal(n: U64)
    ensures ParseU64(Decimal(n)) == Some(n)
  {
    DigitsValueOfDecimal(n);
    assert IsDigit(Decimal(n)[0]);
  }

  /** Decimal is the shortest notation of a value: leading zeros and a `+` only add bytes. */
  lemma {:induction false} DecimalIsShortest(s: seq<Byte>)
    requires |s| > 0 && AllDigits(s)
    ensures |Decimal(DigitsValue(s))| <= |s|
  {
    var init := s[..|s| - 1];
    assert IsDigit(s[|s| - 1]);
    if DigitsValue(s) >= 10 {
      assert |init| > 0;
      DecimalIsShortest(init);
      assert DigitsValue(s) / 10 == DigitsValue(init);
    }
  }

  lemma ParsedIsShortest(s: seq<Byte>)
    requires ParseU64(s).Some?
    ensures |Decimal(ParseU64(s).value)| <= |s|
  {
    DecimalIsShortest(if |s| > 0 && s[0] == PLUS then s[1..] else s);
  }

  function Pow10(k: nat): (p: nat)
    ensures p >= 1
  {
    if k == 0 then 1 else 10 * Pow10(k - 1)
  }

  lemma {:induction false} DecimalLength(n: nat, k: nat)
    requires k >= 1 && n < Pow10(k)
    ensures |Decimal(n)| <= k
  {
    if n >= 10 {
      assert Pow10(1) == 10;
      assert Pow10(k) == 10 * Pow10(k - 1);
      DecimalLength(n / 10, k - 1);
    }
  }

  /** A u64 takes at most twenty digits. */
  lemma U64Length(n: U64)
    ensures |Decimal(n)| <= 20
  {
    assert Pow10(5) == 100_000;
    assert Pow10(10) == 100_000 * Pow10(5);
    assert Pow10(15) == 100_000 * Pow10(10);
    assert Pow10(20) == 100_000 * Pow10(15);
    DecimalLength(n, 20);
  }

  // ---- what the number parser accepts ----

  function Zeros(z: nat): (s: seq<Byte>)
    ensures |s| == z && forall i | 0 <= i < z :: s[i] == ZERO
  {
    if z == 0 then [] else Zeros(z - 1) + [ZERO]
  }

  lemma {:induction false} ZerosValue(z: nat)
    ensures AllDigits(Zeros(z)) && DigitsValue(Zeros(z)) == 0
  {
    if z > 0 {
      ZerosValue(z - 1);
      assert Zeros(z)[..z - 1] == Zeros(z - 1);
    }
  }

  /** Digits of the same value in front make no difference. */
  lemma {:induction false} DigitsValueSame(a: seq<Byte>, b: seq<Byte>, g: seq<Byte>)
    requires AllDigits(a) && AllDigits(b) && AllDigits(g) && DigitsValue(a) == DigitsValue(b)
    ensures DigitsValue(a + g) == DigitsValue(b + g)
  {
    if g == [] {
      assert a + g == a && b + g == b;
    } else {
      var h := g[..|g| - 1];
      assert (a + g)[..|a + g| - 1] == a + h && (b + g)[..|b + g| - 1] == b + h;
      DigitsValueSame(a, b, h);
    }
  }

  lemma PaddedValue(z: nat, n: nat)
    ensures AllDigits(Zeros(z) + Decimal(n)) && DigitsValue(Zeros(z) + Decimal(n)) == n
  {
    hide Zeros, Decimal, DigitsValue;
    ZerosValue(z);
    assert DigitsValue([]) == 0 by { NoDigits(); }
    DigitsValueSame(Zeros(z), [], Decimal(n));
    assert [] + Decimal(n) == Decimal(n);
    DigitsValueOfDecimal(n);
  }

  lemma NoDigits()
    ensures DigitsValue([]) == 0
  {
  }

  /** Digits are zeros and then the decimal notation of their value. */
  lemma {:induction false} DigitsArePadded(s: seq<Byte>)
    requires |s| > 0 && AllDigits(s)
    ensures exists z: nat :: s == Zeros(z) + Decimal(DigitsValue(s))
  {
    hide Decimal, Zeros;
    var init, d := s[..|s| - 1], s[|s| - 1];
    assert IsDigit(d) && s == init + [d];
    if |s| == 1 {
      assert init == [] && DigitsValue(init) == 0;
      FirstDigit(d);
    } else {
      DigitsArePadded(init);
      var z: nat :| init == Zeros(z) + Decimal(DigitsValue(init));
      OneMoreDigit(z, DigitsValue(init), d);
    }
  }

  lemma FirstDigit(d: Byte)
    requires IsDigit(d)
    ensures [] + [d] == Zeros(0) + Decimal(d as int - 48)
  {
  }

  lemma OneMoreDigit(z: nat, v: nat, d: Byte)
    requires IsDigit(d)
    ensures exists y: nat :: Zeros(z) + Decimal(v) + [d] == Zeros(y) + Decimal(v * 10 + (d as int - 48))
  {
    var n := v * 10 + (d as int - 48);
    if v == 0 {
      assert Zeros(z) + Decimal(v) + [d] == Zeros(z + 1) + Decimal(n);
    } else {
      assert n / 10 == v && n % 10 == d as int - 48;
      assert Zeros(z) + Decimal(v) + [d] == Zeros(z) + Decimal(n);
    }
  }

  /** The parser accepts exactly an optional plus sign, any zeros, and the decimal notation of a u64. */
  lemma ParseU64Iff(s: seq<Byte>, n: U64)
    ensures ParseU64(s) == Some(n)
       <==> exists z: nat, sign: seq<Byte> :: (sign == [] || sign == [PLUS]) && s == sign + (Zeros(z) + Decimal(n))
  {
    hide ParseU64, Zeros, Decimal;
    if ParseU64(s) == Some(n) { ParsedIsPadded(s); }
    if z: nat, sign: seq<Byte> :| (sign == [] || sign == [PLUS]) && s == sign + (Zeros(z) + Decimal(n)) {
      PaddedParses(sign, z, n);
    }
  }

  lemma ParsedIsPadded(s: seq<Byte>)
    requires ParseU64(s).Some?
    ensures exists z: nat, sign: seq<Byte> ::
              (sign == [] || sign == [PLUS]) && s == sign + (Zeros(z) + Decimal(ParseU64(s).value))
  {
    hide Zeros, Decimal, DigitsValue;
    var sign: seq<Byte>, t := [], s;
    if s[0] == PLUS { sign, t := [PLUS], s[1..]; }
    DigitsArePadded(t);
    var z: nat :| t == Zeros(z) + Decimal(DigitsValue(t));
    assert s == sign + t;
    assert s == sign + (Zeros(z) + Decimal(ParseU64(s).value));
  }

  lemma PaddedParses(sign: seq<Byte>, z: nat, n: U64)
    requires sign == [] || sign == [PLUS]
    ensures ParseU64(sign + (Zeros(z) + Decimal(n))) == Some(n)
  {
    hide Zeros, Decimal, DigitsValue;
    PaddedValue(z, n);
    var d := Zeros(z) + Decimal(n);
    assert IsDigit(d[0]);
    if sign == [PLUS] { assert (sign + d)[1..] == d; } else { assert sign + d == d; }
  }
}
