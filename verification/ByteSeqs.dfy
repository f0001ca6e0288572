/** Byte strings, big-endian integers and decimal numerals: the vocabulary of every wire format here. */
module ByteSeqs {
  import opened Bits

  type Bytes = seq<Byte>

  /** The largest value of Go's 64-bit `int`. */
  const MAX_INT: int := 0x7FFF_FFFF_FFFF_FFFF

  /** A value of Go's 64-bit `int`. */
  type GoInt = x: int | -MAX_INT - 1 <= x <= MAX_INT

  // ----- big-endian integers -----

  function Pow256(k: nat): (p: nat)
    ensures p > 0
  {
    if k == 0 then 1 else 256 * Pow256(k - 1)
  }

  /** The `k` low bytes of `n`, most significant first. */
  function ToBE(n: nat, k: nat): (s: Bytes)
    ensures |s| == k
  {
    if k == 0 then [] else ToBE(n / 256, k - 1) + [n % 256]
  }

  function FromBE(s: Bytes): (n: nat)
  {
    if s == [] then 0 else FromBE(s[..|s| - 1]) * 256 + s[|s| - 1]
  }

  lemma {:induction false} FromToBE(n: nat, k: nat)
    requires n < Pow256(k)
    ensures FromBE(ToBE(n, k)) == n
  {
    if k > 0 {
      FromToBE(n / 256, k - 1);
      var s := ToBE(n, k);
      assert s[..k - 1] == ToBE(n / 256, k - 1);
    }
  }

  lemma {:induction false} ToFromBE(s: Bytes)
    ensures ToBE(FromBE(s), |s|) == s && FromBE(s) < Pow256(|s|)
  {
    if s != [] {
      var t := s[..|s| - 1];
      ToFromBE(t);
      var last := s[|s| - 1];
      assert FromBE(s) / 256 == FromBE(t) && FromBE(s) % 256 == last;
      assert s == t + [s[|s| - 1]];
    }
  }

  /** The top bit of the first byte decides whether the number reaches half the range. */
  lemma {:induction false} TopBitOf(s: Bytes)
    requires s != []
    ensures s[0] < 0x80 <==> FromBE(s) < 128 * Pow256(|s| - 1)
  {
    if |s| == 1 {
      assert s[..0] == [];
    } else {
      TopBitOf(s[..|s| - 1]);
      assert Pow256(|s| - 1) == 256 * Pow256(|s| - 2);
    }
  }

  /** The first byte counts most: the integer is its value in base 256. */
  lemma {:induction false} FirstCountsMost(b: Byte, s: Bytes)
    ensures FromBE([b] + s) == b * Pow256(|s|) + FromBE(s)
  {
    var t := [b] + s;
    if s == [] {
      assert t[..0] == [];
    } else {
      var n := |s| - 1;
      assert t[..|t| - 1] == [b] + s[..n] && t[|t| - 1] == s[n];
      FirstCountsMost(b, s[..n]);
      assert FromBE(t) == (b * Pow256(n) + FromBE(s[..n])) * 256 + s[n];
      assert b * Pow256(n + 1) == b * Pow256(n) * 256;
    }
  }

  // ----- decimal numerals -----

  predicate IsDigit(b: Byte) {
    0x30 <= b <= 0x39
  }

  predicate AllDigits(s: Bytes) {
    forall i :: 0 <= i < |s| ==> IsDigit(s[i])
  }

  function DigitValue(b: Byte): nat
    requires IsDigit(b)
  {
    b - 0x30
  }

  /** The decimal numeral of `n`, without leading zeros. */
  function Decimal(n: nat): (s: Bytes)
    ensures s != [] && AllDigits(s)
  {
    var d := [n % 10 + 0x30];
    if n < 10 then d else Decimal(n / 10) + d
  }

  /** The number a digit string denotes; leading zeros are allowed. */
  function DecimalValue(s: Bytes): nat
    requires AllDigits(s)
  {
    if s == [] then 0 else DecimalValue(s[..|s| - 1]) * 10 + DigitValue(s[|s| - 1])
  }

  lemma {:induction false} DecimalRoundTrip(n: nat)
    ensures DecimalValue(Decimal(n)) == n
  {
    var s := Decimal(n);
    if n >= 10 {
      DecimalRoundTrip(n / 10);
      assert s[..|s| - 1] == Decimal(n / 10);
    } else {
      assert s[..0] == [];
    }
  }

  function Pow10(k: nat): (p: nat) {
    if k == 0 then 1 else 10 * Pow10(k - 1)
  }

  /** The first digit counts most: the number is its value in base 10. */
  lemma {:induction false} FirstDigitCountsMost(d: Byte, s: Bytes)
    requires 0x30 <= d <= 0x39 && AllDigits(s) && AllDigits([d] + s)
    ensures DecimalValue([d] + s) == (d - 0x30) * Pow10(|s|) + DecimalValue(s)
  {
    var t := [d] + s;
    if s == [] {
      assert t[..0] == [];
    } else {
      var n := |s| - 1;
      assert t[..|t| - 1] == [d] + s[..n] && t[|t| - 1] == s[n];
      FirstDigitCountsMost(d, s[..n]);
      assert DecimalValue(t) == ((d - 0x30) * Pow10(n) + DecimalValue(s[..n])) * 10 + DigitValue(s[n]);
      assert (d - 0x30) * Pow10(n + 1) == (d - 0x30) * Pow10(n) * 10;
    }
  }

  /** The numeral written for a value never takes more digits than one it was read from. */
  lemma {:induction false} DecimalIsShortest(s: Bytes)
    requires s != [] && AllDigits(s)
    ensures |Decimal(DecimalValue(s))| <= |s|
  {
    if |s| > 1 {
      DecimalIsShortest(s[..|s| - 1]);
    }
  }

  /** A numeral as `Decimal` writes it: digits, and no zero in front of others. */
  predicate Numeral(s: Bytes) {
    s != [] && AllDigits(s) && (s[0] == 0x30 ==> |s| == 1)
  }

  lemma {:induction false} DecimalIsNumeral(n: nat)
    ensures Numeral(Decimal(n)) && (Decimal(n)[0] == 0x30 <==> n == 0)
  {
    if n >= 10 {
      DecimalIsNumeral(n / 10);
      assert Decimal(n)[0] == Decimal(n / 10)[0];
    }
  }

  lemma {:induction false} NumeralIsDecimal(s: Bytes)
    requires Numeral(s)
    ensures Decimal(DecimalValue(s)) == s && (DecimalValue(s) == 0 <==> s[0] == 0x30)
  {
    if |s| == 1 {
      assert s[..0] == [];
    } else {
      var t := s[..|s| - 1];
      NumeralIsDecimal(t);
      assert s == t + [s[|s| - 1]];
      assert DecimalValue(s) / 10 == DecimalValue(t) && DecimalValue(s) % 10 == DigitValue(s[|s| - 1]);
    }
  }

  /** The length of the longest all-digit prefix. */
  function DigitRun(s: Bytes): (n: nat)
    ensures n <= |s| && AllDigits(s[..n])
    ensures n < |s| ==> !IsDigit(s[n])
  {
    if s != [] && IsDigit(s[0]) then 1 + DigitRun(s[1..]) else 0
  }

  lemma {:induction false} DigitRunOf(d: Bytes, t: Bytes)
    requires AllDigits(d)
    requires t != [] ==> !IsDigit(t[0])
    ensures DigitRun(d + t) == |d|
  {
    if d == [] {
      assert d + t == t;
    } else {
      assert (d + t)[1..] == d[1..] + t;
      DigitRunOf(d[1..], t);
    }
  }

  // ----- searching -----

  /** The index of the first `b` in `s`, or -1. */
  function IndexByte(s: Bytes, b: Byte): (i: int)
    ensures -1 <= i < |s|
    ensures i >= 0 ==> s[i] == b && b !in s[..i]
    ensures i < 0 <==> b !in s
  {
    if s == [] then -1
    else if s[0] == b then 0
    else
      var j := IndexByte(s[1..], b);
      if j < 0 then -1 else j + 1
  }

  lemma {:induction false} IndexByteOf(p: Bytes, b: Byte, t: Bytes)
    requires b !in p
    ensures IndexByte(p + [b] + t, b) == |p|
  {
    if p == [] {
      assert p + [b] + t == [b] + t;
    } else {
      assert (p + [b] + t)[1..] == p[1..] + [b] + t;
      IndexByteOf(p[1..], b, t);
    }
  }

  // ----- concatenation -----

  lemma AppendAssoc<T>(a: seq<T>, b: seq<T>, c: seq<T>)
    ensures a + (b + c) == a + b + c
  {
  }
}
