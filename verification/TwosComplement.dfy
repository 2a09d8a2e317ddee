/** Two's-complement little-endian encodings of unbounded integers
    (hegel-c/src/native/bignum.rs). */
module TwosComplement {

  type Byte = b: int | 0 <= b < 256

  /** 256 to the power `n`. */
  function Pow256(n: nat): nat {
    if n == 0 then 1 else 256 * Pow256(n - 1)
  }

  /** The unsigned value of little-endian bytes. */
  function Magnitude(bs: seq<Byte>): nat {
    if bs == [] then 0 else bs[0] + 256 * Magnitude(bs[1..])
  }

  /** The signed value: bytes whose top bit is set stand for a negative number. */
  function Signed(bs: seq<Byte>): int {
    if bs == [] then 0
    else if bs[|bs| - 1] < 128 then Magnitude(bs)
    else Magnitude(bs) - Pow256(|bs|)
  }

  /** `v` has an encoding of `n` bytes. */
  predicate Fits(v: int, n: nat) {
    n > 0 && -128 * Pow256(n - 1) <= v < 128 * Pow256(n - 1)
  }

  /** The shortest length with an encoding of `v` is `n`. */
  predicate Minimal(v: int, n: nat) {
    Fits(v, n) && (n == 1 || !Fits(v, n - 1))
  }

  // ---------- arithmetic of encodings ----------

  lemma {:induction false} PowGrows(m: nat, n: nat)
    requires m <= n
    ensures 1 <= Pow256(m) <= Pow256(n)
    decreases n
  {
    if n > 0 { PowGrows(if m == n then m - 1 else m, n - 1); }
  }

  lemma {:induction false} FitsGrows(v: int, m: nat, n: nat)
    requires Fits(v, m) && m <= n
    ensures Fits(v, n)
  {
    PowGrows(m - 1, n - 1);
  }

  lemma {:induction false} MagnitudeAppend(bs: seq<Byte>, b: Byte)
    ensures Magnitude(bs + [b]) == Magnitude(bs) + b * Pow256(|bs|)
  {
    if bs == [] {
      assert bs + [b] == [b];
    } else {
      MagnitudeAppend(bs[1..], b);
      assert (bs + [b])[1..] == bs[1..] + [b];
    }
  }

  lemma {:induction false} MagnitudeBound(bs: seq<Byte>)
    ensures Magnitude(bs) < Pow256(|bs|)
  {
    if bs != [] { MagnitudeBound(bs[1..]); }
  }

  /** The top byte places the magnitude. */
  lemma {:induction false} TopByte(bs: seq<Byte>)
    requires bs != []
    ensures var (low, top, p) := (bs[..|bs| - 1], bs[|bs| - 1], Pow256(|bs| - 1));
            Magnitude(bs) == Magnitude(low) + top * p && Magnitude(low) < p
  {
    var low := bs[..|bs| - 1];
    assert bs == low + [bs[|bs| - 1]];
    MagnitudeAppend(low, bs[|bs| - 1]);
    MagnitudeBound(low);
  }

  lemma {:induction false} MulGrows(a: nat, b: nat, p: nat)
    requires a <= b
    ensures a * p <= b * p
  {
    assert (b - a) * p >= 0;
    assert b * p == a * p + (b - a) * p;
  }

  lemma {:induction false} TopBounds(low: nat, top: nat, p: nat)
    requires low < p && top < 256
    ensures top < 128 ==> low + top * p < 128 * p
    ensures top >= 128 ==> low + top * p >= 128 * p
    ensures low + top * p < 256 * p
  {
    assert (top + 1) * p == top * p + p;
    MulGrows(top + 1, 256, p);
    if top < 128 { MulGrows(top + 1, 128, p); } else { MulGrows(128, top, p); }
  }

  /** Every encoding, minimal or not, is long enough for its value, and its
      sign is its top bit. */
  lemma {:induction false} SignedFits(bs: seq<Byte>)
    requires bs != []
    ensures Fits(Signed(bs), |bs|)
    ensures Signed(bs) < 0 <==> bs[|bs| - 1] >= 128
  {
    TopByte(bs);
    TopBounds(Magnitude(bs[..|bs| - 1]), bs[|bs| - 1], Pow256(|bs| - 1));
  }

  /** Two encodings of one value with one length are the same bytes. */
  lemma {:induction false} MagnitudeInjective(a: seq<Byte>, b: seq<Byte>)
    requires |a| == |b| && Magnitude(a) == Magnitude(b)
    ensures a == b
    decreases |a|
  {
    if a != [] {
      assert a[0] == b[0] by {
        assert (a[0] + 256 * Magnitude(a[1..])) % 256 == a[0];
        assert (b[0] + 256 * Magnitude(b[1..])) % 256 == b[0];
      }
      MagnitudeInjective(a[1..], b[1..]);
      assert a == [a[0]] + a[1..] && b == [b[0]] + b[1..];
    }
  }

  /** Repeating the sign byte above an encoding keeps its value, and taking a
      repeated sign byte off does too. */
  lemma {:induction false} SignByte(bs: seq<Byte>, fill: Byte)
    requires bs != []
    requires fill == if bs[|bs| - 1] >= 128 then 255 else 0
    ensures Signed(bs + [fill]) == Signed(bs)
  {
    MagnitudeAppend(bs, fill);
  }

  function Fill(fill: Byte, n: nat): seq<Byte> { seq(n, _ => fill) }

  /** An encoding followed by any amount of its sign decodes to its value. */
  lemma {:induction false} SignExtension(bs: seq<Byte>, fill: Byte, n: nat)
    requires bs != []
    requires fill == if bs[|bs| - 1] >= 128 then 255 else 0
    ensures Signed(bs + Fill(fill, n)) == Signed(bs)
    decreases n
  {
    if n == 0 {
      assert bs + Fill(fill, 0) == bs;
    } else {
      SignExtension(bs, fill, n - 1);
      var longer := bs + Fill(fill, n - 1);
      assert bs + Fill(fill, n) == longer + [fill];
      assert longer[|longer| - 1] == if n == 1 then bs[|bs| - 1] else fill;
      SignByte(longer, fill);
    }
  }

  /** A value between two encoded bounds needs no more bytes than the longer
      bound, however wastefully the bounds are encoded. */
  lemma {:induction false} BetweenBounds(lo: seq<Byte>, hi: seq<Byte>, v: int, n: nat)
    requires lo != [] && hi != [] && Signed(lo) <= v <= Signed(hi)
    requires Minimal(v, n)
    ensures n <= |lo| || n <= |hi|
  {
    SignedFits(lo);
    SignedFits(hi);
    var longer := if |lo| >= |hi| then |lo| else |hi|;
    FitsGrows(Signed(lo), |lo|, longer);
    FitsGrows(Signed(hi), |hi|, longer);
    assert Fits(v, longer);
    if n > longer { FitsGrows(v, longer, n - 1); }
  }

  /** Exactly `n` little-endian bytes. */
  function FixedBytes(v: nat, n: nat): (bs: seq<Byte>)
    requires v < Pow256(n)
    ensures |bs| == n && Magnitude(bs) == v
  {
    if n == 0 then []
    else
      var rest := FixedBytes(v / 256, n - 1);
      assert ([v % 256] + rest)[1..] == rest;
      [v % 256] + rest
  }

  /** Every value that fits `n` bytes has an encoding of `n` bytes. */
  lemma {:induction false} FittingHasEncoding(v: int, n: nat)
    requires Fits(v, n)
    ensures exists bs: seq<Byte> :: |bs| == n && Signed(bs) == v
  {
    assert Pow256(n) == 256 * Pow256(n - 1);
    var bs := FixedBytes(if v < 0 then v + Pow256(n) else v, n);
    TopByte(bs);
    TopBounds(Magnitude(bs[..n - 1]), bs[n - 1], Pow256(n - 1));
    assert Signed(bs) == v;
  }

  /** An encoding is minimal exactly when no other non-empty one of its value is
      shorter. */
  lemma {:induction false} MinimalIsShortest(bs: seq<Byte>)
    requires bs != []
    ensures Minimal(Signed(bs), |bs|) <==>
              forall cs: seq<Byte> | cs != [] && Signed(cs) == Signed(bs) :: |bs| <= |cs|
  {
    var v := Signed(bs);
    SignedFits(bs);
    forall cs: seq<Byte> | cs != [] && Signed(cs) == v ensures Minimal(v, |bs|) ==> |bs| <= |cs| {
      SignedFits(cs);
      if |cs| < |bs| { FitsGrows(v, |cs|, |bs| - 1); }
    }
    if !Minimal(v, |bs|) {
      FittingHasEncoding(v, |bs| - 1);
    }
  }

  // ---------- the conversions ----------

  /** The magnitude's bytes, least significant first and without a zero on top. */
  function MagnitudeBytes(v: nat): (bs: seq<Byte>)
    ensures Magnitude(bs) == v
    ensures v > 0 ==> bs != [] && bs[|bs| - 1] > 0
  {
    if v == 0 then []
    else
      var rest := MagnitudeBytes(v / 256);
      assert ([v % 256] + rest)[1..] == rest;
      [v % 256] + rest
  }

  /** Negate little-endian two's-complement bytes in place. */
  method NegateInPlace(a: array<Byte>)
    modifies a
    ensures Magnitude(a[..])
         == if Magnitude(old(a[..])) == 0 then 0 else Pow256(a.Length) - Magnitude(old(a[..]))
  {
    var carry := true;
    for i := 0 to a.Length
      invariant a[i..] == old(a[i..])
      invariant Magnitude(a[..i]) + (if carry then Pow256(i) else 0) == Pow256(i) - Magnitude(old(a[..i]))
    {
      var sum: int := 255 - (a[i] as int) + (if carry then 1 else 0);
      ghost var low, was := a[..i], a[i];
      a[i] := sum % 256;
      carry := sum >= 256;
      assert a[i + 1..] == old(a[i + 1..]) by { assert old(a[i + 1..]) == old(a[i..])[1..]; }
      assert a[..i + 1] == low + [a[i]];
      assert old(a[..i + 1]) == old(a[..i]) + [was];
      MagnitudeAppend(low, a[i]);
      MagnitudeAppend(old(a[..i]), was);
      NegateDigit(sum, was, Pow256(i));
    }
    assert a[..a.Length] == a[..] && old(a[..a.Length]) == old(a[..]);
    MagnitudeBound(a[..]);
    MagnitudeBound(old(a[..]));
  }

  lemma {:induction false} NegateDigit(sum: int, was: Byte, p: nat)
    requires sum == 255 - was || sum == 256 - was
    ensures (sum % 256) * p + (if sum >= 256 then 256 * p else 0) == sum * p
    ensures (255 - was) * p == 255 * p - was * p
    ensures (256 - was) * p == 256 * p - was * p
  {
  }

  /** A negated copy of `bytes`. */
  method Negated(bytes: seq<Byte>) returns (r: seq<Byte>)
    ensures |r| == |bytes|
    ensures Magnitude(r) == if Magnitude(bytes) == 0 then 0 else Pow256(|bytes|) - Magnitude(bytes)
  {
    var a := new Byte[|bytes|](i requires 0 <= i < |bytes| => bytes[i]);
    assert a[..] == bytes;
    NegateInPlace(a);
    r := a[..];
  }

  /** A magnitude's bytes with a zero on top when their top bit is set. */
  method Unsigned(v: nat) returns (digits: seq<Byte>, bytes: seq<Byte>)
    requires v > 0
    ensures digits == MagnitudeBytes(v) && digits != []
    ensures bytes == digits + if digits[|digits| - 1] >= 128 then [0] else []
    ensures bytes[|bytes| - 1] < 128 && Magnitude(bytes) == v
  {
    digits := MagnitudeBytes(v);
    bytes := digits;
    if bytes[|bytes| - 1] >= 128 {
      MagnitudeAppend(bytes, 0);
      bytes := bytes + [0];
    }
  }

  method ToSignedBytes(v: int) returns (bytes: seq<Byte>)
    ensures bytes != [] && Signed(bytes) == v && Minimal(v, |bytes|)
  {
    if v == 0 {
      return [0];
    }
    var digits;
    digits, bytes := Unsigned(if v < 0 then -v else v);
    SignedFits(bytes);
    if v > 0 {
      PositiveIsMinimal(digits, bytes);
      return;
    }
    bytes := NegativeBytes(bytes, -v);
  }

  method NegativeBytes(positive: seq<Byte>, ghost mag: nat) returns (bytes: seq<Byte>)
    requires positive != [] && Magnitude(positive) == mag && 0 < mag < 128 * Pow256(|positive| - 1)
    ensures bytes != [] && Signed(bytes) == 0 - mag && Minimal(0 - mag, |bytes|)
  {
    bytes := Negated(positive);
    NegatedTop(bytes, mag);
    bytes := TrimSign(bytes);
  }

  /** The loop of `to_signed_bytes_le` dropping redundant sign bytes. */
  method TrimSign(longest: seq<Byte>) returns (bytes: seq<Byte>)
    requires longest != [] && longest[|longest| - 1] >= 128
    ensures bytes != [] && Signed(bytes) == Signed(longest) && Minimal(Signed(longest), |bytes|)
  {
    bytes := longest;
    while |bytes| > 1 && bytes[|bytes| - 1] == 255 && bytes[|bytes| - 2] >= 128
      invariant bytes != [] && Signed(bytes) == Signed(longest) && bytes[|bytes| - 1] >= 128
      decreases |bytes|
    {
      ghost var longer := bytes;
      bytes := bytes[..|bytes| - 1];
      assert longer == bytes + [255];
      SignByte(bytes, 255);
    }
    NegativeIsMinimal(bytes);
  }

  /** Negating a positive value that leaves the top bit free sets it. */
  lemma {:induction false} NegatedTop(bs: seq<Byte>, mag: nat)
    requires bs != [] && 0 < mag < 128 * Pow256(|bs| - 1) && Magnitude(bs) == Pow256(|bs|) - mag
    ensures Signed(bs) == 0 - mag && bs[|bs| - 1] >= 128
  {
    TopByte(bs);
    TopBounds(Magnitude(bs[..|bs| - 1]), bs[|bs| - 1], Pow256(|bs| - 1));
  }

  lemma {:induction false} PositiveIsMinimal(digits: seq<Byte>, bytes: seq<Byte>)
    requires digits != [] && digits[|digits| - 1] > 0
    requires bytes == if digits[|digits| - 1] >= 128 then digits + [0] else digits
    requires Fits(Signed(bytes), |bytes|) && Signed(bytes) == Magnitude(digits)
    ensures Minimal(Signed(bytes), |bytes|)
  {
    var top, p := digits[|digits| - 1], Pow256(|digits| - 1);
    TopByte(digits);
    TopBounds(Magnitude(digits[..|digits| - 1]), top, p);
    MulGrows(1, top, p);
  }

  lemma {:induction false} NegativeIsMinimal(bytes: seq<Byte>)
    requires bytes != [] && bytes[|bytes| - 1] >= 128
    requires |bytes| == 1 || bytes[|bytes| - 1] < 255 || bytes[|bytes| - 2] < 128
    ensures Minimal(Signed(bytes), |bytes|)
  {
    SignedFits(bytes);
    if |bytes| > 1 {
      var n := |bytes|;
      var low, top, p := bytes[..n - 1], bytes[n - 1], Pow256(n - 1);
      TopByte(bytes);
      if top < 255 {
        MulGrows(top, 254, p);
      } else {
        TopByte(low);
        assert low[n - 2] == bytes[n - 2];
        TopBounds(Magnitude(low[..n - 2]), low[n - 2], Pow256(n - 2));
        assert top * p == 255 * p;
      }
    }
  }

  method FromSignedBytes(bytes: seq<Byte>) returns (v: int)
    ensures v == Signed(bytes)
  {
    if bytes == [] { return 0; }
    if bytes[|bytes| - 1] < 128 { return Magnitude(bytes); }
    var negated := Negated(bytes);
    SignedFits(bytes);
    v := 0 - Magnitude(negated);
    MagnitudeBound(bytes);
    assert Magnitude(bytes) > 0 by {
      TopByte(bytes);
      MulGrows(1, bytes[|bytes| - 1], Pow256(|bytes| - 1));
    }
  }
}
