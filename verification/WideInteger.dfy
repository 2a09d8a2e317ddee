/** Drawing integers through fixed-width byte buffers
    (hegel-c/src/lib.rs, src/ffi.rs, src/generators/numeric.rs). */
module WideInteger {
  import opened Wrappers
  import opened Abi
  import opened TwosComplement

  /** What the engine's integer draw answers. */
  datatype Draw = Drawn(value: int) | Failed(rc: ResultCode)

  /** The engine draws within the bounds it is given. */
  ghost predicate Honest(lo: seq<Byte>, hi: seq<Byte>, draw: Draw) {
    match draw
    case Drawn(v) => Signed(lo) <= v <= Signed(hi)
    case Failed(rc) => rc != OK
  }

  /** No argument is null (`None`), and no bound is empty. */
  predicate WellCalled(lo: Option<seq<Byte>>, hi: Option<seq<Byte>>, out: array?<Byte>, length: Option<nat>) {
    lo.Some? && hi.Some? && lo.value != [] && hi.value != [] && out != null && length.Some?
  }

  /** `guard` is what the handle's own check answers, and `length` what the length
      argument points to. */
  method GenerateIntegerBig(
      guard: ResultCode, lo: Option<seq<Byte>>, hi: Option<seq<Byte>>, out: array?<Byte>, length: Option<nat>, draw: Draw)
    returns (rc: ResultCode, length': Option<nat>)
    requires WellCalled(lo, hi, out, length) ==> Honest(lo.value, hi.value, draw)
    modifies out
    ensures guard != OK ==> rc == guard
    ensures guard == OK && !WellCalled(lo, hi, out, length) ==> rc == InvalidArg
    ensures guard == OK && WellCalled(lo, hi, out, length) ==>
              && (draw.Failed? ==> rc == draw.rc)
              && (draw.Drawn? ==> rc == if Fits(draw.value, out.Length) then OK else InvalidArg)
              && (draw.Drawn? && |lo.value| <= out.Length && |hi.value| <= out.Length ==> rc == OK)
    ensures rc == OK ==>
              && out != null && draw.Drawn? && length'.Some? && 0 < length'.value <= out.Length
              && Minimal(draw.value, length'.value)
              && Signed(out[..length'.value]) == draw.value && Signed(out[..]) == draw.value
    ensures rc != OK ==> length' == length && (out != null ==> out[..] == old(if out == null then [] else out[..]))
  {
    length' := length;
    if guard != OK { return guard, length; }
    if lo == None || hi == None { return InvalidArg, length; }
    if lo.value == [] || hi.value == [] { return InvalidArg, length; }
    if out == null || length == None { return InvalidArg, length; }
    match draw {
      case Failed(code) => return code, length;
      case Drawn(v) =>
        var low := FromSignedBytes(lo.value);
        var high := FromSignedBytes(hi.value);
        assert low <= v <= high;
        var bytes := ToSignedBytes(v);
        BetweenBounds(lo.value, hi.value, v, |bytes|);
        if |bytes| > out.Length {
          if Fits(v, out.Length) { FitsGrows(v, out.Length, |bytes| - 1); }
          return InvalidArg, length;
        }
        FitsGrows(v, |bytes|, out.Length);
        var fill := if bytes[|bytes| - 1] >= 128 then 255 else 0;
        forall i | 0 <= i < out.Length {
          out[i] := if i < |bytes| then bytes[i] else fill;
        }
        assert out[..|bytes|] == bytes;
        assert out[..] == bytes + Fill(fill, out.Length - |bytes|);
        SignExtension(bytes, fill, out.Length - |bytes|);
        return OK, Some(|bytes|);
    }
  }

  // ---------- the frontend's 17-byte buffer ----------

  const TWO_TO_127: int := 0x8000_0000_0000_0000_0000_0000_0000_0000

  predicate IsI128(v: int) { Fits(v, 16) }

  predicate IsU128(v: int) { 0 <= v < Pow256(16) }

  /** These are the ranges of the two types. */
  lemma {:induction false} WidthOfI128()
    ensures forall v :: IsI128(v) <==> -TWO_TO_127 <= v < TWO_TO_127
    ensures forall v :: IsU128(v) <==> 0 <= v < 2 * TWO_TO_127
  {
    assert Pow256(4) == 0x1_0000_0000 by {
      assert Pow256(1) == 256 && Pow256(2) == 65536 && Pow256(3) == 0x100_0000;
    }
    assert Pow256(8) == 0x1_0000_0000_0000_0000 by {
      assert Pow256(5) == 0x100_0000_0000 && Pow256(6) == 0x1_0000_0000_0000 && Pow256(7) == 0x100_0000_0000_0000;
    }
    assert Pow256(12) == 0x1_0000_0000_0000_0000_0000_0000 by {
      assert Pow256(9) == 256 * Pow256(8) && Pow256(10) == 256 * Pow256(9) && Pow256(11) == 256 * Pow256(10);
    }
    assert Pow256(13) == 256 * Pow256(12) && Pow256(14) == 256 * Pow256(13) && Pow256(15) == 256 * Pow256(14);
  }

  /** An `i128` or a `u128`, sign-extended to 17 bytes. */
  function ToLe17(v: int): seq<Byte>
    requires IsI128(v) || IsU128(v)
  {
    if v < 0 then
      assert -128 * Pow256(15) <= v && Pow256(16) == 256 * Pow256(15);
      FixedBytes(v + Pow256(16), 16) + [255]
    else
      assert v < 128 * Pow256(15) ==> v < Pow256(16);
      FixedBytes(v, 16) + [0]
  }

  /** Reading the low 16 bytes back as an `i128`, or as a `u128`. */
  function SignedFromLe17(bs: seq<Byte>): int
    requires |bs| == 17
  {
    Signed(bs[..16])
  }

  function UnsignedFromLe17(bs: seq<Byte>): nat
    requires |bs| == 17
  {
    Magnitude(bs[..16])
  }

  lemma {:induction false} Le17Encodes(v: int)
    requires IsI128(v) || IsU128(v)
    ensures |ToLe17(v)| == 17 && Signed(ToLe17(v)) == v
  {
    var low := FixedBytes(if v < 0 then v + Pow256(16) else v, 16);
    var top := if v < 0 then 255 else 0;
    assert ToLe17(v) == low + [top];
    MagnitudeAppend(low, top);
    assert Pow256(17) == 256 * Pow256(16);
  }

  /** Seventeen bytes hold any `i128` or `u128`, and the low sixteen give it
      back whatever encoding fills them. */
  lemma {:induction false} Le17Decodes(bs: seq<Byte>, v: int)
    requires |bs| == 17 && Signed(bs) == v
    ensures IsI128(v) ==> SignedFromLe17(bs) == v
    ensures IsU128(v) ==> UnsignedFromLe17(bs) == v
  {
    var low := bs[..16];
    var m, p := Magnitude(low), Pow256(15);
    PowSteps();
    TopByte(low);
    TopBounds(Magnitude(low[..15]), low[15], p);
    if IsU128(v) || IsI128(v) {
      SplitTop(bs, v);
    }
  }

  lemma {:induction false} PowSteps()
    ensures Pow256(16) == 256 * Pow256(15) && Pow256(17) == 256 * Pow256(16)
  {
  }

  /** The 17th byte of such a value is only its sign. */
  lemma {:induction false} SplitTop(bs: seq<Byte>, v: int)
    requires |bs| == 17 && Signed(bs) == v && (IsI128(v) || IsU128(v))
    ensures Magnitude(bs[..16]) == if v < 0 then v + Pow256(16) else v
  {
    PowSteps();
    TopByte(bs);
    SignOnly(Magnitude(bs[..16]), bs[16], Pow256(16), v);
  }

  lemma {:induction false} SignOnly(m: nat, top: nat, p: nat, v: int)
    requires m < p && top < 256
    requires v == if top < 128 then m + top * p else m + top * p - 256 * p
    ensures 0 <= v < p ==> m == v
    ensures 0 - p < v < 0 ==> m == v + p
  {
    if top == 0 {
      assert top * p == 0;
    } else if top < 128 {
      MulGrows(1, top, p);
    } else if top < 255 {
      MulGrows(top, 254, p);
    } else {
      assert top * p == 255 * p;
    }
  }

  /** A draw through the frontend, of a signed or an unsigned type: bounds in,
      value out. The buffer is never too small, whatever the range. */
  method DrawWide(signed: bool, lo: int, hi: int, draw: Draw) returns (rc: ResultCode, v: int)
    requires if signed then IsI128(lo) && IsI128(hi) else IsU128(lo) && IsU128(hi)
    requires draw.Drawn? ==> lo <= draw.value <= hi
    requires draw.Failed? ==> draw.rc != OK
    ensures draw.Drawn? ==> rc == OK && v == draw.value
    ensures draw.Failed? ==> rc == draw.rc
  {
    Le17Encodes(lo);
    Le17Encodes(hi);
    var out := new Byte[17](_ => 0);
    var length;
    rc, length := GenerateIntegerBig(OK, Some(ToLe17(lo)), Some(ToLe17(hi)), out, Some(0), draw);
    v := 0;
    if rc == OK {
      Le17Decodes(out[..], draw.value);
      v := if signed then SignedFromLe17(out[..]) else UnsignedFromLe17(out[..]);
    }
  }

  /** Sixteen bytes are not enough: the full `u128` range needs the 17th. */
  lemma {:induction false} SixteenBytesAreTooFew()
    ensures IsU128(Pow256(16) - 1) && !Fits(Pow256(16) - 1, 16)
  {
    PowGrows(0, 15);
    assert Pow256(16) == 256 * Pow256(15);
  }
}
