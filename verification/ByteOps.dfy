/** The byte-level helpers of `stream_endian::bitstream`, and what they do to the digits of a byte. */
module ByteOps {
  import opened Bits

  lemma ByteBound(s: seq<bool>)
    requires |s| == 8
    ensures Num(s) < 256
  {
    NumBound(s);
    assert Pow2(8) == 256;
  }

  /** The lowest `k` bits of `byte`. */
  function LowestBits(byte: Byte, k: nat): nat
    requires k <= 8
  {
    And(byte, Pow2(k) - 1, 8)
  }

  /** The highest `k` bits of `byte`, moved to the right. */
  function HighestBits(byte: Byte, k: nat): nat
    requires k <= 8
  {
    var shift := 8 - k;
    var mask := Shl(0xFF, shift, 8);
    Shr(And(byte, mask, 8), shift, 8)
  }

  function HighestByte(val: nat): (r: Byte) {
    ByteBound(AndBits(ToBits(Shr(val, 56, 64), 8), ToBits(0xFF, 8)));
    And(Shr(val, 56, 64), 0xFF, 8)
  }

  /** `target` with `n` bits from the top of `source` written `offset` bits from its left. */
  function WritePartialByte(source: Byte, n: nat, target: Byte, offset: nat): (r: Byte)
    requires n <= 8 && offset <= 8
  {
    var mask := Shr(Shl(0xFF, 8 - n, 8), offset, 8);
    ByteBound(OrBits(ToBits(And(target, Not(mask, 8), 8), 8), ToBits(Shr(source, offset, 8), 8)));
    Or(And(target, Not(mask, 8), 8), Shr(source, offset, 8), 8)
  }

  lemma AllOnes()
    ensures 0xFF == Num(Ones(8)) && Pow2(8) == 256
  {
    NumOnes(8);
  }

  lemma LowestBitsDigits(byte: Byte, k: nat)
    requires k <= 8
    ensures LowestBits(byte, k) == Num(ByteBits(byte)[8 - k..])
  {
    hide Num, ToBits, And, Pow2;
    ByteDigits(byte);
    AndMask(ByteBits(byte), k);
  }

  lemma HighestBitsDigits(byte: Byte, k: nat)
    requires k <= 8
    ensures HighestBits(byte, k) == Num(ByteBits(byte)[..k])
  {
    hide Num, ToBits;
    var s := ByteBits(byte);
    ByteDigits(byte);
    AllOnes();
    ToBitsOfNum(Ones(8));
    var m := ShlBits(Ones(8), 8 - k);
    assert m == Ones(k) + Zeros(8 - k);
    AndOfDigits(s, m);
    ToBitsOfNum(AndBits(s, m));
    assert ShrBits(AndBits(s, m), 8 - k) == Zeros(8 - k) + s[..k];
    NumLeadingZeros(8 - k, s[..k]);
  }

  lemma HighestByteDigits(s: seq<bool>)
    requires |s| == 64
    ensures HighestByte(Num(s)) == Num(s[..8])
  {
    ToBitsOfNum(s);
    assert ShrBits(s, 56) == Zeros(56) + s[..8];
    NumLeadingZeros(56, s[..8]);
    AndMask(s[..8], 8);
    assert Pow2(8) == 256;
    assert s[..8][0..] == s[..8];
  }

  /** Digits of `source` after the first `n` must be zero as far as they stay inside the byte: they
      are or-ed in unmasked. */
  lemma WritePartialByteDigits(src: seq<bool>, n: nat, target: Byte, offset: nat)
    requires |src| == 8 && n + offset <= 8
    requires forall i :: n <= i < 8 - offset ==> !src[i]
    requires Num(src) < 256
    ensures var t := ByteBits(target);
            ByteBits(WritePartialByte(Num(src), n, target, offset)) == t[..offset] + src[..n] + t[offset + n..]
  {
    var t := ByteBits(target);
    ByteDigits(target);
    AllOnes();
    ToBitsOfNum(Ones(8));
    var m1 := ShlBits(Ones(8), 8 - n);
    ToBitsOfNum(m1);
    var m2 := ShrBits(m1, offset);
    ToBitsOfNum(m2);
    ToBitsOfNum(src);
    MaskDigits(src, n, t, offset);
    AndOfDigits(t, NotBits(m2));
    OrOfDigits(AndBits(t, NotBits(m2)), ShrBits(src, offset));
    ToBitsOfNum(t[..offset] + src[..n] + t[offset + n..]);
  }

  lemma MaskDigits(src: seq<bool>, n: nat, t: seq<bool>, offset: nat)
    requires |src| == |t| == 8 && n + offset <= 8
    requires forall i :: n <= i < 8 - offset ==> !src[i]
    ensures var mask := ShrBits(ShlBits(Ones(8), 8 - n), offset);
            OrBits(AndBits(t, NotBits(mask)), ShrBits(src, offset)) == t[..offset] + src[..n] + t[offset + n..]
  {
  }
}
