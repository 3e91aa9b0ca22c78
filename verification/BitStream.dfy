/** `stream_endian::bitstream`: a bit cursor over a byte buffer. */
module BitStreams {
  import opened Slices
  import opened Bits
  import opened ByteOps
  import opened ExpGolomb

  class BitStream {
    const bytes: array<Byte>
    var byteOffset: nat
    var bitOffset: nat

    ghost predicate Valid()
      reads this
    {
      bitOffset <= 7 && byteOffset <= bytes.Length && (byteOffset == bytes.Length ==> bitOffset == 0)
    }

    /** The whole buffer as one digit sequence. */
    ghost function Stream(): (s: seq<bool>)
      reads bytes
      ensures |s| == 8 * bytes.Length
    {
      Flat(bytes[..])
    }

    ghost function Cursor(): (c: nat)
      reads this
    {
      8 * byteOffset + bitOffset
    }

    /** The digits from the cursor on. */
    ghost function Ahead(): (s: seq<bool>)
      requires Valid()
      reads this, bytes
    {
      Stream()[Cursor()..]
    }

    constructor (buffer: array<Byte>)
      ensures Valid() && bytes == buffer && Cursor() == 0
    {
      bytes, byteOffset, bitOffset := buffer, 0, 0;
    }

    function RemainingBitCount(): (n: nat)
      requires Valid()
      reads this, bytes
      ensures n == |Ahead()| == 8 * bytes.Length - Cursor()
    {
      (bytes.Length - byteOffset) * 8 - bitOffset
    }

    method ConsumeBits(n: nat) returns (ok: bool)
      requires Valid()
      modifies this
      ensures Valid()
      ensures ok <==> n <= 8 * bytes.Length - old(Cursor())
      ensures Cursor() == old(Cursor()) + (if ok then n else 0)
    {
      if n > RemainingBitCount() {
        return false;
      }
      byteOffset, bitOffset := byteOffset + (bitOffset + n) / 8, (bitOffset + n) % 8;
      return true;
    }

    method Seek(toByte: nat, toBit: nat) returns (ok: bool)
      requires Valid()
      modifies this
      ensures Valid()
      ensures ok <==> toBit <= 7 && 8 * toByte + toBit <= 8 * bytes.Length
      ensures Cursor() == if ok then 8 * toByte + toBit else old(Cursor())
    {
      if toByte > bytes.Length || toBit > 7 || (toByte == bytes.Length && toBit > 0) {
        return false;
      }
      byteOffset, bitOffset := toByte, toBit;
      return true;
    }

    /** The number spelled by the next `n` digits, at any alignment. It always looks at the current
        byte, so there must be one even if no digit is asked for. */
    method PeekBits(n: nat) returns (ok: bool, val: nat)
      requires Valid() && (n == 0 ==> RemainingBitCount() > 0)
      ensures ok <==> n <= 32 && n <= RemainingBitCount()
      ensures ok ==> val == Num(Ahead()[..n])
    {
      hide Num, ToBits, Flat, Shl, Shr, Or, LowestBits, HighestBits, WritePartialByte, HighestByte, LeadingZeros;
      if n > RemainingBitCount() || n > 32 {
        return false, 0;
      }
      ghost var a, s, c := bytes[..], Stream(), Cursor();
      TakeOfDrop(s, c, n);
      var inCurrent := 8 - bitOffset;
      var i := byteOffset;
      PeekFirst(a, i, bitOffset);
      var bits := LowestBits(bytes[i], inCurrent);
      i := i + 1;
      if n < inCurrent {
        PeekInside(s[c..8 * i], bitOffset, n);
        TakeOfSlice(s, c, 8 * i, n);
        return true, HighestBits(bits, bitOffset + n);
      }
      var left: nat := n - inCurrent;
      while left >= 8
        invariant byteOffset < i <= bytes.Length
        invariant 8 * i + left == c + n
        invariant bits == Num(s[c..8 * i])
      {
        PeekNext(a, i, c);
        bits := Or(Shl(bits, 8, 32), bytes[i], 32);
        i, left := i + 1, left - 8;
      }
      if left > 0 {
        PeekLast(a, i, c, left);
        bits := Or(Shl(bits, left, 32), HighestBits(bytes[i], left), 32);
        assert 8 * i + left == c + n;
      } else {
        assert 8 * i == c + n;
      }
      return true, bits;
    }

    method ReadBits(n: nat) returns (ok: bool, val: nat)
      requires Valid() && (n == 0 ==> RemainingBitCount() > 0)
      modifies this
      ensures Valid()
      ensures ok <==> n <= 32 && n <= |old(Ahead())|
      ensures ok ==> val == Num(old(Ahead())[..n])
      ensures Cursor() == old(Cursor()) + (if ok then n else 0)
    {
      ok, val := PeekBits(n);
      if ok {
        ok := ConsumeBits(n);
      }
    }

    /** Puts the low `n` digits of `val` at the cursor and leaves every other digit alone; without
        room it changes nothing. */
    method WriteBits(val: nat, n: nat) returns (ok: bool)
      requires Valid() && val < Pow2(64) && 1 <= n <= 64
      modifies this, bytes
      ensures Valid()
      ensures ok <==> n <= |old(Ahead())|
      ensures ok ==> Cursor() == old(Cursor()) + n
      ensures ok ==> Stream() == Splice(old(Stream()), old(Cursor()), ToBits(val, n))
      ensures !ok ==> unchanged(this) && unchanged(bytes)
    {
      hide Num, ToBits, Flat, Shl, WritePartialByte, HighestByte, Zeros, Pow2;
      if n > RemainingBitCount() {
        return false;
      }
      ghost var a, s, c, d := bytes[..], Stream(), Cursor(), ToBits(val, n);
      ShiftUp(val, n);
      var rest := Shl(val, 64 - n, 64);
      var i := byteOffset;
      var inCurrent := 8 - bitOffset;
      var first := if n < inCurrent then n else inCurrent;
      FirstByte(a, i, bitOffset, d, first);
      var b := WritePartialByte(HighestByte(rest), first, bytes[i], bitOffset);
      bytes[i] := b;
      UpdateParts(a, i, b);
      assert bytes[..] == a[i := b];
      if n <= inCurrent {
        ok := ConsumeBits(n);
        return;
      }
      ShiftOff(d, first);
      WriteRest(i + 1, Shl(rest, first, 64), n - first, a, s[..c], d);
      ok := ConsumeBits(n);
    }

    /** The part of WriteBits after the first byte: `rest` holds the last `left` digits of `d`
        in its highest bits, and the bytes before `start` already spell `p` and the others. */
    method WriteRest(start: nat, rest: nat, left: nat, ghost a: seq<Byte>, ghost p: seq<bool>, ghost d: seq<bool>)
      requires start <= bytes.Length == |a| && 8 * start + left <= 8 * bytes.Length
      requires left <= |d| <= 64 && rest == Num(d[|d| - left..] + Zeros(64 - left))
      requires Flat(bytes[..][..start]) == p + d[..|d| - left] && bytes[..][start..] == a[start..]
      modifies bytes
      ensures Stream() == p + d + Flat(a)[8 * start + left..]
    {
      hide Num, Flat, Shl, WritePartialByte, HighestByte, Zeros;
      var i, val, n := start, rest, left;
      while n >= 8
        invariant start <= i <= bytes.Length && 8 * i + n == 8 * start + left && 0 <= n <= left
        invariant val == Num(d[|d| - n..] + Zeros(64 - n))
        invariant Flat(bytes[..][..i]) == p + d[..|d| - n]
        invariant bytes[..][i..] == a[i..]
      {
        ghost var before := bytes[..];
        MiddleByte(before, a, i, p, d, |d| - n);
        bytes[i] := HighestByte(val);
        assert bytes[..] == before[i := HighestByte(val)];
        ShiftOff(d[|d| - n..], 8);
        DropOfDrop(d, |d| - n, 8);
        val := Shl(val, 8, 64);
        i, n := i + 1, n - 8;
      }
      ghost var before := bytes[..];
      if n > 0 {
        LastByte(before, a, i, p, d, |d| - n);
        var b := WritePartialByte(HighestByte(val), n, bytes[i], 0);
        bytes[i] := b;
        assert bytes[..] == before[i := b];
      } else {
        WholeBytes(before, a, i, p, d);
      }
    }

    /** The number of digits of `val`. */
    method CountBits(val: nat) returns (count: nat)
      requires val < Pow2(64)
      ensures count == BitLength(val)
    {
      var v: nat := val;
      count := 0;
      while v != 0
        invariant v < Pow2(64) && count + BitLength(v) == BitLength(val)
      {
        HalfIsShift(v);
        count, v := count + 1, Shr(v, 1, 64);
      }
    }

    method WriteExponentialGolomb(val: nat) returns (ok: bool)
      requires Valid() && val <= UINT32_MAX
      modifies this, bytes
      ensures Valid()
      ensures ok <==> val < UINT32_MAX && |Code(val)| <= |old(Ahead())|
      ensures ok ==> Cursor() == old(Cursor()) + |Code(val)|
      ensures ok ==> Stream() == Splice(old(Stream()), old(Cursor()), Code(val))
      ensures !ok ==> unchanged(this) && unchanged(bytes)
    {
      hide ToBits, Flat, BitLength, Pow2, Code;
      if val == UINT32_MAX {
        return false;
      }
      Pow2Values();
      CodeLength(val);
      CodeIsPaddedNumber(val);
      var count := CountBits(val + 1);
      ok := WriteBits(val + 1, count * 2 - 1);
    }

    /** Reads a code at the cursor. After a failure the cursor is past the leading zeros. */
    method ReadExponentialGolomb() returns (ok: bool, val: nat)
      requires Valid()
      modifies this
      ensures Valid()
      ensures ok <==> old(Decode(Ahead()).Value?)
      ensures ok ==> val == old(Decode(Ahead()).value)
      ensures Cursor() == old(Cursor() + Decode(Ahead()).used)
    {
      hide Num, Flat, Pow2, LeadingZeros, Decode;
      ghost var s := Ahead();
      var zeros := SkipZeros();
      DecodeAfterZeros(s, zeros);
      var n := zeros + 1;
      if n > 32 {
        return false, 0;
      }
      ok, val := ReadBits(n);
      if ok {
        val := val - 1;
      }
    }

    /** Counts the leading zeros by peeking and consuming them one at a time. */
    method SkipZeros() returns (zeros: nat)
      requires Valid()
      modifies this
      ensures Valid() && zeros == LeadingZeros(old(Ahead()))
      ensures Cursor() == old(Cursor()) + zeros && Ahead() == old(Ahead())[zeros..]
    {
      hide Num, Flat, LeadingZeros;
      ghost var s := Ahead();
      zeros := 0;
      var peeked, bit := PeekBits(1);
      while peeked && bit == 0
        invariant Valid() && zeros <= |s| && Cursor() == old(Cursor()) + zeros
        invariant forall j :: 0 <= j < zeros ==> !s[j]
        invariant peeked <==> zeros < |s|
        invariant peeked ==> bit == Num(s[zeros..][..1])
        decreases |s| - zeros
      {
        NextDigit(s, zeros);
        var _ := ConsumeBits(1);
        zeros := zeros + 1;
        assert Ahead() == s[zeros..];
        peeked, bit := PeekBits(1);
      }
      if zeros < |s| {
        NextDigit(s, zeros);
      }
      LeadingZerosUnique(s, zeros);
    }

    method WriteSignedExponentialGolomb(val: int) returns (ok: bool)
      requires Valid() && INT32_MIN <= val <= INT32_MAX
      modifies this, bytes
      ensures Valid()
      ensures var c := Code(SignedToIndex(val));
              && (ok <==> val != INT32_MIN && |c| <= |old(Ahead())|)
              && (ok ==> Cursor() == old(Cursor()) + |c|)
              && (ok ==> Stream() == Splice(old(Stream()), old(Cursor()), c))
      ensures !ok ==> unchanged(this) && unchanged(bytes)
    {
      hide Code, Flat;
      if val == 0 {
        ok := WriteExponentialGolomb(0);
      } else if val > 0 {
        var unsigned := val;
        ok := WriteExponentialGolomb(unsigned * 2 - 1);
      } else if val == INT32_MIN {
        ok := false;
      } else {
        var unsigned := -val;
        ok := WriteExponentialGolomb(unsigned * 2);
      }
    }

    method ReadSignedExponentialGolomb() returns (ok: bool, val: int)
      requires Valid()
      modifies this
      ensures Valid()
      ensures ok <==> old(Decode(Ahead()).Value?)
      ensures ok ==> val == IndexToSigned(old(Decode(Ahead()).value)) && INT32_MIN < val <= INT32_MAX
      ensures Cursor() == old(Cursor() + Decode(Ahead()).used)
    {
      hide And, Flat, Decode;
      ghost var s := Ahead();
      var unsigned: nat;
      val := 0;
      ok, unsigned := ReadExponentialGolomb();
      if ok {
        DecodedIsCode(s, unsigned, Decode(s).used);
        if And(unsigned, 1, 32) == 0 {
          val := -(unsigned / 2);
        } else {
          val := (unsigned + 1) / 2;
        }
        LowDigitIsParity(unsigned);
      }
    }

    /** Writes the codes of `values` one after the other, giving up at the first that fails. */
    method WriteAll(values: seq<nat>) returns (ok: bool)
      requires Valid() && forall i :: 0 <= i < |values| ==> values[i] <= UINT32_MAX
      modifies this, bytes
      ensures Valid()
      ensures ok <==> Encodable(values) && |Codes(values)| <= |old(Ahead())|
      ensures ok ==> Cursor() == old(Cursor()) + |Codes(values)|
      ensures ok ==> Stream() == Splice(old(Stream()), old(Cursor()), Codes(values))
    {
      hide Codes, Code, Flat, Splice;
      ghost var s, c := Stream(), Cursor();
      CodesOfNone(values);
      SpliceNothing(s, c);
      var i := 0;
      while i < |values|
        invariant 0 <= i <= |values| && Valid() && Encodable(values[..i])
        invariant c + |Codes(values[..i])| <= |s| && Cursor() == c + |Codes(values[..i])|
        invariant Stream() == Splice(s, c, Codes(values[..i]))
      {
        CodesExtend(values, i);
        ok := WriteExponentialGolomb(values[i]);
        if !ok {
          return;
        }
        SpliceTwice(s, c, Codes(values[..i]), Code(values[i]));
        i := i + 1;
      }
      assert values[..i] == values;
      return true;
    }

    /** Reads `count` codes one after the other. */
    method ReadAll(count: nat) returns (ok: bool, values: seq<nat>)
      requires Valid()
      modifies this
      ensures Valid()
      ensures ok <==> old(DecodeAll(Ahead(), count).Value?)
      ensures ok ==> values == old(DecodeAll(Ahead(), count).value)
      ensures Cursor() == old(Cursor() + DecodeAll(Ahead(), count).used)
    {
      hide Decode, DecodeAll, After, Flat;
      ghost var s, c := Ahead(), Cursor();
      values := [];
      var i := 0;
      ReadStart(DecodeAll(s, count));
      while i < count
        invariant 0 <= i <= count && Valid() && Cursor() >= c
        invariant DecodeAll(s, count) == After(values, Cursor() - c, DecodeAll(Ahead(), count - i))
      {
        ghost var r, before := Decode(Ahead()), Cursor();
        ReadStep(Ahead(), count - i, values, before - c);
        var v;
        ok, v := ReadExponentialGolomb();
        if !ok {
          return;
        }
        DropOfDrop(Stream(), before, r.used);
        values := values + [v];
        i := i + 1;
      }
      ReadDone(Ahead(), values, Cursor() - c);
      return true, values;
    }

    /** Whatever the buffer holds and wherever the cursor stands, a list of values whose codes fit is
        written, read back from the same place unchanged, and left behind at the same cursor. */
    method RoundTrip(values: seq<nat>) returns (ok: bool, back: seq<nat>)
      requires Valid() && forall i :: 0 <= i < |values| ==> values[i] <= UINT32_MAX
      modifies this, bytes
      ensures Valid()
      ensures ok <==> Encodable(values) && |Codes(values)| <= |old(Ahead())|
      ensures ok ==> back == values && Cursor() == old(Cursor()) + |Codes(values)|
      ensures ok ==> Stream() == Splice(old(Stream()), old(Cursor()), Codes(values))
    {
      hide Codes, DecodeAll, Flat, Splice;
      ghost var s, c := Stream(), Cursor();
      var startByte, startBit := byteOffset, bitOffset;
      back := [];
      ok := WriteAll(values);
      if ok {
        var _ := Seek(startByte, startBit);
        SpliceAhead(s, c, Codes(values));
        DecodeAllOfCodes(values, s[c + |Codes(values)|..]);
        ok, back := ReadAll(|values|);
      }
    }

    method WriteAllSigned(values: seq<int>) returns (ok: bool)
      requires Valid() && forall i :: 0 <= i < |values| ==> INT32_MIN <= values[i] <= INT32_MAX
      modifies this, bytes
      ensures Valid()
      ensures ok <==> INT32_MIN !in values && |Codes(Indices(values))| <= |old(Ahead())|
      ensures ok ==> Cursor() == old(Cursor()) + |Codes(Indices(values))|
      ensures ok ==> Stream() == Splice(old(Stream()), old(Cursor()), Codes(Indices(values)))
    {
      hide Codes, Code, Flat, Splice;
      ghost var s, c, us := Stream(), Cursor(), Indices(values);
      CodesOfNone(us);
      SpliceNothing(s, c);
      var i := 0;
      while i < |values|
        invariant 0 <= i <= |values| && Valid() && INT32_MIN !in values[..i]
        invariant c + |Codes(us[..i])| <= |s| && Cursor() == c + |Codes(us[..i])|
        invariant Stream() == Splice(s, c, Codes(us[..i]))
      {
        CodesExtend(us, i);
        ok := WriteSignedExponentialGolomb(values[i]);
        if !ok {
          return;
        }
        SpliceTwice(s, c, Codes(us[..i]), Code(us[i]));
        i := i + 1;
      }
      assert us[..i] == us && values[..i] == values;
      return true;
    }

    method ReadAllSigned(count: nat) returns (ok: bool, values: seq<int>)
      requires Valid()
      modifies this
      ensures Valid()
      ensures ok <==> old(DecodeAll(Ahead(), count).Value?)
      ensures ok ==> values == SignedValues(old(DecodeAll(Ahead(), count).value))
      ensures Cursor() == old(Cursor() + DecodeAll(Ahead(), count).used)
    {
      hide Decode, DecodeAll, After, Flat;
      ghost var s, c := Ahead(), Cursor();
      ghost var us: seq<nat> := [];
      values := [];
      var i := 0;
      ReadStart(DecodeAll(s, count));
      while i < count
        invariant 0 <= i <= count && Valid() && Cursor() >= c && values == SignedValues(us)
        invariant DecodeAll(s, count) == After(us, Cursor() - c, DecodeAll(Ahead(), count - i))
      {
        ghost var r, before := Decode(Ahead()), Cursor();
        ReadStep(Ahead(), count - i, us, before - c);
        var v;
        ok, v := ReadSignedExponentialGolomb();
        if !ok {
          return;
        }
        DropOfDrop(Stream(), before, r.used);
        us, values := us + [r.value], values + [v];
        i := i + 1;
      }
      ReadDone(Ahead(), us, Cursor() - c);
      return true, values;
    }

    /** The same for signed values: every 32-bit integer but the smallest. */
    method SignedRoundTrip(values: seq<int>) returns (ok: bool, back: seq<int>)
      requires Valid() && forall i :: 0 <= i < |values| ==> INT32_MIN <= values[i] <= INT32_MAX
      modifies this, bytes
      ensures Valid()
      ensures ok <==> INT32_MIN !in values && |Codes(Indices(values))| <= |old(Ahead())|
      ensures ok ==> back == values && Cursor() == old(Cursor()) + |Codes(Indices(values))|
      ensures ok ==> Stream() == Splice(old(Stream()), old(Cursor()), Codes(Indices(values)))
    {
      hide Codes, DecodeAll, Flat, Splice;
      ghost var s, c, codes := Stream(), Cursor(), Codes(Indices(values));
      var startByte, startBit := byteOffset, bitOffset;
      back := [];
      ok := WriteAllSigned(values);
      if ok {
        var _ := Seek(startByte, startBit);
        SpliceAhead(s, c, codes);
        SignedListRoundTrip(values, s[c + |codes|..]);
        ok, back := ReadAllSigned(|values|);
      }
    }
  }

  /** Reading after writing gives the value modulo 2^n. */
  lemma ReadAfterWrite(s: seq<bool>, c: nat, val: nat, n: nat)
    requires c + n <= |s|
    ensures Num(Splice(s, c, ToBits(val, n))[c..][..n]) == val % Pow2(n)
  {
    SpliceAhead(s, c, ToBits(val, n));
    NumOfLowDigits(val, n);
    assert (ToBits(val, n) + s[c + n..])[..n] == ToBits(val, n);
  }

  // ---- steps of WriteAll and ReadAll ----

  lemma CodesOfNone(vs: seq<nat>)
    ensures Codes(vs[..0]) == []
  {
  }

  lemma ReadStart(r: Decoded<seq<nat>>)
    ensures After([], 0, r) == r
  {
    if r.Value? {
      assert [] + r.value == r.value;
    }
  }

  lemma ReadDone(s: seq<bool>, vs: seq<nat>, used: nat)
    ensures After(vs, used, DecodeAll(s, 0)) == Value(vs, used)
  {
    assert vs + [] == vs;
  }

  lemma ReadStep(s: seq<bool>, count: nat, vs: seq<nat>, used: nat)
    requires count >= 1
    ensures match Decode(s)
            case Bad(z) => After(vs, used, DecodeAll(s, count)) == Bad(used + z)
            case Value(v, k) =>
              k <= |s| && After(vs, used, DecodeAll(s, count)) == After(vs + [v], used + k, DecodeAll(s[k..], count - 1))
  {
    if Decode(s).Value? && DecodeAll(s[Decode(s).used..], count - 1).Value? {
      AppendAssoc(vs, [Decode(s).value], DecodeAll(s[Decode(s).used..], count - 1).value);
    }
  }

  /** Decoding, once the leading zeros are counted. */
  lemma DecodeAfterZeros(s: seq<bool>, z: nat)
    requires z == LeadingZeros(s)
    ensures Decode(s).Value? <==> z + 1 <= 32 && z + 1 <= |s[z..]|
    ensures Decode(s).Bad? ==> Decode(s).used == z
    ensures Decode(s).Value? ==>
      && Num(s[z..][..z + 1]) >= 1
      && Decode(s).value == Num(s[z..][..z + 1]) - 1 && Decode(s).used == z + z + 1
  {
    hide Num, LeadingZeros;
    if z + 1 <= |s[z..]| {
      TakeOfDrop(s, z, z + 1);
      FirstDigit(s[z..z + z + 1]);
    }
  }

  // ---- steps of PeekBits ----

  lemma NextDigit(s: seq<bool>, i: nat)
    requires i < |s|
    ensures Num(s[i..][..1]) == if s[i] then 1 else 0
  {
    assert s[i..][..1] == [s[i]];
    NumOfDigit(s[i]);
  }

  lemma PeekFirst(a: seq<Byte>, i: nat, offset: nat)
    requires i < |a| && offset <= 7
    ensures LowestBits(a[i], 8 - offset) == Num(Flat(a)[8 * i + offset..8 * (i + 1)])
  {
    hide *;
    FlatByte(a, i);
    LowestBitsDigits(a[i], 8 - offset);
    DropOfSlice(Flat(a), 8 * i, 8 * i + 8, offset);
  }

  /** `r` is the rest of the current byte, whose first `offset` bits have been masked off. */
  lemma PeekInside(r: seq<bool>, offset: nat, n: nat)
    requires offset + |r| == 8 && n <= |r|
    ensures Num(r) < 256 && HighestBits(Num(r), offset + n) == Num(r[..n])
  {
    hide Num, ToBits, HighestBits, Zeros;
    NumLeadingZeros(offset, r);
    ByteBound(Zeros(offset) + r);
    ToBitsOfNum(Zeros(offset) + r);
    HighestBitsDigits(Num(r), offset + n);
    TakeOfAppend(Zeros(offset), r, n);
    NumLeadingZeros(offset, r[..n]);
  }

  lemma PeekNext(a: seq<Byte>, i: nat, c: nat)
    requires i < |a| && c <= 8 * i <= c + 24
    ensures Or(Shl(Num(Flat(a)[c..8 * i]), 8, 32), a[i], 32) == Num(Flat(a)[c..8 * (i + 1)])
  {
    hide *;
    FlatByte(a, i);
    ByteDigits(a[i]);
    OrAppends(Flat(a)[c..8 * i], ByteBits(a[i]), 32);
    Glue(Flat(a), c, 8 * i, 8 * i + 8);
  }

  lemma PeekLast(a: seq<Byte>, i: nat, c: nat, n: nat)
    requires i < |a| && n <= 8 && c <= 8 * i && 8 * i + n - c <= 32
    ensures Or(Shl(Num(Flat(a)[c..8 * i]), n, 32), HighestBits(a[i], n), 32) == Num(Flat(a)[c..8 * i + n])
  {
    hide *;
    FlatByte(a, i);
    HighestBitsDigits(a[i], n);
    OrAppends(Flat(a)[c..8 * i], ByteBits(a[i])[..n], 32);
    TakeOfSlice(Flat(a), 8 * i, 8 * i + 8, n);
    Glue(Flat(a), c, 8 * i, 8 * i + n);
  }

  // ---- steps of WriteBits: `d` are the digits to write, left-aligned in a 64-bit value ----

  lemma ShiftUp(val: nat, n: nat)
    requires 1 <= n <= 64
    ensures Shl(val, 64 - n, 64) == Num(ToBits(val, n) + Zeros(64 - n))
  {
    ToBitsSuffix(val, 64, n);
  }

  lemma ShiftOff(d: seq<bool>, k: nat)
    requires k <= |d| <= 64
    ensures Shl(Num(d + Zeros(64 - |d|)), k, 64) == Num(d[k..] + Zeros(64 - |d| + k))
  {
    hide *;
    ShlOfDigits(d + Zeros(64 - |d|), k);
    ShiftedDigits(d, k, 64);
  }

  lemma ShlOfDigits(s: seq<bool>, k: nat)
    requires k <= |s|
    ensures Shl(Num(s), k, |s|) == Num(ShlBits(s, k))
  {
    hide Num, ToBits, ShlBits;
    ToBitsOfNum(s);
  }

  lemma ShiftedDigits(d: seq<bool>, k: nat, w: nat)
    requires k <= |d| <= w
    ensures ShlBits(d + Zeros(w - |d|), k) == d[k..] + Zeros(w - |d| + k)
  {
  }

  lemma FirstByte(a: seq<Byte>, i: nat, offset: nat, d: seq<bool>, n: nat)
    requires i < |a| && offset <= 7 && 1 <= |d| <= 64
    requires n == if |d| < 8 - offset then |d| else 8 - offset
    ensures var b := WritePartialByte(HighestByte(Num(d + Zeros(64 - |d|))), n, a[i], offset);
            && (n == 8 - offset ==> Flat(a[..i] + [b]) == Flat(a)[..8 * i + offset] + d[..n])
            && (n == |d| ==> Flat(a[..i] + [b] + a[i + 1..]) == Splice(Flat(a), 8 * i + offset, d))
  {
    hide *;
    var x := d + Zeros(64 - |d|);
    HighestByteDigits(x);
    TopDigits(d, n);
    WritePartialByteDigits(x[..8], n, a[i], offset);
    var b := WritePartialByte(Num(x[..8]), n, a[i], offset);
    IsOverlaid(ByteBits(b), ByteBits(a[i]), offset, d[..n]);
    FlatAround(a, i, b, offset, d[..n]);
    assert n == |d| ==> d[..n] == d;
  }

  lemma IsOverlaid(t': seq<bool>, t: seq<bool>, offset: nat, m: seq<bool>)
    requires offset + |m| <= |t| && t' == t[..offset] + m + t[offset + |m|..]
    ensures Overlaid(t', t, offset, m)
  {
  }

  lemma TopDigits(d: seq<bool>, n: nat)
    requires n <= |d| <= 64 && n <= 8
    ensures var top := (d + Zeros(64 - |d|))[..8];
            top[..n] == d[..n] && forall i :: |d| <= i < 8 ==> !top[i]
  {
  }

  /** `t'` is `t` with the digits from `offset` on overwritten by `m`. */
  ghost predicate Overlaid(t': seq<bool>, t: seq<bool>, offset: nat, m: seq<bool>)
    requires offset + |m| <= |t|
  {
    t' == t[..offset] + m + t[offset + |m|..]
  }

  lemma FlatAround(a: seq<Byte>, i: nat, b: Byte, offset: nat, m: seq<bool>)
    requires i < |a| && offset + |m| <= 8 && Overlaid(ByteBits(b), ByteBits(a[i]), offset, m)
    ensures offset + |m| == 8 ==> Flat(a[..i] + [b]) == Flat(a)[..8 * i + offset] + m
    ensures Flat(a[..i] + [b] + a[i + 1..]) == Splice(Flat(a), 8 * i + offset, m)
  {
    hide *;
    FlatParts(a, i);
    FlatOneByte(a, i, b);
    JoinAround(Flat(a), Flat(a[..i]), ByteBits(a[i]), Flat(a[i + 1..]), ByteBits(b), offset, m, 8 * i + offset);
  }

  lemma JoinAround(s: seq<bool>, p: seq<bool>, t: seq<bool>, q: seq<bool>, t': seq<bool>, offset: nat, m: seq<bool>, c: nat)
    requires s == p + t + q && c == |p| + offset && offset + |m| <= |t| && Overlaid(t', t, offset, m)
    ensures p + t' + q == Splice(s, c, m)
    ensures offset + |m| == |t| ==> p + t' == s[..c] + m
  {
    hide *;
    AroundDigits(p, t, q, t', offset, m, c);
    if offset + |m| == |t| {
      AroundLast(p, t, q, t', offset, m, c);
    }
  }

  lemma FlatParts(a: seq<Byte>, i: nat)
    requires i < |a|
    ensures Flat(a) == Flat(a[..i]) + ByteBits(a[i]) + Flat(a[i + 1..])
  {
    FlatOneByte(a, i, a[i]);
    Rebuild(a, i);
  }

  lemma AroundDigits(p: seq<bool>, t: seq<bool>, q: seq<bool>, t': seq<bool>, offset: nat, m: seq<bool>, c: nat)
    requires c == |p| + offset && offset + |m| <= |t| && Overlaid(t', t, offset, m)
    ensures p + t' + q == Splice(p + t + q, c, m)
  {
    assert (p + t + q)[..c] == p + t[..offset];
    assert (p + t + q)[c + |m|..] == t[offset + |m|..] + q;
  }

  lemma AroundLast(p: seq<bool>, t: seq<bool>, q: seq<bool>, t': seq<bool>, offset: nat, m: seq<bool>, c: nat)
    requires c == |p| + offset && offset + |m| == |t| && Overlaid(t', t, offset, m)
    ensures p + t' == (p + t + q)[..c] + m
  {
    assert (p + t + q)[..c] == p + t[..offset];
  }

  lemma FlatOneByte(a: seq<Byte>, i: nat, b: Byte)
    requires i < |a|
    ensures Flat(a[..i] + [b]) == Flat(a[..i]) + ByteBits(b)
    ensures Flat(a[..i] + [b] + a[i + 1..]) == Flat(a[..i]) + ByteBits(b) + Flat(a[i + 1..])
  {
    FlatConcat(a[..i] + [b], a[i + 1..]);
    FlatConcat(a[..i], [b]);
    assert Flat([b]) == ByteBits(b);
  }

  lemma MiddleByte(now: seq<Byte>, a: seq<Byte>, i: nat, p: seq<bool>, d: seq<bool>, k: nat)
    requires i < |now| == |a| && now[i..] == a[i..]
    requires k + 8 <= |d| <= 64 && Flat(now[..i]) == p + d[..k]
    ensures var b := HighestByte(Num(d[k..] + Zeros(64 - (|d| - k))));
            Flat(now[i := b][..i + 1]) == p + d[..k + 8] && now[i := b][i + 1..] == a[i + 1..]
  {
    var x := d[k..] + Zeros(64 - (|d| - k));
    HighestByteDigits(x);
    ToBitsOfNum(x[..8]);
    var b := HighestByte(Num(x));
    FlatOneByte(now, i, b);
    UpdateParts(now, i, b);
    SameTail(now, a, i);
    NextDigits(p, d, k);
  }

  lemma SameTail<T>(now: seq<T>, a: seq<T>, i: nat)
    requires i < |now| == |a| && now[i..] == a[i..]
    ensures now[i] == a[i] && now[i + 1..] == a[i + 1..]
  {
    DropOfDrop(now, i, 1);
    DropOfDrop(a, i, 1);
    assert now[i..][0] == a[i..][0];
  }

  lemma NextDigits(p: seq<bool>, d: seq<bool>, k: nat)
    requires k + 8 <= |d| <= 64
    ensures (p + d[..k]) + (d[k..] + Zeros(64 - (|d| - k)))[..8] == p + d[..k + 8]
  {
  }

  lemma LastByte(now: seq<Byte>, a: seq<Byte>, i: nat, p: seq<bool>, d: seq<bool>, k: nat)
    requires i < |now| == |a| && now[i..] == a[i..]
    requires k < |d| <= 64 && |d| - k < 8 && Flat(now[..i]) == p + d[..k]
    ensures var b := WritePartialByte(HighestByte(Num(d[k..] + Zeros(64 - (|d| - k)))), |d| - k, now[i], 0);
            Flat(now[i := b]) == p + d + Flat(a)[8 * i + |d| - k..]
  {
    hide Flat, WritePartialByte, HighestByte, Num, Zeros, Splice;
    var n := |d| - k;
    SameTail(now, a, i);
    FirstByte(now, i, 0, d[k..], n);
    var b := WritePartialByte(HighestByte(Num(d[k..] + Zeros(64 - n))), n, now[i], 0);
    UpdateParts(now, i, b);
    FlatCut(now, i);
    FlatCut(a, i);
    SpliceTail(Flat(now), Flat(a), 8 * i, p, d, k);
  }

  /** Overwriting the digits at `c` completes `d`, and what follows is as in `t`. */
  lemma SpliceTail(s: seq<bool>, t: seq<bool>, c: nat, p: seq<bool>, d: seq<bool>, k: nat)
    requires k <= |d| && c + |d| - k <= |s| == |t| && s[..c] == p + d[..k] && s[c..] == t[c..]
    ensures Splice(s, c, d[k..]) == p + d + t[c + |d| - k..]
  {
    DropOfDrop(s, c, |d| - k);
    DropOfDrop(t, c, |d| - k);
    assert (p + d[..k]) + d[k..] == p + d;
  }

  lemma WholeBytes(now: seq<Byte>, a: seq<Byte>, i: nat, p: seq<bool>, d: seq<bool>)
    requires i <= |now| == |a| && now[i..] == a[i..] && Flat(now[..i]) == p + d[..|d|]
    ensures Flat(now) == p + d + Flat(a)[8 * i..]
  {
    FlatCut(now, i);
    FlatCut(a, i);
    assert d[..|d|] == d;
  }

  // ---- numbers and their low digit ----

  lemma HalfIsShift(v: nat)
    requires v < Pow2(64)
    ensures Shr(v, 1, 64) == v / 2
  {
    HalfIsShiftAt(v, 64);
  }

  lemma HalfIsShiftAt(v: nat, w: nat)
    requires w >= 1 && v < Pow2(w)
    ensures Shr(v, 1, w) == v / 2
  {
    hide Num, ToBits, Zeros;
    ToBitsInit(v, w);
    NumLeadingZeros(1, ToBits(v / 2, w - 1));
    NumOfToBits(v / 2, w - 1);
  }

  lemma LowDigitIsParity(v: nat)
    requires v <= UINT32_MAX
    ensures And(v, 1, 32) == v % 2
  {
    Pow2Values();
    LowDigitIsParityAt(v, 32);
  }

  lemma LowDigitIsParityAt(v: nat, w: nat)
    requires w >= 1 && v < Pow2(w)
    ensures And(v, 1, w) == v % 2
  {
    hide And, Num;
    NumOfToBits(v, w);
    AndMask(ToBits(v, w), 1);
    ToBitsSuffix(v, w, 1);
    NumOfToBits(v % 2, 1);
    assert ToBits(v, 1) == ToBits(v % 2, 1);
    assert Pow2(1) == 2;
  }
}
