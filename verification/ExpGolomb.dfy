/** Exponential-Golomb codes over digit sequences (clauses 9.1 and 9.1.1 of ITU-T H.264), the
    reference against which the readers and writers of `BitStream` are proved. */
module ExpGolomb {
  import opened Slices
  import opened Bits

  const UINT32_MAX := 0xFFFF_FFFF
  const INT32_MIN := -0x8000_0000
  const INT32_MAX := 0x7FFF_FFFF

  /** The number of digits of `x` without leading zeros. */
  function BitLength(x: nat): nat {
    if x == 0 then 0 else 1 + BitLength(x / 2)
  }

  lemma {:induction false} BitLengthBounds(x: nat)
    requires x > 0
    ensures BitLength(x) >= 1 && Pow2(BitLength(x) - 1) <= x < Pow2(BitLength(x))
  {
    if x > 1 {
      BitLengthBounds(x / 2);
    }
  }

  lemma {:induction false} Pow2Monotone(m: nat, n: nat)
    requires m <= n
    ensures Pow2(m) <= Pow2(n)
  {
    if m < n {
      Pow2Monotone(m, n - 1);
    }
  }

  lemma BitLengthUnique(x: nat, n: nat)
    requires n >= 1 && Pow2(n - 1) <= x < Pow2(n)
    ensures BitLength(x) == n
  {
    BitLengthBounds(x);
    if BitLength(x) < n {
      Pow2Monotone(BitLength(x), n - 1);
    } else if BitLength(x) > n {
      Pow2Monotone(n, BitLength(x) - 1);
    }
  }

  /** As many zeros as `v + 1` has digits after its first, then `v + 1`. */
  function Code(v: nat): (s: seq<bool>)
    ensures |s| >= 1
  {
    var n := BitLength(v + 1);
    Zeros(n - 1) + ToBits(v + 1, n)
  }

  /** Writing `v + 1` in twice its length less one supplies the zeros of the code. */
  lemma CodeIsPaddedNumber(v: nat)
    ensures Code(v) == ToBits(v + 1, 2 * BitLength(v + 1) - 1)
  {
    var n := BitLength(v + 1);
    BitLengthBounds(v + 1);
    NumOfToBits(v + 1, n);
    PadDigits(ToBits(v + 1, n), 2 * n - 1);
  }

  lemma CodeLength(v: nat)
    requires v < UINT32_MAX
    ensures 1 <= BitLength(v + 1) <= 32 && |Code(v)| == 2 * BitLength(v + 1) - 1 <= 63
  {
    BitLengthBounds(v + 1);
    if BitLength(v + 1) > 32 {
      Pow2Values();
      Pow2Monotone(32, BitLength(v + 1) - 1);
    }
  }

  lemma FirstDigit(s: seq<bool>)
    requires s != []
    ensures s[0] <==> Pow2(|s| - 1) <= Num(s)
  {
    NumBound(s[1..]);
    NumConcat(s[..1], s[1..]);
    assert s[..1] + s[1..] == s;
    assert s[..1][..0] == [];
    ScaleIsPow2(|s| - 1);
    ScaleZero(|s| - 1);
  }

  lemma {:induction false} ScaleIsPow2(k: nat)
    ensures Scale(1, k) == Pow2(k)
  {
    if k != 0 {
      ScaleIsPow2(k - 1);
    }
  }

  lemma {:induction false} ScaleZero(k: nat)
    ensures Scale(0, k) == 0
  {
    if k != 0 {
      ScaleZero(k - 1);
    }
  }

  // ---- decoding ----

  function LeadingZeros(s: seq<bool>): (z: nat)
    ensures z <= |s|
    ensures forall i :: 0 <= i < z ==> !s[i]
    ensures z < |s| ==> s[z]
  {
    if s == [] || s[0] then 0 else 1 + LeadingZeros(s[1..])
  }

  lemma {:induction false} LeadingZerosUnique(s: seq<bool>, z: nat)
    requires z <= |s| && (z < |s| ==> s[z]) && forall i :: 0 <= i < z ==> !s[i]
    ensures LeadingZeros(s) == z
  {
    if z != 0 {
      assert !s[0];
      LeadingZerosUnique(s[1..], z - 1);
    }
  }

  /** `used` digits have been read; on failure those are the leading zeros. */
  datatype Decoded<T> = Value(value: T, used: nat) | Bad(used: nat)

  function Decode(s: seq<bool>): Decoded<nat> {
    var z := LeadingZeros(s);
    var n := z + 1;
    if n > 32 || n > |s| - z then Bad(z)
    else
      FirstDigit(s[z..z + n]);
      Value(Num(s[z..z + n]) - 1, z + n)
  }

  /** The decoder accepts exactly the codes of the values below 2^32 - 1, and reads them back. */
  lemma DecodeExactly(s: seq<bool>, v: nat, used: nat)
    ensures Decode(s) == Value(v, used) <==> v < UINT32_MAX && Code(v) <= s && used == |Code(v)|
  {
    if v < UINT32_MAX && Code(v) <= s && used == |Code(v)| {
      DecodeOfCode(s, v);
    }
    if Decode(s) == Value(v, used) {
      DecodedIsCode(s, v, used);
    }
  }

  lemma DecodeOfCode(s: seq<bool>, v: nat)
    requires v < UINT32_MAX && Code(v) <= s
    ensures Decode(s) == Value(v, |Code(v)|)
  {
    hide Num, ToBits, LeadingZeros, Pow2, BitLength;
    var n := BitLength(v + 1);
    var d := ToBits(v + 1, n);
    CodeLength(v);
    BitLengthBounds(v + 1);
    NumOfToBits(v + 1, n);
    FirstDigit(d);
    ZerosThenDigits(s, n - 1, d);
  }

  lemma ZerosThenDigits(s: seq<bool>, z: nat, d: seq<bool>)
    requires Zeros(z) + d <= s && d != [] && d[0]
    ensures LeadingZeros(s) == z && s[z..z + |d|] == d
  {
    var c := Zeros(z) + d;
    assert c == s[..|c|];
    assert forall i :: 0 <= i < z ==> !c[i] && s[i] == c[i];
    assert s[z] == c[z];
    LeadingZerosUnique(s, z);
  }

  lemma DecodedIsCode(s: seq<bool>, v: nat, used: nat)
    requires Decode(s) == Value(v, used)
    ensures v < UINT32_MAX && Code(v) <= s && used == |Code(v)|
  {
    hide Num, ToBits, LeadingZeros, Pow2, BitLength, Zeros;
    var z := LeadingZeros(s);
    var d := s[z..z + z + 1];
    NumBound(d);
    FirstDigit(d);
    BitLengthUnique(v + 1, z + 1);
    ToBitsOfNum(d);
    assert s[..used] == Zeros(z) + d;
    Pow2Monotone(z + 1, 32);
    Pow2Values();
  }

  /** No code begins another: a run of codes can be cut in only one way. */
  lemma PrefixFree(v: nat, w: nat)
    requires v < UINT32_MAX && w < UINT32_MAX && Code(v) <= Code(w)
    ensures v == w
  {
    DecodeOfCode(Code(w), v);
    DecodeOfCode(Code(w), w);
  }

  // ---- lists of codes ----

  ghost predicate Encodable(vs: seq<nat>) {
    forall i :: 0 <= i < |vs| ==> vs[i] < UINT32_MAX
  }

  function Codes(vs: seq<nat>): seq<bool> {
    if vs == [] then [] else Code(vs[0]) + Codes(vs[1..])
  }

  lemma {:induction false} CodesConcat(a: seq<nat>, b: seq<nat>)
    ensures Codes(a + b) == Codes(a) + Codes(b)
  {
    hide Code;
    if a == [] {
      assert a + b == b;
    } else {
      CodesConcat(a[1..], b);
      assert (a + b)[1..] == a[1..] + b;
      AppendAssoc(Code(a[0]), Codes(a[1..]), Codes(b));
    }
  }

  /** Reads `count` codes in a row; stops at the first bad one. */
  function DecodeAll(s: seq<bool>, count: nat): (r: Decoded<seq<nat>>)
    ensures r.Value? ==> |r.value| == count && r.used <= |s|
  {
    if count == 0 then Value([], 0)
    else
      match Decode(s)
      case Bad(used) => Bad(used)
      case Value(v, used) =>
        match DecodeAll(s[used..], count - 1)
        case Bad(more) => Bad(used + more)
        case Value(vs, more) => Value([v] + vs, used + more)
  }

  /** Any list of values below 2^32 - 1 is read back, whatever follows its codes, and the
      reader stops where the codes stop. */
  lemma {:induction false} DecodeAllOfCodes(vs: seq<nat>, rest: seq<bool>)
    requires Encodable(vs)
    ensures DecodeAll(Codes(vs) + rest, |vs|) == Value(vs, |Codes(vs)|)
  {
    hide Code, DecodeAll;
    if vs == [] {
      DecodeNone(Codes(vs) + rest, |vs|);
    } else {
      var c, tail := Code(vs[0]), Codes(vs[1..]) + rest;
      assert Codes(vs) + rest == c + tail;
      DecodeAllOfCodes(vs[1..], rest);
      DecodeAllStep(vs[0], tail, |vs| - 1);
      assert [vs[0]] + vs[1..] == vs;
    }
  }

  lemma DecodeNone(s: seq<bool>, count: nat)
    requires count == 0
    ensures DecodeAll(s, count) == Value([], 0)
  {
  }

  lemma DecodeAllStep(v: nat, tail: seq<bool>, count: nat)
    requires v < UINT32_MAX && DecodeAll(tail, count).Value?
    ensures var r := DecodeAll(tail, count);
            DecodeAll(Code(v) + tail, count + 1) == Value([v] + r.value, |Code(v)| + r.used)
  {
    DecodeOfCode(Code(v) + tail, v);
    assert (Code(v) + tail)[|Code(v)|..] == tail;
  }

  lemma CodesExtend(vs: seq<nat>, i: nat)
    requires i < |vs|
    ensures Codes(vs[..i + 1]) == Codes(vs[..i]) + Code(vs[i])
    ensures |Codes(vs[..i + 1])| <= |Codes(vs)|
  {
    CodesConcat(vs[..i], [vs[i]]);
    assert vs[..i + 1] == vs[..i] + [vs[i]];
    assert Codes([vs[i]]) == Code(vs[i]) + Codes([]);
    CodesConcat(vs[..i + 1], vs[i + 1..]);
    assert vs == vs[..i + 1] + vs[i + 1..];
  }

  /** A result for the digits that follow, seen from `used` digits and the values `vs` earlier. */
  function After(vs: seq<nat>, used: nat, r: Decoded<seq<nat>>): Decoded<seq<nat>> {
    match r
    case Bad(more) => Bad(used + more)
    case Value(ws, more) => Value(vs + ws, used + more)
  }

  // ---- the signed mapping 0, 1, -1, 2, -2, ... ----

  function SignedToIndex(v: int): nat {
    if v > 0 then 2 * v - 1 else -2 * v
  }

  function IndexToSigned(u: nat): int {
    if u % 2 == 0 then -(u / 2) else (u + 1) / 2
  }

  /** The mapping is a bijection between the indices below 2^32 - 1 and the 32-bit integers
      other than the smallest one. */
  lemma SignedBijection(v: int, u: nat)
    ensures IndexToSigned(SignedToIndex(v)) == v && SignedToIndex(IndexToSigned(u)) == u
    ensures INT32_MIN < v <= INT32_MAX <==> SignedToIndex(v) < UINT32_MAX
    ensures u < UINT32_MAX <==> INT32_MIN < IndexToSigned(u) <= INT32_MAX
  {
  }

  /** Positive values have odd indices and the others even ones, by magnitude: the codes of 0, 1 and
      -1 are the digits 1, 010 and 011. */
  lemma SignedOrder(v: int)
    ensures SignedToIndex(v) % 2 == 1 <==> v > 0
    ensures v > 0 ==> SignedToIndex(v) + 1 == SignedToIndex(-v) && SignedToIndex(v) == SignedToIndex(1 - v) + 1
    ensures v == 0 ==> Code(SignedToIndex(v)) == [true]
    ensures v == 1 ==> Code(SignedToIndex(v)) == [false, true, false]
    ensures v == -1 ==> Code(SignedToIndex(v)) == [false, true, true]
  {
    assert BitLength(1) == 1 && BitLength(2) == 2 && BitLength(3) == 2;
    assert ToBits(1, 1) == [true];
    assert ToBits(2, 2) == [true, false];
    assert ToBits(3, 2) == [true, true];
    assert Zeros(0) == [] && Zeros(1) == [false];
  }

  function Indices(vs: seq<int>): (us: seq<nat>)
    ensures |us| == |vs| && forall i :: 0 <= i < |vs| ==> us[i] == SignedToIndex(vs[i])
  {
    seq(|vs|, i requires 0 <= i < |vs| => SignedToIndex(vs[i]))
  }

  function SignedValues(us: seq<nat>): (vs: seq<int>)
    ensures |vs| == |us| && forall i :: 0 <= i < |us| ==> vs[i] == IndexToSigned(us[i])
  {
    seq(|us|, i requires 0 <= i < |us| => IndexToSigned(us[i]))
  }

  /** Any list of 32-bit integers other than the smallest one is read back from its signed codes. */
  lemma SignedListRoundTrip(vs: seq<int>, rest: seq<bool>)
    requires forall i :: 0 <= i < |vs| ==> INT32_MIN < vs[i] <= INT32_MAX
    ensures var codes := Codes(Indices(vs));
            var r := DecodeAll(codes + rest, |vs|);
            r.Value? && r.used == |codes| && SignedValues(r.value) == vs
  {
    forall i | 0 <= i < |vs|
      ensures Indices(vs)[i] < UINT32_MAX
    {
      SignedBijection(vs[i], 0);
    }
    DecodeAllOfCodes(Indices(vs), rest);
    forall i | 0 <= i < |vs|
      ensures SignedValues(Indices(vs))[i] == vs[i]
    {
      SignedBijection(vs[i], 0);
    }
  }
}
