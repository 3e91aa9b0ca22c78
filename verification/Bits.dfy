/** Binary digits of natural numbers, most significant digit first, and the bitwise operators
    of the C++ unsigned integer types, defined on those digits. */
module Bits {

  type Byte = x: int | 0 <= x < 256

  function Pow2(n: nat): (p: nat)
    ensures p >= 1
  {
    if n == 0 then 1 else 2 * Pow2(n - 1)
  }

  lemma Pow2Values()
    ensures Pow2(8) == 0x100 && Pow2(32) == 0x1_0000_0000 && Pow2(64) == 0x1_0000_0000_0000_0000
  {
    assert Pow2(8) == 0x100;
    assert Pow2(16) == 0x1_0000;
    assert Pow2(24) == 0x100_0000;
    assert Pow2(32) == 0x1_0000_0000;
    assert Pow2(40) == 0x100_0000_0000;
    assert Pow2(48) == 0x1_0000_0000_0000;
    assert Pow2(56) == 0x100_0000_0000_0000;
  }

  /** The number spelled by `s`. */
  function Num(s: seq<bool>): nat {
    if s == [] then 0 else 2 * Num(s[..|s| - 1]) + (if s[|s| - 1] then 1 else 0)
  }

  lemma {:induction false} NumBound(s: seq<bool>)
    ensures Num(s) < Pow2(|s|)
  {
    if s != [] {
      NumBound(s[..|s| - 1]);
    }
  }

  lemma NumOfDigit(b: bool)
    ensures Num([b]) == if b then 1 else 0
  {
    assert [b][..0] == [];
  }

  /** The low `n` digits of `x`. */
  function ToBits(x: nat, n: nat): (s: seq<bool>)
    ensures |s| == n
    decreases n, x
  {
    if n == 0 then [] else ToBits(x / 2, n - 1) + [x % 2 == 1]
  }

  function Zeros(n: nat): (s: seq<bool>)
    ensures |s| == n && forall i :: 0 <= i < n ==> !s[i]
  {
    seq(n, _ => false)
  }

  function Ones(n: nat): (s: seq<bool>)
    ensures |s| == n && forall i :: 0 <= i < n ==> s[i]
  {
    seq(n, _ => true)
  }

  // ---- the C++ operators on unsigned integers of `w` bits ----

  function ShlBits(s: seq<bool>, k: nat): (r: seq<bool>)
    requires k <= |s|
    ensures |r| == |s|
  {
    s[k..] + Zeros(k)
  }

  function ShrBits(s: seq<bool>, k: nat): (r: seq<bool>)
    requires k <= |s|
    ensures |r| == |s|
  {
    Zeros(k) + s[..|s| - k]
  }

  function AndBits(a: seq<bool>, b: seq<bool>): (r: seq<bool>)
    requires |a| == |b|
    ensures |r| == |a|
  {
    seq(|a|, i requires 0 <= i < |a| => a[i] && b[i])
  }

  function OrBits(a: seq<bool>, b: seq<bool>): (r: seq<bool>)
    requires |a| == |b|
    ensures |r| == |a|
  {
    seq(|a|, i requires 0 <= i < |a| => a[i] || b[i])
  }

  function NotBits(a: seq<bool>): (r: seq<bool>)
    ensures |r| == |a|
  {
    seq(|a|, i requires 0 <= i < |a| => !a[i])
  }

  function Shl(x: nat, k: nat, w: nat): nat
    requires k <= w
  {
    Num(ShlBits(ToBits(x, w), k))
  }

  function Shr(x: nat, k: nat, w: nat): nat
    requires k <= w
  {
    Num(ShrBits(ToBits(x, w), k))
  }

  function And(x: nat, y: nat, w: nat): nat {
    Num(AndBits(ToBits(x, w), ToBits(y, w)))
  }

  function Or(x: nat, y: nat, w: nat): nat {
    Num(OrBits(ToBits(x, w), ToBits(y, w)))
  }

  function Not(x: nat, w: nat): nat {
    Num(NotBits(ToBits(x, w)))
  }

  // ---- digits and numbers determine each other ----

  lemma {:induction false} ToBitsOfNum(s: seq<bool>)
    ensures ToBits(Num(s), |s|) == s
  {
    if s != [] {
      ToBitsOfNum(s[..|s| - 1]);
    }
  }

  lemma {:induction false} NumOfToBits(x: nat, n: nat)
    requires x < Pow2(n)
    ensures Num(ToBits(x, n)) == x
  {
    if n != 0 {
      NumOfToBits(x / 2, n - 1);
      assert ToBits(x, n)[..n - 1] == ToBits(x / 2, n - 1);
    }
  }

  lemma ModDouble(x: nat, p: nat)
    requires p >= 1
    ensures x % (2 * p) == 2 * (x / 2 % p) + x % 2
  {
    var q := x / 2 / p;
    var r := x / 2 % p;
    assert x / 2 == q * p + r;
    assert x == q * (2 * p) + (2 * r + x % 2);
    ModUnique(x, q, 2 * p, 2 * r + x % 2);
  }

  lemma ModUnique(x: nat, q: nat, p: nat, r: nat)
    requires x == q * p + r && r < p
    ensures x % p == r
  {
    var d := x / p;
    assert x == d * p + x % p;
    MulMinus(d, q, p);
    MulBounds(d - q, p);
  }

  lemma MulBounds(d: int, p: nat)
    ensures d >= 1 ==> d * p >= p
    ensures d <= -1 ==> d * p <= 0 - p
  {
  }

  lemma MulMinus(x: int, y: int, p: nat)
    ensures (x - y) * p == x * p - y * p
  {
  }

  /** The low `n` digits spell the remainder by 2^n. */
  lemma {:induction false} NumOfLowDigits(x: nat, n: nat)
    ensures Num(ToBits(x, n)) == x % Pow2(n)
  {
    if n != 0 {
      NumOfLowDigits(x / 2, n - 1);
      ModDouble(x, Pow2(n - 1));
      assert ToBits(x, n)[..n - 1] == ToBits(x / 2, n - 1);
    }
  }

  lemma ToBitsInit(x: nat, n: nat)
    requires n >= 1
    ensures ToBits(x, n)[..n - 1] == ToBits(x / 2, n - 1)
  {
  }

  lemma {:induction false} ToBitsSuffix(x: nat, w: nat, n: nat)
    requires n <= w
    ensures ToBits(x, w)[w - n..] == ToBits(x, n)
  {
    if n != 0 {
      ToBitsSuffix(x / 2, w - 1, n - 1);
      assert ToBits(x, w)[w - n..] == ToBits(x / 2, w - 1)[w - n..] + [x % 2 == 1];
    }
  }

  lemma {:induction false} NumLeadingZeros(n: nat, s: seq<bool>)
    ensures Num(Zeros(n) + s) == Num(s)
  {
    if s != [] {
      NumLeadingZeros(n, s[..|s| - 1]);
      assert (Zeros(n) + s)[..n + |s| - 1] == Zeros(n) + s[..|s| - 1];
    } else if n != 0 {
      NumLeadingZeros(n - 1, s);
      assert (Zeros(n) + s)[..n - 1] == Zeros(n - 1) + s;
    }
  }

  lemma {:induction false} NumOnes(n: nat)
    ensures Num(Ones(n)) == Pow2(n) - 1
  {
    if n != 0 {
      NumOnes(n - 1);
      assert Ones(n)[..n - 1] == Ones(n - 1);
    }
  }

  /** `x` doubled `k` times. */
  function Scale(x: nat, k: nat): nat {
    if k == 0 then x else 2 * Scale(x, k - 1)
  }

  lemma {:induction false} NumConcat(a: seq<bool>, b: seq<bool>)
    ensures Num(a + b) == Scale(Num(a), |b|) + Num(b)
  {
    if b == [] {
      assert a + b == a;
    } else {
      NumConcat(a, b[..|b| - 1]);
      assert (a + b)[..|a + b| - 1] == a + b[..|b| - 1];
    }
  }

  /** Widening a number adds leading zero digits. */
  lemma PadDigits(s: seq<bool>, w: nat)
    requires |s| <= w
    ensures ToBits(Num(s), w) == Zeros(w - |s|) + s
  {
    NumLeadingZeros(w - |s|, s);
    ToBitsOfNum(Zeros(w - |s|) + s);
  }

  /** Or-ing `b` into the zero digits that a left shift made room for appends its digits. */
  lemma OrAppends(a: seq<bool>, b: seq<bool>, w: nat)
    requires |a| + |b| <= w
    ensures Or(Shl(Num(a), |b|, w), Num(b), w) == Num(a + b)
  {
    PadDigits(a, w);
    PadDigits(b, w);
    var x := ShlBits(Zeros(w - |a|) + a, |b|);
    ToBitsOfNum(x);
    OrAppendsDigits(a, b, w);
    NumLeadingZeros(w - |a| - |b|, a + b);
  }

  lemma OrAppendsDigits(a: seq<bool>, b: seq<bool>, w: nat)
    requires |a| + |b| <= w
    ensures OrBits(ShlBits(Zeros(w - |a|) + a, |b|), Zeros(w - |b|) + b)
         == Zeros(w - |a| - |b|) + (a + b)
  {
  }

  /** And-ing with a mask of `k` ones keeps the low `k` digits. */
  lemma AndMask(s: seq<bool>, k: nat)
    requires k <= |s|
    ensures And(Num(s), Pow2(k) - 1, |s|) == Num(s[|s| - k..])
  {
    hide Num, ToBits, Pow2, And, AndBits, Zeros, Ones;
    var m := Zeros(|s| - k) + Ones(k);
    NumOnes(k);
    NumLeadingZeros(|s| - k, Ones(k));
    AndOfDigits(s, m);
    AndMaskDigits(s, k);
    NumLeadingZeros(|s| - k, s[|s| - k..]);
  }

  lemma AndOfDigits(a: seq<bool>, b: seq<bool>)
    requires |a| == |b|
    ensures And(Num(a), Num(b), |a|) == Num(AndBits(a, b))
  {
    ToBitsOfNum(a);
    ToBitsOfNum(b);
  }

  lemma OrOfDigits(a: seq<bool>, b: seq<bool>)
    requires |a| == |b|
    ensures Or(Num(a), Num(b), |a|) == Num(OrBits(a, b))
  {
    ToBitsOfNum(a);
    ToBitsOfNum(b);
  }

  lemma AndCommutes(x: nat, y: nat, w: nat)
    ensures And(x, y, w) == And(y, x, w)
  {
    assert AndBits(ToBits(x, w), ToBits(y, w)) == AndBits(ToBits(y, w), ToBits(x, w));
  }

  lemma OrCommutes(x: nat, y: nat, w: nat)
    ensures Or(x, y, w) == Or(y, x, w)
  {
    assert OrBits(ToBits(x, w), ToBits(y, w)) == OrBits(ToBits(y, w), ToBits(x, w));
  }

  lemma AndMaskDigits(s: seq<bool>, k: nat)
    requires k <= |s|
    ensures AndBits(s, Zeros(|s| - k) + Ones(k)) == Zeros(|s| - k) + s[|s| - k..]
  {
  }

  // ---- byte buffers as one long digit sequence ----

  function ByteBits(b: Byte): (s: seq<bool>)
    ensures |s| == 8
  {
    ToBits(b, 8)
  }

  lemma ByteDigits(b: Byte)
    ensures Num(ByteBits(b)) == b
  {
    assert Pow2(8) == 256;
    NumOfToBits(b, 8);
  }

  function Flat(a: seq<Byte>): (s: seq<bool>)
    ensures |s| == 8 * |a|
  {
    if a == [] then [] else Flat(a[..|a| - 1]) + ByteBits(a[|a| - 1])
  }

  lemma {:induction false} FlatConcat(a: seq<Byte>, b: seq<Byte>)
    ensures Flat(a + b) == Flat(a) + Flat(b)
  {
    hide ByteBits;
    if b == [] {
      assert a + b == a;
    } else {
      FlatConcat(a, b[..|b| - 1]);
      assert (a + b)[..|a + b| - 1] == a + b[..|b| - 1];
    }
  }

  /** Cutting the buffer at byte `i` cuts its digits at position 8i. */
  lemma FlatCut(a: seq<Byte>, i: nat)
    requires i <= |a|
    ensures Flat(a) == Flat(a[..i]) + Flat(a[i..])
    ensures Flat(a)[..8 * i] == Flat(a[..i]) && Flat(a)[8 * i..] == Flat(a[i..])
  {
    assert a == a[..i] + a[i..];
    FlatConcat(a[..i], a[i..]);
  }

  /** The first eight digits are those of the first byte. */
  lemma FlatHead(a: seq<Byte>)
    requires a != []
    ensures Flat(a) == ByteBits(a[0]) + Flat(a[1..])
  {
    FlatCut(a, 1);
    assert a[..1] == [a[0]];
    assert Flat([a[0]]) == ByteBits(a[0]);
  }

  lemma FlatByte(a: seq<Byte>, i: nat)
    requires i < |a|
    ensures Flat(a)[8 * i..8 * i + 8] == ByteBits(a[i])
  {
    hide Flat, ByteBits;
    FlatCut(a, i);
    FlatHead(a[i..]);
    FirstEight(Flat(a), 8 * i, ByteBits(a[i]), Flat(a[i..][1..]));
  }

  lemma FirstEight(s: seq<bool>, c: nat, b: seq<bool>, rest: seq<bool>)
    requires c <= |s| && s[c..] == b + rest && |b| == 8
    ensures s[c..c + 8] == b
  {
    assert s[c..c + 8] == s[c..][..8];
  }
}
