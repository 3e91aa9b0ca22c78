/** The table-driven UTF-8 automaton of the logger, proved against sections 3 and 4 of RFC 3629. */
module Utf8 {
  import opened Slices
  import opened Bits

  // ---- the automaton ----

  function Repeat(x: nat, n: nat): (s: seq<nat>)
    ensures |s| == n && forall i :: 0 <= i < n ==> s[i] == x
  {
    seq(n, _ => x)
  }

  /** Classes of the 256 byte values. */
  const CLASSES: seq<nat> :=
    Repeat(0, 128) + Repeat(1, 16) + Repeat(9, 16) + Repeat(7, 32) + [8, 8] + Repeat(2, 30)
    + [0xa, 3, 3, 3, 3, 3, 3, 3, 3, 3, 3, 3, 3, 4, 3, 3]
    + [0xb, 6, 6, 6, 5, 8, 8, 8, 8, 8, 8, 8, 8, 8, 8, 8]

  /** Rows of sixteen columns, one row per state. */
  function Row(q: nat): (r: seq<nat>)
    ensures |r| == 16
  {
    match q
    case 0 => [0, 1, 2, 3, 5, 8, 7, 1, 1, 1, 4, 6, 1, 1, 1, 1]
    case 2 => [1, 0, 1, 1, 1, 1, 1, 0, 1, 0, 1, 1, 1, 1, 1, 1]
    case 3 => [1, 2, 1, 1, 1, 1, 1, 2, 1, 2, 1, 1, 1, 1, 1, 1]
    case 4 => [1, 1, 1, 1, 1, 1, 1, 2, 1, 1, 1, 1, 1, 1, 1, 1]
    case 5 => [1, 2, 1, 1, 1, 1, 1, 1, 1, 2, 1, 1, 1, 1, 1, 1]
    case 6 => [1, 1, 1, 1, 1, 1, 1, 3, 1, 3, 1, 1, 1, 1, 1, 1]
    case 7 => [1, 3, 1, 1, 1, 1, 1, 3, 1, 3, 1, 1, 1, 1, 1, 1]
    case 8 => [1, 3, 1, 1, 1, 1, 1, 1, 1, 1, 1, 1, 1, 1, 1, 1]
    case _ => [1, 1, 1, 1, 1, 1, 1, 1, 1, 1, 1, 1, 1, 1, 1, 1]
  }

  /** The rows one after the other. */
  function Rows(n: nat): (r: seq<nat>)
    ensures |r| == 16 * n
  {
    if n == 0 then [] else Rows(n - 1) + Row(n - 1)
  }

  const UTF8D: seq<nat> := CLASSES + Rows(9)

  const ACCEPT := 0
  const REJECT := 1

  /** The first half of the table by ranges of bytes. */
  function Class(b: Byte): (c: nat)
    ensures c <= 11
  {
    if b < 0x80 then 0 else if b < 0x90 then 1 else if b < 0xA0 then 9 else if b < 0xC0 then 7
    else if b < 0xC2 then 8 else if b < 0xE0 then 2
    else if b == 0xE0 then 10 else if b == 0xED then 4 else if b < 0xF0 then 3
    else if b == 0xF0 then 11 else if b < 0xF4 then 6 else if b == 0xF4 then 5 else 8
  }

  /** The second half of the table by states and classes. */
  function Next(q: nat, c: nat): (r: nat)
    ensures r <= 8
  {
    match q
    case 0 => (match c case 0 => 0 case 2 => 2 case 3 => 3 case 10 => 4 case 4 => 5
                       case 11 => 6 case 6 => 7 case 5 => 8 case _ => 1)
    case 2 => if c == 1 || c == 7 || c == 9 then 0 else 1
    case 3 => if c == 1 || c == 7 || c == 9 then 2 else 1
    case 4 => if c == 7 then 2 else 1
    case 5 => if c == 1 || c == 9 then 2 else 1
    case 6 => if c == 7 || c == 9 then 3 else 1
    case 7 => if c == 1 || c == 7 || c == 9 then 3 else 1
    case 8 => if c == 1 then 3 else 1
    case _ => 1
  }

  lemma TableClass(b: Byte)
    ensures |UTF8D| == 400 && UTF8D[b] == Class(b)
  {
  }

  lemma TableNext(q: nat, c: nat)
    requires q <= 8 && c <= 11
    ensures |UTF8D| == 400 && UTF8D[256 + q * 16 + c] == Next(q, c)
  {
    hide Row;
    RowsAt(9, q, c);
    RowNext(q, c);
  }

  lemma {:induction false} RowsAt(n: nat, q: nat, c: nat)
    requires q < n && c < 16
    ensures Rows(n)[q * 16 + c] == Row(q)[c]
  {
    hide Row;
    if q < n - 1 {
      RowsAt(n - 1, q, c);
    }
  }

  lemma RowNext(q: nat, c: nat)
    requires q <= 8 && c <= 11
    ensures Row(q)[c] == Next(q, c)
  {
  }

  /** One step: the new state and the codepoint gathered so far, as 32-bit values. */
  function Decode(q: nat, cp: nat, b: Byte): (r: (nat, nat))
    requires q <= 8
    ensures r.0 == Next(q, Class(b))
  {
    TableClass(b);
    var kind := UTF8D[b];
    TableNext(q, kind);
    (UTF8D[256 + q * 16 + kind],
     if q != 0 then Or(And(b, 0x3f, 32), Shl(cp, 6, 32), 32) else And(Shr(0xff, kind, 32), b, 32))
  }

  /** The state after a whole string. */
  function Feed(q: nat, s: seq<Byte>): (r: nat)
    requires q <= 8
    ensures r <= 8
    decreases s
  {
    if s == [] then q else Feed(Next(q, Class(s[0])), s[1..])
  }

  // ---- the grammar of section 4 of RFC 3629 ----

  predicate Tail(b: Byte) { 0x80 <= b <= 0xBF }

  /** One UTF8-char: UTF8-1 / UTF8-2 / UTF8-3 / UTF8-4. */
  predicate Utf8Char(s: seq<Byte>) {
    || (|s| == 1 && s[0] <= 0x7F)
    || (|s| == 2 && 0xC2 <= s[0] <= 0xDF && Tail(s[1]))
    || (|s| == 3 && Tail(s[2])
        && (|| (s[0] == 0xE0 && 0xA0 <= s[1] <= 0xBF)
            || (0xE1 <= s[0] <= 0xEC && Tail(s[1]))
            || (s[0] == 0xED && 0x80 <= s[1] <= 0x9F)
            || (0xEE <= s[0] <= 0xEF && Tail(s[1]))))
    || (|s| == 4 && Tail(s[2]) && Tail(s[3])
        && (|| (s[0] == 0xF0 && 0x90 <= s[1] <= 0xBF)
            || (0xF1 <= s[0] <= 0xF3 && Tail(s[1]))
            || (s[0] == 0xF4 && 0x80 <= s[1] <= 0x8F)))
  }

  /** UTF8-octets: a concatenation of UTF8-chars. */
  predicate WellFormed(s: seq<Byte>) {
    s == [] || exists n :: 1 <= n <= |s| && n <= 4 && Utf8Char(s[..n]) && WellFormed(s[n..])
  }

  /** The length of the character that a leading byte announces, 0 for none. */
  function Width(b: Byte): nat {
    if b <= 0x7F then 1 else if b < 0xC2 then 0 else if b < 0xE0 then 2 else if b < 0xF0 then 3
    else if b < 0xF5 then 4 else 0
  }

  lemma CharWidth(s: seq<Byte>)
    requires Utf8Char(s)
    ensures |s| == Width(s[0]) && 1 <= |s| <= 4
  {
  }

  lemma {:induction false} FeedReject(s: seq<Byte>)
    ensures Feed(REJECT, s) == REJECT
  {
    if s != [] {
      FeedReject(s[1..]);
    }
  }

  lemma {:induction false} FeedConcat(q: nat, a: seq<Byte>, b: seq<Byte>)
    requires q <= 8
    ensures Feed(q, a + b) == Feed(Feed(q, a), b)
    decreases a
  {
    if a == [] {
      assert a + b == b;
    } else {
      FeedConcat(Next(q, Class(a[0])), a[1..], b);
      assert (a + b)[1..] == a[1..] + b;
    }
  }

  /** Fed to the accepting state, a complete character is accepted and nothing else of its width is. */
  lemma FeedChar(s: seq<Byte>)
    requires s != [] && |s| == Width(s[0])
    ensures Feed(ACCEPT, s) == if Utf8Char(s) then ACCEPT else REJECT
  {
    FeedUnfold(ACCEPT, s);
    var q1 := Next(ACCEPT, Class(s[0]));
    if |s| >= 2 {
      FeedUnfold(q1, s[1..]);
      var q2 := Next(q1, Class(s[1]));
      if |s| >= 3 {
        FeedUnfold(q2, s[1..][1..]);
        var q3 := Next(q2, Class(s[2]));
        if |s| == 4 {
          FeedUnfold(q3, s[1..][1..][1..]);
        }
      }
    }
  }

  lemma FeedUnfold(q: nat, s: seq<Byte>)
    requires q <= 8 && s != []
    ensures Feed(q, s) == Feed(Next(q, Class(s[0])), s[1..])
    ensures |s| == 1 ==> Feed(q, s) == Next(q, Class(s[0]))
  {
  }

  /** A character cut short leaves the automaton in a state that does not accept. */
  lemma FeedPartial(s: seq<Byte>)
    requires s != [] && |s| < Width(s[0])
    ensures Feed(ACCEPT, s) != ACCEPT
  {
    FeedUnfold(ACCEPT, s);
    if |s| >= 2 {
      FeedUnfold(Next(ACCEPT, Class(s[0])), s[1..]);
      if |s| >= 3 {
        FeedUnfold(Next(Next(ACCEPT, Class(s[0])), Class(s[1])), s[1..][1..]);
      }
    }
  }

  lemma {:induction false} AcceptedIffWellFormed(s: seq<Byte>)
    ensures Feed(ACCEPT, s) == ACCEPT <==> WellFormed(s)
  {
    if s != [] {
      var n := Width(s[0]);
      if n == 0 {
        FeedReject(s[1..]);
        NoCharAt(s);
      } else if |s| < n {
        FeedPartial(s);
        NoCharAt(s);
      } else {
        CutJoin(s, n);
        FeedConcat(ACCEPT, s[..n], s[n..]);
        FeedChar(s[..n]);
        if Utf8Char(s[..n]) {
          AcceptedIffWellFormed(s[n..]);
          OnlyCharAt(s, n);
        } else {
          FeedReject(s[n..]);
          NoCharAt(s);
        }
      }
    }
  }

  lemma NoCharAt(s: seq<Byte>)
    requires s != [] && (Width(s[0]) == 0 || Width(s[0]) > |s| || !Utf8Char(s[..Width(s[0])]))
    ensures !WellFormed(s)
  {
    forall n | 1 <= n <= |s| && Utf8Char(s[..n])
      ensures n == Width(s[0])
    {
      CharWidth(s[..n]);
    }
  }

  lemma OnlyCharAt(s: seq<Byte>, n: nat)
    requires 1 <= n <= |s| && n == Width(s[0]) && Utf8Char(s[..n])
    ensures WellFormed(s) <==> WellFormed(s[n..])
  {
    CharWidth(s[..n]);
    forall m | 1 <= m <= |s| && Utf8Char(s[..m])
      ensures m == n
    {
      CharWidth(s[..m]);
    }
  }

  /** Accepts exactly the strings of RFC 3629. */
  method Utf8CheckIsValid(str: seq<Byte>) returns (valid: bool)
    ensures valid <==> WellFormed(str)
  {
    hide Next, Class, WellFormed, Decode;
    var codepoint: nat, state: nat := 0, ACCEPT;
    var i := 0;
    AcceptedIffWellFormed(str);
    while i < |str|
      invariant 0 <= i <= |str| && state <= 8
      invariant Feed(ACCEPT, str) == Feed(state, str[i..])
    {
      DropOfDrop(str, i, 1);
      var step := Decode(state, codepoint, str[i]);
      state, codepoint := step.0, step.1;
      if state == REJECT {
        FeedReject(str[i + 1..]);
        return false;
      }
      i := i + 1;
    }
    return state == ACCEPT;
  }

  // ---- the encoding of section 3 of RFC 3629 ----

  /** A Unicode scalar value. */
  predicate Scalar(cp: nat) {
    cp < 0xD800 || 0xE000 <= cp <= 0x10FFFF
  }

  function Encode(cp: nat): seq<Byte>
    requires Scalar(cp)
  {
    if cp < 0x80 then [cp]
    else if cp < 0x800 then [0xC0 + cp / 64, 0x80 + cp % 64]
    else if cp < 0x10000 then [0xE0 + cp / 64 / 64, 0x80 + cp / 64 % 64, 0x80 + cp % 64]
    else [0xF0 + cp / 64 / 64 / 64, 0x80 + cp / 64 / 64 % 64, 0x80 + cp / 64 % 64, 0x80 + cp % 64]
  }

  /** The payload of a leading byte. */
  function Lead(b: Byte): nat {
    if b < 0xC0 then b else if b < 0xE0 then b - 0xC0 else if b < 0xF0 then b - 0xE0 else b - 0xF0
  }

  /** The six payload digits of a tail byte appended to `cp`. */
  function Push(cp: nat, b: Byte): nat {
    cp * 64 + b % 64
  }

  /** The number held by the payload digits of a character. */
  function Payload(s: seq<Byte>): nat
    requires 1 <= |s| <= 4
  {
    if |s| == 1 then Lead(s[0])
    else if |s| == 2 then Push(Lead(s[0]), s[1])
    else if |s| == 3 then Push(Push(Lead(s[0]), s[1]), s[2])
    else Push(Push(Push(Lead(s[0]), s[1]), s[2]), s[3])
  }

  lemma PopPush(cp: nat, b: Byte)
    requires Tail(b)
    ensures Push(cp, b) == cp * 64 + b - 0x80
    ensures Push(cp, b) / 64 == cp && 0x80 + Push(cp, b) % 64 == b
  {
  }

  lemma PushPop(cp: nat)
    ensures 0x80 + cp % 64 < 256 && Push(cp / 64, 0x80 + cp % 64) == cp
  {
  }

  /** Every character is the encoding of the scalar value in its payload. */
  lemma CharsEncodeScalars(s: seq<Byte>)
    requires Utf8Char(s)
    ensures Scalar(Payload(s)) && Encode(Payload(s)) == s
  {
    hide Encode, Scalar, Push, Lead;
    if |s| == 1 {
      CharEncodes1(s[0]);
      assert s == [s[0]];
    } else if |s| == 2 {
      CharEncodes2(s[0], s[1]);
      assert s == [s[0], s[1]];
    } else if |s| == 3 {
      CharEncodes3(s[0], s[1], s[2]);
      assert s == [s[0], s[1], s[2]];
    } else {
      CharEncodes4(s[0], s[1], s[2], s[3]);
      assert s == [s[0], s[1], s[2], s[3]];
    }
  }

  lemma CharEncodes1(a: Byte)
    requires a <= 0x7F
    ensures Scalar(Lead(a)) && Encode(Lead(a)) == [a]
  {
  }

  lemma CharEncodes2(a: Byte, b: Byte)
    requires 0xC2 <= a <= 0xDF && Tail(b)
    ensures var cp := Push(Lead(a), b);
            Scalar(cp) && Encode(cp) == [a, b]
  {
    hide Push;
    PopPush(Lead(a), b);
  }

  lemma CharEncodes3(a: Byte, b: Byte, c: Byte)
    requires 0xE0 <= a <= 0xEF && Tail(b) && Tail(c) && (a == 0xE0 ==> b >= 0xA0) && (a == 0xED ==> b <= 0x9F)
    ensures var cp := Push(Push(Lead(a), b), c);
            Scalar(cp) && Encode(cp) == [a, b, c]
  {
    hide Push;
    PopPush(Lead(a), b);
    PopPush(Push(Lead(a), b), c);
  }

  lemma CharEncodes4(a: Byte, b: Byte, c: Byte, d: Byte)
    requires 0xF0 <= a <= 0xF4 && Tail(b) && Tail(c) && Tail(d) && (a == 0xF0 ==> b >= 0x90) && (a == 0xF4 ==> b <= 0x8F)
    ensures var cp := Push(Push(Push(Lead(a), b), c), d);
            Scalar(cp) && Encode(cp) == [a, b, c, d]
  {
    hide Push;
    PopPush(Lead(a), b);
    PopPush(Push(Lead(a), b), c);
    PopPush(Push(Push(Lead(a), b), c), d);
  }

  /** The encoding of every scalar value is a character with that payload. */
  lemma ScalarsEncodeToChars(cp: nat)
    requires Scalar(cp)
    ensures Utf8Char(Encode(cp)) && Payload(Encode(cp)) == cp
  {
    hide Push;
    PushPop(cp);
    if 0x800 <= cp {
      PushPop(cp / 64);
      if 0x10000 <= cp {
        PushPop(cp / 64 / 64);
        Bounds4(cp);
      } else {
        Bounds3(cp);
      }
    }
  }

  lemma Bounds3(cp: nat)
    requires Scalar(cp) && 0x800 <= cp < 0x10000
    ensures var a, b := 0xE0 + cp / 64 / 64, 0x80 + cp / 64 % 64;
            a <= 0xEF && (a == 0xE0 ==> b >= 0xA0) && (a == 0xED ==> b <= 0x9F)
  {
  }

  lemma Bounds4(cp: nat)
    requires Scalar(cp) && 0x10000 <= cp
    ensures var a, b := 0xF0 + cp / 64 / 64 / 64, 0x80 + cp / 64 / 64 % 64;
            a <= 0xF4 && (a == 0xF0 ==> b >= 0x90) && (a == 0xF4 ==> b <= 0x8F)
  {
  }

  // ---- the codepoint gathered by the automaton ----

  lemma LowDigitsOfByte(b: Byte, k: nat)
    requires k <= 8
    ensures And(b, Pow2(k) - 1, 32) == Num(ToBits(b, k)) == b % Pow2(k)
  {
    hide And, Num, ToBits;
    Pow2Values();
    NumOfToBits(b, 32);
    AndMask(ToBits(b, 32), k);
    ToBitsSuffix(b, 32, k);
    NumOfLowDigits(b, k);
  }

  /** 0xff shifted right by `k` is a mask of the remaining ones. */
  lemma ShiftedMask(k: nat)
    requires k <= 11
    ensures Shr(0xff, k, 32) == Pow2(if k <= 8 then 8 - k else 0) - 1
  {
    hide Num, ToBits, Pow2, Ones, Zeros;
    var n := if k <= 8 then 8 - k else 0;
    Pow2Values();
    NumOnes(8);
    NumOnes(n);
    PadDigits(Ones(8), 32);
    ShiftedOnes(k, n);
    NumLeadingZeros(32 - n, Ones(n));
  }

  lemma ShiftedOnes(k: nat, n: nat)
    requires k <= 32 && n == if k <= 8 then 8 - k else 0
    ensures ShrBits(Zeros(24) + Ones(8), k) == Zeros(32 - n) + Ones(n)
  {
  }

  lemma DecodeLead(b: Byte, cp: nat)
    requires Width(b) >= 1
    ensures Decode(ACCEPT, cp, b).1 == Lead(b)
  {
    hide And, Shr, Row, Rows;
    var k := Class(b);
    var n := if k <= 8 then 8 - k else 0;
    TableClass(b);
    ShiftedMask(k);
    AndCommutes(Pow2(n) - 1, b, 32);
    LowDigitsOfByte(b, n);
    LeadDigits(b, n);
  }

  lemma LeadDigits(b: Byte, n: nat)
    requires Width(b) >= 1 && n == if Class(b) <= 8 then 8 - Class(b) else 0
    ensures b % Pow2(n) == Lead(b)
  {
    if b < 0x80 {
      assert Pow2(n) == Pow2(8) == 256;
    } else if b < 0xE0 {
      assert Pow2(n) == Pow2(6) == 64;
    } else if b == 0xE0 || b == 0xF0 {
      assert Pow2(n) == Pow2(0) == 1;
    } else if b == 0xED {
      assert Pow2(n) == Pow2(4) == 16;
    } else if b < 0xF0 {
      assert Pow2(n) == Pow2(5) == 32;
    } else if b < 0xF4 {
      assert Pow2(n) == Pow2(2) == 4;
    } else {
      assert Pow2(n) == Pow2(3) == 8;
    }
  }

  lemma DecodeTail(q: nat, cp: nat, b: Byte)
    requires 0 < q <= 8 && cp < 0x400_0000
    ensures Decode(q, cp, b).1 == Push(cp, b)
  {
    hide And, Or, Shl, Num, ToBits, Row, Rows;
    assert Pow2(6) == 64;
    assert Pow2(16) == 0x1_0000;
    assert Pow2(26) == 0x400_0000;
    LowDigitsOfByte(b, 6);
    NumOfToBits(cp, 26);
    OrCommutes(And(b, 0x3f, 32), Shl(cp, 6, 32), 32);
    OrAppends(ToBits(cp, 26), ToBits(b, 6), 32);
    NumConcat(ToBits(cp, 26), ToBits(b, 6));
    ScaleBySix(cp);
  }

  lemma ScaleBySix(x: nat)
    ensures Scale(x, 6) == 64 * x
  {
    assert Scale(x, 1) == 2 * x;
    assert Scale(x, 2) == 4 * x;
    assert Scale(x, 3) == 8 * x;
    assert Scale(x, 4) == 16 * x;
    assert Scale(x, 5) == 32 * x;
  }

  /** The codepoints at hand whenever the automaton is back in its accepting state. */
  function Outputs(q: nat, cp: nat, s: seq<Byte>): seq<nat>
    requires q <= 8
    decreases s
  {
    if s == [] then []
    else
      var r := Decode(q, cp, s[0]);
      (if r.0 == ACCEPT then [r.1] else []) + Outputs(r.0, r.1, s[1..])
  }

  /** A step that stays inside a character, and a step that completes one. */
  lemma OutputsStep(q: nat, cp: nat, b: Byte, s: seq<Byte>)
    requires q <= 8
    ensures var r := Decode(q, cp, b);
            Outputs(q, cp, [b] + s) == (if r.0 == ACCEPT then [r.1] else []) + Outputs(r.0, r.1, s)
  {
    assert ([b] + s)[1..] == s;
  }

  lemma OutputsInside(q: nat, cp: nat, b: Byte, s: seq<Byte>, n: nat)
    requires q <= 8 && Decode(q, cp, b).1 == n && Next(q, Class(b)) != ACCEPT
    ensures Outputs(q, cp, [b] + s) == Outputs(Next(q, Class(b)), n, s)
  {
    hide Decode, Next, Class;
    OutputsStep(q, cp, b, s);
  }

  /** From the accepting state, a character yields its payload. */
  lemma OutputsOfChar(c: seq<Byte>, rest: seq<Byte>, cp: nat)
    requires Utf8Char(c)
    ensures Outputs(ACCEPT, cp, c + rest) == [Payload(c)] + Outputs(ACCEPT, Payload(c), rest)
  {
    hide Decode, Outputs, Push, Payload;
    CharWidth(c);
    FeedChar(c);
    FeedUnfold(ACCEPT, c);
    CharsEncodeScalars(c);
    PayloadIsPushAll(c);
    DecodeLead(c[0], cp);
    SplitHead(c, rest);
    if |c| == 1 {
      OutputsStep(ACCEPT, cp, c[0], rest);
      assert c[1..] + rest == rest;
    } else {
      OutputsInside(ACCEPT, cp, c[0], c[1..] + rest, Lead(c[0]));
      OutputsOfTails(Next(ACCEPT, Class(c[0])), Lead(c[0]), c[1..], rest);
    }
  }

  lemma PayloadIsPushAll(c: seq<Byte>)
    requires 1 <= |c| <= 4
    ensures Payload(c) == PushAll(Lead(c[0]), c[1..])
  {
    hide Push, Lead;
    var l := Lead(c[0]);
    if |c| >= 2 {
      DropOfDrop(c, 1, 1);
      assert PushAll(l, c[1..]) == PushAll(Push(l, c[1]), c[2..]);
      if |c| >= 3 {
        DropOfDrop(c, 2, 1);
        assert PushAll(Push(l, c[1]), c[2..]) == PushAll(Push(Push(l, c[1]), c[2]), c[3..]);
        if |c| == 4 {
          DropOfDrop(c, 3, 1);
        }
      }
    }
  }

  lemma SplitHead(c: seq<Byte>, rest: seq<Byte>)
    requires c != []
    ensures c + rest == [c[0]] + (c[1..] + rest)
  {
  }

  /** How many tail bytes a state still wants. */
  function Wanted(q: nat): nat {
    match q case 2 => 1 case 3 => 2 case 4 => 2 case 5 => 2 case 6 => 3 case 7 => 3 case 8 => 3 case _ => 0
  }

  function PushAll(cp: nat, s: seq<Byte>): nat
    decreases s
  {
    if s == [] then cp else PushAll(Push(cp, s[0]), s[1..])
  }

  lemma {:induction false} PushAllGrows(cp: nat, s: seq<Byte>)
    ensures cp <= PushAll(cp, s)
    decreases s
  {
    if s != [] {
      PushAllGrows(Push(cp, s[0]), s[1..]);
    }
  }

  lemma {:induction false} OutputsOfTails(q: nat, cp: nat, c: seq<Byte>, rest: seq<Byte>)
    requires 2 <= q <= 8 && |c| == Wanted(q) && Feed(q, c) == ACCEPT && PushAll(cp, c) <= 0x10FFFF
    ensures Outputs(q, cp, c + rest) == [PushAll(cp, c)] + Outputs(ACCEPT, PushAll(cp, c), rest)
    decreases c
  {
    hide Decode, Outputs, Push, Class;
    var b := c[0];
    var p := Next(q, Class(b));
    FeedUnfold(q, c);
    PushAllGrows(cp, c);
    DecodeTail(q, cp, b);
    SplitHead(c, rest);
    if |c| == 1 {
      OutputsStep(q, cp, b, rest);
      assert c[1..] + rest == rest;
      assert PushAll(cp, c) == Push(cp, b);
    } else {
      FeedReject(c[1..]);
      OutputsInside(q, cp, b, c[1..] + rest, Push(cp, b));
      OutputsOfTails(p, Push(cp, b), c[1..], rest);
    }
  }

  predicate AllScalars(cps: seq<nat>) {
    forall i :: 0 <= i < |cps| ==> Scalar(cps[i])
  }

  function EncodeAll(cps: seq<nat>): seq<Byte>
    requires AllScalars(cps)
  {
    if cps == [] then [] else Encode(cps[0]) + EncodeAll(cps[1..])
  }

  /** The encodings of any scalar values make a well-formed string, and the automaton reads back
      exactly those values. */
  lemma {:induction false} EncodedScalarsAreReadBack(cps: seq<nat>, cp: nat)
    requires AllScalars(cps)
    ensures WellFormed(EncodeAll(cps)) && Outputs(ACCEPT, cp, EncodeAll(cps)) == cps
  {
    hide Encode, Outputs, Decode, Payload, Utf8Char;
    if cps == [] {
      NoOutputs(cp);
    } else {
      var c, rest := Encode(cps[0]), EncodeAll(cps[1..]);
      ScalarsEncodeToChars(cps[0]);
      EncodedScalarsAreReadBack(cps[1..], cps[0]);
      OutputsOfChar(c, rest, cp);
      WellFormedCons(c, rest);
      assert [cps[0]] + cps[1..] == cps;
    }
  }

  lemma NoOutputs(cp: nat)
    ensures Outputs(ACCEPT, cp, []) == []
  {
  }

  lemma WellFormedCons(c: seq<Byte>, rest: seq<Byte>)
    requires Utf8Char(c) && WellFormed(rest)
    ensures WellFormed(c + rest)
  {
    CharWidth(c);
    assert (c + rest)[..|c|] == c && (c + rest)[|c|..] == rest;
  }

  /** Conversely, what the automaton reads from any well-formed string are scalar values whose
      encodings give the string back. */
  lemma {:induction false} ReadScalarsEncodeBack(s: seq<Byte>, cp: nat)
    requires WellFormed(s)
    ensures var cps := Outputs(ACCEPT, cp, s);
            AllScalars(cps) && EncodeAll(cps) == s
  {
    hide Encode, Outputs, Decode, Payload, Utf8Char;
    if s == [] {
      NoOutputs(cp);
    } else {
      var n :| 1 <= n <= |s| && n <= 4 && Utf8Char(s[..n]) && WellFormed(s[n..]);
      var c, rest := s[..n], s[n..];
      CutJoin(s, n);
      CharsEncodeScalars(c);
      OutputsOfChar(c, rest, cp);
      ReadScalarsEncodeBack(rest, Payload(c));
      EncodeAllCons(Payload(c), Outputs(ACCEPT, Payload(c), rest));
    }
  }

  lemma EncodeAllCons(cp: nat, cps: seq<nat>)
    requires Scalar(cp) && AllScalars(cps)
    ensures AllScalars([cp] + cps) && EncodeAll([cp] + cps) == Encode(cp) + EncodeAll(cps)
  {
    hide Encode;
    assert ([cp] + cps)[1..] == cps;
  }
}
