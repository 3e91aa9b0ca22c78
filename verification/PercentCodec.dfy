/** encodeURI / decodeURI and encodeURIComponent / decodeURIComponent (section 2.1 of RFC 3986 with
    the character classes of sections 2.2 and 2.3 of RFC 2396). */
module PercentCodec {
  import opened Slices
  import opened UriChars

  /** One byte of a text. */
  type Octet = c: char | c as int < 256

  type Octets = seq<Octet>

  /** Which of the two pairs of functions. */
  datatype Codec = WholeUri | Component

  datatype Result = Ok(text: Octets) | Malformed

  predicate Kept(k: Codec, c: Octet) {
    IsAlpha(c) || IsDigit(c) || IsMark(c) || (k.WholeUri? && IsReserved(c))
  }

  function HexDigit(n: int): (c: Octet)
    requires 0 <= n < 16
  {
    if n < 10 then '0' + n as char else 'a' + (n - 10) as char
  }

  function ToHex(c: Octet): Octets {
    [HexDigit(c as int / 16), HexDigit(c as int % 16)]
  }

  predicate IsHex(c: char) {
    IsDigit(c) || 'A' <= c <= 'F' || 'a' <= c <= 'f'
  }

  function HexValue(c: char): (v: int)
    requires IsHex(c)
    ensures 0 <= v < 16
  {
    if IsDigit(c) then (c - '0') as int
    else if 'A' <= c <= 'F' then (c - 'A') as int + 10
    else (c - 'a') as int + 10
  }

  /** The byte that two hexadecimal digits stand for. */
  function Unhex(a: char, b: char): Octet
    requires IsHex(a) && IsHex(b)
  {
    (HexValue(a) * 16 + HexValue(b)) as char
  }

  /** decodeURI leaves the escapes of these as they are. */
  predicate StaysEscaped(k: Codec, c: Octet) {
    k.WholeUri? && (IsReserved(c) || c == '#')
  }

  function EncodeByte(k: Codec, c: Octet): Octets {
    if Kept(k, c) then [c] else ['%'] + ToHex(c)
  }

  function Encoded(k: Codec, s: Octets): Octets {
    if s == [] then [] else EncodeByte(k, s[0]) + Encoded(k, s[1..])
  }

  predicate EscapeAt(s: Octets, i: nat)
    requires i < |s|
  {
    i + 2 < |s| && IsHex(s[i + 1]) && IsHex(s[i + 2])
  }

  function Prepend(c: Octet, r: Result): Result {
    match r case Malformed => Malformed case Ok(t) => Ok([c] + t)
  }

  function Decoded(k: Codec, s: Octets): Result {
    if s == [] then Ok([])
    else if s[0] != '%' then Prepend(s[0], Decoded(k, s[1..]))
    else if !EscapeAt(s, 0) then Malformed
    else
      var c := Unhex(s[1], s[2]);
      if StaysEscaped(k, c) then Prepend('%', Decoded(k, s[1..])) else Prepend(c, Decoded(k, s[3..]))
  }

  method Encode(k: Codec, str: Octets) returns (result: Octets)
    ensures result == Encoded(k, str)
  {
    hide EncodeByte;
    result := [];
    var i := 0;
    while i < |str|
      invariant 0 <= i <= |str|
      invariant result + Encoded(k, str[i..]) == Encoded(k, str)
    {
      DropOfDrop(str, i, 1);
      AppendAssoc(result, EncodeByte(k, str[i]), Encoded(k, str[i + 1..]));
      result := result + EncodeByte(k, str[i]);
      i := i + 1;
    }
  }

  function After(t: Octets, r: Result): Result {
    match r case Malformed => Malformed case Ok(u) => Ok(t + u)
  }

  lemma AfterPrepend(t: Octets, c: Octet, r: Result)
    ensures After(t, Prepend(c, r)) == After(t + [c], r)
  {
    if r.Ok? {
      AppendAssoc(t, [c], r.text);
    }
  }

  method Decode(k: Codec, str: Octets) returns (result: Result)
    ensures result == Decoded(k, str)
  {
    hide After, Prepend, StaysEscaped;
    var text: Octets := [];
    var start := 0;
    AfterNothing(Decoded(k, str));
    while start < |str|
      invariant 0 <= start <= |str|
      invariant After(text, Decoded(k, str[start..])) == Decoded(k, str)
    {
      ghost var rest := str[start..];
      var c := str[start];
      DropOfDrop(str, start, 1);
      if c == '%' {
        if start + 1 == |str| || start + 2 == |str| || !IsHex(str[start + 1]) || !IsHex(str[start + 2]) {
          MalformedRest(text);
          return Malformed;
        }
        c := Unhex(str[start + 1], str[start + 2]);
        if StaysEscaped(k, c) {
          c := str[start];
        } else {
          start := start + 2;
          DropOfDrop(str, start - 2, 3);
        }
      }
      AfterPrepend(text, c, Decoded(k, str[start + 1..]));
      text := text + [c];
      start := start + 1;
    }
    Finished(text);
    return Ok(text);
  }

  lemma AfterNothing(r: Result)
    ensures After([], r) == r
  {
    if r.Ok? {
      assert [] + r.text == r.text;
    }
  }

  lemma MalformedRest(t: Octets)
    ensures After(t, Malformed) == Malformed
  {
  }

  lemma Finished(t: Octets)
    ensures After(t, Ok([])) == Ok(t)
  {
    assert t + [] == t;
  }

  // ---- what decoding undoes ----

  lemma HexRoundTrip(c: Octet)
    ensures var h := ToHex(c);
            IsHex(h[0]) && IsHex(h[1]) && Unhex(h[0], h[1]) == c
  {
    HexDigitValue(c as int / 16);
    HexDigitValue(c as int % 16);
  }

  lemma HexDigitValue(n: int)
    requires 0 <= n < 16
    ensures IsHex(HexDigit(n)) && HexValue(HexDigit(n)) == n
  {
  }

  /** The text with each '#' replaced by its escape. */
  function HashEscaped(s: Octets): Octets {
    if s == [] then [] else (if s[0] == '#' then ['%', '2', '3'] else [s[0]]) + HashEscaped(s[1..])
  }

  function Surviving(k: Codec, s: Octets): Octets {
    if k.Component? then s else HashEscaped(s)
  }

  /** For every byte string, decoding what was encoded succeeds. For components it gives the string
      back; for whole URIs it gives the string with each '#' left as "%23". */
  lemma {:induction false} DecodeOfEncode(k: Codec, s: Octets)
    ensures Decoded(k, Encoded(k, s)) == Ok(Surviving(k, s))
  {
    if s != [] {
      DecodeOfEncode(k, s[1..]);
      DecodeByte(k, s[0], Encoded(k, s[1..]));
      assert [s[0]] + s[1..] == s;
    }
  }

  lemma DecodeByte(k: Codec, c: Octet, rest: Octets)
    ensures Decoded(k, EncodeByte(k, c) + rest)
         == After(if k.WholeUri? && c == '#' then ['%', '2', '3'] else [c], Decoded(k, rest))
  {
    var s := EncodeByte(k, c) + rest;
    if Kept(k, c) {
      assert s[1..] == rest;
    } else {
      HexRoundTrip(c);
      EscapeUnfold(k, c, rest);
      if k.WholeUri? && c == '#' {
        assert ToHex('#') == ['2', '3'];
        EscapePasses(k, '2', '3', rest);
      }
    }
  }

  lemma EscapeUnfold(k: Codec, c: Octet, rest: Octets)
    requires !Kept(k, c)
    ensures var s := ['%'] + ToHex(c) + rest;
            Decoded(k, s) == if StaysEscaped(k, c) then Prepend('%', Decoded(k, ToHex(c) + rest)) else Prepend(c, Decoded(k, rest))
  {
    var s := ['%'] + ToHex(c) + rest;
    HexRoundTrip(c);
    assert s[1..] == ToHex(c) + rest;
    assert s[3..] == rest;
  }

  /** decodeURI undoes encodeURI exactly on the strings without '#'. */
  lemma WholeUriIdentity(s: Octets)
    ensures Decoded(WholeUri, Encoded(WholeUri, s)) == Ok(s) <==> '#' !in s
  {
    DecodeOfEncode(WholeUri, s);
    HashEscapedLonger(s);
  }

  lemma {:induction false} HashEscapedLonger(s: Octets)
    ensures if '#' in s then |HashEscaped(s)| > |s| else HashEscaped(s) == s
  {
    if s != [] {
      HashEscapedLonger(s[1..]);
      if s[0] != '#' {
        assert [s[0]] + s[1..] == s;
      }
    }
  }

  lemma HexIs(c: char)
    ensures IsHex(c) <==> c in "0123456789abcdefABCDEF"
  {
  }

  /** Some '%' is not followed by two hexadecimal digits. */
  ghost predicate BadEscape(s: Octets) {
    exists i :: 0 <= i < |s| && s[i] == '%' && !EscapeAt(s, i)
  }

  /** Decoding fails exactly when the string has a bad escape, wherever it is. */
  lemma {:induction false} MalformedExactly(k: Codec, s: Octets)
    ensures Decoded(k, s).Malformed? <==> BadEscape(s)
  {
    if s != [] {
      if s[0] != '%' || !EscapeAt(s, 0) {
        MalformedExactly(k, s[1..]);
        BadEscapeLater(s, 1);
      } else if StaysEscaped(k, Unhex(s[1], s[2])) {
        MalformedExactly(k, s[1..]);
        BadEscapeLater(s, 1);
      } else {
        MalformedExactly(k, s[3..]);
        BadEscapeLater(s, 3);
      }
    }
  }

  lemma BadEscapeLater(s: Octets, n: nat)
    requires 1 <= n <= |s| && forall i :: 0 < i < n ==> s[i] != '%'
    ensures BadEscape(s) <==> (s[0] == '%' && !EscapeAt(s, 0)) || BadEscape(s[n..])
  {
    if BadEscape(s[n..]) {
      var i :| 0 <= i < |s[n..]| && s[n..][i] == '%' && !EscapeAt(s[n..], i);
      assert s[n + i] == '%' && !EscapeAt(s, n + i);
    }
    if BadEscape(s) {
      var i :| 0 <= i < |s| && s[i] == '%' && !EscapeAt(s, i);
      if i >= n {
        assert s[n..][i - n] == '%' && !EscapeAt(s[n..], i - n);
      }
    }
  }

  // ---- which characters are escaped, character by character ----

  /** A letter, a digit, a mark, or for whole URIs a reserved character. */
  predicate Plain(k: Codec, c: char) {
    || 'a' <= c <= 'z' || 'A' <= c <= 'Z' || '0' <= c <= '9' || c in "-_.!~*'()"
    || (k.WholeUri? && c in ";/?:@&=+$,")
  }

  const LOWER_DIGITS := "0123456789abcdef"
  const UPPER_DIGITS := "0123456789ABCDEF"

  lemma KeptIsPlain(k: Codec, c: Octet)
    ensures Kept(k, c) <==> Plain(k, c)
  {
  }

  lemma DigitIsLower(n: int)
    requires 0 <= n < 16
    ensures HexDigit(n) == LOWER_DIGITS[n]
  {
  }

  /** Each byte stands in the result by itself: plain ones as they are, every other as '%' and its
      two lower-case digits. */
  lemma EncodedByByte(k: Codec, s: Octets, i: nat)
    requires i < |s|
    ensures var e := if Plain(k, s[i]) then [s[i]]
                     else ['%', LOWER_DIGITS[s[i] as int / 16], LOWER_DIGITS[s[i] as int % 16]];
            Encoded(k, s) == Encoded(k, s[..i]) + e + Encoded(k, s[i + 1..])
  {
    KeptIsPlain(k, s[i]);
    DigitIsLower(s[i] as int / 16);
    DigitIsLower(s[i] as int % 16);
    assert s == s[..i] + ([s[i]] + s[i + 1..]);
    EncodedConcat(k, s[..i], [s[i]] + s[i + 1..]);
    assert ([s[i]] + s[i + 1..])[1..] == s[i + 1..];
    AppendAssoc(Encoded(k, s[..i]), EncodeByte(k, s[i]), Encoded(k, s[i + 1..]));
  }

  lemma {:induction false} EncodedConcat(k: Codec, a: Octets, b: Octets)
    ensures Encoded(k, a + b) == Encoded(k, a) + Encoded(k, b)
  {
    hide EncodeByte;
    if a == [] {
      assert a + b == b;
    } else {
      EncodedConcat(k, a[1..], b);
      assert (a + b)[1..] == a[1..] + b;
      AppendAssoc(EncodeByte(k, a[0]), Encoded(k, a[1..]), Encoded(k, b));
    }
  }

  /** An encoded text has only plain characters and '%'. */
  lemma {:induction false} EncodedIsPlain(k: Codec, s: Octets)
    ensures forall c :: c in Encoded(k, s) ==> Plain(k, c) || c == '%'
  {
    hide Plain;
    if s != [] {
      EncodedIsPlain(k, s[1..]);
      ByteIsPlain(k, s[0]);
    }
  }

  lemma ByteIsPlain(k: Codec, b: Octet)
    ensures forall c :: c in EncodeByte(k, b) ==> Plain(k, c) || c == '%'
  {
    KeptIsPlain(k, b);
    LowerIsPlain(k, b as int / 16);
    LowerIsPlain(k, b as int % 16);
  }

  lemma LowerIsPlain(k: Codec, n: int)
    requires 0 <= n < 16
    ensures Plain(k, HexDigit(n))
  {
  }

  /** A text is its own encoding exactly when all its characters are plain. */
  lemma {:induction false} UnchangedExactly(k: Codec, s: Octets)
    ensures Encoded(k, s) == s <==> forall i :: 0 <= i < |s| ==> Plain(k, s[i])
    ensures |Encoded(k, s)| >= |s|
  {
    hide Plain;
    if s != [] {
      KeptIsPlain(k, s[0]);
      UnchangedExactly(k, s[1..]);
      assert [s[0]] + s[1..] == s;
      assert Encoded(k, s)[|EncodeByte(k, s[0])|..] == Encoded(k, s[1..]);
      assert forall i :: 0 < i < |s| ==> s[i] == s[1..][i - 1];
      assert forall i :: 0 <= i < |s[1..]| ==> s[1..][i] == s[i + 1];
    }
  }

  predicate IsDigitOf(c: char, n: int)
    requires 0 <= n < 16
  {
    c == LOWER_DIGITS[n] || c == UPPER_DIGITS[n]
  }

  lemma DigitHasValue(c: char, n: int)
    requires 0 <= n < 16 && IsDigitOf(c, n)
    ensures IsHex(c) && HexValue(c) == n && c != '%'
  {
  }

  /** A character that is no '%' stands for itself. */
  lemma PlainStaysPlain(k: Codec, c: Octet, rest: Octets)
    requires c != '%'
    ensures Decoded(k, [c] + rest) == Prepend(c, Decoded(k, rest))
  {
    assert ([c] + rest)[1..] == rest;
  }

  lemma StaysIs(k: Codec, c: Octet)
    ensures StaysEscaped(k, c) <==> k.WholeUri? && c in ";/?:@&=+$,#"
  {
  }

  lemma EscapePasses(k: Codec, a: Octet, b: Octet, rest: Octets)
    requires a != '%' && b != '%'
    ensures Prepend('%', Decoded(k, [a, b] + rest)) == After(['%', a, b], Decoded(k, rest))
  {
    assert [a, b] + rest == [a] + ([b] + rest);
    PlainStaysPlain(k, a, [b] + rest);
    PlainStaysPlain(k, b, rest);
    if Decoded(k, rest).Ok? {
      var t := Decoded(k, rest).text;
      assert ['%'] + ([a] + ([b] + t)) == ['%', a, b] + t;
    }
  }

  lemma EscapeCut(a: Octet, b: Octet, rest: Octets)
    ensures var s := ['%', a, b] + rest;
            s[0] == '%' && s[1] == a && s[2] == b && s[1..] == [a, b] + rest && s[3..] == rest
  {
  }

  /** An escape, in digits of either case, stands for its byte; in a whole URI the escapes of the
      reserved characters and of '#' stay as they are. */
  lemma EscapeByEscape(k: Codec, a: Octet, b: Octet, x: int, y: int, rest: Octets)
    requires 0 <= x < 16 && 0 <= y < 16 && IsDigitOf(a, x) && IsDigitOf(b, y)
    ensures var c := (16 * x + y) as char;
            Decoded(k, ['%', a, b] + rest)
            == After(if k.WholeUri? && c in ";/?:@&=+$,#" then ['%', a, b] else [c], Decoded(k, rest))
  {
    hide IsHex, HexValue, StaysEscaped, IsDigitOf;
    DigitHasValue(a, x);
    DigitHasValue(b, y);
    EscapeCut(a, b, rest);
    StaysIs(k, Unhex(a, b));
    if StaysEscaped(k, Unhex(a, b)) {
      EscapePasses(k, a, b, rest);
    }
  }
}
