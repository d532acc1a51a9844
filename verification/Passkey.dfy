/** `encodePasskeyAnswer` of packages/sdk/src/transport.ts: base64url without padding. */
module Passkey {
  import opened Bits

  /** Digit `i` of RFC 4648, section 4. */
  function Digit(i: nat): char
    requires i < 64
  {
    if i < 26 then ('A' as int + i) as char
    else if i < 52 then ('a' as int + (i - 26)) as char
    else if i < 62 then ('0' as int + (i - 52)) as char
    else if i == 62 then '+' else '/'
  }

  /** The digits of up to three bytes. */
  function Digits(b: seq<Byte>): (s: string)
    requires 1 <= |b| <= 3
    ensures |s| == |b| + 1
  {
    if |b| == 1 then [Digit(b[0] / 4), Digit(b[0] % 4 * 16)]
    else if |b| == 2 then [Digit(b[0] / 4), Digit(b[0] % 4 * 16 + b[1] / 16), Digit(b[1] % 16 * 4)]
    else [Digit(b[0] / 4), Digit(b[0] % 4 * 16 + b[1] / 16), Digit(b[1] % 16 * 4 + b[2] / 64), Digit(b[2] % 64)]
  }

  /** `btoa`: groups of three bytes, the last padded with equals signs. */
  function Btoa(b: seq<Byte>): string {
    if b == [] then ""
    else if |b| == 1 then Digits(b) + "=="
    else if |b| == 2 then Digits(b) + "="
    else Digits(b[..3]) + Btoa(b[3..])
  }

  function UrlChar(c: char): char { if c == '+' then '-' else if c == '/' then '_' else c }

  function UrlSafe(s: string): string { seq(|s|, i requires 0 <= i < |s| => UrlChar(s[i])) }

  function DropPadding(s: string): string {
    if s != "" && s[|s| - 1] == '=' then DropPadding(s[..|s| - 1]) else s
  }

  function Ascii(s: string): seq<Byte> {
    seq(|s|, i requires 0 <= i < |s| => s[i] as int % 0x100)
  }

  /** The answer's JSON, which is ASCII, as the header carries it. */
  function Encoded(json: string): string { DropPadding(UrlSafe(Btoa(Ascii(json)))) }

  lemma EncodedEmpty(json: string)
    ensures Encoded(json) == "" <==> json == ""
  {
    var b := Ascii(json);
    if b != [] {
      assert Btoa(b)[0] == Digit(b[0] / 4);
      FirstStays(UrlSafe(Btoa(b)));
    }
  }

  lemma {:induction false} FirstStays(s: string)
    requires s != "" && s[0] != '='
    ensures DropPadding(s) != "" && DropPadding(s)[0] == s[0]
  {
    if s[|s| - 1] == '=' { FirstStays(s[..|s| - 1]); }
  }

  // ---------------------------------------------------------------------
  // Reading it back
  // ---------------------------------------------------------------------

  /** The value of a base64url digit of RFC 4648, section 5. */
  function Value(c: char): int {
    if 'A' <= c <= 'Z' then c as int - 'A' as int
    else if 'a' <= c <= 'z' then c as int - 'a' as int + 26
    else if '0' <= c <= '9' then c as int - '0' as int + 52
    else if c == '-' then 62 else 63
  }

  /** Base64url without padding, read back. */
  function Decoded(s: string): seq<int> {
    if |s| < 2 then []
    else
      var a, b := Value(s[0]), Value(s[1]);
      var first := a * 4 + b / 16;
      if |s| == 2 then [first] else
      var c := Value(s[2]);
      var second := b % 16 * 16 + c / 4;
      if |s| == 3 then [first, second] else
      [first, second, c % 4 * 64 + Value(s[3])] + Decoded(s[4..])
  }

  lemma DigitValue(i: nat)
    requires i < 64
    ensures Value(UrlChar(Digit(i))) == i && UrlChar(Digit(i)) != '='
  {
  }

  lemma GroupDecodes(b: seq<Byte>, rest: string)
    requires 1 <= |b| <= 3 && (rest != "" ==> |b| == 3)
    ensures Decoded(UrlSafe(Digits(b)) + rest) == b + Decoded(rest)
    ensures forall i | 0 <= i < |b| + 1 :: UrlSafe(Digits(b))[i] != '='
  {
    hide Digit, UrlChar, Value;
    var s := UrlSafe(Digits(b)) + rest;
    forall i: nat | i < 64
      ensures Value(UrlChar(Digit(i))) == i && UrlChar(Digit(i)) != '='
    {
      DigitValue(i);
    }
    if |b| == 3 { assert s[4..] == rest; } else { assert s == UrlSafe(Digits(b)) && Decoded("") == []; }
  }

  lemma {:induction false} PaddingDropped(s: string, t: string)
    requires forall i | 0 <= i < |t| :: t[i] == '='
    requires s != "" ==> s[|s| - 1] != '='
    ensures DropPadding(s + t) == s
  {
    if t == "" {
      assert s + t == s;
    } else {
      assert (s + t)[..|s + t| - 1] == s + t[..|t| - 1];
      PaddingDropped(s, t[..|t| - 1]);
    }
  }

  /** Base64 is groups of digits, then padding. */
  lemma {:induction false} Shape(b: seq<Byte>) returns (digits: string, padding: string)
    ensures UrlSafe(Btoa(b)) == digits + padding && Decoded(digits) == b
    ensures (forall i | 0 <= i < |padding| :: padding[i] == '=') && (forall i | 0 <= i < |digits| :: digits[i] != '=')
  {
    hide Digits, UrlChar, Decoded;
    if b == [] {
      digits, padding := "", "";
      NothingDecoded();
    } else if |b| < 3 {
      padding := if |b| == 1 then "==" else "=";
      digits := UrlSafe(Digits(b));
      UrlSafeConcat(Digits(b), padding);
      Equals();
      assert UrlSafe(padding) == padding;
      GroupDecodes(b, "");
      NothingDecoded();
      assert digits + "" == digits;
    } else {
      var more, rest := Shape(b[3..]);
      digits, padding := UrlSafe(Digits(b[..3])) + more, rest;
      UrlSafeConcat(Digits(b[..3]), Btoa(b[3..]));
      GroupDecodes(b[..3], more);
      assert b == b[..3] + b[3..];
    }
  }

  lemma NothingDecoded()
    ensures Decoded("") == []
  {
  }

  lemma Equals()
    ensures UrlChar('=') == '='
  {
  }

  lemma UrlSafeConcat(s: string, t: string)
    ensures UrlSafe(s + t) == UrlSafe(s) + UrlSafe(t)
  {
    hide UrlChar;
  }

  /** The server reads back the JSON that the handler gave. */
  lemma EncodedReads(json: string)
    requires forall c | c in json :: c as int < 0x80
    ensures |Decoded(Encoded(json))| == |json|
    ensures forall i | 0 <= i < |json| :: Decoded(Encoded(json))[i] == json[i] as int
  {
    hide Btoa, Decoded, DropPadding;
    var digits, padding := Shape(Ascii(json));
    PaddingDropped(digits, padding);
    assert forall i | 0 <= i < |json| :: json[i] in json;
  }
}
