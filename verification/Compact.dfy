/** The compact token of `CreateToken` and `joseBase64UrlEncode` in auth_server/server/server.go: three parts in
    base64url (section 5 of RFC 4648) without padding (Appendix C of RFC 7515), joined by dots (section 7.1
    of RFC 7515). */
module Compact {
  import opened GoStrings

  type byte = b: int | 0 <= b < 256

  // ---------------------------------------------------------------- digits

  function Digit(n: nat): (c: char)
    requires n < 64
    ensures c != '=' && c != '.'
  {
    if n < 26 then ('A' as nat + n) as char
    else if n < 52 then ('a' as nat + (n - 26)) as char
    else if n < 62 then ('0' as nat + (n - 52)) as char
    else if n == 62 then '-'
    else '_'
  }

  function DigitValue(c: char): (n: Option<nat>)
    ensures n.Some? ==> n.value < 64
  {
    if 'A' <= c <= 'Z' then Some(c as nat - 'A' as nat)
    else if 'a' <= c <= 'z' then Some(c as nat - 'a' as nat + 26)
    else if '0' <= c <= '9' then Some(c as nat - '0' as nat + 52)
    else if c == '-' then Some(62)
    else if c == '_' then Some(63)
    else None
  }

  lemma DigitReadsBack(n: nat)
    requires n < 64
    ensures DigitValue(Digit(n)) == Some(n)
  {
  }

  /** The base64url alphabet of section 5 of RFC 4648: capitals, small letters and numerals in their order, then the
      hyphen and the underscore. */
  lemma DigitsAreTheAlphabet(n: nat)
    requires n < 63
    ensures Digit(0) == 'A' && Digit(26) == 'a' && Digit(52) == '0' && Digit(62) == '-' && Digit(63) == '_'
    ensures n !in [25, 51, 61, 62] ==> (Digit(n + 1) as nat) == (Digit(n) as nat) + 1
  {
  }

  // ---------------------------------------------------------------- encoding

  /** `base64.URLEncoding.EncodeToString`, which pads to a multiple of four characters. */
  function Encode(b: seq<byte>): string {
    if |b| == 0 then ""
    else if |b| == 1 then [Digit(b[0] / 4), Digit(b[0] % 4 * 16), '=', '=']
    else if |b| == 2 then [Digit(b[0] / 4), Digit(b[0] % 4 * 16 + b[1] / 16), Digit(b[1] % 16 * 4), '=']
    else Group(b[0], b[1], b[2]) + Encode(b[3..])
  }

  function Group(x: byte, y: byte, z: byte): string {
    [Digit(x / 4), Digit(x % 4 * 16 + y / 16), Digit(y % 16 * 4 + z / 64), Digit(z % 64)]
  }

  /** `strings.TrimRight(s, "=")`. */
  function TrimRight(s: string): string {
    if s != "" && s[|s| - 1] == '=' then TrimRight(s[..|s| - 1]) else s
  }

  function Jose(b: seq<byte>): string {
    TrimRight(Encode(b))
  }

  function Padding(n: nat): (p: string)
    ensures p == "" || p == "=" || p == "=="
  {
    if n == 0 then "" else if n == 1 then "==" else if n == 2 then "=" else Padding(n - 3)
  }

  // ---------------------------------------------------------------- decoding

  /** The bytes of an unpadded base64url text. */
  function Decode(s: string): Option<seq<byte>> {
    if s == "" then Some([])
    else if |s| == 1 then None
    else
      var a, b := DigitValue(s[0]), DigitValue(s[1]);
      if a.None? || b.None? then None
      else
        var x := a.value * 4 + b.value / 16;
        if |s| == 2 then Some([x])
        else
          var c := DigitValue(s[2]);
          if c.None? then None
          else
            var y := b.value % 16 * 16 + c.value / 4;
            if |s| == 3 then Some([x, y])
            else
              var d, rest := DigitValue(s[3]), Decode(s[4..]);
              if d.None? || rest.None? then None
              else Some([x, y, c.value % 4 * 64 + d.value] + rest.value)
  }

  predicate InAlphabet(s: string) {
    forall i :: 0 <= i < |s| ==> DigitValue(s[i]).Some?
  }

  lemma TrimDigits(s: string)
    requires InAlphabet(s)
    ensures TrimRight(s) == s
    ensures TrimRight(s + "=") == s
    ensures TrimRight(s + "==") == s
  {
    assert (s + "=")[..|s|] == s;
    assert (s + "==")[..|s| + 1] == s + "=";
  }

  /** Three bytes are four six-bit numbers, and back. */
  lemma Regroup(x: byte, y: byte, z: byte)
    ensures var a, b, c, d := x / 4, x % 4 * 16 + y / 16, y % 16 * 4 + z / 64, z % 64;
      && a < 64 && b < 64 && c < 64 && d < 64
      && a * 4 + b / 16 == x && b % 16 * 16 + c / 4 == y && c % 4 * 64 + d == z
  {
  }

  lemma DecodeGroup(a: nat, b: nat, c: nat, d: nat, tail: string)
    requires a < 64 && b < 64 && c < 64 && d < 64 && Decode(tail).Some?
    ensures Decode([Digit(a), Digit(b), Digit(c), Digit(d)] + tail)
         == Some([a * 4 + b / 16, b % 16 * 16 + c / 4, c % 4 * 64 + d] + Decode(tail).value)
    ensures InAlphabet([Digit(a), Digit(b), Digit(c), Digit(d)])
  {
    var s := [Digit(a), Digit(b), Digit(c), Digit(d)] + tail;
    DigitReadsBack(a);
    DigitReadsBack(b);
    DigitReadsBack(c);
    DigitReadsBack(d);
    assert s[4..] == tail;
  }

  lemma GroupReadsBack(x: byte, y: byte, z: byte, tail: string)
    requires Decode(tail).Some?
    ensures InAlphabet(Group(x, y, z))
    ensures Decode(Group(x, y, z) + tail) == Some([x, y, z] + Decode(tail).value)
  {
    Regroup(x, y, z);
    DecodeGroup(x / 4, x % 4 * 16 + y / 16, y % 16 * 4 + z / 64, z % 64, tail);
  }

  lemma ShortGroupsReadBack(x: byte, y: byte)
    ensures var s := [Digit(x / 4), Digit(x % 4 * 16)]; InAlphabet(s) && Decode(s) == Some([x])
    ensures var s := [Digit(x / 4), Digit(x % 4 * 16 + y / 16), Digit(y % 16 * 4)]; InAlphabet(s) && Decode(s) == Some([x, y])
  {
    DigitReadsBack(x / 4);
    DigitReadsBack(x % 4 * 16);
    DigitReadsBack(x % 4 * 16 + y / 16);
    DigitReadsBack(y % 16 * 4);
  }

  lemma ShortEncoded(b: seq<byte>) returns (digits: string)
    requires |b| < 3
    ensures Encode(b) == digits + Padding(|b|)
    ensures InAlphabet(digits) && Decode(digits) == Some(b)
  {
    if |b| == 0 {
      digits := "";
    } else if |b| == 1 {
      digits := [Digit(b[0] / 4), Digit(b[0] % 4 * 16)];
      ShortGroupsReadBack(b[0], 0);
      assert b == [b[0]];
    } else {
      digits := [Digit(b[0] / 4), Digit(b[0] % 4 * 16 + b[1] / 16), Digit(b[1] % 16 * 4)];
      ShortGroupsReadBack(b[0], b[1]);
      assert b == [b[0], b[1]];
    }
  }

  /** The padded text is a text in the alphabet, from which the bytes can be read back, followed by the padding
      the length calls for. */
  lemma {:induction false} EncodedIsDigitsThenPadding(b: seq<byte>) returns (digits: string)
    ensures Encode(b) == digits + Padding(|b|)
    ensures InAlphabet(digits) && Decode(digits) == Some(b)
  {
    if |b| < 3 {
      digits := ShortEncoded(b);
    } else {
      var rest := EncodedIsDigitsThenPadding(b[3..]);
      digits := EncodedGroup(b[0], b[1], b[2], b[3..], rest);
      assert b == [b[0], b[1], b[2]] + b[3..];
    }
  }

  lemma EncodedGroup(x: byte, y: byte, z: byte, t: seq<byte>, rest: string) returns (digits: string)
    requires Encode(t) == rest + Padding(|t|) && InAlphabet(rest) && Decode(rest) == Some(t)
    ensures var b := [x, y, z] + t;
      Encode(b) == digits + Padding(|b|) && InAlphabet(digits) && Decode(digits) == Some(b)
  {
    var group := Group(x, y, z);
    digits := group + rest;
    GroupReadsBack(x, y, z, rest);
    AlphabetConcat(group, rest);
    EncodeCons(x, y, z, t);
    GroupThenPadding(Encode([x, y, z] + t), group, Encode(t), rest, |t|);
  }

  lemma AlphabetConcat(a: string, b: string)
    requires InAlphabet(a) && InAlphabet(b)
    ensures InAlphabet(a + b)
  {
  }

  lemma GroupThenPadding(whole: string, group: string, inner: string, rest: string, n: nat)
    requires whole == group + inner && inner == rest + Padding(n)
    ensures whole == (group + rest) + Padding(n + 3)
  {
  }

  lemma EncodeCons(x: byte, y: byte, z: byte, t: seq<byte>)
    ensures Encode([x, y, z] + t) == Group(x, y, z) + Encode(t)
  {
    assert ([x, y, z] + t)[3..] == t;
  }

  /** Trimming removes the padding and nothing else, and what is left reads back to exactly the bytes. */
  lemma JoseReadsBack(b: seq<byte>)
    ensures Encode(b) == Jose(b) + Padding(|b|)
    ensures InAlphabet(Jose(b))
    ensures Decode(Jose(b)) == Some(b)
  {
    var digits := EncodedIsDigitsThenPadding(b);
    TrimDigits(digits);
    assert digits + "" == digits;
  }

  /** Three bytes become the four digits whose numbers are their bits, six by six, as section 4 of RFC 4648 has it. */
  lemma GroupIsTheBits(x: byte, y: byte, z: byte) returns (a: nat, b: nat, c: nat, d: nat)
    ensures a < 64 && b < 64 && c < 64 && d < 64
    ensures Encode([x, y, z]) == [Digit(a), Digit(b), Digit(c), Digit(d)]
    ensures x * 65536 + y * 256 + z == a * 262144 + b * 4096 + c * 64 + d
  {
    a, b, c, d := x / 4, x % 4 * 16 + y / 16, y % 16 * 4 + z / 64, z % 64;
    assert Encode([]) == "" && [x, y, z] == [x, y, z] + [];
    EncodeCons(x, y, z, []);
    BitsAddUp(x, y, z);
  }

  lemma BitsAddUp(x: byte, y: byte, z: byte)
    ensures x * 65536 + y * 256 + z
         == (x / 4) * 262144 + (x % 4 * 16 + y / 16) * 4096 + (y % 16 * 4 + z / 64) * 64 + z % 64
  {
    assert x == x / 4 * 4 + x % 4;
    assert y == y / 16 * 16 + y % 16;
    assert z == z / 64 * 64 + z % 64;
  }

  // ---------------------------------------------------------------- the token

  const SEPARATOR := '.'

  function SigningInput(header: seq<byte>, claims: seq<byte>): string {
    Jose(header) + [SEPARATOR] + Jose(claims)
  }

  function Token(header: seq<byte>, claims: seq<byte>, sign: string -> seq<byte>): string {
    var payload := SigningInput(header, claims);
    payload + [SEPARATOR] + Jose(sign(payload))
  }

  datatype Parts = Parts(header: seq<byte>, claims: seq<byte>, signature: seq<byte>)

  /** What a registry does with a token: three dot-separated fields, each decoded. */
  function Recover(token: string): Option<Parts> {
    var f := Split(token, SEPARATOR);
    if |f| != 3 then None
    else
      var h, c, s := Decode(f[0]), Decode(f[1]), Decode(f[2]);
      if h.Some? && c.Some? && s.Some? then Some(Parts(h.value, c.value, s.value)) else None
  }

  lemma NoSeparator(s: string)
    requires InAlphabet(s)
    ensures SEPARATOR !in s
  {
    assert DigitValue('.').None?;
  }

  /** For every header, claims and signer the token gives back exactly the header, the claims and the signature
      of the text before the last dot. */
  lemma TokenIsRecoverable(header: seq<byte>, claims: seq<byte>, sign: string -> seq<byte>)
    ensures Recover(Token(header, claims, sign)) == Some(Parts(header, claims, sign(SigningInput(header, claims))))
  {
    var payload := SigningInput(header, claims);
    var h, c, s := Jose(header), Jose(claims), Jose(sign(payload));
    JoseReadsBack(header);
    JoseReadsBack(claims);
    JoseReadsBack(sign(payload));
    NoSeparator(h);
    NoSeparator(c);
    NoSeparator(s);
    SplitThree(h, c, s);
  }

  lemma SplitThree(h: string, c: string, s: string)
    requires SEPARATOR !in h && SEPARATOR !in c && SEPARATOR !in s
    ensures Split(h + [SEPARATOR] + c + [SEPARATOR] + s, SEPARATOR) == [h, c, s]
  {
    SplitWhole(h, SEPARATOR);
    SplitWhole(c, SEPARATOR);
    SplitWhole(s, SEPARATOR);
    SplitConcat(h, c, SEPARATOR);
    SplitConcat(h + [SEPARATOR] + c, s, SEPARATOR);
  }
}
