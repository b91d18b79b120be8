/** The cache key of auth_server/k8s/hash.go: the JSON encodings of the key's parts, one after the other,
    hashed. Strings are JSON strings in the sense of section 7 of RFC 8259, written the way Go's
    `json.Marshal` writes them. */
module CacheKey {
  import opened GoStrings

  /** A Go string read as UTF-8: code points, and bytes that belong to none. */
  datatype Unit = Scalar(c: char) | BadByte(b: bv8)

  type Text = seq<Unit>

  predicate ValidUtf8(s: Text) {
    forall i :: 0 <= i < |s| ==> s[i].Scalar?
  }

  /** Text without bad bytes. */
  function AsText(s: string): (t: Text)
    ensures |t| == |s| && ValidUtf8(t)
    ensures forall i :: 0 <= i < |s| ==> t[i] == Scalar(s[i])
  {
    seq(|s|, i requires 0 <= i < |s| => Scalar(s[i]))
  }

  // ---------------------------------------------------------------- writing

  const HEX := "0123456789abcdef"

  function HexDigit(n: nat): char
    requires n < 16
  {
    HEX[n]
  }

  /** The two-character escape of a character that has one. */
  function ShortEscape(c: char): Option<char> {
    if c == '\"' || c == '\\' then Some(c)
    else if c == '\n' then Some('n')
    else if c == '\r' then Some('r')
    else if c == '\t' then Some('t')
    else if c == '\U{8}' then Some('b')
    else if c == '\U{C}' then Some('f')
    else None
  }

  /** Besides control characters, `json.Marshal` escapes what is special to HTML and to JavaScript. */
  predicate LongEscape(c: char) {
    c < ' ' || c in "<>&" || c == '\U{2028}' || c == '\U{2029}'
  }

  function HexEscape(n: nat): string
    requires n < 0x1_0000
  {
    ['\\', 'u', HexDigit(n / 16 / 16 / 16), HexDigit(n / 16 / 16 % 16), HexDigit(n / 16 % 16), HexDigit(n % 16)]
  }

  function WriteUnit(u: Unit): string {
    match u
    case BadByte(_) => HexEscape(0xFFFD)
    case Scalar(c) =>
      if ShortEscape(c).Some? then ['\\', ShortEscape(c).value]
      else if LongEscape(c) then HexEscape(c as nat)
      else [c]
  }

  function WriteUnits(s: Text): string {
    if s == [] then "" else WriteUnit(s[0]) + WriteUnits(s[1..])
  }

  function Marshal(s: Text): string {
    "\"" + WriteUnits(s) + "\""
  }

  /** What `ComputeHash` feeds to the hash. */
  function PreImage(values: seq<Text>): string {
    if values == [] then "" else Marshal(values[0]) + PreImage(values[1..])
  }

  /** The running SHA-256 state, as the bytes written to it. */
  class Hash {
    var written: string

    constructor ()
      ensures written == ""
    {
      written := "";
    }

    method Write(buf: string)
      modifies this
      ensures written == old(written) + buf
    {
      written := written + buf;
    }
  }

  lemma PreImageStep(written: string, values: seq<Text>, i: nat)
    requires i < |values|
    ensures written + PreImage(values[i..]) == (written + Marshal(values[i])) + PreImage(values[i + 1..])
  {
    assert values[i..][1..] == values[i + 1..];
  }

  /** `ComputeHash`; `digest` stands for SHA-256 followed by hexadecimal encoding. */
  method ComputeHash(values: seq<Text>, digest: string -> string) returns (key: string)
    ensures key == Key(values, digest)
  {
    if |values| == 0 { return ""; }
    var hash := new Hash();
    for i := 0 to |values|
      invariant hash.written + PreImage(values[i..]) == PreImage(values)
    {
      PreImageStep(hash.written, values, i);
      hash.Write(Marshal(values[i]));
    }
    assert values[|values|..] == [];
    assert hash.written + "" == hash.written;
    key := digest(hash.written);
  }

  function Key(values: seq<Text>, digest: string -> string): string {
    if values == [] then "" else digest(PreImage(values))
  }

  /** What `json.Marshal` writes for characters it escapes, and for a byte that belongs to none. */
  lemma KnownEscapes()
    ensures WriteUnit(Scalar('\"')) == "\\\"" && WriteUnit(Scalar('\\')) == "\\\\"
    ensures WriteUnit(Scalar('\n')) == "\\n" && WriteUnit(Scalar('\r')) == "\\r" && WriteUnit(Scalar('\t')) == "\\t"
    ensures WriteUnit(Scalar('\U{8}')) == "\\b" && WriteUnit(Scalar('\U{C}')) == "\\f"
  {
  }

  lemma KnownHexEscapes()
    ensures WriteUnit(Scalar('<')) == "\\u003c" && WriteUnit(Scalar('>')) == "\\u003e" && WriteUnit(Scalar('&')) == "\\u0026"
  {
    assert "<>&" == ['<', '>', '&'];
    HexEscapeIs(0x3C, 0, 0, 3, 12);
    HexEscapeIs(0x3E, 0, 0, 3, 14);
    HexEscapeIs(0x26, 0, 0, 2, 6);
  }

  lemma KnownSeparatorEscapes()
    ensures WriteUnit(Scalar('\U{2028}')) == "\\u2028" && WriteUnit(Scalar('\U{2029}')) == "\\u2029"
    ensures forall b :: WriteUnit(BadByte(b)) == "\\ufffd"
  {
    HexEscapeIs(0x2028, 2, 0, 2, 8);
    HexEscapeIs(0x2029, 2, 0, 2, 9);
    HexEscapeIs(0xFFFD, 15, 15, 15, 13);
  }

  lemma HexEscapeIs(n: nat, a: nat, b: nat, c: nat, d: nat)
    requires a < 16 && b < 16 && c < 16 && d < 16 && n == a * 4096 + b * 256 + c * 16 + d
    ensures n < 0x1_0000 && HexEscape(n) == ['\\', 'u', HexDigit(a), HexDigit(b), HexDigit(c), HexDigit(d)]
  {
    var q := a * 16 + b;
    var p := q * 16 + c;
    assert n == p * 16 + d;
    LastDigit(n, p, d);
    LastDigit(p, q, c);
    LastDigit(q, a, b);
    assert n / 16 / 16 / 16 == a && n / 16 / 16 % 16 == b && n / 16 % 16 == c && n % 16 == d;
  }

  lemma LastDigit(n: nat, q: nat, r: nat)
    requires r < 16 && n == q * 16 + r
    ensures n / 16 == q && n % 16 == r
  {
  }

  /** The text of a string holds no control character, nothing special to HTML and no line separator, so it can be put
      between quotes as section 7 of RFC 8259 asks. */
  lemma {:induction false} WrittenTextIsSafe(s: Text)
    ensures forall i :: 0 <= i < |WriteUnits(s)| ==>
      var c := WriteUnits(s)[i]; c >= ' ' && c != '<' && c != '>' && c != '&' && c != '\U{2028}' && c != '\U{2029}'
  {
    if s != [] {
      WrittenUnitIsSafe(s[0]);
      WrittenTextIsSafe(s[1..]);
    }
  }

  lemma WrittenUnitIsSafe(u: Unit)
    ensures forall i :: 0 <= i < |WriteUnit(u)| ==>
      var c := WriteUnit(u)[i]; c >= ' ' && c != '<' && c != '>' && c != '&' && c != '\U{2028}' && c != '\U{2029}'
  {
    if u.BadByte? {
      HexEscapeIsSafe(0xFFFD);
    } else if ShortEscape(u.c).None? && LongEscape(u.c) {
      LongEscapesAreLow(u.c);
      HexEscapeIsSafe(u.c as nat);
    } else {
      assert "<>&" == ['<', '>', '&'];
    }
  }

  lemma HexEscapeIsSafe(n: nat)
    requires n < 0x1_0000
    ensures forall i :: 0 <= i < |HexEscape(n)| ==>
      var c := HexEscape(n)[i]; c == '\\' || 'a' <= c <= 'u' || '0' <= c <= '9'
  {
    HexDigitReadsBack(n / 16 / 16 / 16);
    HexDigitReadsBack(n / 16 / 16 % 16);
    HexDigitReadsBack(n / 16 % 16);
    HexDigitReadsBack(n % 16);
  }

  // ---------------------------------------------------------------- reading back

  function HexValue(c: char): Option<nat> {
    if '0' <= c <= '9' then Some(c as nat - '0' as nat)
    else if 'a' <= c <= 'f' then Some(c as nat - 'a' as nat + 10)
    else None
  }

  /** The number after `\u`. */
  function ReadHex(text: string): Option<nat>
    requires |text| >= 6
  {
    var a, b, c, d := HexValue(text[2]), HexValue(text[3]), HexValue(text[4]), HexValue(text[5]);
    if a.Some? && b.Some? && c.Some? && d.Some? then
      Some(((a.value * 16 + b.value) * 16 + c.value) * 16 + d.value)
    else None
  }

  function ShortUnescape(c: char): Option<char> {
    if c == '\"' || c == '\\' then Some(c)
    else if c == 'n' then Some('\n')
    else if c == 'r' then Some('\r')
    else if c == 't' then Some('\t')
    else if c == 'b' then Some('\U{8}')
    else if c == 'f' then Some('\U{C}')
    else None
  }

  /** One unit from the front of a text. A replacement character written as an escape stands for a bad byte:
      the code point U+FFFD itself is written as it is. */
  function ReadUnit(text: string): (r: Option<(Unit, string)>)
    requires text != ""
    ensures r.Some? ==> |r.value.1| < |text|
  {
    if text[0] != '\\' then Some((Scalar(text[0]), text[1..]))
    else if |text| < 2 then None
    else if ShortUnescape(text[1]).Some? then Some((Scalar(ShortUnescape(text[1]).value), text[2..]))
    else if text[1] != 'u' || |text| < 6 || ReadHex(text).None? then None
    else
      var n := ReadHex(text).value;
      if n == 0xFFFD then Some((BadByte(0), text[6..]))
      else if n < 0xD800 then Some((Scalar(n as char), text[6..]))
      else None
  }

  /** The units up to the closing quote, and what follows it. */
  function ReadUnits(text: string): (r: Option<(Text, string)>)
    ensures r.Some? ==> |r.value.1| < |text|
    decreases |text|
  {
    if text == "" then None
    else if text[0] == '\"' then Some(([], text[1..]))
    else
      match ReadUnit(text)
      case None => None
      case Some((u, rest)) =>
        match ReadUnits(rest)
        case None => None
        case Some((us, tail)) => Some(([u] + us, tail))
  }

  function ReadAll(text: string): Option<seq<Text>>
    decreases |text|
  {
    if text == "" then Some([])
    else if text[0] != '\"' then None
    else
      match ReadUnits(text[1..])
      case None => None
      case Some((s, rest)) =>
        match ReadAll(rest)
        case None => None
        case Some(more) => Some([s] + more)
  }

  /** What the encoding keeps of a string: all bad bytes look alike. */
  function Forget(s: Text): (r: Text)
    ensures |r| == |s|
    ensures forall i :: 0 <= i < |s| ==> r[i] == if s[i].Scalar? then s[i] else BadByte(0)
  {
    seq(|s|, i requires 0 <= i < |s| => if s[i].Scalar? then s[i] else BadByte(0))
  }

  function ForgetAll(values: seq<Text>): (r: seq<Text>)
    ensures |r| == |values|
    ensures forall i :: 0 <= i < |values| ==> r[i] == Forget(values[i])
  {
    seq(|values|, i requires 0 <= i < |values| => Forget(values[i]))
  }

  lemma HexDigitReadsBack(n: nat)
    requires n < 16
    ensures HexValue(HexDigit(n)) == Some(n)
  {
    assert HEX == ['0', '1', '2', '3', '4', '5', '6', '7', '8', '9', 'a', 'b', 'c', 'd', 'e', 'f'];
  }

  lemma HexEscapeReadsBack(n: nat, rest: string)
    requires n < 0x1_0000
    ensures ReadHex(HexEscape(n) + rest) == Some(n)
  {
    var a, b, c, d := n / 16 / 16 / 16, n / 16 / 16 % 16, n / 16 % 16, n % 16;
    HexDigitReadsBack(a);
    HexDigitReadsBack(b);
    HexDigitReadsBack(c);
    HexDigitReadsBack(d);
    assert (HexEscape(n) + rest)[..6] == HexEscape(n);
    assert n == ((a * 16 + b) * 16 + c) * 16 + d;
  }

  lemma HexUnitReadsBack(n: nat, rest: string)
    requires n < 0xD800 || n == 0xFFFD
    ensures ReadUnit(HexEscape(n) + rest) == Some((if n == 0xFFFD then BadByte(0) else Scalar(n as char), rest))
  {
    var t := HexEscape(n) + rest;
    HexEscapeReadsBack(n, rest);
    assert t[6..] == rest;
    assert t[0] == '\\' && t[1] == 'u';
  }

  lemma ShortUnitReadsBack(c: char, rest: string)
    requires ShortEscape(c).Some?
    ensures ReadUnit(['\\', ShortEscape(c).value] + rest) == Some((Scalar(c), rest))
  {
    var t := ['\\', ShortEscape(c).value] + rest;
    assert t[2..] == rest;
  }

  lemma LongEscapesAreLow(c: char)
    requires LongEscape(c)
    ensures (c as nat) < 0xD800 && (c as nat) as char == c
  {
    assert "<>&" == ['<', '>', '&'];
  }

  lemma UnitReadsBack(u: Unit, rest: string)
    ensures ReadUnit(WriteUnit(u) + rest) == Some((Forget([u])[0], rest))
    ensures WriteUnit(u)[0] != '\"'
  {
    if u.BadByte? {
      HexUnitReadsBack(0xFFFD, rest);
    } else if ShortEscape(u.c).Some? {
      ShortUnitReadsBack(u.c, rest);
    } else if LongEscape(u.c) {
      LongEscapesAreLow(u.c);
      HexUnitReadsBack(u.c as nat, rest);
    } else {
      assert ([u.c] + rest)[1..] == rest;
    }
  }

  lemma {:induction false} UnitsReadBack(s: Text, rest: string)
    ensures ReadUnits(WriteUnits(s) + "\"" + rest) == Some((Forget(s), rest))
  {
    if s == [] {
      var t := "" + "\"" + rest;
      assert t[0] == '\"' && t[1..] == rest;
    } else {
      var more := WriteUnits(s[1..]) + "\"" + rest;
      Behind(WriteUnit(s[0]), WriteUnits(s[1..]), rest);
      UnitReadsBack(s[0], more);
      UnitsReadBack(s[1..], rest);
      ReadUnitsStep(WriteUnit(s[0]), more, Forget([s[0]])[0], Forget(s[1..]), rest);
      assert Forget(s) == [Forget([s[0]])[0]] + Forget(s[1..]);
    }
  }

  lemma Behind(first: string, others: string, rest: string)
    ensures (first + others) + "\"" + rest == first + (others + "\"" + rest)
  {
  }

  lemma ReadUnitsStep(w: string, more: string, u: Unit, us: Text, tail: string)
    requires w != "" && w[0] != '\"' && ReadUnit(w + more) == Some((u, more)) && ReadUnits(more) == Some((us, tail))
    ensures ReadUnits(w + more) == Some(([u] + us, tail))
  {
  }

  /** The hashed text reads back, up to the identity of bad bytes, to exactly the values it was made from. */
  lemma {:induction false} PreImageReadsBack(values: seq<Text>)
    ensures ReadAll(PreImage(values)) == Some(ForgetAll(values))
  {
    if values != [] {
      var rest := PreImage(values[1..]);
      var body := WriteUnits(values[0]) + "\"" + rest;
      Enclose(WriteUnits(values[0]), rest);
      UnitsReadBack(values[0], rest);
      PreImageReadsBack(values[1..]);
      ReadAllStep(body, Forget(values[0]), rest, ForgetAll(values[1..]));
      assert ForgetAll(values) == [Forget(values[0])] + ForgetAll(values[1..]);
    }
  }

  lemma Enclose(inside: string, rest: string)
    ensures "\"" + inside + "\"" + rest == "\"" + (inside + "\"" + rest)
  {
  }

  lemma ReadAllStep(body: string, s: Text, rest: string, more: seq<Text>)
    requires ReadUnits(body) == Some((s, rest)) && ReadAll(rest) == Some(more)
    ensures ReadAll("\"" + body) == Some([s] + more)
  {
    assert ("\"" + body)[1..] == body;
  }

  lemma {:induction false} WriteForgets(s: Text)
    ensures WriteUnits(Forget(s)) == WriteUnits(s)
  {
    if s != [] {
      assert Forget(s)[1..] == Forget(s[1..]);
      WriteForgets(s[1..]);
    }
  }

  lemma {:induction false} PreImageForgets(values: seq<Text>)
    ensures PreImage(ForgetAll(values)) == PreImage(values)
  {
    if values != [] {
      assert ForgetAll(values)[1..] == ForgetAll(values[1..]);
      WriteForgets(values[0]);
      PreImageForgets(values[1..]);
    }
  }

  /** Exactly when two lists of values are hashed from the same text: they differ at most in which bytes
      their ill-formed bytes are. */
  lemma SamePreImageIff(a: seq<Text>, b: seq<Text>)
    ensures PreImage(a) == PreImage(b) <==> ForgetAll(a) == ForgetAll(b)
  {
    PreImageReadsBack(a);
    PreImageReadsBack(b);
    PreImageForgets(a);
    PreImageForgets(b);
  }

  /** For valid UTF-8 the text determines the values, where each ends and how many there are. */
  lemma PreImageIsInjective(a: seq<Text>, b: seq<Text>)
    requires forall i :: 0 <= i < |a| ==> ValidUtf8(a[i])
    requires forall i :: 0 <= i < |b| ==> ValidUtf8(b[i])
    ensures PreImage(a) == PreImage(b) <==> a == b
  {
    SamePreImageIff(a, b);
    if ForgetAll(a) == ForgetAll(b) {
      assert |a| == |b|;
      forall i | 0 <= i < |a| ensures a[i] == b[i] {
        assert Forget(a[i]) == a[i] by { assert forall k :: 0 <= k < |a[i]| ==> Forget(a[i])[k] == a[i][k]; }
        assert Forget(b[i]) == b[i] by { assert forall k :: 0 <= k < |b[i]| ==> Forget(b[i])[k] == b[i][k]; }
        assert ForgetAll(a)[i] == ForgetAll(b)[i];
      }
    }
  }

  /** Without valid UTF-8 it does not: two triples that differ only in one ill-formed byte of the namespace, which
      comes from the request, have one key under every hash, whatever the user. */
  lemma IllFormedStringsShareAKey(ns: Text, i: nat, b: bv8, name: Text, uid: Text, digest: string -> string)
    requires i < |ns| && ns[i].BadByte?
    ensures Key([ns, name, uid], digest) == Key([ns[i := BadByte(b)], name, uid], digest)
  {
    var ns' := ns[i := BadByte(b)];
    assert Forget(ns) == Forget(ns');
    var x, y := [ns, name, uid], [ns', name, uid];
    assert ForgetAll(x) == [Forget(ns), Forget(name), Forget(uid)] == ForgetAll(y);
    SamePreImageIff(x, y);
  }

  /** The key of the rules cache tells its triples apart unless the hash collides on their texts. */
  lemma KeysTellTriplesApart(ns: Text, name: Text, uid: Text, ns': Text, name': Text, uid': Text, digest: string -> string)
    requires ValidUtf8(ns) && ValidUtf8(name) && ValidUtf8(uid)
    requires ValidUtf8(ns') && ValidUtf8(name') && ValidUtf8(uid')
    requires Key([ns, name, uid], digest) == Key([ns', name', uid'], digest)
    ensures (ns == ns' && name == name' && uid == uid')
         || (&& PreImage([ns, name, uid]) != PreImage([ns', name', uid'])
             && digest(PreImage([ns, name, uid])) == digest(PreImage([ns', name', uid'])))
  {
    var a, b := [ns, name, uid], [ns', name', uid'];
    PreImageIsInjective(a, b);
    assert a == b ==> a[0] == b[0] && a[1] == b[1] && a[2] == b[2];
  }
}
