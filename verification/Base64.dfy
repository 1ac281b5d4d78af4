/**
 The URL-safe, unpadded base64 of the native auth tokens: Go's standard encoding (section 4 of RFC 4648), followed by
 replacing and trimming, and the reverse.
 */
module Base64 {
  import opened GoTypes
  import opened Text

  type sextet = x: int | 0 <= x < 64

  const PLUS: byte := 43
  const SLASH: byte := 47
  const MINUS: byte := 45
  const UNDERSCORE: byte := 95
  const PAD: byte := 61

  function LetterOrDigit(i: sextet): byte
    requires i < 62
  {
    if i < 26 then 65 + i else if i < 52 then 71 + i else i - 4
  }

  /** Table 1 of RFC 4648. */
  function StdChar(i: sextet): byte {
    if i < 62 then LetterOrDigit(i) else if i == 62 then PLUS else SLASH
  }

  /** Table 2 of RFC 4648, the URL and filename safe alphabet. */
  function UrlChar(i: sextet): byte {
    if i < 62 then LetterOrDigit(i) else if i == 62 then MINUS else UNDERSCORE
  }

  function StdValue(c: byte): Option<sextet> {
    if 65 <= c <= 90 then Some(c - 65)
    else if 97 <= c <= 122 then Some(c - 71)
    else if 48 <= c <= 57 then Some(c + 4)
    else if c == PLUS then Some(62)
    else if c == SLASH then Some(63)
    else None
  }

  /** The bits of the input in groups of six, the last group filled up with zeroes. */
  function Sextets(b: Bytes): seq<sextet> {
    if b == [] then []
    else if |b| == 1 then [b[0] / 4, b[0] % 4 * 16]
    else if |b| == 2 then [b[0] / 4, b[0] % 4 * 16 + b[1] / 16, b[1] % 16 * 4]
    else [b[0] / 4, b[0] % 4 * 16 + b[1] / 16, b[1] % 16 * 4 + b[2] / 64, b[2] % 64] + Sextets(b[3..])
  }

  /** One left-over group of six bits holds no byte; bits past the last byte are ignored. */
  function FromSextets(q: seq<sextet>): Option<Bytes> {
    if q == [] then Some([])
    else if |q| == 1 then None
    else if |q| == 2 then Some([q[0] as int * 4 + q[1] / 16])
    else if |q| == 3 then Some([q[0] as int * 4 + q[1] / 16, q[1] as int % 16 * 16 + q[2] / 4])
    else
      match FromSextets(q[4..])
      case Some(rest) =>
        Some([q[0] as int * 4 + q[1] / 16, q[1] as int % 16 * 16 + q[2] / 4, q[2] as int % 4 * 64 + q[3]] + rest)
      case None => None
  }

  function Chars(q: seq<sextet>): (s: Bytes)
    ensures |s| == |q|
  {
    seq(|q|, i requires 0 <= i < |q| => StdChar(q[i]))
  }

  function Padding(n: nat): Bytes {
    if n % 3 == 0 then [] else if n % 3 == 1 then [PAD, PAD] else [PAD]
  }

  /** base64.StdEncoding.EncodeToString */
  function StdEncode(b: Bytes): Bytes {
    Chars(Sextets(b)) + Padding(|b|)
  }

  function WithoutNewlines(s: Bytes): Bytes {
    if s == [] then []
    else (if s[0] == 10 || s[0] == 13 then [] else [s[0]]) + WithoutNewlines(s[1..])
  }

  function Values(s: Bytes): Option<seq<sextet>> {
    if s == [] then Some([])
    else
      match (StdValue(s[0]), Values(s[1..]))
      case (Some(v), Some(rest)) => Some([v] + rest)
      case _ => None
  }

  /** base64.RawStdEncoding.DecodeString: no padding expected, carriage returns and line feeds skipped. */
  function RawDecode(s: Bytes): Option<Bytes> {
    match Values(WithoutNewlines(s))
    case Some(q) => FromSextets(q)
    case None => None
  }

  function EncodeHandler(b: Bytes): Bytes {
    TrimRight(Replace(Replace(StdEncode(b), PLUS, MINUS), SLASH, UNDERSCORE), PAD)
  }

  function DecodeHandler(s: Bytes): Option<Bytes> {
    RawDecode(TrimRight(Replace(Replace(s, MINUS, PLUS), UNDERSCORE, SLASH), PAD))
  }

  /** Section 5 of RFC 4648 without padding (section 3.2), written down directly. */
  function UrlUnpadded(b: Bytes): Bytes {
    var q := Sextets(b);
    seq(|q|, i requires 0 <= i < |q| => UrlChar(q[i]))
  }

  /** Table 2 of RFC 4648: "A" to "Z", "a" to "z", "0" to "9", "-" and "_". */
  lemma UrlAlphabet(i: sextet)
    ensures i < 26 ==> UrlChar(i) == 65 + i
    ensures 26 <= i < 52 ==> UrlChar(i) == 97 + (i - 26)
    ensures 52 <= i < 62 ==> UrlChar(i) == 48 + (i - 52)
    ensures i == 62 ==> UrlChar(i) == 45
    ensures i == 63 ==> UrlChar(i) == 95
  {
  }

  /** Three bytes and their four groups are the same 24 bits. */
  lemma SameBits(a: byte, b: byte, c: byte)
    ensures
      var q := Sextets([a, b, c]);
      && |q| == 4
      && q[0] as int * 0x40000 + q[1] as int * 0x1000 + q[2] as int * 0x40 + q[3] ==
         a as int * 0x10000 + b as int * 0x100 + c
  {
    assert Sextets([a, b, c]) == [a / 4, a % 4 * 16 + b / 16, b % 16 * 4 + c / 64, c % 64];
  }

  /** "f", "fo" (section 10 of RFC 4648) and two bytes that need both characters of the URL-safe alphabet. */
  lemma EncodedExamples()
    ensures EncodeHandler([102]) == [90, 103] && EncodeHandler([102, 111]) == [90, 109, 56]
    ensures EncodeHandler([0xfb, 0xff]) == [45, 95, 56]
  {
    EncodeHandlerIsUrlUnpadded([102]);
    EncodeHandlerIsUrlUnpadded([102, 111]);
    EncodeHandlerIsUrlUnpadded([0xfb, 0xff]);
  }

  /** Three bytes more are four characters in front. */
  lemma ThreeBytesFirst(a: byte, b: byte, c: byte, rest: Bytes)
    ensures EncodeHandler([a, b, c] + rest) == EncodeHandler([a, b, c]) + EncodeHandler(rest)
  {
    var all := [a, b, c] + rest;
    EncodeHandlerIsUrlUnpadded(all);
    EncodeHandlerIsUrlUnpadded([a, b, c]);
    EncodeHandlerIsUrlUnpadded(rest);
    assert all[3..] == rest && [a, b, c][3..] == [];
    assert Sextets(all) == Sextets([a, b, c]) + Sextets(rest);
    assert UrlUnpadded(all) == UrlUnpadded([a, b, c]) + UrlUnpadded(rest);
  }

  // ---------- what the decoder accepts ----------

  lemma {:induction false} ValuesAreOfAlphabet(s: Bytes)
    ensures Values(s).Some? <==> forall i :: 0 <= i < |s| ==> StdValue(s[i]).Some?
  {
    if s != [] { ValuesAreOfAlphabet(s[1..]); }
  }

  lemma StdValueIsInverse(c: byte, i: sextet)
    ensures StdValue(c) == Some(i) <==> StdChar(i) == c
  {
  }

  lemma {:induction false} NewlinesGo(a: Bytes, b: Bytes)
    ensures WithoutNewlines(a + [10] + b) == WithoutNewlines(a + [13] + b) == WithoutNewlines(a + b)
  {
    if a == [] {
      assert ([] + [10] + b)[1..] == b && ([] + [13] + b)[1..] == b && [] + b == b;
    } else {
      NewlinesGo(a[1..], b);
      assert (a + [10] + b)[1..] == a[1..] + [10] + b && (a + [13] + b)[1..] == a[1..] + [13] + b;
      assert (a + b)[1..] == a[1..] + b;
    }
  }

  /** Line feeds and carriage returns make no difference; a lone last character and any other one are refused. */
  lemma RawDecodeAccepts(a: Bytes, b: Bytes)
    ensures RawDecode(a + [10] + b) == RawDecode(a + [13] + b) == RawDecode(a + b)
    ensures RawDecode(a).Some? <==>
            && |WithoutNewlines(a)| % 4 != 1
            && forall i :: 0 <= i < |WithoutNewlines(a)| ==> StdValue(WithoutNewlines(a)[i]).Some?
  {
    NewlinesGo(a, b);
    ValuesAreOfAlphabet(WithoutNewlines(a));
    if Values(WithoutNewlines(a)).Some? {
      ValuesLength(WithoutNewlines(a));
      NoLoneSextet(Values(WithoutNewlines(a)).value);
    }
  }

  lemma {:induction false} ValuesLength(s: Bytes)
    requires Values(s).Some?
    ensures |Values(s).value| == |s|
  {
    if s != [] { ValuesLength(s[1..]); }
  }

  lemma {:induction false} NoLoneSextet(q: seq<sextet>)
    ensures FromSextets(q).Some? <==> |q| % 4 != 1
    decreases |q|
  {
    if |q| >= 4 {
      NoLoneSextet(q[4..]);
      FourSextetsFirst(q);
      assert |q| % 4 == |q[4..]| % 4;
    }
  }

  lemma FourSextetsFirst(q: seq<sextet>)
    requires |q| >= 4
    ensures FromSextets(q).Some? <==> FromSextets(q[4..]).Some?
  {
  }

  /** Three bytes in four groups of six bits, and back. */
  lemma GroupRoundTrip(a: byte, b: byte, c: byte)
    ensures
      var q1, q2: int := a % 4 * 16 + b / 16, b % 16 * 4 + c / 64;
      a / 4 * 4 + q1 / 16 == a && q1 % 16 * 16 + q2 / 4 == b && q2 % 4 * 64 + c % 64 == c
  {
  }

  lemma OneByteRoundTrip(a: byte)
    ensures FromSextets([a / 4, a % 4 * 16]) == Some([a])
  {
    GroupRoundTrip(a, 0, 0);
  }

  lemma TwoBytesRoundTrip(a: byte, b: byte)
    ensures FromSextets([a / 4, a % 4 * 16 + b / 16, b % 16 * 4]) == Some([a, b])
  {
    GroupRoundTrip(a, b, 0);
  }

  lemma {:induction false} SextetsRoundTrip(b: Bytes)
    ensures FromSextets(Sextets(b)) == Some(b)
    decreases |b|
  {
    if |b| == 1 {
      OneByteRoundTrip(b[0]);
      assert b == [b[0]];
    } else if |b| == 2 {
      TwoBytesRoundTrip(b[0], b[1]);
      assert b == [b[0], b[1]];
    } else if |b| >= 3 {
      SextetsRoundTrip(b[3..]);
      GroupRoundTrip(b[0], b[1], b[2]);
      assert b == [b[0], b[1], b[2]] + b[3..];
      assert Sextets(b)[4..] == Sextets(b[3..]);
    }
  }

  lemma {:induction false} ValuesOfChars(q: seq<sextet>)
    ensures WithoutNewlines(Chars(q)) == Chars(q) && Values(Chars(q)) == Some(q)
  {
    if q != [] {
      assert Chars(q)[1..] == Chars(q[1..]);
      ValuesOfChars(q[1..]);
      assert q == [q[0]] + q[1..] && Chars(q) == [StdChar(q[0])] + Chars(q[1..]);
    }
  }

  /** Replacing and trimming the standard encoding yields the URL-safe unpadded one. */
  lemma EncodeHandlerIsUrlUnpadded(b: Bytes)
    ensures EncodeHandler(b) == UrlUnpadded(b)
  {
    var r := Replace(Replace(StdEncode(b), PLUS, MINUS), SLASH, UNDERSCORE);
    assert r == UrlUnpadded(b) + Padding(|b|);
    TrimRun(UrlUnpadded(b), Padding(|b|), PAD);
  }

  /** Decoding undoes encoding, for all bytes. */
  lemma HandlerRoundTrip(b: Bytes)
    ensures DecodeHandler(EncodeHandler(b)) == Some(b)
  {
    EncodeHandlerIsUrlUnpadded(b);
    var r := Replace(Replace(UrlUnpadded(b), MINUS, PLUS), UNDERSCORE, SLASH);
    assert r == Chars(Sextets(b));
    assert r + [] == r;
    TrimRun(r, [], PAD);
    ValuesOfChars(Sextets(b));
    SextetsRoundTrip(b);
  }

  /** The padded standard encoding is decoded as well. */
  lemma StandardIsDecoded(b: Bytes)
    ensures DecodeHandler(StdEncode(b)) == Some(b)
  {
    var q := Sextets(b);
    var r := Replace(Replace(StdEncode(b), MINUS, PLUS), UNDERSCORE, SLASH);
    assert r == Chars(q) + Padding(|b|);
    TrimRun(Chars(q), Padding(|b|), PAD);
    ValuesOfChars(q);
    SextetsRoundTrip(b);
  }

  predicate InUrlAlphabet(c: byte) {
    48 <= c <= 57 || 65 <= c <= 90 || 97 <= c <= 122 || c == MINUS || c == UNDERSCORE
  }

  /** An encoding has only letters, digits, '-' and '_', and is empty for no bytes only. */
  lemma EncodingAlphabet(b: Bytes)
    ensures forall i :: 0 <= i < |EncodeHandler(b)| ==> InUrlAlphabet(EncodeHandler(b)[i])
    ensures EncodeHandler(b) == [] <==> b == []
  {
    EncodeHandlerIsUrlUnpadded(b);
    assert b != [] ==> |Sextets(b)| > 0;
  }
}
