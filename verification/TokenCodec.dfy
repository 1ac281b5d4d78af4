/** Printing and parsing native authentication tokens. */
module TokenCodec {
  import opened GoTypes
  import opened Text
  import opened Base64

  const DOT: byte := 46

  datatype AuthToken = AuthToken(
    ttl: int64,
    address: Bytes,
    host: Bytes,
    extraInfo: Bytes,
    signature: Bytes,
    blockHash: Bytes)

  /** MissingPart is the index-out-of-range panic of a token that has too few parts. */
  datatype Error = NilSignature | NilAddress | NilBody | InvalidBase64 | InvalidHex | InvalidTtl | MissingPart

  function UnsignedToken(t: AuthToken): Bytes {
    EncodeHandler(t.host) + [DOT] + t.blockHash + [DOT] + PrintInt(t.ttl) + [DOT] + EncodeHandler(t.extraInfo)
  }

  function SignableMessage(address: Bytes, unsignedToken: Bytes): Bytes {
    address + unsignedToken
  }

  function SignableMessageLegacy(address: Bytes, unsignedToken: Bytes): Bytes {
    address + unsignedToken + [123, 125]
  }

  function Encode(t: AuthToken): Result<Bytes, Error> {
    if t.signature == [] then Err(NilSignature)
    else
      var address := EncodeHandler(t.address);
      if address == [] then Err(NilAddress)
      else
        var body := EncodeHandler(UnsignedToken(t));
        if body == [] then Err(NilBody)
        else Ok(address + [DOT] + body + [DOT] + EncodeHex(t.signature))
  }

  function DecodeBody(address: Bytes, signature: Bytes, body: Bytes): Result<AuthToken, Error> {
    var strs := Split(body, DOT);
    match DecodeHandler(strs[0])
    case None => Err(InvalidBase64)
    case Some(host) =>
      if |strs| < 3 then Err(MissingPart)
      else
        match ParseInt(strs[2])
        case None => Err(InvalidTtl)
        case Some(ttl) =>
          if |strs| < 4 then Err(MissingPart)
          else
            match DecodeHandler(strs[3])
            case None => Err(InvalidBase64)
            case Some(extraInfo) => Ok(AuthToken(ttl, address, host, extraInfo, signature, strs[1]))
  }

  function Decode(accessToken: Bytes): Result<AuthToken, Error> {
    var strs := Split(accessToken, DOT);
    match DecodeHandler(strs[0])
    case None => Err(InvalidBase64)
    case Some(address) =>
      if |strs| < 2 then Err(MissingPart)
      else
        match DecodeHandler(strs[1])
        case None => Err(InvalidBase64)
        case Some(body) =>
          if |strs| < 3 then Err(MissingPart)
          else
            match DecodeHex(strs[2])
            case None => Err(InvalidHex)
            case Some(signature) => DecodeBody(address, signature, body)
  }

  /** Host "h", block hash "b", ttl 1 and extra info "e" are signed as "aA.b.1.ZQ". */
  lemma TextExample(t: AuthToken)
    requires t.host == [104] && t.blockHash == [98] && t.ttl == 1 && t.extraInfo == [101]
    ensures UnsignedToken(t) == [97, 65] + [46, 98, 46] + [49, 46, 90, 81]
  {
    EncodeHandlerIsUrlUnpadded([104]);
    EncodeHandlerIsUrlUnpadded([101]);
    PrintedOne();
  }

  lemma PrintedOne()
    ensures PrintInt(1) == [49]
  {
  }

  /** With address "a" and signature 0x01 the token is "YQ", the encoded text and "01", with dots in between. */
  lemma TokenExample(t: AuthToken)
    requires t.address == [97] && t.signature == [1]
    requires t.host == [104] && t.blockHash == [98] && t.ttl == 1 && t.extraInfo == [101]
    ensures
      var text := EncodeHandler([97, 65] + [46, 98, 46] + [49, 46, 90, 81]);
      Encode(t) == Ok([89, 81] + [46] + text + [46] + [48, 49])
  {
    TextExample(t);
    EncodeSucceeds(t);
    EncodeHandlerIsUrlUnpadded([97]);
    assert EncodeHandler([97]) == [89, 81];
    assert EncodeHex([1]) == [48, 49];
  }

  /** Encoding fails on an empty signature or address, and on nothing else. */
  lemma EncodeSucceeds(t: AuthToken)
    ensures Encode(t).Ok? <==> t.signature != [] && t.address != []
    ensures t.signature == [] ==> Encode(t) == Err(NilSignature)
    ensures t.signature != [] && t.address == [] ==> Encode(t) == Err(NilAddress)
  {
    EncodingAlphabet(t.address);
    EncodingAlphabet(UnsignedToken(t));
  }

  lemma EncodingHasNoDot(b: Bytes)
    ensures DOT !in EncodeHandler(b)
  {
    EncodingAlphabet(b);
  }

  lemma SplitThree(a: Bytes, b: Bytes, c: Bytes)
    requires DOT !in a && DOT !in b && DOT !in c
    ensures Split(a + [DOT] + b + [DOT] + c, DOT) == [a, b, c]
  {
    assert a + [DOT] + b + [DOT] + c == a + [DOT] + (b + [DOT] + c);
    SplitFirst(a, b + [DOT] + c, DOT);
    SplitFirst(b, c, DOT);
    SplitLast(c, DOT);
  }

  lemma SplitFour(a: Bytes, b: Bytes, c: Bytes, d: Bytes)
    requires DOT !in a && DOT !in b && DOT !in c && DOT !in d
    ensures Split(a + [DOT] + b + [DOT] + c + [DOT] + d, DOT) == [a, b, c, d]
  {
    var tail2 := c + [DOT] + d;
    var tail1 := b + [DOT] + tail2;
    assert a + [DOT] + b + [DOT] + c + [DOT] + d == a + [DOT] + tail1;
    SplitFirst(a, tail1, DOT);
    SplitFirst(b, tail2, DOT);
    SplitFirst(c, d, DOT);
    SplitLast(d, DOT);
  }

  lemma BodyParts(t: AuthToken)
    requires DOT !in t.blockHash
    ensures Split(UnsignedToken(t), DOT) ==
            [EncodeHandler(t.host), t.blockHash, PrintInt(t.ttl), EncodeHandler(t.extraInfo)]
  {
    EncodingHasNoDot(t.host);
    EncodingHasNoDot(t.extraInfo);
    assert DOT !in PrintInt(t.ttl) by { IntRoundTrip(t.ttl); }
    SplitFour(EncodeHandler(t.host), t.blockHash, PrintInt(t.ttl), EncodeHandler(t.extraInfo));
  }

  lemma TokenParts(t: AuthToken)
    requires Encode(t).Ok?
    ensures Split(Encode(t).value, DOT) ==
            [EncodeHandler(t.address), EncodeHandler(UnsignedToken(t)), EncodeHex(t.signature)]
  {
    EncodingHasNoDot(t.address);
    EncodingHasNoDot(UnsignedToken(t));
    HexAvoids(t.signature, DOT);
    SplitThree(EncodeHandler(t.address), EncodeHandler(UnsignedToken(t)), EncodeHex(t.signature));
  }

  /** The address, the signature and the body survive encoding whatever the body contains. */
  lemma DecodeReachesBody(t: AuthToken)
    requires Encode(t).Ok?
    ensures Decode(Encode(t).value) == DecodeBody(t.address, t.signature, UnsignedToken(t))
  {
    TokenParts(t);
    HandlerRoundTrip(t.address);
    HandlerRoundTrip(UnsignedToken(t));
    HexRoundTrip(t.signature);
  }

  lemma DecodeFourParts(t: AuthToken, body: Bytes, host: Bytes, ttl: Bytes, extraInfo: Bytes)
    requires Split(body, DOT) == [host, t.blockHash, ttl, extraInfo]
    requires DecodeHandler(host) == Some(t.host) && ParseInt(ttl) == Some(t.ttl)
    requires DecodeHandler(extraInfo) == Some(t.extraInfo)
    ensures DecodeBody(t.address, t.signature, body) == Ok(t)
  {
  }

  lemma BodyRoundTrip(t: AuthToken)
    requires DOT !in t.blockHash
    ensures DecodeBody(t.address, t.signature, UnsignedToken(t)) == Ok(t)
  {
    BodyParts(t);
    HandlerRoundTrip(t.host);
    HandlerRoundTrip(t.extraInfo);
    IntRoundTrip(t.ttl);
    DecodeFourParts(t, UnsignedToken(t), EncodeHandler(t.host), PrintInt(t.ttl), EncodeHandler(t.extraInfo));
  }

  /** A decoded block hash never contains a dot. */
  lemma DecodedHashHasNoDot(accessToken: Bytes)
    requires Decode(accessToken).Ok?
    ensures DOT !in Decode(accessToken).value.blockHash
  {
    var body := DecodeHandler(Split(accessToken, DOT)[1]).value;
    SplitPieces(body, DOT);
  }

  /**
   The round trip: for all byte strings and every ttl, an encodable token decodes to itself exactly when its block
   hash contains no dot.
   */
  lemma RoundTrip(t: AuthToken)
    requires t.signature != [] && t.address != []
    ensures Encode(t).Ok?
    ensures Decode(Encode(t).value) == Ok(t) <==> DOT !in t.blockHash
  {
    EncodeSucceeds(t);
    DecodeReachesBody(t);
    if DOT in t.blockHash {
      if Decode(Encode(t).value).Ok? { DecodedHashHasNoDot(Encode(t).value); }
    } else {
      BodyRoundTrip(t);
    }
  }

  lemma FirstDot(a: Bytes, b: Bytes, a': Bytes, b': Bytes)
    requires DOT !in a && DOT !in a' && a + [DOT] + b == a' + [DOT] + b'
    ensures a == a' && b == b'
  {
    var s := a + [DOT] + b;
    assert s == a' + [DOT] + b';
    assert s[|a|] == DOT && s[|a'|] == DOT;
    assert (forall i :: 0 <= i < |a| ==> s[i] == a[i]) && (forall i :: 0 <= i < |a'| ==> s[i] == a'[i]);
    assert a == s[..|a|] && a' == s[..|a'|];
    assert b == s[|a| + 1..] && b' == s[|a'| + 1..];
  }

  lemma LastDot(a: Bytes, b: Bytes, a': Bytes, b': Bytes)
    requires DOT !in b && DOT !in b' && a + [DOT] + b == a' + [DOT] + b'
    ensures a == a' && b == b'
  {
    var s := a + [DOT] + b;
    assert s == a' + [DOT] + b';
    assert s[|a|] == DOT && s[|a'|] == DOT;
    assert forall i :: |a| < i < |s| ==> s[i] == b[i - |a| - 1];
    assert forall i :: |a'| < i < |s| ==> s[i] == b'[i - |a'| - 1];
    assert a == s[..|a|] && a' == s[..|a'|];
    assert b == s[|a| + 1..] && b' == s[|a'| + 1..];
  }

  /** The text that is signed determines all four fields, dots in the block hash or not. */
  lemma UnsignedTokenIsInjective(t: AuthToken, u: AuthToken)
    requires UnsignedToken(t) == UnsignedToken(u)
    ensures t.host == u.host && t.blockHash == u.blockHash && t.ttl == u.ttl && t.extraInfo == u.extraInfo
  {
    var host, host' := EncodeHandler(t.host), EncodeHandler(u.host);
    var ttl, ttl' := PrintInt(t.ttl), PrintInt(u.ttl);
    EncodingHasNoDot(t.host);
    EncodingHasNoDot(u.host);
    EncodingHasNoDot(t.extraInfo);
    EncodingHasNoDot(u.extraInfo);
    IntRoundTrip(t.ttl);
    IntRoundTrip(u.ttl);
    LastDot(host + [DOT] + t.blockHash + [DOT] + ttl, EncodeHandler(t.extraInfo),
            host' + [DOT] + u.blockHash + [DOT] + ttl', EncodeHandler(u.extraInfo));
    LastDot(host + [DOT] + t.blockHash, ttl, host' + [DOT] + u.blockHash, ttl');
    FirstDot(host, t.blockHash, host', u.blockHash);
    HandlerRoundTrip(t.host);
    HandlerRoundTrip(u.host);
    HandlerRoundTrip(t.extraInfo);
    HandlerRoundTrip(u.extraInfo);
  }

  /** Two different tokens never share an encoding, even where a block hash with a dot keeps them from decoding. */
  lemma EncodeIsInjective(t: AuthToken, u: AuthToken)
    requires Encode(t).Ok? && Encode(t) == Encode(u)
    ensures t == u
  {
    TokenParts(t);
    TokenParts(u);
    HandlerRoundTrip(t.address);
    HandlerRoundTrip(u.address);
    HandlerRoundTrip(UnsignedToken(t));
    HandlerRoundTrip(UnsignedToken(u));
    HexRoundTrip(t.signature);
    HexRoundTrip(u.signature);
    UnsignedTokenIsInjective(t, u);
  }

  // ---------- what decoding reads, and which errors it reports ----------

  /** The first three parts of a token and the first four of its body stand for the fields, any further ones do not. */
  ghost predicate Reads(strs: seq<Bytes>, body: seq<Bytes>, t: AuthToken) {
    && |strs| >= 3 && DecodeHandler(strs[0]) == Some(t.address) && DecodeHex(strs[2]) == Some(t.signature)
    && |body| >= 4 && DecodeHandler(body[0]) == Some(t.host) && body[1] == t.blockHash
    && ParseInt(body[2]) == Some(t.ttl) && DecodeHandler(body[3]) == Some(t.extraInfo)
  }

  /** The parts of the body inside a token, if it has one. */
  ghost function InnerParts(strs: seq<Bytes>): seq<Bytes> {
    if |strs| >= 2 && DecodeHandler(strs[1]).Some? then Split(DecodeHandler(strs[1]).value, DOT) else []
  }

  lemma DecodesIff(accessToken: Bytes, t: AuthToken)
    ensures var strs := Split(accessToken, DOT); Decode(accessToken) == Ok(t) <==> Reads(strs, InnerParts(strs), t)
  {
  }

  /** "invalid hex" is said of the signature only, after a valid address and body. */
  lemma InvalidHexIff(accessToken: Bytes)
    ensures
      var strs := Split(accessToken, DOT);
      Decode(accessToken) == Err(InvalidHex) <==>
        && |strs| >= 3 && DecodeHandler(strs[0]).Some? && DecodeHandler(strs[1]).Some? && DecodeHex(strs[2]).None?
  {
  }

  /** "invalid ttl" is said of the third part of a body with a valid host, inside an otherwise valid token. */
  lemma InvalidTtlIff(accessToken: Bytes)
    ensures
      var strs := Split(accessToken, DOT);
      var body := InnerParts(strs);
      Decode(accessToken) == Err(InvalidTtl) <==>
        && |strs| >= 3 && DecodeHandler(strs[0]).Some? && DecodeHex(strs[2]).Some?
        && |body| >= 3 && DecodeHandler(body[0]).Some? && ParseInt(body[2]).None?
  {
  }

  // ---------- tokens that make the server panic ----------

  /** Fewer than three parts, and those that are there are valid base64. */
  ghost predicate TokenCutShort(strs: seq<Bytes>) {
    |strs| < 3 && forall i :: 0 <= i < |strs| ==> DecodeHandler(strs[i]).Some?
  }

  /** Fewer than four parts, a valid host, and a valid ttl where there is one. */
  ghost predicate BodyCutShort(strs: seq<Bytes>) {
    0 < |strs| < 4 && DecodeHandler(strs[0]).Some? && (|strs| == 3 ==> ParseInt(strs[2]).Some?)
  }

  lemma BodyPanicsIff(address: Bytes, signature: Bytes, body: Bytes)
    ensures DecodeBody(address, signature, body) == Err(MissingPart) <==> BodyCutShort(Split(body, DOT))
  {
  }

  lemma ShortTokenPanicsIff(accessToken: Bytes)
    requires |Split(accessToken, DOT)| < 3
    ensures Decode(accessToken) == Err(MissingPart) <==> TokenCutShort(Split(accessToken, DOT))
  {
    var strs := Split(accessToken, DOT);
    if |strs| == 1 {
      assert TokenCutShort(strs) <==> DecodeHandler(strs[0]).Some?;
    } else {
      assert TokenCutShort(strs) <==> DecodeHandler(strs[0]).Some? && DecodeHandler(strs[1]).Some?;
    }
  }

  /**
   Decoding panics if and only if the token is cut short, or has its three parts, all valid, around a body that is cut
   short; any other malformed token is reported as an error.
   */
  lemma PanicsIff(accessToken: Bytes)
    ensures
      var strs := Split(accessToken, DOT);
      Decode(accessToken) == Err(MissingPart) <==>
        || TokenCutShort(strs)
        || (|strs| >= 3 && DecodeHandler(strs[0]).Some? && DecodeHandler(strs[1]).Some? && DecodeHex(strs[2]).Some?
            && BodyCutShort(Split(DecodeHandler(strs[1]).value, DOT)))
  {
    var strs := Split(accessToken, DOT);
    if |strs| < 3 {
      ShortTokenPanicsIff(accessToken);
    } else {
      match (DecodeHandler(strs[0]), DecodeHandler(strs[1]), DecodeHex(strs[2])) {
        case (Some(address), Some(body), Some(signature)) => BodyPanicsIff(address, signature, body);
        case _ =>
      }
    }
  }

  /** Every base64 text alone is such a token, down to the empty one, and so is every one with only a host inside. */
  lemma ShortTokensPanic(address: Bytes, host: Bytes, signature: Bytes)
    ensures Decode([]) == Err(MissingPart) && Decode(EncodeHandler(address)) == Err(MissingPart)
    ensures Decode(EncodeHandler(address) + [DOT] + EncodeHandler(EncodeHandler(host)) + [DOT] + EncodeHex(signature))
            == Err(MissingPart)
  {
    EncodingHasNoDot(address);
    EncodingHasNoDot(host);
    EncodingHasNoDot(EncodeHandler(host));
    HexAvoids(signature, DOT);
    SplitLast(EncodeHandler(address), DOT);
    SplitLast(EncodeHandler(host), DOT);
    SplitThree(EncodeHandler(address), EncodeHandler(EncodeHandler(host)), EncodeHex(signature));
    HandlerRoundTrip(address);
    HandlerRoundTrip(host);
    HandlerRoundTrip(EncodeHandler(host));
    HexRoundTrip(signature);
    HandlerRoundTrip([]);
    EncodingAlphabet([]);
  }
}
