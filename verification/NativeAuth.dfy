/** The native auth client and server: what is signed, what is checked, and until when a token is accepted. */
module NativeAuth {
  import opened GoTypes
  import opened Base64
  import opened TokenCodec

  datatype AuthError =
    | TokenExpired | InvalidAddress | InvalidSignature | BlockUnavailable | SigningFailed | NotEncodable(error: Error)

  /** Keys and signatures are opaque; `publicKey` is the address decoding followed by the key construction. */
  datatype Crypto = Crypto(
    sign: (Bytes, Bytes) -> Option<Bytes>,
    verify: (Bytes, Bytes, Bytes) -> bool,
    publicKey: Bytes -> Option<Bytes>)

  /** Every signature made with the private key verifies under the public key of the address. */
  ghost predicate KeyPair(crypto: Crypto, privateKey: Bytes, address: Bytes) {
    && crypto.publicKey(address).Some?
    && forall m, sig :: crypto.sign(m, privateKey) == Some(sig) ==>
         crypto.verify(m, crypto.publicKey(address).value, sig)
  }

  /** The block timestamps, by hash; immutable, with failures included. */
  type Blocks = Bytes -> Option<int64>

  datatype ClientConfig = ClientConfig(ttl: int64, host: Bytes, extraInfo: Bytes, address: Bytes, privateKey: Bytes)

  function UnsignedClientToken(c: ClientConfig, hash: Bytes): AuthToken {
    AuthToken(c.ttl, c.address, c.host, c.extraInfo, [], hash)
  }

  function ClientMessage(c: ClientConfig, hash: Bytes): Bytes {
    SignableMessage(c.address, UnsignedToken(UnsignedClientToken(c, hash)))
  }

  /** The token is the encoding of one signed by the client for the block with the given hash. */
  ghost predicate SignedFor(crypto: Crypto, c: ClientConfig, hash: Bytes, token: Bytes) {
    var sig := crypto.sign(ClientMessage(c, hash), c.privateKey);
    sig.Some? && Encode(UnsignedClientToken(c, hash).(signature := sig.value)) == Ok(token)
  }

  class AuthClient {
    const config: ClientConfig
    var token: Bytes
    /** In nanoseconds; None is the zero time. */
    var tokenExpire: Option<int>

    /** From `now` on, the cached token is handed out only while it is a signed one. */
    ghost predicate HoldsSigned(crypto: Crypto, now: int)
      reads this
    {
      tokenExpire.Some? && now <= tokenExpire.value ==> exists hash :: SignedFor(crypto, config, hash, token)
    }

    constructor (config: ClientConfig)
      ensures this.config == config && token == [] && tokenExpire == None
      ensures forall crypto, now :: HoldsSigned(crypto, now)
    {
      this.config := config;
      token, tokenExpire := [], None;
    }

    /**
     The token is handed out again until its time is over, and otherwise a new one is made. With a clock that does not
     go back, whatever is handed out was signed for some block, although a failed attempt may clear the cached token.
     */
    method GetAccessToken(crypto: Crypto, lastHash: Option<Bytes>, now: int, later: int)
      returns (r: Result<Bytes, AuthError>)
      requires HoldsSigned(crypto, now) && now <= later
      modifies this
      ensures HoldsSigned(crypto, later)
      ensures r.Ok? ==> exists hash :: SignedFor(crypto, config, hash, r.value)
      ensures old(tokenExpire).Some? && now <= old(tokenExpire).value ==> r == Ok(old(token))
      ensures !(old(tokenExpire).Some? && now <= old(tokenExpire).value) && r.Ok? ==>
        lastHash.Some? && SignedFor(crypto, config, lastHash.value, r.value) && tokenExpire == Some(later + config.ttl)
    {
      if tokenExpire.None? || now > tokenExpire.value {
        var err := CreateNewToken(crypto, lastHash, later);
        if err.Some? { return Err(err.value); }
      }
      return Ok(token);
    }

    /**
     `lastHash` is the hash of the latest hyper block, or None where the proxy failed. The ttl, a number of seconds, is
     added to the time as a number of nanoseconds.
     */
    method CreateNewToken(crypto: Crypto, lastHash: Option<Bytes>, now: int) returns (err: Option<AuthError>)
      modifies this
      ensures lastHash.None? ==> err == Some(BlockUnavailable) && token == old(token)
      ensures lastHash.Some? && crypto.sign(ClientMessage(config, lastHash.value), config.privateKey).None? ==>
        err == Some(SigningFailed) && token == old(token)
      ensures err.None? ==> lastHash.Some? && SignedFor(crypto, config, lastHash.value, token)
      ensures err.Some? && err.value.NotEncodable? ==> token == []
      ensures tokenExpire == if err.None? then Some(now + config.ttl) else old(tokenExpire)
    {
      if lastHash.None? { return Some(BlockUnavailable); }
      var t := UnsignedClientToken(config, lastHash.value);
      var sig := crypto.sign(SignableMessage(t.address, UnsignedToken(t)), config.privateKey);
      if sig.None? { return Some(SigningFailed); }
      match Encode(t.(signature := sig.value)) {
        case Ok(encoded) =>
          token, tokenExpire := encoded, Some(now + config.ttl);
          return None;
        case Err(e) =>
          token := [];
          return Some(NotEncodable(e));
      }
    }
  }

  const NANOS := 1_000_000_000

  /** The sum of two int64 values wraps. */
  function ExpireTime(timestamp: int64, ttl: int64): int64 {
    WrapInt64(timestamp as int + ttl)
  }

  /** The seconds from the year 1, from which Go's time type counts, to 1970. */
  const YEAR_ONE_TO_UNIX := 62135596800

  /** The second since 1970 that time.Unix denotes: it is held as an int64 count from the year 1, which wraps. */
  function GoUnix(seconds: int64): int {
    WrapInt64(seconds as int + YEAR_ONE_TO_UNIX) - YEAR_ONE_TO_UNIX
  }

  /** `now` is in nanoseconds, the expiry time in seconds. */
  predicate Expired(now: int, expireTime: int64) {
    now > GoUnix(expireTime) * NANOS
  }

  /** The sum, counted from the year 1, fits into an int64. */
  predicate Representable(timestamp: int64, ttl: int64) {
    -TWO_63 <= timestamp as int + ttl + 62135596800 < TWO_63
  }

  /** Two additions that wrap denote the sum if and only if it is representable, even where the first one wraps. */
  lemma ExpirySecond(timestamp: int64, ttl: int64)
    ensures GoUnix(ExpireTime(timestamp, ttl)) == timestamp as int + ttl <==> Representable(timestamp, ttl)
  {
    var sum: int := timestamp as int + ttl;
    assert ExpireTime(timestamp, ttl) ==
      if sum < -TWO_63 then sum + TWO_64 else if sum < TWO_63 then sum else sum - TWO_64;
  }

  function SignatureVerdict(crypto: Crypto, t: AuthToken): Option<AuthError> {
    match crypto.publicKey(t.address)
    case None => Some(InvalidAddress)
    case Some(key) =>
      var unsigned := UnsignedToken(t);
      if || crypto.verify(SignableMessage(t.address, unsigned), key, t.signature)
         || crypto.verify(SignableMessageLegacy(t.address, unsigned), key, t.signature)
      then None
      else Some(InvalidSignature)
  }

  /**
   The address decodes to a key under which the signature verifies for the address followed by the token's text, or for
   these two followed by "{}".
   */
  predicate VerifiedBy(crypto: Crypto, t: AuthToken) {
    && crypto.publicKey(t.address).Some?
    && var key := crypto.publicKey(t.address).value;
       || crypto.verify(t.address + UnsignedToken(t), key, t.signature)
       || crypto.verify(t.address + UnsignedToken(t) + [123, 125], key, t.signature)
  }

  /** What the server answers when it looks every block up. */
  function Verdict(crypto: Crypto, blocks: Blocks, t: AuthToken, now: int): Option<AuthError> {
    match blocks(t.blockHash)
    case None => Some(BlockUnavailable)
    case Some(timestamp) =>
      if Expired(now, ExpireTime(timestamp, t.ttl)) then Some(TokenExpired) else SignatureVerdict(crypto, t)
  }

  class AuthServer {
    var cache: map<Bytes, int64>

    ghost predicate Coherent(blocks: Blocks)
      reads this
    {
      forall h :: h in cache ==> blocks(h) == Some(cache[h])
    }

    constructor ()
      ensures cache == map[]
    {
      cache := map[];
    }

    /** The cacher may forget anything at any time. */
    method Evict(keys: set<Bytes>)
      modifies this
      ensures forall blocks :: old(Coherent(blocks)) ==> Coherent(blocks)
      ensures cache == old(cache) - keys
    {
      cache := cache - keys;
    }

    method GetBlockTimestamp(blocks: Blocks, hash: Bytes) returns (timestamp: Option<int64>)
      requires Coherent(blocks)
      modifies this
      ensures Coherent(blocks) && timestamp == blocks(hash)
    {
      if hash in cache {
        return Some(cache[hash]);
      }
      timestamp := blocks(hash);
      if timestamp.Some? {
        cache := cache[hash := timestamp.value];
      }
    }

    /** Cached or not, the answer is the same. */
    method Validate(crypto: Crypto, blocks: Blocks, t: AuthToken, now: int) returns (err: Option<AuthError>)
      requires Coherent(blocks)
      modifies this
      ensures Coherent(blocks) && err == Verdict(crypto, blocks, t, now)
      ensures err.None? <==>
        && blocks(t.blockHash).Some?
        && !Expired(now, ExpireTime(blocks(t.blockHash).value, t.ttl))
        && VerifiedBy(crypto, t)
      ensures err == Some(BlockUnavailable) <==> blocks(t.blockHash).None?
      ensures err == Some(TokenExpired) <==>
        blocks(t.blockHash).Some? && Expired(now, ExpireTime(blocks(t.blockHash).value, t.ttl))
      ensures err == Some(InvalidAddress) ==> crypto.publicKey(t.address).None?
      ensures err == Some(InvalidSignature) ==> crypto.publicKey(t.address).Some?
    {
      var timestamp := GetBlockTimestamp(blocks, t.blockHash);
      if timestamp.None? { return Some(BlockUnavailable); }
      if Expired(now, ExpireTime(timestamp.value, t.ttl)) { return Some(TokenExpired); }
      err := SignatureVerdict(crypto, t);
    }

    /** A run of validations, before each of which the cacher may have forgotten anything: every verdict is the same. */
    method ValidateAll(crypto: Crypto, blocks: Blocks, requests: seq<Request>)
      returns (verdicts: seq<Option<AuthError>>)
      requires Coherent(blocks)
      modifies this
      ensures Coherent(blocks) && |verdicts| == |requests|
      ensures forall i :: 0 <= i < |requests| ==>
        verdicts[i] == Verdict(crypto, blocks, requests[i].token, requests[i].now)
    {
      verdicts := [];
      for i := 0 to |requests|
        invariant Coherent(blocks) && |verdicts| == i
        invariant forall k :: 0 <= k < i ==>
          verdicts[k] == Verdict(crypto, blocks, requests[k].token, requests[k].now)
      {
        Evict(requests[i].forgotten);
        var err := Validate(crypto, blocks, requests[i].token, requests[i].now);
        verdicts := verdicts + [err];
      }
    }
  }

  /** A validation, and the keys the cacher forgot before it. */
  datatype Request = Request(token: AuthToken, now: int, forgotten: set<Bytes>)

  /** The signature is not part of the signed message, so the decoded token yields the message again. */
  lemma ClientTokenDecodes(c: ClientConfig, hash: Bytes, sig: Bytes, token: Bytes)
    requires DOT !in hash && Encode(UnsignedClientToken(c, hash).(signature := sig)) == Ok(token)
    ensures Decode(token) == Ok(UnsignedClientToken(c, hash).(signature := sig))
    ensures Decode(token) == Ok(AuthToken(c.ttl, c.address, c.host, c.extraInfo, sig, hash))
    ensures var t := Decode(token).value; SignableMessage(t.address, UnsignedToken(t)) == ClientMessage(c, hash)
  {
    EncodeSucceeds(UnsignedClientToken(c, hash).(signature := sig));
    RoundTrip(UnsignedClientToken(c, hash).(signature := sig));
  }

  lemma GenuineSignature(crypto: Crypto, t: AuthToken, key: Bytes)
    requires KeyPair(crypto, key, t.address)
    requires crypto.sign(SignableMessage(t.address, UnsignedToken(t)), key) == Some(t.signature)
    ensures SignatureVerdict(crypto, t) == None
  {
  }

  lemma GenuineTokenVerdict(crypto: Crypto, blocks: Blocks, t: AuthToken, key: Bytes, timestamp: int64, now: int)
    requires KeyPair(crypto, key, t.address) && blocks(t.blockHash) == Some(timestamp)
    requires crypto.sign(SignableMessage(t.address, UnsignedToken(t)), key) == Some(t.signature)
    requires Representable(timestamp, t.ttl)
    ensures Verdict(crypto, blocks, t, now) ==
            if now <= (timestamp as int + t.ttl) * NANOS then None else Some(TokenExpired)
  {
    GenuineSignature(crypto, t, key);
    ExpirySecond(timestamp, t.ttl);
  }

  /**
   End to end: what the client's token decodes to makes the server rebuild, byte for byte, the message the client
   signed; the server accepts it up to the block's timestamp plus the ttl and answers "expired" ever after.
   */
  lemma ClientTokenIsAcceptedUntilExpiry(
      crypto: Crypto, blocks: Blocks, c: ClientConfig, hash: Bytes, timestamp: int64, now: int, token: Bytes)
    requires KeyPair(crypto, c.privateKey, c.address)
    requires c.address != [] && DOT !in hash && blocks(hash) == Some(timestamp)
    requires SignedFor(crypto, c, hash, token)
    requires Representable(timestamp, c.ttl)
    ensures Decode(token).Ok?
    ensures var t := Decode(token).value; SignableMessage(t.address, UnsignedToken(t)) == ClientMessage(c, hash)
    ensures Verdict(crypto, blocks, Decode(token).value, now) ==
            if now <= (timestamp as int + c.ttl) * 1_000_000_000 then None else Some(TokenExpired)
  {
    var sig := crypto.sign(ClientMessage(c, hash), c.privateKey).value;
    ClientTokenDecodes(c, hash, sig, token);
    GenuineTokenVerdict(crypto, blocks, Decode(token).value, c.privateKey, timestamp, now);
  }

  // ---------- what an accepted token says ----------

  /** A token whose text was signed with the key of its address, in one of the two forms. */
  ghost predicate SignedText(crypto: Crypto, u: AuthToken, key: Bytes, message: Bytes) {
    && crypto.publicKey(u.address) == Some(key)
    && (message == u.address + UnsignedToken(u) || message == u.address + UnsignedToken(u) + [123, 125])
  }

  /** Signatures verify only for the texts of the given tokens: none is forged. */
  ghost predicate Unforged(crypto: Crypto, signed: set<AuthToken>) {
    forall message, key, sig :: crypto.verify(message, key, sig) ==>
      exists u :: u in signed && SignedText(crypto, u, key, message)
  }

  ghost predicate KeysAreDistinct(crypto: Crypto) {
    forall a, b :: crypto.publicKey(a).Some? && crypto.publicKey(a) == crypto.publicKey(b) ==> a == b
  }

  /** The text of a token does not end in a brace, so the two forms cannot be confused. */
  lemma TextHasNoBrace(t: AuthToken)
    ensures UnsignedToken(t) != [] && UnsignedToken(t)[|UnsignedToken(t)| - 1] != 125
  {
    var extra := EncodeHandler(t.extraInfo);
    EncodingAlphabet(t.extraInfo);
    assert UnsignedToken(t)[|UnsignedToken(t)| - 1] == if extra == [] then DOT else extra[|extra| - 1];
  }

  lemma SameText(t: AuthToken, u: AuthToken, message: Bytes)
    requires t.address == u.address
    requires message == t.address + UnsignedToken(t) || message == t.address + UnsignedToken(t) + [123, 125]
    requires message == u.address + UnsignedToken(u) || message == u.address + UnsignedToken(u) + [123, 125]
    ensures UnsignedToken(t) == UnsignedToken(u)
  {
    TextHasNoBrace(t);
    TextHasNoBrace(u);
    SameBytes(t.address, UnsignedToken(t), UnsignedToken(u), message);
  }

  lemma SameBytes(a: Bytes, x: Bytes, y: Bytes, message: Bytes)
    requires x != [] && y != [] && x[|x| - 1] != 125 && y[|y| - 1] != 125
    requires message == a + x || message == a + x + [123, 125]
    requires message == a + y || message == a + y + [123, 125]
    ensures x == y
  {
    assert message[|message| - 1] == 125 <==> message == a + x + [123, 125];
    assert message[|message| - 1] == 125 <==> message == a + y + [123, 125];
    var n := if message[|message| - 1] == 125 then |message| - 2 else |message|;
    assert x == message[|a|..n] && y == message[|a|..n];
  }

  /**
   Where no signature is forged and no two addresses share a key, every token the server accepts says what its owner
   signed: address, host, block hash, ttl and extra info are those of a signed token, whichever form was signed.
   */
  lemma AcceptedTokenWasSigned(crypto: Crypto, blocks: Blocks, t: AuthToken, now: int, signed: set<AuthToken>)
    returns (u: AuthToken)
    requires Unforged(crypto, signed) && KeysAreDistinct(crypto) && Verdict(crypto, blocks, t, now) == None
    ensures u in signed && t == u.(signature := t.signature)
  {
    var key := crypto.publicKey(t.address).value;
    var message := t.address + UnsignedToken(t);
    if !crypto.verify(message, key, t.signature) { message := message + [123, 125]; }
    assert crypto.verify(message, key, t.signature);
    u :| u in signed && SignedText(crypto, u, key, message);
    SameText(t, u, message);
    UnsignedTokenIsInjective(t, u);
  }

  // ---------- the expiry ----------

  /** The expiry check is the one promised, at every time, exactly when timestamp + ttl is a time Go can represent. */
  lemma ExpiryIsExact(timestamp: int64, ttl: int64)
    ensures
      (forall now :: Expired(now, ExpireTime(timestamp, ttl)) <==> now > (timestamp as int + ttl) * NANOS) <==>
      Representable(timestamp, ttl)
  {
    ExpirySecond(timestamp, ttl);
    var exact: int := timestamp as int + ttl;
    var denoted := GoUnix(ExpireTime(timestamp, ttl));
    if denoted != exact {
      var moment: int := (if exact < denoted then denoted else exact) * NANOS;
      assert Expired(moment, ExpireTime(timestamp, ttl)) != (moment > exact * NANOS);
    }
  }

  /** A ttl of 2^63 - 1 seconds, where timestamp + ttl does not even overflow, makes a token that expired long ago. */
  lemma LongestTtlIsExpired(now: int)
    requires 0 <= now
    ensures var ttl: int64 := TWO_63 - 1; ExpireTime(0, ttl) == ttl && Expired(now, ExpireTime(0, ttl))
  {
  }
}
