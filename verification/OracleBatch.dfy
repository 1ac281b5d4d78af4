/** The price oracle's batch transaction: five arguments for each price change. */
module OracleBatch {
  import opened GoTypes
  import opened Text
  import opened SourceBuffers
  import opened Serde
  import opened TxDataBuilder

  datatype PriceChange = PriceChange(
    base: Bytes, quote: Bytes, denominatedPrice: uint64, decimals: uint64, timestamp: int64)

  /** "submitBatch" */
  const SUBMIT_BATCH: Bytes := [115, 117, 98, 109, 105, 116, 66, 97, 116, 99, 104]

  predicate Named(c: PriceChange) {
    c.base != [] && c.quote != []
  }

  predicate AllNamed(changes: seq<PriceChange>) {
    forall i :: 0 <= i < |changes| ==> Named(changes[i])
  }

  function ChangeArgs(c: PriceChange): seq<Bytes> {
    [ArgText(c.base), ArgText(c.quote), IntText(c.timestamp), IntText(ToInt64(c.denominatedPrice)),
     IntText(ToInt64(c.decimals))]
  }

  function BatchArgs(changes: seq<PriceChange>): (args: seq<Bytes>)
    ensures |args| == 5 * |changes|
  {
    if changes == [] then [] else BatchArgs(changes[..|changes| - 1]) + ChangeArgs(changes[|changes| - 1])
  }

  method AddChange(builder: Builder, c: PriceChange)
    requires builder.Valid()
    modifies builder
    ensures builder.Valid() && builder.function_ == old(builder.function_)
    ensures old(builder.err).Some? ==> builder.err == old(builder.err)
    ensures old(builder.err).None? ==> builder.err == if Named(c) then None else Some(InvalidValue)
    ensures old(builder.err).None? && Named(c) ==> builder.args == old(builder.args) + ChangeArgs(c)
  {
    builder.ArgBytes(c.base);
    builder.ArgBytes(c.quote);
    builder.ArgInt64(c.timestamp);
    builder.ArgInt64(ToInt64(c.denominatedPrice));
    builder.ArgInt64(ToInt64(c.decimals));
  }

  /** prepareTxData: one empty name anywhere makes the whole batch fail; otherwise the batch reads back. */
  method PrepareTxData(changes: seq<PriceChange>) returns (r: Result<Bytes, BuilderError>)
    ensures r.Ok? ==> ReadBatch(r.value) == Some(AllSent(changes))
    ensures r.Ok? ==> |Split(r.value, 64)| == 5 * |changes| + 1
    ensures r.Ok? ==> Split(r.value, 64)[0] == [115, 117, 98, 109, 105, 116, 66, 97, 116, 99, 104]
    ensures r.Ok? ==> forall i: nat :: i < |changes| ==> LaidOut(Split(r.value, 64)[5 * i + 1..5 * i + 6], changes[i])
    ensures r.Err? <==> exists i :: 0 <= i < |changes| && (changes[i].base == [] || changes[i].quote == [])
    ensures r == if AllNamed(changes) then Ok(Data(SUBMIT_BATCH, BatchArgs(changes))) else Err(InvalidValue)
  {
    var builder := new Builder();
    builder.Function(SUBMIT_BATCH);
    for i := 0 to |changes|
      invariant builder.Valid() && builder.function_ == SUBMIT_BATCH
      invariant builder.err == if AllNamed(changes[..i]) then None else Some(InvalidValue)
      invariant AllNamed(changes[..i]) ==> builder.args == BatchArgs(changes[..i])
    {
      var c := changes[i];
      assert changes[..i + 1] == changes[..i] + [c];
      assert AllNamed(changes[..i + 1]) <==> AllNamed(changes[..i]) && Named(c);
      AddChange(builder, c);
    }
    assert changes[..|changes|] == changes;
    r := builder.ToDataBytes();
    if AllNamed(changes) {
      BatchReadsBack(changes);
      BatchIsLaidOut(changes);
    }
  }

  // ---------- the layout of a batch ----------

  /** Base, quote, timestamp, price and number of decimals, in this order. */
  ghost predicate LaidOut(texts: seq<Bytes>, c: PriceChange) {
    && |texts| == 5
    && DecodeHex(texts[0]) == Some(c.base) && DecodeHex(texts[1]) == Some(c.quote)
    && Numbers(texts[2], c.timestamp) && Numbers(texts[3], ToInt64(c.denominatedPrice))
    && Numbers(texts[4], ToInt64(c.decimals))
  }

  /** The text is the magnitude of the number, in big-endian hexadecimal. */
  ghost predicate Numbers(text: Bytes, v: int) {
    DecodeHex(text).Some? && BigEndian(DecodeHex(text).value) == if v < 0 then -v else v
  }

  lemma ChangeIsLaidOut(c: PriceChange)
    requires Named(c)
    ensures LaidOut(ChangeArgs(c), c)
  {
    TextRoundTrip(c.base);
    TextRoundTrip(c.quote);
    NumberRoundTrip(c.timestamp);
    NumberRoundTrip(ToInt64(c.denominatedPrice));
    NumberRoundTrip(ToInt64(c.decimals));
  }

  lemma FiveOf(a: seq<Bytes>, b: seq<Bytes>, i: nat)
    requires |b| == 5 && (i + 5 <= |a| || i == |a|)
    ensures (a + b)[i..i + 5] == if i < |a| then a[i..i + 5] else b
  {
  }

  lemma {:induction false} ArgsAreLaidOut(changes: seq<PriceChange>, i: nat)
    requires AllNamed(changes) && i < |changes|
    ensures LaidOut(BatchArgs(changes)[5 * i..5 * i + 5], changes[i])
  {
    var init, last := changes[..|changes| - 1], changes[|changes| - 1];
    FiveOf(BatchArgs(init), ChangeArgs(last), 5 * i);
    if i < |init| { ArgsAreLaidOut(init, i); } else { ChangeIsLaidOut(last); }
  }

  lemma PartsOfBatch(name: Bytes, args: seq<Bytes>)
    requires name != [] && AT !in name && IsHex(args)
    ensures Split(Data(name, args), AT) == [name] + args
  {
    TextsHaveNoAt(args);
    SplitJoin([name] + args, AT);
  }

  lemma AfterTheName(name: Bytes, args: seq<Bytes>, i: nat)
    requires i + 5 <= |args|
    ensures ([name] + args)[i + 1..i + 6] == args[i..i + 5]
  {
  }

  lemma BatchIsLaidOut(changes: seq<PriceChange>)
    requires AllNamed(changes)
    ensures
      var parts := Split(Data(SUBMIT_BATCH, BatchArgs(changes)), AT);
      && |parts| == 5 * |changes| + 1 && parts[0] == SUBMIT_BATCH
      && forall i: nat :: i < |changes| ==> LaidOut(parts[5 * i + 1..5 * i + 6], changes[i])
  {
    var name, args := SUBMIT_BATCH, BatchArgs(changes);
    BatchArgsAreHex(changes);
    PartsOfBatch(name, args);
    forall i: nat | i < |changes| ensures LaidOut(([name] + args)[5 * i + 1..5 * i + 6], changes[i]) {
      ArgsAreLaidOut(changes, i);
      AfterTheName(name, args, 5 * i);
    }
  }

  // ---------- reading a batch back ----------

  /** What the contract reads: two names and three unsigned numbers. */
  datatype Received = Received(base: Bytes, quote: Bytes, timestamp: nat, price: nat, decimals: nat)

  function ReadGroup(args: seq<Bytes>): Received
    requires |args| == 5
  {
    Received(args[0], args[1], BigEndian(args[2]), BigEndian(args[3]), BigEndian(args[4]))
  }

  function ReadGroups(args: seq<Bytes>): Option<seq<Received>> {
    if args == [] then Some([])
    else if |args| < 5 then None
    else
      match ReadGroups(args[..|args| - 5])
      case Some(rest) => Some(rest + [ReadGroup(args[|args| - 5..])])
      case None => None
  }

  function ReadBatch(data: Bytes): Option<seq<Received>> {
    match ParseCall(data)
    case Some((name, args)) => if name == SUBMIT_BATCH then ReadGroups(args) else None
    case None => None
  }

  /** What arrives of a price change: the names, and the magnitudes of the three numbers as int64 values. */
  function Sent(c: PriceChange): Received {
    Received(c.base, c.quote, Magnitude(c.timestamp), Magnitude(ToInt64(c.denominatedPrice)),
             Magnitude(ToInt64(c.decimals)))
  }

  function AllSent(changes: seq<PriceChange>): seq<Received> {
    seq(|changes|, i requires 0 <= i < |changes| => Sent(changes[i]))
  }

  /** The numbers that survive: no negative timestamp, and nothing above 2^63 (2^63 itself is its own negation). */
  predicate Representable(c: PriceChange) {
    0 <= c.timestamp && c.denominatedPrice <= TWO_63 && c.decimals <= TWO_63
  }

  ghost predicate ReadAs(r: Received, c: PriceChange) {
    && r.base == c.base && r.quote == c.quote && r.timestamp == c.timestamp
    && r.price == c.denominatedPrice && r.decimals == c.decimals
  }

  lemma NumberRoundTrip(v: int)
    ensures DecodeHex(IntText(v)).Some? && BigEndian(DecodeHex(IntText(v)).value) == Magnitude(v)
  {
    MinimalRoundTrip(Magnitude(v));
    TextRoundTrip(MinimalBytes(Magnitude(v)));
    assert [0 as byte][..0] == [];
  }

  lemma GroupRoundTrip(c: PriceChange, args: seq<Bytes>)
    requires Named(c) && DecodesTo(ChangeArgs(c), args)
    ensures ReadGroup(args) == Sent(c)
  {
    TextRoundTrip(c.base);
    TextRoundTrip(c.quote);
    NumberRoundTrip(c.timestamp);
    NumberRoundTrip(ToInt64(c.denominatedPrice));
    NumberRoundTrip(ToInt64(c.decimals));
    var texts := ChangeArgs(c);
    assert DecodeHex(texts[0]) == Some(args[0]) && DecodeHex(texts[1]) == Some(args[1]);
    assert DecodeHex(texts[2]) == Some(args[2]) && DecodeHex(texts[3]) == Some(args[3]);
    assert DecodeHex(texts[4]) == Some(args[4]);
  }

  lemma ReadLastGroup(args: seq<Bytes>, rest: seq<Received>, last: Received)
    requires |args| >= 5 && ReadGroups(args[..|args| - 5]) == Some(rest) && ReadGroup(args[|args| - 5..]) == last
    ensures ReadGroups(args) == Some(rest + [last])
  {
  }

  lemma AllSentExtends(init: seq<PriceChange>, c: PriceChange)
    ensures AllSent(init + [c]) == AllSent(init) + [Sent(c)]
  {
  }

  lemma ReadLastChange(init: seq<PriceChange>, c: PriceChange, args: seq<Bytes>)
    requires |args| >= 5 && ReadGroups(args[..|args| - 5]) == Some(AllSent(init))
    requires Named(c) && DecodesTo(ChangeArgs(c), args[|args| - 5..])
    ensures ReadGroups(args) == Some(AllSent(init + [c]))
  {
    GroupRoundTrip(c, args[|args| - 5..]);
    ReadLastGroup(args, AllSent(init), Sent(c));
    AllSentExtends(init, c);
  }

  lemma LastFive(init: seq<PriceChange>, c: PriceChange, args: seq<Bytes>)
    requires DecodesTo(BatchArgs(init) + ChangeArgs(c), args)
    ensures |args| >= 5 && DecodesTo(BatchArgs(init), args[..|args| - 5])
    ensures DecodesTo(ChangeArgs(c), args[|args| - 5..])
  {
    DecodesInTwo(BatchArgs(init), ChangeArgs(c), args);
    assert |BatchArgs(init)| == |args| - 5;
  }

  lemma InitAndLast(changes: seq<PriceChange>)
    requires changes != []
    ensures changes == changes[..|changes| - 1] + [changes[|changes| - 1]]
  {
  }

  /** The last change is read from the last five arguments, and the others from the rest. */
  lemma OneChangeMore(changes: seq<PriceChange>, args: seq<Bytes>)
    requires changes != [] && AllNamed(changes) && DecodesTo(BatchArgs(changes), args)
    ensures
      var init := changes[..|changes| - 1];
      && |args| >= 5 && DecodesTo(BatchArgs(init), args[..|args| - 5])
      && (ReadGroups(args[..|args| - 5]) == Some(AllSent(init)) ==> ReadGroups(args) == Some(AllSent(changes)))
  {
    var init, c := changes[..|changes| - 1], changes[|changes| - 1];
    LastFive(init, c, args);
    if ReadGroups(args[..|args| - 5]) == Some(AllSent(init)) { ReadLastChange(init, c, args); }
    InitAndLast(changes);
  }

  lemma {:induction false} GroupsRoundTrip(changes: seq<PriceChange>, args: seq<Bytes>)
    requires AllNamed(changes) && DecodesTo(BatchArgs(changes), args)
    ensures ReadGroups(args) == Some(AllSent(changes))
  {
    if changes != [] {
      OneChangeMore(changes, args);
      GroupsRoundTrip(changes[..|changes| - 1], args[..|args| - 5]);
    } else {
      assert args == [] && AllSent(changes) == [];
    }
  }

  lemma ChangeArgsAreHex(c: PriceChange)
    ensures IsHex(ChangeArgs(c))
  {
    TextRoundTrip(c.base);
    TextRoundTrip(c.quote);
    NumberRoundTrip(c.timestamp);
    NumberRoundTrip(ToInt64(c.denominatedPrice));
    NumberRoundTrip(ToInt64(c.decimals));
    FiveAreHex(ArgText(c.base), ArgText(c.quote), IntText(c.timestamp), IntText(ToInt64(c.denominatedPrice)),
               IntText(ToInt64(c.decimals)));
  }

  lemma FiveAreHex(a: Bytes, b: Bytes, c: Bytes, d: Bytes, e: Bytes)
    requires DecodeHex(a).Some? && DecodeHex(b).Some? && DecodeHex(c).Some? && DecodeHex(d).Some? && DecodeHex(e).Some?
    ensures IsHex([a, b, c, d, e])
  {
  }

  lemma {:induction false} BatchArgsAreHex(changes: seq<PriceChange>)
    ensures IsHex(BatchArgs(changes))
  {
    if changes != [] {
      BatchArgsAreHex(changes[..|changes| - 1]);
      ChangeArgsAreHex(changes[|changes| - 1]);
    }
  }

  lemma BatchReadsBack(changes: seq<PriceChange>)
    requires AllNamed(changes)
    ensures ReadBatch(Data(SUBMIT_BATCH, BatchArgs(changes))) == Some(AllSent(changes))
  {
    BatchArgsAreHex(changes);
    CallRoundTrip(SUBMIT_BATCH, BatchArgs(changes));
    GroupsRoundTrip(changes, ParseCall(Data(SUBMIT_BATCH, BatchArgs(changes))).value.1);
  }

  ghost predicate AllReadAs(read: seq<Received>, changes: seq<PriceChange>) {
    |read| == |changes| && forall i :: 0 <= i < |read| ==> ReadAs(read[i], changes[i])
  }

  ghost predicate AllRepresentable(changes: seq<PriceChange>) {
    forall i :: 0 <= i < |changes| ==> Representable(changes[i])
  }

  /**
   The batch that PrepareTxData builds reads back, in order, as exactly the given price changes if and only if every
   timestamp is non-negative and every number at most 2^63.
   */
  lemma BatchRoundTrip(changes: seq<PriceChange>)
    requires AllNamed(changes)
    ensures var read := ReadBatch(Data(SUBMIT_BATCH, BatchArgs(changes)));
      read.Some? && (AllReadAs(read.value, changes) <==> AllRepresentable(changes))
  {
    BatchReadsBack(changes);
    var read := AllSent(changes);
    if AllReadAs(read, changes) {
      forall i | 0 <= i < |changes| ensures Representable(changes[i]) { assert ReadAs(read[i], changes[i]); }
    }
  }
}
