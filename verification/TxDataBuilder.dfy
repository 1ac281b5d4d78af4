/** Building the data field of a contract call, and reading a call back. */
module TxDataBuilder {
  import opened GoTypes
  import opened Text
  import opened Serde

  const AT: byte := 64

  datatype BuilderError = InvalidValue | NilValue | InvalidHex

  /** An argument in hexadecimal; no bytes at all are written as one zero byte. */
  function ArgText(bytes: Bytes): Bytes {
    EncodeHex(if bytes == [] then [0] else bytes)
  }

  /** big.Int's Bytes is the absolute value; the sign is lost. */
  function Magnitude(v: int): nat {
    if v < 0 then -v else v
  }

  function IntText(v: int): Bytes {
    ArgText(MinimalBytes(Magnitude(v)))
  }

  lemma TextRoundTrip(b: Bytes)
    ensures DecodeHex(ArgText(b)) == Some(if b == [] then [0] else b)
  {
    HexRoundTrip(if b == [] then [0] else b);
  }

  /** What the builder emits: the function name where there is one, and the arguments, separated by '@'. */
  function Data(name: Bytes, texts: seq<Bytes>): Bytes {
    Join((if name == [] then [] else [name]) + texts, AT)
  }

  class Builder {
    var function_: Bytes
    var args: seq<Bytes>
    var err: Option<BuilderError>

    /** Every argument is hexadecimal, whatever calls were made. */
    ghost predicate Valid()
      reads this
    {
      IsHex(args)
    }

    constructor ()
      ensures Valid() && function_ == [] && args == [] && err == None
    {
      function_, args, err := [], [], None;
    }

    method Function(name: Bytes)
      modifies this`function_
      ensures function_ == name
    {
      function_ := name;
    }

    method AddBytes(bytes: Bytes)
      requires Valid()
      modifies this`args
      ensures Valid()
      ensures args == old(args) + [ArgText(bytes)]
    {
      TextRoundTrip(bytes);
      args := args + [ArgText(bytes)];
    }

    /** The first error stays: after it, no call changes anything. An empty argument is an error, yet it is added. */
    method ArgBytes(bytes: Bytes)
      requires Valid()
      modifies this`args, this`err
      ensures Valid()
      ensures old(err).Some? ==> args == old(args) && err == old(err)
      ensures old(err).None? ==>
        args == old(args) + [ArgText(bytes)] && err == if bytes == [] then Some(InvalidValue) else None
    {
      if err.Some? { return; }
      if |bytes| == 0 { err := Some(InvalidValue); }
      AddBytes(bytes);
    }

    method ArgInt64(value: int64)
      requires Valid()
      modifies this`args
      ensures Valid()
      ensures args == if err.Some? then old(args) else old(args) + [IntText(value)]
    {
      if err.Some? { return; }
      AddBytes(MinimalBytes(Magnitude(value)));
    }

    method ArgBigInt(value: Option<int>)
      requires Valid()
      modifies this`args, this`err
      ensures Valid()
      ensures old(err).Some? ==> args == old(args) && err == old(err)
      ensures old(err).None? && value.None? ==> args == old(args) && err == Some(NilValue)
      ensures old(err).None? && value.Some? ==> args == old(args) + [IntText(value.value)] && err == None
    {
      if err.Some? { return; }
      if value.None? {
        err := Some(NilValue);
        return;
      }
      AddBytes(MinimalBytes(Magnitude(value.value)));
    }

    /** The string is taken over as it is once it is known to be hexadecimal. */
    method ArgHexString(hexed: Bytes)
      requires Valid()
      modifies this`args, this`err
      ensures Valid()
      ensures old(err).Some? ==> args == old(args) && err == old(err)
      ensures old(err).None? && DecodeHex(hexed).None? ==> args == old(args) && err == Some(InvalidHex)
      ensures old(err).None? && DecodeHex(hexed).Some? ==> args == old(args) + [hexed] && err == None
    {
      if err.Some? { return; }
      if DecodeHex(hexed).None? {
        err := Some(InvalidHex);
        return;
      }
      args := args + [hexed];
    }

    /** A name free of '@' makes data that parses back to the call; without a name, only a call with no arguments. */
    method ToDataBytes() returns (r: Result<Bytes, BuilderError>)
      requires Valid()
      ensures r == if err.Some? then Err(err.value) else Ok(Data(function_, args))
      ensures r.Ok? ==>
        (ParsesBack(r.value, function_, args) <==> if function_ == [] then args == [] else AT !in function_)
    {
      if err.Some? { return Err(err.value); }
      var parts := if |function_| > 0 then [function_] else [];
      CallRoundTrip(function_, args);
      return Ok(Join(parts + args, AT));
    }
  }

  // ---------- reading a call back ----------

  function DecodeArgs(texts: seq<Bytes>): Option<seq<Bytes>> {
    if texts == [] then Some([])
    else
      match (DecodeHex(texts[0]), DecodeArgs(texts[1..]))
      case (Some(arg), Some(rest)) => Some([arg] + rest)
      case _ => None
  }

  /** Split at '@'; the first part is the function, the others are hexadecimal arguments. */
  function ParseCall(data: Bytes): Option<(Bytes, seq<Bytes>)> {
    var parts := Split(data, AT);
    match DecodeArgs(parts[1..])
    case Some(args) => Some((parts[0], args))
    case None => None
  }

  ghost predicate IsHex(texts: seq<Bytes>) {
    forall i :: 0 <= i < |texts| ==> DecodeHex(texts[i]).Some?
  }

  /** The arguments are what the texts stand for. */
  ghost predicate DecodesTo(texts: seq<Bytes>, args: seq<Bytes>) {
    |texts| == |args| && forall i :: 0 <= i < |texts| ==> DecodeHex(texts[i]) == Some(args[i])
  }

  lemma DecodesInTwo(a: seq<Bytes>, b: seq<Bytes>, args: seq<Bytes>)
    requires DecodesTo(a + b, args)
    ensures DecodesTo(a, args[..|a|]) && DecodesTo(b, args[|a|..])
  {
    forall i | 0 <= i < |a| ensures DecodeHex(a[i]) == Some(args[..|a|][i]) { assert (a + b)[i] == a[i]; }
    forall i | 0 <= i < |b| ensures DecodeHex(b[i]) == Some(args[|a|..][i]) { assert (a + b)[|a| + i] == b[i]; }
  }

  lemma {:induction false} HexHasNoAt(s: Bytes)
    requires DecodeHex(s).Some?
    ensures AT !in s
    decreases |s|
  {
    if s != [] {
      HexHasNoAt(s[2..]);
      assert s == [s[0], s[1]] + s[2..];
    }
  }

  lemma {:induction false} DecodeArgsOf(texts: seq<Bytes>)
    requires IsHex(texts)
    ensures DecodeArgs(texts).Some? && DecodesTo(texts, DecodeArgs(texts).value)
  {
    if texts != [] {
      DecodeArgsOf(texts[1..]);
      var args := DecodeArgs(texts).value;
      forall i | 0 <= i < |texts| ensures DecodeHex(texts[i]) == Some(args[i]) {
        if i > 0 { assert texts[i] == texts[1..][i - 1]; }
      }
    }
  }

  /** The data is read as a call of that function with the arguments the texts stand for. */
  ghost predicate ParsesBack(data: Bytes, name: Bytes, texts: seq<Bytes>) {
    && ParseCall(data).Some? && ParseCall(data).value.0 == name && DecodesTo(texts, ParseCall(data).value.1)
  }

  lemma TextsHaveNoAt(texts: seq<Bytes>)
    requires IsHex(texts)
    ensures forall i :: 0 <= i < |texts| ==> AT !in texts[i]
  {
    forall i | 0 <= i < |texts| ensures AT !in texts[i] { HexHasNoAt(texts[i]); }
  }

  /** "f" with the arguments 0x01, the number 255 and the number 0 is "f@01@ff@00". */
  lemma DataExample()
    ensures Data([102], [ArgText([1]), IntText(255), IntText(0)]) ==
            [102, 64] + [48, 49, 64] + [102, 102, 64] + [48, 48]
    ensures ArgText([]) == [48, 48] && IntText(-255) == IntText(255)
  {
    assert MinimalBytes(255) == [255] && MinimalBytes(0) == [];
    assert EncodeHex([1]) == [48, 49] && EncodeHex([255]) == [102, 102] && EncodeHex([0]) == [48, 48];
    assert Join([[48, 48]], AT) == [48, 48];
    JoinFirst([102, 102], [[48, 48]]);
    JoinFirst([48, 49], [[102, 102], [48, 48]]);
    JoinFirst([102], [[48, 49], [102, 102], [48, 48]]);
  }

  lemma JoinFirst(first: Bytes, rest: seq<Bytes>)
    requires rest != []
    ensures Join([first] + rest, AT) == first + [64] + Join(rest, AT)
  {
  }

  /** Without a name the first argument is read as the name. */
  lemma NamelessCall(texts: seq<Bytes>)
    requires IsHex(texts) && texts != []
    ensures Split(Data([], texts), AT) == texts && !ParsesBack(Data([], texts), [], texts)
  {
    TextsHaveNoAt(texts);
    assert [] + texts == texts;
    SplitJoin(texts, AT);
    DecodeArgsOf(texts[1..]);
  }

  lemma NamedCall(name: Bytes, texts: seq<Bytes>)
    requires name != [] && AT !in name && IsHex(texts)
    ensures ParsesBack(Data(name, texts), name, texts)
  {
    var parts := [name] + texts;
    TextsHaveNoAt(texts);
    SplitJoin(parts, AT);
    assert parts[1..] == texts;
    DecodeArgsOf(texts);
  }

  /** The data of a call reads back as the call exactly when its name has no '@', and is there if arguments are. */
  lemma CallRoundTrip(name: Bytes, texts: seq<Bytes>)
    requires IsHex(texts)
    ensures ParsesBack(Data(name, texts), name, texts) <==> if name == [] then texts == [] else AT !in name
  {
    if name == [] {
      if texts != [] { NamelessCall(texts); }
    } else if AT !in name {
      NamedCall(name, texts);
    } else {
      SplitPieces(Data(name, texts), AT);
    }
  }
}
