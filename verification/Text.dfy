/** The Go string helpers the codecs are built from: splitting, replacing, trimming, hexadecimal and decimal. */
module Text {
  import opened GoTypes

  // ---------- strings.Split and strings.Join on a one-byte separator ----------

  function Split(s: Bytes, sep: byte): (parts: seq<Bytes>)
    ensures parts != []
  {
    if s == [] then [[]]
    else
      var rest := Split(s[1..], sep);
      if s[0] == sep then [[]] + rest else [[s[0]] + rest[0]] + rest[1..]
  }

  function Join(parts: seq<Bytes>, sep: byte): Bytes {
    if parts == [] then []
    else if |parts| == 1 then parts[0]
    else parts[0] + [sep] + Join(parts[1..], sep)
  }

  lemma {:induction false} SplitLast(a: Bytes, sep: byte)
    requires sep !in a
    ensures Split(a, sep) == [a]
  {
    if a != [] {
      SplitLast(a[1..], sep);
      assert a == [a[0]] + a[1..];
    }
  }

  lemma {:induction false} SplitFirst(a: Bytes, b: Bytes, sep: byte)
    requires sep !in a
    ensures Split(a + [sep] + b, sep) == [a] + Split(b, sep)
  {
    var s := a + [sep] + b;
    if a == [] {
      assert s[1..] == b;
    } else {
      assert s[1..] == a[1..] + [sep] + b;
      SplitFirst(a[1..], b, sep);
      assert a == [a[0]] + a[1..];
      assert Split(s, sep) == [[a[0]] + a[1..]] + Split(b, sep);
    }
  }

  /** Splitting undoes joining when no part contains the separator. */
  lemma {:induction false} SplitJoin(parts: seq<Bytes>, sep: byte)
    requires parts != [] && forall i :: 0 <= i < |parts| ==> sep !in parts[i]
    ensures Split(Join(parts, sep), sep) == parts
  {
    if |parts| == 1 {
      SplitLast(parts[0], sep);
    } else {
      SplitJoin(parts[1..], sep);
      SplitFirst(parts[0], Join(parts[1..], sep), sep);
    }
  }

  /** No piece of a split contains the separator. */
  lemma {:induction false} SplitPieces(s: Bytes, sep: byte)
    ensures forall i :: 0 <= i < |Split(s, sep)| ==> sep !in Split(s, sep)[i]
  {
    if s != [] {
      SplitPieces(s[1..], sep);
    }
  }

  // ---------- strings.ReplaceAll of one byte, strings.TrimRight of one byte ----------

  function Replace(s: Bytes, old_: byte, new_: byte): (r: Bytes)
    ensures |r| == |s| && forall i :: 0 <= i < |s| ==> r[i] == if s[i] == old_ then new_ else s[i]
  {
    seq(|s|, i requires 0 <= i < |s| => if s[i] == old_ then new_ else s[i])
  }

  function TrimRight(s: Bytes, c: byte): Bytes {
    if s != [] && s[|s| - 1] == c then TrimRight(s[..|s| - 1], c) else s
  }

  /** Trimming takes away exactly the run of c at the end. */
  lemma {:induction false} TrimRun(s: Bytes, run: Bytes, c: byte)
    requires c !in s && forall i :: 0 <= i < |run| ==> run[i] == c
    ensures TrimRight(s + run, c) == s
  {
    if run == [] {
      assert s + run == s;
    } else {
      assert (s + run)[..|s + run| - 1] == s + run[..|run| - 1];
      TrimRun(s, run[..|run| - 1], c);
    }
  }

  // ---------- encoding/hex ----------

  function HexDigit(n: int): byte
    requires 0 <= n < 16
  {
    if n < 10 then 48 + n else 87 + n
  }

  /** Both cases are read, lower case is written. */
  function HexValue(c: byte): Option<int> {
    if 48 <= c <= 57 then Some(c - 48)
    else if 97 <= c <= 102 then Some(c - 87)
    else if 65 <= c <= 70 then Some(c - 55)
    else None
  }

  function EncodeHex(b: Bytes): Bytes {
    if b == [] then [] else [HexDigit(b[0] / 16), HexDigit(b[0] % 16)] + EncodeHex(b[1..])
  }

  function DecodeHex(s: Bytes): Option<Bytes> {
    if s == [] then Some([])
    else if |s| == 1 then None
    else
      match (HexValue(s[0]), HexValue(s[1]), DecodeHex(s[2..]))
      case (Some(hi), Some(lo), Some(rest)) => Some([16 * hi + lo] + rest)
      case _ => None
  }

  lemma {:induction false} HexRoundTrip(b: Bytes)
    ensures DecodeHex(EncodeHex(b)) == Some(b)
  {
    if b != [] {
      HexRoundTrip(b[1..]);
      assert b == [b[0]] + b[1..];
      assert EncodeHex(b)[2..] == EncodeHex(b[1..]);
    }
  }

  lemma {:induction false} HexAvoids(b: Bytes, c: byte)
    requires HexValue(c).None?
    ensures c !in EncodeHex(b) && |EncodeHex(b)| == 2 * |b|
  {
    if b != [] {
      HexAvoids(b[1..], c);
    }
  }

  /** "0123456789abcdef" and "0123456789ABCDEF" */
  const LOWER: Bytes := [48, 49, 50, 51, 52, 53, 54, 55, 56, 57, 97, 98, 99, 100, 101, 102]
  const UPPER: Bytes := [48, 49, 50, 51, 52, 53, 54, 55, 56, 57, 65, 66, 67, 68, 69, 70]

  /** Every byte is written as its two digits, the higher one first, in lower case. */
  lemma {:induction false} HexDigits(b: Bytes, k: nat)
    requires k < |b|
    ensures |EncodeHex(b)| == 2 * |b|
    ensures EncodeHex(b)[2 * k] == LOWER[b[k] / 16] && EncodeHex(b)[2 * k + 1] == LOWER[b[k] % 16]
  {
    if k > 0 {
      HexDigits(b[1..], k - 1);
    } else if |b| > 1 {
      HexDigits(b[1..], 0);
    }
  }

  ghost predicate IsDigit(c: byte, v: int) {
    0 <= v < 16 && (c == LOWER[v] || c == UPPER[v])
  }

  lemma ValueOfDigit(c: byte, v: int)
    ensures HexValue(c) == Some(v) <==> IsDigit(c, v)
  {
  }

  /** What the text stands for, digit by digit. */
  ghost predicate ReadsAs(s: Bytes, b: Bytes) {
    |s| == 2 * |b| && forall k :: 0 <= k < |b| ==> IsDigit(s[2 * k], b[k] / 16) && IsDigit(s[2 * k + 1], b[k] % 16)
  }

  lemma DecodesFirst(s: Bytes, b: Bytes)
    requires |s| >= 2 && b != []
    ensures DecodeHex(s) == Some(b) <==>
            HexValue(s[0]) == Some(b[0] / 16) && HexValue(s[1]) == Some(b[0] % 16) && DecodeHex(s[2..]) == Some(b[1..])
  {
    assert b == [b[0]] + b[1..];
    match (HexValue(s[0]), HexValue(s[1]), DecodeHex(s[2..])) {
      case (Some(hi), Some(lo), Some(rest)) =>
        Nibbles(hi, lo);
        assert ([16 * hi + lo] + rest)[1..] == rest && ([16 * hi + lo] + rest)[0] == 16 * hi + lo;
      case _ =>
    }
  }

  lemma Nibbles(hi: int, lo: int)
    requires 0 <= hi < 16 && 0 <= lo < 16
    ensures (16 * hi + lo) / 16 == hi && (16 * hi + lo) % 16 == lo
  {
  }

  /** Decoding accepts both cases, and nothing but pairs of digits. */
  lemma {:induction false} HexReadsDigits(s: Bytes, b: Bytes)
    ensures DecodeHex(s) == Some(b) <==> ReadsAs(s, b)
    decreases |s|
  {
    if |s| >= 2 && b != [] {
      HexReadsDigits(s[2..], b[1..]);
      ValueOfDigit(s[0], b[0] / 16);
      ValueOfDigit(s[1], b[0] % 16);
      DecodesFirst(s, b);
      ReadsFirst(s, b);
    }
  }

  lemma ReadsFirst(s: Bytes, b: Bytes)
    requires |s| >= 2 && b != []
    ensures ReadsAs(s, b) <==> IsDigit(s[0], b[0] / 16) && IsDigit(s[1], b[0] % 16) && ReadsAs(s[2..], b[1..])
  {
    if ReadsAs(s, b) {
      forall k | 0 <= k < |b| - 1
        ensures IsDigit(s[2..][2 * k], b[1..][k] / 16) && IsDigit(s[2..][2 * k + 1], b[1..][k] % 16)
      {
        assert IsDigit(s[2 * (k + 1)], b[k + 1] / 16) && IsDigit(s[2 * (k + 1) + 1], b[k + 1] % 16);
      }
    }
    if IsDigit(s[0], b[0] / 16) && IsDigit(s[1], b[0] % 16) && ReadsAs(s[2..], b[1..]) {
      forall k | 0 <= k < |b| ensures IsDigit(s[2 * k], b[k] / 16) && IsDigit(s[2 * k + 1], b[k] % 16) {
        if k > 0 {
          assert IsDigit(s[2..][2 * (k - 1)], b[1..][k - 1] / 16);
          assert IsDigit(s[2..][2 * (k - 1) + 1], b[1..][k - 1] % 16);
        }
      }
    }
  }

  // ---------- the %d verb and strconv.ParseInt in base 10 ----------

  function PrintNat(n: nat): (s: Bytes)
    ensures s != []
  {
    if n < 10 then [48 + n] else PrintNat(n / 10) + [48 + n % 10]
  }

  function PrintInt(v: int): Bytes {
    if v < 0 then [45] + PrintNat(-v) else PrintNat(v)
  }

  function Digits(s: Bytes): Option<nat> {
    if s == [] then Some(0)
    else
      var last := s[|s| - 1];
      match Digits(s[..|s| - 1])
      case Some(n) => if 48 <= last <= 57 then Some(10 * n + (last - 48)) else None
      case None => None
  }

  /** An optional sign, at least one digit, and a value that fits into an int64. */
  function ParseInt(s: Bytes): Option<int64> {
    var signed := s != [] && (s[0] == 43 || s[0] == 45);
    var body := if signed then s[1..] else s;
    if body == [] then None
    else
      match Digits(body)
      case Some(n) =>
        var v: int := if signed && s[0] == 45 then -(n as int) else n;
        if -TWO_63 <= v < TWO_63 then Some(v) else None
      case None => None
  }

  lemma {:induction false} NatRoundTrip(n: nat)
    ensures Digits(PrintNat(n)) == Some(n)
    ensures forall i :: 0 <= i < |PrintNat(n)| ==> 48 <= PrintNat(n)[i] <= 57
  {
    var s := PrintNat(n);
    if n < 10 {
      assert s[..0] == [];
    } else {
      NatRoundTrip(n / 10);
      assert s[..|s| - 1] == PrintNat(n / 10);
    }
  }

  lemma ParseDigits(d: Bytes, n: nat)
    requires d != [] && Digits(d) == Some(n) && 48 <= d[0] <= 57
    ensures n < TWO_63 ==> ParseInt(d) == Some(n)
  {
  }

  lemma ParseNegative(d: Bytes, n: nat)
    requires d != [] && Digits(d) == Some(n)
    ensures n <= TWO_63 ==> ParseInt([45] + d) == Some(-(n as int))
  {
    assert ([45] + d)[1..] == d;
  }

  lemma IntRoundTrip(v: int64)
    ensures ParseInt(PrintInt(v)) == Some(v)
    ensures forall i :: 0 <= i < |PrintInt(v)| ==> PrintInt(v)[i] == 45 || 48 <= PrintInt(v)[i] <= 57
  {
    var n: nat := if v < 0 then -(v as int) else v;
    NatRoundTrip(n);
    if v < 0 { ParseNegative(PrintNat(n), n); } else { ParseDigits(PrintNat(n), n); }
  }

  /** No leading zero is printed, and minus signs are. */
  lemma {:induction false} NoLeadingZeroPrinted(n: nat)
    ensures PrintNat(n)[0] == 48 <==> n == 0
  {
    if n >= 10 { NoLeadingZeroPrinted(n / 10); }
  }

  lemma PrintedExamples()
    ensures PrintInt(0) == [48] && PrintInt(120) == [49, 50, 48] && PrintInt(-7) == [45, 55]
  {
    assert PrintNat(12) == [49, 50];
  }

  ghost predicate AllDigits(d: Bytes) {
    forall i :: 0 <= i < |d| ==> 48 <= d[i] <= 57
  }

  lemma {:induction false} DigitsOfDigits(d: Bytes)
    ensures Digits(d).Some? <==> AllDigits(d)
  {
    if d != [] {
      DigitsOfDigits(d[..|d| - 1]);
      assert AllDigits(d) <==> AllDigits(d[..|d| - 1]) && 48 <= d[|d| - 1] <= 57;
    }
  }

  /** The digits after an optional sign. */
  function Unsigned(s: Bytes): Bytes {
    if s != [] && (s[0] == 43 || s[0] == 45) then s[1..] else s
  }

  /** A sign or none, then digits and nothing else, whose value fits into an int64, is read; anything else is not. */
  lemma ParseIntReads(s: Bytes)
    ensures AllDigits(Unsigned(s)) <==> Digits(Unsigned(s)).Some?
    ensures Unsigned(s) == [] ==> ParseInt(s) == None
    ensures Unsigned(s) != [] ==>
      match Digits(Unsigned(s))
      case None => ParseInt(s) == None
      case Some(n) =>
        if s[0] == 45 then ParseInt(s) == if n <= TWO_63 then Some(-(n as int)) else None
        else ParseInt(s) == if n < TWO_63 then Some(n) else None
  {
    DigitsOfDigits(Unsigned(s));
  }
}
