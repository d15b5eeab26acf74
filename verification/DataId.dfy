/**
 The data ID that names a block's transactions: HEIGHT:ROUND:NUM_TXS:DATA_LEN:HASH
 (gserver/internal/gsbd/dataid.go).
 */
module DataIds {
  import opened Basics
  import opened Numerals

  /** blake2b-256 of no input: 0e5751c026e543b2e8ab2eb06099daa1d1e5df47778f7787faab45cdf12fe3a8. */
  const ZERO_HASH_BYTES: Hash :=
    [0x0e, 0x57, 0x51, 0xc0, 0x26, 0xe5, 0x43, 0xb2] +
    [0xe8, 0xab, 0x2e, 0xb0, 0x60, 0x99, 0xda, 0xa1] +
    [0xd1, 0xe5, 0xdf, 0x47, 0x77, 0x8f, 0x77, 0x87] +
    [0xfa, 0xab, 0x45, 0xcd, 0xf1, 0x2f, 0xe3, 0xa8]
  const ZERO_HASH := HexEncode(ZERO_HASH_BYTES)
  const ZERO_HASH_SUFFIX := ":0:0:" + ZERO_HASH

  /** An incremental hash over everything written so far. */
  class Hasher {
    const blake2b: bytes -> Hash
    var written: bytes

    constructor (blake2b: bytes -> Hash)
      ensures this.blake2b == blake2b && written == []
    {
      this.blake2b := blake2b;
      written := [];
    }

    method Write(p: bytes)
      modifies this
      ensures written == old(written) + p
    {
      written := written + p;
    }

    method Sum() returns (h: Hash)
      ensures h == blake2b(written)
    {
      h := blake2b(written);
    }
  }

  /** The concatenated transaction hashes, in order. */
  function HashBytes(txs: seq<Tx>): (bs: bytes)
    ensures |bs| == 32 * |txs|
  {
    if txs == [] then [] else HashBytes(txs[..|txs| - 1]) + txs[|txs| - 1].hash
  }

  function TxsHash(blake2b: bytes -> Hash, txs: seq<Tx>): Hash {
    blake2b(HashBytes(txs))
  }

  method ComputeTxsHash(blake2b: bytes -> Hash, txs: seq<Tx>) returns (out: Hash)
    ensures out == TxsHash(blake2b, txs)
  {
    var hasher := new Hasher(blake2b);
    for i := 0 to |txs|
      invariant hasher.written == HashBytes(txs[..i])
    {
      hasher.Write(txs[i].hash);
      assert txs[..i + 1][..i] == txs[..i];
    }
    assert txs[..|txs|] == txs;
    out := hasher.Sum();
  }

  /** Calling it with a length and no transactions is a programming error that panics. */
  function DataID(blake2b: bytes -> Hash, height: uint64, round: uint32, dataLen: uint32, txs: seq<Tx>): string
    requires txs == [] ==> dataLen == 0
  {
    if txs == [] then FormatUint(height, 10) + ":" + FormatUint(round, 10) + ZERO_HASH_SUFFIX
    else
      Join([FormatUint(height, 10), FormatUint(round, 10), FormatUint(|txs|, 10), FormatUint(dataLen, 16),
            HexEncode(TxsHash(blake2b, txs))])
  }

  predicate IsZeroTxDataID(id: string) {
    HasSuffix(id, ZERO_HASH_SUFFIX)
  }

  datatype ParsedID = ParsedID(height: uint64, round: uint32, nTxs: int, dataLen: uint32, txsHash: Hash)

  datatype ParseError = BadFormat | BadHeight | BadRound | BadNTxs | BadDataLen | BadHashLength | BadHash

  lemma ZeroHashLength()
    ensures |ZERO_HASH| == 64 && ':' !in ZERO_HASH
  {
    HexRoundTrip(ZERO_HASH_BYTES);
  }

  /** The hash reported for a zero-transaction ID: the first half of the hash's text, not its decoded bytes. */
  function ZeroHashText(): Hash {
    ZeroHashLength();
    seq(32, i requires 0 <= i < 32 => ZERO_HASH[i] as int % 256)
  }

  function ParseDataID(id: string): Result<ParsedID, ParseError> {
    if IsZeroTxDataID(id) then ParseZeroTxDataID(id[..|id| - |ZERO_HASH_SUFFIX|])
    else ParseFields(SplitN(id, 6)) // Six, to notice a field too many.
  }

  function ParseFields(parts: seq<string>): Result<ParsedID, ParseError> {
    if |parts| != 5 then Err(BadFormat) else
    match ParseUint(parts[0], 10, TWO_64) case None => Err(BadHeight) case Some(height) =>
    match ParseUint(parts[1], 10, TWO_32) case None => Err(BadRound) case Some(round) =>
    match ParseInt32(parts[2]) case None => Err(BadNTxs) case Some(nTxs) =>
    match ParseUint(parts[3], 16, TWO_32) case None => Err(BadDataLen) case Some(dataLen) =>
    if |parts[4]| != 2 * HASH_SIZE then Err(BadHashLength) else
    match HexDecode(parts[4]) case None => Err(BadHash) case Some(h) =>
    if |h| == HASH_SIZE then Ok(ParsedID(height, round, nTxs, dataLen, h)) else Err(BadHash)
  }

  function ParseZeroTxDataID(heightRound: string): Result<ParsedID, ParseError> {
    var parts := SplitN(heightRound, 3);
    if |parts| != 2 then Err(BadFormat) else
    match ParseUint(parts[0], 10, TWO_64) case None => Err(BadHeight) case Some(height) =>
    match ParseUint(parts[1], 10, TWO_32) case None => Err(BadRound) case Some(round) =>
    Ok(ParsedID(height, round, 0, 0, ZeroHashText()))
  }

  /** What a reader of the ID learns. */
  function Described(blake2b: bytes -> Hash, height: uint64, round: uint32, dataLen: uint32, txs: seq<Tx>): ParsedID {
    ParsedID(height, round, |txs|, dataLen, if txs == [] then ZeroHashText() else TxsHash(blake2b, txs))
  }

  // ----- the shape of printed IDs

  lemma FieldsOfDataID(blake2b: bytes -> Hash, height: uint64, round: uint32, dataLen: uint32, txs: seq<Tx>)
    requires txs != []
    ensures Fields(DataID(blake2b, height, round, dataLen, txs)) ==
            [FormatUint(height, 10), FormatUint(round, 10), FormatUint(|txs|, 10), FormatUint(dataLen, 16),
             HexEncode(TxsHash(blake2b, txs))]
  {
    ParseDigitsFormat(height, 10);
    ParseDigitsFormat(round, 10);
    ParseDigitsFormat(|txs|, 10);
    ParseDigitsFormat(dataLen, 16);
    HexRoundTrip(TxsHash(blake2b, txs));
    FieldsJoin([FormatUint(height, 10), FormatUint(round, 10), FormatUint(|txs|, 10), FormatUint(dataLen, 16),
                HexEncode(TxsHash(blake2b, txs))]);
  }

  /** The three last fields of a zero-transaction ID. */
  predicate ZeroFields(fs: seq<string>) {
    |fs| == 3 && fs[0] == "0" && fs[1] == "0" && fs[2] == ZERO_HASH
  }

  lemma JoinZeroFields(zs: seq<string>)
    requires ZeroFields(zs)
    ensures ":" + Join(zs) == ZERO_HASH_SUFFIX
    ensures Fields(Join(zs)) == zs
  {
    assert Join(zs) == zs[0] + ":" + Join(zs[1..]);
    assert Join(zs[1..]) == zs[1] + ":" + Join(zs[1..][1..]);
    assert zs[1..][1..] == [zs[2]];
    ZeroHashLength();
    FieldsJoin(zs);
  }

  /** An ID with the zero suffix ends in the three fields "0", "0" and the zero hash. */
  lemma FieldsOfZeroSuffix(id: string, hr: string) returns (zs: seq<string>)
    requires id == hr + ZERO_HASH_SUFFIX
    ensures ZeroFields(zs) && Fields(id) == Fields(hr) + zs
  {
    zs := ["0", "0", ZERO_HASH];
    JoinZeroFields(zs);
    FieldsAppend(hr, Join(zs));
    assert id == hr + ":" + Join(zs);
  }

  /** On printed IDs the suffix test answers exactly whether the list is empty. */
  lemma IsZeroIffEmpty(blake2b: bytes -> Hash, height: uint64, round: uint32, dataLen: uint32, txs: seq<Tx>)
    requires txs == [] ==> dataLen == 0
    ensures IsZeroTxDataID(DataID(blake2b, height, round, dataLen, txs)) <==> txs == []
  {
    var id := DataID(blake2b, height, round, dataLen, txs);
    if txs == [] {
      assert id[|id| - |ZERO_HASH_SUFFIX|..] == ZERO_HASH_SUFFIX;
    } else if IsZeroTxDataID(id) {
      FieldsOfDataID(blake2b, height, round, dataLen, txs);
      var zs := FieldsOfZeroSuffix(id, id[..|id| - |ZERO_HASH_SUFFIX|]);
      assert Fields(id)[2] == zs[0];
      ParseDigitsFormat(|txs|, 10);
      ParseDigitsFormat(0, 10);
      FormatZero();
      assert false;
    }
  }

  lemma FormatZero()
    ensures FormatUint(0, 10) == "0" && ParseInt32("0") == Some(0)
  {
    assert "0"[..0] == [];
    assert ParseDigits("0", 10) == Some(0);
  }

  // ----- main results

  /**
   Printing then parsing recovers every field, except that the hash comes back only for a nonempty list,
   and that a count of two to the 31 or more is refused.
   */
  lemma PrintParse(blake2b: bytes -> Hash, height: uint64, round: uint32, dataLen: uint32, txs: seq<Tx>)
    requires txs == [] ==> dataLen == 0
    ensures ParseDataID(DataID(blake2b, height, round, dataLen, txs)) ==
            if |txs| < TWO_31 then Ok(Described(blake2b, height, round, dataLen, txs)) else Err(BadNTxs)
  {
    var id := DataID(blake2b, height, round, dataLen, txs);
    IsZeroIffEmpty(blake2b, height, round, dataLen, txs);
    ParseFormatUint(height, 10, TWO_64);
    ParseFormatUint(round, 10, TWO_32);
    if txs == [] {
      var hr := FormatUint(height, 10) + ":" + FormatUint(round, 10);
      assert id[..|id| - |ZERO_HASH_SUFFIX|] == hr;
      FieldsWhole(FormatUint(round, 10));
      FieldsWhole(FormatUint(height, 10));
      FieldsAppend(FormatUint(height, 10), FormatUint(round, 10));
    } else {
      FieldsOfDataID(blake2b, height, round, dataLen, txs);
      ParseFormatInt32(|txs|);
      ParseFormatUint(dataLen, 16, TWO_32);
      HexRoundTrip(TxsHash(blake2b, txs));
    }
  }

  /** Two printed IDs are equal only when they describe the same block data. */
  lemma DataIDInjective(
    blake2b: bytes -> Hash,
    h1: uint64, r1: uint32, len1: uint32, txs1: seq<Tx>,
    h2: uint64, r2: uint32, len2: uint32, txs2: seq<Tx>)
    requires txs1 == [] ==> len1 == 0
    requires txs2 == [] ==> len2 == 0
    requires |txs1| < TWO_31 && |txs2| < TWO_31
    ensures DataID(blake2b, h1, r1, len1, txs1) == DataID(blake2b, h2, r2, len2, txs2) <==>
            h1 == h2 && r1 == r2 && len1 == len2 && |txs1| == |txs2| &&
            TxsHash(blake2b, txs1) == TxsHash(blake2b, txs2)
  {
    PrintParse(blake2b, h1, r1, len1, txs1);
    PrintParse(blake2b, h2, r2, len2, txs2);
  }

  /** The parsed hash is the list's hash if and only if the list is nonempty. */
  lemma ParsedHashIffNonempty(blake2b: bytes -> Hash, height: uint64, round: uint32, dataLen: uint32, txs: seq<Tx>)
    requires txs == [] ==> dataLen == 0
    requires |txs| < TWO_31
    requires blake2b([]) == ZERO_HASH_BYTES
    ensures var parsed := ParseDataID(DataID(blake2b, height, round, dataLen, txs));
            parsed.Ok? && (parsed.value.txsHash == TxsHash(blake2b, txs) <==> txs != [])
  {
    PrintParse(blake2b, height, round, dataLen, txs);
    ZeroHashTextDiffers(blake2b);
  }

  lemma ZeroHashTextDiffers(blake2b: bytes -> Hash)
    requires blake2b([]) == ZERO_HASH_BYTES
    ensures ZeroHashText() != blake2b([])
  {
    ZeroHashLength();
    assert ZERO_HASH_BYTES[0] == 14;
    assert ZERO_HASH[0] == DigitChar(0) == '0';
    assert ZeroHashText()[0] == 48;
  }

  /** Conversely, five fields ending so are an ID with the zero suffix. */
  lemma ZeroSuffixOfFields(id: string)
    requires |Fields(id)| == 5 && ZeroFields(Fields(id)[2..])
    ensures IsZeroTxDataID(id)
  {
    var fs := Fields(id);
    JoinFields(id);
    JoinZeroFields(fs[2..]);
    var hr := fs[0] + ":" + fs[1];
    assert fs[1..][1..] == fs[2..];
    assert Join(fs) == fs[0] + ":" + Join(fs[1..]);
    assert Join(fs[1..]) == fs[1] + ":" + Join(fs[2..]);
    assert id == hr + ZERO_HASH_SUFFIX;
  }

  lemma FieldsOfParseableZero(id: string)
    requires IsZeroTxDataID(id) && ParseDataID(id).Ok?
    ensures |Fields(id)| == 5 && ZeroFields(Fields(id)[2..])
    ensures ParseDataID(id).value.nTxs == 0
  {
    var hr := id[..|id| - |ZERO_HASH_SUFFIX|];
    var zs := FieldsOfZeroSuffix(id, hr);
    assert Fields(id)[2..] == zs;
  }

  lemma ParseFieldsOk(parts: seq<string>)
    requires ParseFields(parts).Ok?
    ensures |parts| == 5 && ParseInt32(parts[2]) == Some(ParseFields(parts).value.nTxs)
  {
  }

  lemma FieldsOfParseableNonzero(id: string)
    requires !IsZeroTxDataID(id) && ParseDataID(id).Ok?
    ensures |Fields(id)| == 5 && !ZeroFields(Fields(id)[2..])
    ensures ParseInt32(Fields(id)[2]) == Some(ParseDataID(id).value.nTxs)
  {
    var parts := SplitN(id, 6);
    ParseFieldsOk(parts);
    assert parts == Fields(id);
    assert !ZeroFields(Fields(id)[2..]) by {
      if ZeroFields(Fields(id)[2..]) {
        ZeroSuffixOfFields(id);
      }
    }
  }

  /**
   The consensus strategy asks whether the count is zero and the driver asks for the suffix. The suffix
   implies a zero count; the two part ways exactly on the IDs that write a zero count but not the very
   fields "0", "0" and the zero hash.
   */
  lemma ZeroTestsAgree(id: string)
    requires ParseDataID(id).Ok?
    ensures |Fields(id)| == 5
    ensures IsZeroTxDataID(id) ==> ParseDataID(id).value.nTxs == 0
    ensures (ParseDataID(id).value.nTxs == 0 <==> IsZeroTxDataID(id)) <==>
            (ParseInt32(Fields(id)[2]) == Some(0) ==> ZeroFields(Fields(id)[2..]))
  {
    FormatZero();
    if IsZeroTxDataID(id) {
      FieldsOfParseableZero(id);
      assert Fields(id)[2] == Fields(id)[2..][0];
    } else {
      FieldsOfParseableNonzero(id);
    }
  }

  /** For every height and round one such ID writes the zero count as "00". */
  lemma ZeroTestsDisagree(fs: seq<string>, height: uint64, round: uint32, blake2b: bytes -> Hash)
    requires fs == [FormatUint(height, 10), FormatUint(round, 10), "00", "0", HexEncode(blake2b([]))]
    ensures var id := Join(fs);
            && ParseDataID(id) == Ok(ParsedID(height, round, 0, 0, blake2b([])))
            && !IsZeroTxDataID(id)
  {
    HexRoundTrip(blake2b([]));
    ParseDigitsFormat(height, 10);
    ParseDigitsFormat(round, 10);
    ParseFormatUint(height, 10, TWO_64);
    ParseFormatUint(round, 10, TWO_32);
    FieldsJoin(fs);
    var id := Join(fs);
    SmallNumerals();
    assert ParseFields(fs) == Ok(ParsedID(height, round, 0, 0, blake2b([])));
    NotZeroSuffix(id);
  }

  lemma NotZeroSuffix(id: string)
    requires |Fields(id)| == 5 && Fields(id)[2] == "00"
    ensures !IsZeroTxDataID(id)
  {
    if IsZeroTxDataID(id) {
      var zs := FieldsOfZeroSuffix(id, id[..|id| - |ZERO_HASH_SUFFIX|]);
      assert false;
    }
  }

  lemma SmallNumerals()
    ensures ParseUint("0", 16, TWO_32) == Some(0)
    ensures ParseInt32("00") == Some(0)
  {
    assert "0"[..0] == "";
    assert "00"[..1] == "0";
  }

  // ----- what the text is

  /** The hashes are taken in order. */
  lemma {:induction false} HashBytesAppend(txs: seq<Tx>, more: seq<Tx>)
    ensures HashBytes(txs + more) == HashBytes(txs) + HashBytes(more)
    ensures |txs| == 1 ==> HashBytes(txs) == txs[0].hash
    decreases |more|
  {
    if |txs| == 1 {
      assert HashBytes(txs[..0]) == [];
    }
    if more == [] {
      assert txs + more == txs;
    } else {
      var k := |more| - 1;
      HashBytesAppend(txs, more[..k]);
      assert (txs + more)[..|txs + more| - 1] == txs + more[..k];
    }
  }

  /** The text of what was read: the fields in decimal, but the length and the hash in hexadecimal. */
  function TextOf(p: ParsedID): string
    requires p.nTxs >= 0
  {
    FormatUint(p.height, 10) + ":" + FormatUint(p.round, 10) + ":" + FormatUint(p.nTxs, 10) + ":" +
    FormatUint(p.dataLen, 16) + ":" + HexEncode(p.txsHash)
  }

  lemma FiveFields(fs: seq<string>)
    requires |fs| == 5
    ensures Join(fs) == fs[0] + ":" + fs[1] + ":" + fs[2] + ":" + fs[3] + ":" + fs[4]
  {
    assert fs[1..][1..] == fs[2..] && fs[2..][1..] == fs[3..] && fs[3..][1..] == fs[4..] == [fs[4]];
    assert Join(fs[3..]) == fs[3] + ":" + fs[4];
    assert Join(fs[2..]) == fs[2] + ":" + Join(fs[3..]);
    assert Join(fs[1..]) == fs[1] + ":" + Join(fs[2..]);
    assert Join(fs) == fs[0] + ":" + Join(fs[1..]);
  }

  predicate CanonicalFields(fs: seq<string>) {
    |fs| == 5 && Canonical(fs[0]) && Canonical(fs[1]) && Canonical(fs[2]) && Canonical(fs[3]) && NoCapitals(fs[4])
  }

  /**
   The other way round, whatever is read, if it is written canonically and without a sign, is the text of what was
   read; but that an ID with the zero suffix is read with another hash than it shows.
   */
  lemma ParsePrint(id: string)
    requires ParseDataID(id).Ok? && CanonicalFields(Fields(id)) && Fields(id)[2][0] != '-' && Fields(id)[2][0] != '+'
    ensures var p := ParseDataID(id).value;
            && p.nTxs >= 0
            && id == TextOf(if IsZeroTxDataID(id) then p.(txsHash := ZERO_HASH_BYTES) else p)
  {
    var fs, p := Fields(id), ParseDataID(id).value;
    JoinFields(id);
    FiveFields(fs);
    if IsZeroTxDataID(id) {
      ParsePrintZero(id);
    } else {
      var parts := SplitN(id, 6);
      ParseFieldsOk(parts);
      assert parts == fs;
      FormatParse(fs[0], 10, p.height);
      FormatParse(fs[1], 10, p.round);
      FormatParse(fs[2], 10, p.nTxs);
      FormatParse(fs[3], 16, p.dataLen);
      HexInverse(fs[4], p.txsHash);
    }
  }

  lemma ParsePrintZero(id: string)
    requires ParseDataID(id).Ok? && CanonicalFields(Fields(id)) && IsZeroTxDataID(id)
    ensures var p := ParseDataID(id).value;
            p.nTxs == 0 && id == TextOf(p.(txsHash := ZERO_HASH_BYTES))
  {
    var fs, p := Fields(id), ParseDataID(id).value;
    var hr := id[..|id| - |ZERO_HASH_SUFFIX|];
    var zs := FieldsOfZeroSuffix(id, hr);
    FieldsOfParseableZero(id);
    assert Fields(hr) == fs[..2] && SplitN(hr, 3) == Fields(hr);
    FormatParse(fs[0], 10, p.height);
    FormatParse(fs[1], 10, p.round);
    FormatZero();
    assert FormatUint(0, 16) == "0";
    assert fs[2..] == zs;
    JoinFields(id);
    FiveFields(fs);
  }
}
