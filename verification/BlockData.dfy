/**
 Encoding a block's transactions into a frame, and decoding a frame under the data ID that names it
 (gserver/internal/gsbd/encoder.go, decoder.go, libp2p.go).
 */
module BlockData {
  import opened Basics
  import opened DataIds
  import opened Streams
  import opened Varints
  import Json

  const UNCOMPRESSED_HEADER: byte := 0
  const SNAPPY_HEADER: byte := 1

  /** The libraries the codec is built on. */
  datatype Env = Env(
    blake2b: bytes -> Hash,
    snappyEncode: bytes -> bytes,
    snappyDecode: bytes -> Option<bytes>,
    snappyDecodedLen: bytes -> Option<nat>,
    unmarshal: bytes -> Option<seq<bytes>>,
    decodeTx: bytes -> Option<Tx>)

  /** snappy.MaxEncodedLen: negative when the input is too large to compress. */
  function MaxEncodedLen(n: nat): int {
    if n > 0xffff_ffff || 32 + n + n / 6 > 0xffff_ffff then -1 else 32 + n + n / 6
  }

  // ----- encoding

  class Buffer {
    var contents: bytes

    constructor ()
      ensures contents == []
    {
      contents := [];
    }

    method Write(p: bytes)
      modifies this
      ensures contents == old(contents) + p
    {
      contents := contents + p;
    }
  }

  function Items(txs: seq<Tx>): seq<bytes> {
    seq(|txs|, i requires 0 <= i < |txs| => txs[i].raw)
  }

  /** The decompressed form. */
  function RawData(txs: seq<Tx>): bytes {
    Json.Marshal(Items(txs))
  }

  /** Snappy panics on more. */
  predicate Encodable(txs: seq<Tx>) {
    txs != [] && MaxEncodedLen(|RawData(txs)|) >= 0
  }

  /** What can be compressed holds no more transactions than a count in an ID can say. */
  lemma FewEnough(txs: seq<Tx>)
    requires Encodable(txs)
    ensures |txs| < TWO_31
  {
    Json.MarshalLength(Items(txs));
  }

  function Frame(header: byte, data: bytes): bytes
    requires |data| < TWO_63
  {
    [header] + VarintBytes(|data|) + data
  }

  function EncodedBlockData(e: Env, txs: seq<Tx>): bytes
    requires Encodable(txs)
  {
    var j := RawData(txs);
    var c := e.snappyEncode(j);
    if |c| < |j| then Frame(SNAPPY_HEADER, c) else Frame(UNCOMPRESSED_HEADER, j)
  }

  /** Writes one frame and returns the decompressed size. Calling it without transactions is a programming error. */
  method EncodeBlockData(e: Env, w: Buffer, txs: seq<Tx>) returns (decompressedDataSize: nat)
    requires Encodable(txs)
    modifies w
    ensures w.contents == old(w.contents) + EncodedBlockData(e, txs)
    ensures decompressedDataSize == |RawData(txs)|
  {
    var items := new bytes[|txs|];
    for i := 0 to |txs|
      invariant forall k :: 0 <= k < i ==> items[k] == txs[k].raw
      invariant w.contents == old(w.contents)
    {
      items[i] := txs[i].raw;
    }
    assert items[..] == Items(txs);
    decompressedDataSize := CompressEncodedBlockData(e, w, Json.Marshal(items[..]));
  }

  method CompressEncodedBlockData(e: Env, w: Buffer, j: bytes) returns (size: nat)
    requires MaxEncodedLen(|j|) >= 0
    modifies w
    ensures w.contents == old(w.contents) +
            if |e.snappyEncode(j)| < |j| then Frame(SNAPPY_HEADER, e.snappyEncode(j)) else Frame(UNCOMPRESSED_HEADER, j)
    ensures size == |j|
  {
    var header, data := UNCOMPRESSED_HEADER, j;
    var c := e.snappyEncode(j);
    if |c| < |j| {
      header, data := SNAPPY_HEADER, c;
    }
    var szBuf := AppendVarint([], |data|);
    assert szBuf == VarintBytes(|data|);
    ghost var before := w.contents;
    w.Write([header]);
    w.Write(szBuf);
    w.Write(data);
    InThreeWrites(before, [header], szBuf, data);
    size := |j|;
  }

  lemma InThreeWrites(before: bytes, p: bytes, q: bytes, r: bytes)
    ensures before + p + q + r == before + (p + q + r)
  {
  }

  // ----- what decoding means

  datatype BlockDataDecoder = BlockDataDecoder(nTxs: int, dataLen: uint32, txsHash: Hash)

  datatype DecodeError =
    | NoFirstByte | UnknownHeader | NoSize | SizeNotPositive | WrongSize | SizeTooLarge | Truncated
    | BadCompression | WrongDecodedLength | BadJson | WrongCount | BadTransaction | WrongHash

  datatype Decoded = Decoded(txs: seq<Tx>, consumed: nat)

  function NewBlockDataDecoder(dataID: string): Result<BlockDataDecoder, ParseError> {
    match ParseDataID(dataID)
    case Ok(p) => Ok(BlockDataDecoder(p.nTxs, p.dataLen, p.txsHash))
    case Err(err) => Err(err)
  }

  /** The sized body after the header byte, within the allowed size, and where it ends. */
  function SizedBody(d: BlockDataDecoder, compressed: bool, bs: bytes): (r: Result<(bytes, nat), DecodeError>)
    ensures r.Ok? ==> 1 <= |r.value.0| < r.value.1 <= |bs|
  {
    match VarintAt(bs) case None => Err(NoSize) case Some((size, k)) =>
    if size <= 0 then Err(SizeNotPositive)
    else if compressed && size > MaxEncodedLen(d.dataLen) then Err(SizeTooLarge)
    else if !compressed && size != d.dataLen then Err(WrongSize)
    else if |bs| < k + size then Err(Truncated)
    else Ok((bs[k..k + size], k + size))
  }

  function Decompress(e: Env, d: BlockDataDecoder, c: bytes): Result<bytes, DecodeError> {
    match e.snappyDecodedLen(c) case None => Err(BadCompression) case Some(uSize) =>
    if uSize != d.dataLen then Err(WrongDecodedLength) else
    match e.snappyDecode(c) case None => Err(BadCompression) case Some(u) =>
    if |u| != d.dataLen then Err(WrongDecodedLength) else Ok(u)
  }

  function DecodeItems(e: Env, items: seq<bytes>): Option<seq<Tx>> {
    if forall k :: 0 <= k < |items| ==> e.decodeTx(items[k]).Some?
    then Some(seq(|items|, k requires 0 <= k < |items| && e.decodeTx(items[k]).Some? => e.decodeTx(items[k]).value))
    else None
  }

  function RawTxs(e: Env, d: BlockDataDecoder, encoded: bytes): Result<seq<Tx>, DecodeError> {
    match e.unmarshal(encoded) case None => Err(BadJson) case Some(items) =>
    if |items| != d.nTxs then Err(WrongCount) else
    match DecodeItems(e, items) case None => Err(BadTransaction) case Some(txs) =>
    if TxsHash(e.blake2b, txs) != d.txsHash then Err(WrongHash) else Ok(txs)
  }

  /** The frame at the front of `bs`: its decompressed data, and its length. */
  function FrameAt(e: Env, d: BlockDataDecoder, bs: bytes): (r: Result<(bytes, nat), DecodeError>)
    ensures r.Ok? ==> 2 < r.value.1 <= |bs|
  {
    if bs == [] then Err(NoFirstByte)
    else if bs[0] != UNCOMPRESSED_HEADER && bs[0] != SNAPPY_HEADER then Err(UnknownHeader) else
    match SizedBody(d, bs[0] == SNAPPY_HEADER, bs[1..]) case Err(err) => Err(err) case Ok((body, end)) =>
    if bs[0] == UNCOMPRESSED_HEADER then Ok((body, 1 + end)) else
    match Decompress(e, d, body) case Err(err) => Err(err) case Ok(u) => Ok((u, 1 + end))
  }

  function DecodeBytes(e: Env, d: BlockDataDecoder, bs: bytes): (r: Result<Decoded, DecodeError>)
    ensures r.Ok? ==> 2 < r.value.consumed <= |bs|
    ensures r.Ok? ==> |r.value.txs| == d.nTxs && TxsHash(e.blake2b, r.value.txs) == d.txsHash
  {
    match FrameAt(e, d, bs) case Err(err) => Err(err) case Ok((encoded, n)) =>
    match RawTxs(e, d, encoded) case Err(err) => Err(err) case Ok(txs) =>
    Ok(Decoded(txs, n))
  }

  /** The data decodes under the ID to exactly these transactions. */
  predicate DecodesTo(e: Env, dataID: string, data: bytes, txs: seq<Tx>) {
    var d := NewBlockDataDecoder(dataID);
    d.Ok? && DecodeBytes(e, d.value, data).Ok? && DecodeBytes(e, d.value, data).value.txs == txs
  }

  // ----- decoding a stream

  /** At most this much is read beyond the frame: one buffer, less a size byte and a body byte. */
  const MAX_OVERRUN := BUFFER_SIZE - 2

  /** The size in front, read through a buffer that may run ahead: what it holds is still to be read. */
  method ReadSize(s: Stream) returns (size: Option<int64>, ahead: bytes)
    modifies s
    ensures old(s.failed) ==> s.failed
    ensures s.steady ==> s.failed == old(s.failed)
    ensures s.tee + s.rest == old(s.tee + s.rest)
    ensures size.Some? ==>
              var at := VarintAt(old(s.rest));
              && at.Some? && at.value.0 == size.value
              && |ahead| < BUFFER_SIZE && ahead + s.rest == old(s.rest)[at.value.1..]
    ensures size.None? ==> s.failed || VarintAt(old(s.rest)).None?
  {
    var sizeReader := new BufReader(s);
    assert sizeReader.Pending() == s.rest;
    size := ReadVarint(sizeReader);
    ahead := sizeReader.buf;
  }

  /** Reads exactly `size` bytes, first those read ahead and then the stream's. */
  method ReadBody(s: Stream, ahead: bytes, size: nat) returns (body: Option<bytes>)
    requires size > 0
    modifies s
    ensures old(s.failed) ==> s.failed
    ensures s.steady ==> s.failed == old(s.failed)
    ensures s.tee + s.rest == old(s.tee + s.rest)
    ensures body.Some? ==>
              var all := ahead + old(s.rest);
              && size <= |all| && body.value == all[..size]
              && 0 <= |all| - size - |s.rest| <= (if ahead == [] then 0 else |ahead| - 1)
    ensures body.None? ==> s.failed || |ahead + old(s.rest)| < size
  {
    var both := new MultiReader(ahead, s);
    assert both.Pending() == ahead + s.rest;
    body := both.ReadFull(size);
  }

  /** decodeUncompressed and decodeSnappy up to the decompression: the size, then exactly that much. */
  method ReadSizedBody(d: BlockDataDecoder, compressed: bool, s: Stream) returns (r: Result<bytes, DecodeError>)
    modifies s
    ensures old(s.failed) ==> s.failed
    ensures s.steady ==> s.failed == old(s.failed)
    ensures s.tee + s.rest == old(s.tee + s.rest)
    ensures r.Ok? ==>
              var spec := SizedBody(d, compressed, old(s.rest));
              && spec.Ok? && spec.value.0 == r.value
              && spec.value.1 <= |old(s.rest)| - |s.rest| <= spec.value.1 + MAX_OVERRUN
    ensures r.Err? ==> s.failed || SizedBody(d, compressed, old(s.rest)).Err?
  {
    ghost var all := s.rest;
    var v, ahead := ReadSize(s);
    if v.None? {
      return Err(NoSize);
    }
    var size: int := v.value;
    if size <= 0 {
      return Err(SizeNotPositive);
    }
    if compressed && size > MaxEncodedLen(d.dataLen) {
      return Err(SizeTooLarge);
    }
    if !compressed && size != d.dataLen {
      return Err(WrongSize);
    }
    ghost var k := VarintAt(all).value.1;
    var body := ReadBody(s, ahead, size);
    if body.None? {
      return Err(Truncated);
    }
    assert all[k..][..size] == all[k..k + size];
    r := Ok(body.value);
  }

  lemma DecodeItemsIs(e: Env, items: seq<bytes>, txs: seq<Tx>)
    requires |items| == |txs|
    requires forall k :: 0 <= k < |items| ==> e.decodeTx(items[k]) == Some(txs[k])
    ensures DecodeItems(e, items) == Some(txs)
  {
    assert DecodeItems(e, items).Some?;
    assert DecodeItems(e, items).value == txs;
  }

  method DecodeRaw(e: Env, d: BlockDataDecoder, encoded: bytes) returns (r: Result<seq<Tx>, DecodeError>)
    ensures r == RawTxs(e, d, encoded)
  {
    var parsed := e.unmarshal(encoded);
    if parsed.None? {
      return Err(BadJson);
    }
    ghost var all := parsed.value;
    var n := |parsed.value|;
    var items := new bytes[n](i requires 0 <= i < n => parsed.value[i]);
    if items.Length != d.nTxs {
      return Err(WrongCount);
    }
    var txs := new Tx[n];
    for i := 0 to n
      invariant forall k :: 0 <= k < i ==> e.decodeTx(all[k]) == Some(txs[k])
      invariant forall k :: i <= k < n ==> items[k] == all[k]
    {
      var tx := e.decodeTx(items[i]);
      if tx.None? {
        return Err(BadTransaction);
      }
      txs[i] := tx.value;
      items[i] := []; // Not needed any more.
    }
    DecodeItemsIs(e, all, txs[..]);
    var gotTxsHash := ComputeTxsHash(e.blake2b, txs[..]);
    if gotTxsHash != d.txsHash {
      return Err(WrongHash);
    }
    r := Ok(txs[..]);
  }

  /**
   Decodes the frame at the front of a stream, however its reads are cut. On success the result is that of
   the bytes alone, and what was read is the frame and at most MAX_OVERRUN bytes more; failure means that
   the bytes do not decode or that the stream failed.
   */
  method Decode(e: Env, d: BlockDataDecoder, s: Stream) returns (r: Result<seq<Tx>, DecodeError>)
    modifies s
    ensures old(s.failed) ==> s.failed
    ensures s.steady ==> s.failed == old(s.failed)
    ensures s.tee + s.rest == old(s.tee + s.rest)
    ensures r.Ok? ==>
              var spec := DecodeBytes(e, d, old(s.rest));
              && spec.Ok? && spec.value.txs == r.value
              && spec.value.consumed <= |old(s.rest)| - |s.rest| <= spec.value.consumed + 14
    ensures r.Err? ==> s.failed || DecodeBytes(e, d, old(s.rest)).Err?
  {
    ghost var all := s.rest;
    var firstByte, err := s.Read(1);
    if err.Some? {
      assert err.value.Eof? || err.value.Failed?;
      assert err == Some(Eof) ==> |all| <= 1;
      return Err(NoFirstByte);
    }
    assert all[0] == firstByte[0] && s.rest == all[1..];
    var encoded;
    if firstByte[0] == UNCOMPRESSED_HEADER {
      var body := ReadSizedBody(d, false, s);
      if body.Err? {
        return Err(body.error);
      }
      encoded := body.value;
    } else if firstByte[0] == SNAPPY_HEADER {
      var body := ReadSizedBody(d, true, s);
      if body.Err? {
        return Err(body.error);
      }
      var u := Decompress(e, d, body.value);
      if u.Err? {
        return Err(u.error);
      }
      encoded := u.value;
    } else {
      return Err(UnknownHeader);
    }
    r := DecodeRaw(e, d, encoded);
  }

  // ----- main results

  /** A successful decode is decided by the leading frame alone. */
  lemma PrefixDeterminacy(e: Env, d: BlockDataDecoder, bs: bytes, bs': bytes)
    requires DecodeBytes(e, d, bs).Ok?
    requires DecodeBytes(e, d, bs).value.consumed <= |bs'|
    requires bs[..DecodeBytes(e, d, bs).value.consumed] == bs'[..DecodeBytes(e, d, bs).value.consumed]
    ensures DecodeBytes(e, d, bs') == DecodeBytes(e, d, bs)
  {
    var n := DecodeBytes(e, d, bs).value.consumed;
    assert bs[0] == bs[..n][0] == bs'[..n][0] == bs'[0];
    assert bs[1..][..n - 1] == bs[..n][1..] == bs'[1..][..n - 1];
    SizedBodyPrefix(d, bs[0] == SNAPPY_HEADER, bs[1..], bs'[1..]);
  }

  lemma SizedBodyPrefix(d: BlockDataDecoder, compressed: bool, bs: bytes, bs': bytes)
    requires SizedBody(d, compressed, bs).Ok?
    requires SizedBody(d, compressed, bs).value.1 <= |bs'|
    requires bs[..SizedBody(d, compressed, bs).value.1] == bs'[..SizedBody(d, compressed, bs).value.1]
    ensures SizedBody(d, compressed, bs') == SizedBody(d, compressed, bs)
  {
    var (body, end) := SizedBody(d, compressed, bs).value;
    var k := VarintAt(bs).value.1;
    assert bs[..k] == bs[..end][..k] == bs'[..end][..k] == bs'[..k];
    VarintPrefix(bs, bs');
    assert bs[k..end] == bs[..end][k..] == bs'[..end][k..] == bs'[k..end];
  }

  /**
   Whatever a decode of the stream copied aside decodes again, under the same ID, to the same transactions,
   so it can be served to others as it is.
   */
  lemma TeeDecodesAgain(e: Env, d: BlockDataDecoder, stream: bytes, tee: bytes, rest: bytes)
    requires stream == tee + rest
    requires DecodeBytes(e, d, stream).Ok? && DecodeBytes(e, d, stream).value.consumed <= |tee|
    ensures DecodeBytes(e, d, tee) == DecodeBytes(e, d, stream)
  {
    var n := DecodeBytes(e, d, stream).value.consumed;
    assert stream[..n] == tee[..n];
    PrefixDeterminacy(e, d, stream, tee);
  }

  /** What is relied on: on this list, decompression, JSON reading and the transaction codec invert their partners. */
  ghost predicate LibrariesInvert(e: Env, txs: seq<Tx>) {
    var j := RawData(txs);
    && e.snappyEncode(j) != []
    && e.snappyDecode(e.snappyEncode(j)) == Some(j)
    && e.snappyDecodedLen(e.snappyEncode(j)) == Some(|j|)
    && e.unmarshal(j) == Some(Items(txs))
    && forall k :: 0 <= k < |txs| ==> e.decodeTx(txs[k].raw) == Some(txs[k])
  }

  /**
   The round trip: a list encoded for a proposal decodes to itself under the ID the proposal carries,
   compressed or not, and whatever follows it on the stream.
   */
  lemma RoundTrip(e: Env, height: uint64, round: uint32, txs: seq<Tx>, post: bytes)
    requires LibrariesInvert(e, txs)
    requires Encodable(txs)
    ensures var id := DataID(e.blake2b, height, round, |RawData(txs)|, txs);
            var d := NewBlockDataDecoder(id);
            && d.Ok?
            && DecodeBytes(e, d.value, EncodedBlockData(e, txs) + post) ==
               Ok(Decoded(txs, |EncodedBlockData(e, txs)|))
  {
    var j := RawData(txs);
    var c := e.snappyEncode(j);
    var d := BlockDataDecoder(|txs|, |j|, TxsHash(e.blake2b, txs));
    FewEnough(txs);
    PrintParse(e.blake2b, height, round, |j|, txs);
    RawDataRoundTrip(e, d, txs);
    assert FrameAt(e, d, EncodedBlockData(e, txs) + post) == Ok((j, |EncodedBlockData(e, txs)|)) by {
      if |c| < |j| {
        FrameRoundTrip(e, d, SNAPPY_HEADER, c, post);
        assert Decompress(e, d, c) == Ok(j);
      } else {
        FrameRoundTrip(e, d, UNCOMPRESSED_HEADER, j, post);
      }
    }
  }

  lemma RawDataRoundTrip(e: Env, d: BlockDataDecoder, txs: seq<Tx>)
    requires LibrariesInvert(e, txs)
    requires d.nTxs == |txs| && d.txsHash == TxsHash(e.blake2b, txs)
    ensures RawTxs(e, d, RawData(txs)) == Ok(txs)
  {
    DecodeItemsIs(e, Items(txs), txs);
  }

  lemma FrameRoundTrip(e: Env, d: BlockDataDecoder, header: byte, data: bytes, post: bytes)
    requires header == UNCOMPRESSED_HEADER || header == SNAPPY_HEADER
    requires 0 < |data| < TWO_63
    requires if header == SNAPPY_HEADER then |data| <= MaxEncodedLen(d.dataLen) else |data| == d.dataLen
    ensures FrameAt(e, d, Frame(header, data) + post) ==
            var end := |Frame(header, data)|;
            if header == UNCOMPRESSED_HEADER then Ok((data, end)) else
            match Decompress(e, d, data) case Err(err) => Err(err) case Ok(u) => Ok((u, end))
  {
    var bs := Frame(header, data) + post;
    var v := VarintBytes(|data|);
    assert bs[1..] == v + (data + post);
    VarintRoundTrip(|data|, data + post);
    assert bs[1..][|v|..|v| + |data|] == data;
  }

  lemma ProposalDecodes(e: Env, height: uint64, round: uint32, txs: seq<Tx>)
    requires LibrariesInvert(e, txs)
    requires Encodable(txs)
    ensures DecodesTo(e, DataID(e.blake2b, height, round, |RawData(txs)|, txs), EncodedBlockData(e, txs), txs)
  {
    var encoded := EncodedBlockData(e, txs);
    RoundTrip(e, height, round, txs, []);
    assert encoded + [] == encoded;
  }

  /** No data decodes under an ID with the zero suffix. */
  lemma ZeroIDNeverDecodes(e: Env, dataID: string, data: bytes, txs: seq<Tx>)
    requires e.blake2b([]) == ZERO_HASH_BYTES
    requires IsZeroTxDataID(dataID)
    ensures !DecodesTo(e, dataID, data, txs)
  {
    if DecodesTo(e, dataID, data, txs) {
      ZeroHashTextDiffers(e.blake2b);
      assert false;
    }
  }

  /** Such libraries exist: no compression, and the reader of the array printed here. */
  lemma LibrariesExist(e: Env, txs: seq<Tx>)
    requires e.snappyEncode == ((x: bytes) => x)
    requires e.snappyDecode == ((x: bytes) => Some(x))
    requires e.snappyDecodedLen == ((x: bytes) => Some(|x|))
    requires e.unmarshal == Json.Unmarshal
    requires forall k :: 0 <= k < |txs| ==> e.decodeTx(txs[k].raw) == Some(txs[k])
    ensures LibrariesInvert(e, txs)
  {
    Json.MarshalRoundTrip(Items(txs));
    assert e.snappyEncode(RawData(txs)) == RawData(txs);
  }

  /** The proposer names exactly what it encoded (Libp2pHost.Provide). */
  method Provide(e: Env, height: uint64, round: uint32, pendingTxs: seq<Tx>)
    returns (dataID: string, encoded: bytes)
    requires Encodable(pendingTxs)
    ensures dataID == DataID(e.blake2b, height, round, |RawData(pendingTxs)|, pendingTxs)
    ensures encoded == EncodedBlockData(e, pendingTxs)
    ensures LibrariesInvert(e, pendingTxs) ==> DecodesTo(e, dataID, encoded, pendingTxs)
  {
    var buf := new Buffer();
    var sz := EncodeBlockData(e, buf, pendingTxs);
    encoded := buf.contents;
    var dataLen: uint32 := sz % TWO_32;
    assert dataLen == |RawData(pendingTxs)|;
    dataID := DataID(e.blake2b, height, round, dataLen, pendingTxs);
    if LibrariesInvert(e, pendingTxs) {
      ProposalDecodes(e, height, round, pendingTxs);
    }
  }

  /** One attempt of a retriever's worker: the transactions, and the bytes copied aside for serving. */
  method FetchOne(e: Env, dataID: string, s: Stream) returns (r: Result<(seq<Tx>, bytes), DecodeError>)
    requires NewBlockDataDecoder(dataID).Ok?
    requires s.tee == []
    modifies s
    ensures r.Ok? ==> DecodesTo(e, dataID, old(s.rest), r.value.0) && DecodesTo(e, dataID, r.value.1, r.value.0)
    ensures r.Ok? ==>
              var n := DecodeBytes(e, NewBlockDataDecoder(dataID).value, old(s.rest)).value.consumed;
              && n <= |r.value.1| <= n + 14
              && r.value.1 <= old(s.rest)
    ensures s.steady ==> s.failed == old(s.failed)
    ensures r.Err? ==> s.failed || DecodeBytes(e, NewBlockDataDecoder(dataID).value, old(s.rest)).Err?
  {
    var d := NewBlockDataDecoder(dataID).value;
    ghost var stream := s.rest;
    var txs := Decode(e, d, s);
    if txs.Err? {
      return Err(txs.error);
    }
    assert stream == s.tee + s.rest;
    TeeDecodesAgain(e, d, stream, s.tee, s.rest);
    r := Ok((txs.value, s.tee));
  }

  // ----- what the bytes are

  /** A compressed frame is one that is shorter, and starts with 1; others start with 0. */
  lemma EncodedForm(e: Env, txs: seq<Tx>)
    requires Encodable(txs)
    ensures var j, c, x := RawData(txs), e.snappyEncode(RawData(txs)), EncodedBlockData(e, txs);
            if |c| < |j| then x == [1] + VarintBytes(|c|) + c else x == [0] + VarintBytes(|j|) + j
  {
  }

  lemma SnappyLimits()
    ensures MaxEncodedLen(0) == 32 && MaxEncodedLen(6) == 39 && MaxEncodedLen(11) == 44
    ensures MaxEncodedLen(0x1_0000_0000) == -1 && MaxEncodedLen(0xffff_ffff) == -1
  {
  }

  /**
   The frame at the front and its data: a header byte, a size that is positive and as announced or at most what
   compression can make of it, and that many bytes, decompressed to the announced length.
   */
  lemma FrameMeans(e: Env, d: BlockDataDecoder, bs: bytes, u: bytes, n: nat)
    ensures FrameAt(e, d, bs) == Ok((u, n)) <==>
            (bs != [] && (bs[0] == 0 || bs[0] == 1) && |u| == d.dataLen &&
             match VarintAt(bs[1..])
             case None => false
             case Some((size, k)) =>
               && size > 0 && n == 1 + k + size && n <= |bs|
               && var body := bs[1 + k..n];
                  if bs[0] == 0 then u == body
                  else
                    && size <= MaxEncodedLen(d.dataLen)
                    && e.snappyDecodedLen(body) == Some(d.dataLen) && e.snappyDecode(body) == Some(u))
  {
    if bs != [] && VarintAt(bs[1..]).Some? {
      var (size, k) := VarintAt(bs[1..]).value;
      if size > 0 && 1 + k + size <= |bs| {
        assert bs[1..][k..k + size] == bs[1 + k..1 + k + size];
      }
    }
  }

  /** The data is read as items, as many as announced, each a transaction, and all of them with the hash announced. */
  lemma TxsMean(e: Env, d: BlockDataDecoder, encoded: bytes, txs: seq<Tx>)
    ensures RawTxs(e, d, encoded) == Ok(txs) <==>
            (e.unmarshal(encoded).Some? &&
             var items := e.unmarshal(encoded).value;
             && |items| == |txs| && |txs| == d.nTxs
             && (forall k :: 0 <= k < |items| ==> e.decodeTx(items[k]) == Some(txs[k]))
             && e.blake2b(HashBytes(txs)) == d.txsHash)
  {
    if e.unmarshal(encoded).Some? {
      var items := e.unmarshal(encoded).value;
      if |items| == |txs| && forall k :: 0 <= k < |items| ==> e.decodeTx(items[k]) == Some(txs[k]) {
        DecodeItemsIs(e, items, txs);
      }
    }
  }

  /** Data that decodes is, decompressed, as long as its ID says. */
  lemma DecodedLength(e: Env, dataID: string, data: bytes, txs: seq<Tx>)
    requires DecodesTo(e, dataID, data, txs)
    ensures var frame := FrameAt(e, NewBlockDataDecoder(dataID).value, data);
            frame.Ok? && |frame.value.0| == ParseDataID(dataID).value.dataLen
  {
    var frame := FrameAt(e, NewBlockDataDecoder(dataID).value, data);
    FrameMeans(e, NewBlockDataDecoder(dataID).value, data, frame.value.0, frame.value.1);
  }
}
