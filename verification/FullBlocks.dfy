/**
 Serving a committed header with its block data (gserver/internal/gp2papi/datahost.go), and what a catching up
 node makes of the reply (gserver/internal/gp2papi/catchupclient.go, the checks of doFetch).
 */
module FullBlocks {
  import opened Basics
  import opened BlockData
  import opened DataIds
  import opened Numerals
  import opened Store
  import opened Streams

  const FULL_BLOCK_V1_HEIGHT_PREFIX := "/gcosmos/full_blocks/v1/height/"

  /** The client reads no more of a reply than this. */
  const MAX_REPLY := 16 * 1024

  datatype JSONResult = JSONResult(result: bytes, err: string)
  datatype FullBlockResult = FullBlockResult(header: bytes, blockData: bytes)

  /** The JSON texts of the exchange; reading a result looks only at the first value of what has arrived. */
  datatype Wire = Wire(
    marshalHeader: CommittedHeader -> Option<bytes>,
    unmarshalHeader: bytes -> Option<CommittedHeader>,
    marshalFull: FullBlockResult -> Option<bytes>,
    unmarshalFull: bytes -> Option<FullBlockResult>,
    encodeResult: JSONResult -> bytes,
    decodeResult: bytes -> Option<JSONResult>)

  // ----- the host

  datatype HeaderError = HeightUnknown | OtherError

  /** What the host writes; Corruption is its panic over a header and a store that disagree. */
  datatype Served = Reply(res: JSONResult) | Corruption

  function Failure(err: string): Served {
    Reply(JSONResult([], err))
  }

  function ProtocolFor(height: uint64): string {
    FULL_BLOCK_V1_HEIGHT_PREFIX + FormatUint(height, 10)
  }

  /** strings.CutPrefix with the protocol's prefix. */
  function CutHeight(protocol: string): Option<string> {
    if |FULL_BLOCK_V1_HEIGHT_PREFIX| <= |protocol| &&
       protocol[..|FULL_BLOCK_V1_HEIGHT_PREFIX|] == FULL_BLOCK_V1_HEIGHT_PREFIX
    then Some(protocol[|FULL_BLOCK_V1_HEIGHT_PREFIX|..])
    else None
  }

  /** The protocols that the handler is registered for. */
  predicate Matches(protocol: string) {
    match CutHeight(protocol)
    case None => false
    case Some(heightS) => heightS != [] && forall i :: 0 <= i < |heightS| ==> '0' <= heightS[i] <= '9'
  }

  function HandleFullBlockStream(
    w: Wire, protocol: string, chs: uint64 -> Result<CommittedHeader, HeaderError>, bds: Contents): Served
  {
    match CutHeight(protocol) case None => Failure("invalid protocol") case Some(heightS) =>
    match ParseUint(heightS, 10, TWO_64) case None => Failure("invalid height") case Some(height) =>
    match chs(height)
    case Err(HeightUnknown) => Failure("height unknown")
    case Err(OtherError) => Failure("failed to load header at height")
    case Ok(ch) =>
    match w.marshalHeader(ch) case None => Failure("internal serialization error") case Some(b) =>
    if IsZeroTxDataID(ch.header.dataID) then ServeFull(w, b, []) else
    match Loaded(bds, height) case None => Failure("failed to load block data at height") case Some((id, data)) =>
    if id != ch.header.dataID then Corruption else ServeFull(w, b, data)
  }

  function ServeFull(w: Wire, header: bytes, data: bytes): Served {
    match w.marshalFull(FullBlockResult(header, data))
    case None => Failure("internal serialization error")
    case Some(jfbr) => Reply(JSONResult(jfbr, ""))
  }

  /** A requested height finds its way to the header store. */
  lemma ProtocolRoundTrip(height: uint64)
    ensures Matches(ProtocolFor(height))
    ensures CutHeight(ProtocolFor(height)).Some?
    ensures ParseUint(CutHeight(ProtocolFor(height)).value, 10, TWO_64) == Some(height)
  {
    var p := ProtocolFor(height);
    assert p[..|FULL_BLOCK_V1_HEIGHT_PREFIX|] == FULL_BLOCK_V1_HEIGHT_PREFIX;
    assert p[|FULL_BLOCK_V1_HEIGHT_PREFIX|..] == FormatUint(height, 10);
    ParseFormatUint(height, 10, TWO_64);
    DecimalDigits(height);
  }

  lemma {:induction false} DecimalDigits(n: nat)
    ensures FormatUint(n, 10) != []
    ensures forall i :: 0 <= i < |FormatUint(n, 10)| ==> '0' <= FormatUint(n, 10)[i] <= '9'
  {
    if n >= 10 {
      DecimalDigits(n / 10);
    }
  }

  lemma {:induction false} DigitsHaveValue(s: string)
    requires s != [] && forall i :: 0 <= i < |s| ==> '0' <= s[i] <= '9'
    ensures ParseDigits(s, 10).Some?
  {
    if |s| > 1 {
      DigitsHaveValue(s[..|s| - 1]);
    }
  }

  /** Of the requests that the handler is registered for exactly those above 64 bits are refused as invalid. */
  lemma InvalidHeights(w: Wire, protocol: string, chs: uint64 -> Result<CommittedHeader, HeaderError>, bds: Contents)
    requires Matches(protocol)
    ensures ParseDigits(CutHeight(protocol).value, 10).Some?
    ensures HandleFullBlockStream(w, protocol, chs, bds) == Failure("invalid height") <==>
            ParseDigits(CutHeight(protocol).value, 10).value >= TWO_64
    ensures HandleFullBlockStream(w, protocol, chs, bds) != Failure("invalid protocol")
  {
    DigitsHaveValue(CutHeight(protocol).value);
    assert "height unknown"[0] != "invalid height"[0] == 'i' && "failed to load header at height"[0] == 'f';
    assert "internal serialization error"[2] != "invalid height"[2];
  }

  /** What each answer means, by the parts of the request and the stores. */
  lemma HostVerdict(
    w: Wire, height: uint64, chs: uint64 -> Result<CommittedHeader, HeaderError>, bds: Contents, res: Served)
    requires res == HandleFullBlockStream(w, ProtocolFor(height), chs, bds)
    ensures chs(height) == Err(HeightUnknown) ==> res == Reply(JSONResult([], "height unknown"))
    ensures chs(height) == Err(OtherError) ==> res == Reply(JSONResult([], "failed to load header at height"))
    ensures chs(height).Ok? && w.marshalHeader(chs(height).value).None? ==>
              res == Reply(JSONResult([], "internal serialization error"))
    ensures chs(height).Ok? && w.marshalHeader(chs(height).value).Some? ==>
              var id, header := chs(height).value.header.dataID, w.marshalHeader(chs(height).value).value;
              var found := height in bds.idByHeight && (height, bds.idByHeight[height]) in bds.dataByHeightID;
              if IsZeroTxDataID(id) then Carries(w, res, header, [])
              else if !found then res == Reply(JSONResult([], "failed to load block data at height"))
              else if bds.idByHeight[height] != id then res == Corruption
              else Carries(w, res, header, bds.dataByHeightID[(height, id)])
  {
    ProtocolRoundTrip(height);
  }

  /** The header and the data, or an error if they cannot be written. */
  predicate Carries(w: Wire, res: Served, header: bytes, data: bytes) {
    var full := w.marshalFull(FullBlockResult(header, data));
    res == Reply(if full.Some? then JSONResult(full.value, "") else JSONResult([], "internal serialization error"))
  }

  /** The protocol asked for is this text with the height, and any that does not start so is refused. */
  lemma ProtocolText(w: Wire, protocol: string, chs: uint64 -> Result<CommittedHeader, HeaderError>, bds: Contents)
    requires !("/gcosmos/full_blocks/v1/height/" <= protocol)
    ensures forall h: uint64 :: ProtocolFor(h) == "/gcosmos/full_blocks/v1/height/" + FormatUint(h, 10)
    ensures HandleFullBlockStream(w, protocol, chs, bds) == Reply(JSONResult([], "invalid protocol"))
    ensures !Matches(protocol)
  {
    assert CutHeight(protocol) == None;
  }

  // ----- the client

  datatype Parsed =
    | Malformed // The peer will be excluded.
    | PeerError(heightUnknown: bool) // An error the peer is entitled to report.
    | Full(ch: CommittedHeader, blockData: bytes, txs: seq<Tx>)

  /** What a reply, as far as it arrived, amounts to. */
  function ParseReply(e: Env, w: Wire, stream: bytes): Parsed {
    match w.decodeResult(if |stream| <= MAX_REPLY then stream else stream[..MAX_REPLY])
    case None => Malformed
    case Some(res) =>
    if res.err != "" then PeerError(res.err == "height unknown") else
    match w.unmarshalFull(res.result) case None => Malformed case Some(fbr) =>
    match w.unmarshalHeader(fbr.header) case None => Malformed case Some(ch) => Checked(e, ch, fbr.blockData)
  }

  /** The header and its data, if they belong together. */
  function Checked(e: Env, ch: CommittedHeader, blockData: bytes): Parsed {
    if IsZeroTxDataID(ch.header.dataID) != (blockData == []) then Malformed
    else if blockData == [] then Full(ch, [], []) else
    match NewBlockDataDecoder(ch.header.dataID) case Err(_) => Malformed case Ok(d) =>
    match DecodeBytes(e, d, blockData) case Err(_) => Malformed case Ok(decoded) =>
    Full(ch, blockData, decoded.txs)
  }

  /** What is made of a reply can be believed: the data decodes under the header's ID to the transactions. */
  lemma ParsedIsSound(e: Env, w: Wire, stream: bytes)
    ensures match ParseReply(e, w, stream)
            case Full(ch, data, txs) =>
              if IsZeroTxDataID(ch.header.dataID) then data == [] && txs == []
              else data != [] && DecodesTo(e, ch.header.dataID, data, txs)
            case _ => true
  {
  }

  /** Of a reply nothing beyond 16 KiB is looked at, and it reads as an error exactly when it carries one. */
  lemma ErrorReplies(e: Env, w: Wire, stream: bytes)
    ensures var first := w.decodeResult(if |stream| <= 16384 then stream else stream[..16384]);
            && (ParseReply(e, w, stream).PeerError? <==> first.Some? && first.value.err != "")
            && (ParseReply(e, w, stream) == PeerError(true) <==> first.Some? && first.value.err == "height unknown")
  {
  }

  /**
   It reads as a block exactly when its parts can be read, the header has a zero ID and there is no data, or it
   has none and the data decodes under it; and then as just these parts. All else is malformed.
   */
  lemma BlockReplies(e: Env, w: Wire, stream: bytes, ch: CommittedHeader, data: bytes, txs: seq<Tx>)
    ensures var first := w.decodeResult(if |stream| <= 16384 then stream else stream[..16384]);
            ParseReply(e, w, stream) == Full(ch, data, txs) <==>
            (first.Some? && first.value.err == "" &&
             var full := w.unmarshalFull(first.value.result);
             full.Some? && full.value.blockData == data && w.unmarshalHeader(full.value.header) == Some(ch) &&
             if IsZeroTxDataID(ch.header.dataID) then data == [] && txs == []
             else data != [] && DecodesTo(e, ch.header.dataID, data, txs))
  {
    var first := w.decodeResult(if |stream| <= 16384 then stream else stream[..16384]);
    if first.Some? && first.value.err == "" && w.unmarshalFull(first.value.result).Some? {
      var full := w.unmarshalFull(first.value.result).value;
      if w.unmarshalHeader(full.header).Some? {
        CheckedBlock(e, w.unmarshalHeader(full.header).value, full.blockData, ch, data, txs, ParseReply(e, w, stream));
      }
    }
  }

  lemma CheckedBlock(
    e: Env, header: CommittedHeader, blockData: bytes, ch: CommittedHeader, data: bytes, txs: seq<Tx>, parsed: Parsed)
    requires parsed == Checked(e, header, blockData)
    ensures parsed == Full(ch, data, txs) <==>
            (blockData == data && header == ch &&
             if IsZeroTxDataID(ch.header.dataID) then data == [] && txs == []
             else data != [] && DecodesTo(e, ch.header.dataID, data, txs))
  {
  }

  // ----- both ends together

  /** What is relied on for one result: it is read back exactly when all but the final newline has arrived. */
  ghost predicate ResultReadBack(w: Wire, res: JSONResult) {
    var enc := w.encodeResult(res);
    forall k: nat :: k <= |enc| ==> w.decodeResult(enc[..k]) == if k + 1 >= |enc| then Some(res) else None
  }

  /** What is relied on for one block: its texts are read back. */
  ghost predicate BlockReadBack(w: Wire, ch: CommittedHeader, data: bytes) {
    && w.marshalHeader(ch).Some?
    && w.unmarshalHeader(w.marshalHeader(ch).value) == Some(ch)
    && var fbr := FullBlockResult(w.marshalHeader(ch).value, data);
       && w.marshalFull(fbr).Some?
       && w.unmarshalFull(w.marshalFull(fbr).value) == Some(fbr)
       && ResultReadBack(w, JSONResult(w.marshalFull(fbr).value, ""))
  }

  /** The length of the text for a block, with its newline. */
  function ReplyLength(w: Wire, ch: CommittedHeader, data: bytes): nat
    requires w.marshalHeader(ch).Some?
    requires w.marshalFull(FullBlockResult(w.marshalHeader(ch).value, data)).Some?
  {
    |w.encodeResult(JSONResult(w.marshalFull(FullBlockResult(w.marshalHeader(ch).value, data)).value, ""))|
  }

  /** A served block is understood as that block if and only if it fits into what the client reads. */
  lemma ServedIsParsed(e: Env, w: Wire, ch: CommittedHeader, data: bytes, txs: seq<Tx>)
    requires BlockReadBack(w, ch, data)
    requires if IsZeroTxDataID(ch.header.dataID) then data == [] && txs == []
             else DecodesTo(e, ch.header.dataID, data, txs)
    ensures var served := ServeFull(w, w.marshalHeader(ch).value, data);
            && served.Reply?
            && ParseReply(e, w, w.encodeResult(served.res)) ==
               if ReplyLength(w, ch, data) <= MAX_REPLY + 1 then Full(ch, data, txs) else Malformed
  {
    var fbr := FullBlockResult(w.marshalHeader(ch).value, data);
    var res := JSONResult(w.marshalFull(fbr).value, "");
    var enc := w.encodeResult(res);
    assert enc[..|enc|] == enc;
    assert w.decodeResult(if |enc| <= MAX_REPLY then enc else enc[..MAX_REPLY]) ==
           if |enc| <= MAX_REPLY + 1 then Some(res) else None;
  }
}
