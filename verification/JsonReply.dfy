/**
 The JSON texts of a full block reply, as encoding/json prints them (gserver/internal/gp2papi/datahost.go):
 one object around a header that is JSON already and the block data in base64. What is relied on about the
 exchange in FullBlocks holds of these texts, for every length of the reply.
 */
module JsonReply {
  import opened Basics
  import BlockData
  import opened FullBlocks
  import opened Json

  const COLON: byte := 58
  const BACKSLASH: byte := 92
  const OPEN_BRACE: byte := 123
  const CLOSE_BRACE: byte := 125
  const NEWLINE: byte := 10

  function Text(s: string): bytes {
    seq(|s|, i requires 0 <= i < |s| => s[i] as int % 256)
  }

  const NULL := Text("null")

  // ----- where a value ends

  /** How deep in brackets, and whether in a string and just after a backslash. */
  datatype Scan = Scan(depth: nat, inString: bool, escaped: bool)

  const START := Scan(0, false, false)

  function Step(s: Scan, b: byte): Scan {
    if s.escaped then s.(escaped := false)
    else if s.inString then
      if b == QUOTE then s.(inString := false) else if b == BACKSLASH then s.(escaped := true) else s
    else if b == QUOTE then s.(inString := true)
    else if b == OPEN_BRACE || b == OPEN then s.(depth := s.depth + 1)
    else if (b == CLOSE_BRACE || b == CLOSE) && s.depth > 0 then s.(depth := s.depth - 1)
    else s
  }

  predicate Ended(s: Scan) {
    s.depth == 0 && !s.inString
  }

  /** The length of the text up to the bracket that closes the value; none while that has not arrived. */
  function ValueEnd(s: Scan, bs: bytes): (r: Option<nat>)
    ensures r.Some? ==> 0 < r.value <= |bs|
    decreases bs
  {
    if bs == [] then None
    else if Ended(Step(s, bs[0])) then Some(1)
    else
      match ValueEnd(Step(s, bs[0]), bs[1..])
      case Some(n) => Some(n + 1)
      case None => None
  }

  /** A complete JSON object, without anything after it. */
  predicate IsObject(text: bytes) {
    text != [] && text[0] == OPEN_BRACE && ValueEnd(START, text) == Some(|text|)
  }

  /** The state after a text inside a value. */
  function Through(s: Scan, text: bytes): Option<Scan>
    decreases text
  {
    if text == [] then Some(s)
    else if Ended(Step(s, text[0])) then None
    else Through(Step(s, text[0]), text[1..])
  }

  lemma {:induction false} ThroughThen(s: Scan, text: bytes, rest: bytes)
    requires Through(s, text).Some?
    ensures ValueEnd(s, text + rest) ==
            match ValueEnd(Through(s, text).value, rest) case Some(n) => Some(|text| + n) case None => None
    decreases text
  {
    if text == [] {
      assert text + rest == rest;
    } else {
      ThroughThen(Step(s, text[0]), text[1..], rest);
      assert (text + rest)[1..] == text[1..] + rest;
    }
  }

  lemma {:induction false} ThroughAppend(s: Scan, a: bytes, b: bytes)
    requires Through(s, a).Some?
    ensures Through(s, a + b) == Through(Through(s, a).value, b)
    decreases a
  {
    if a == [] {
      assert a + b == b;
    } else {
      ThroughAppend(Step(s, a[0]), a[1..], b);
      assert (a + b)[1..] == a[1..] + b;
    }
  }

  /** Bytes that mean nothing to the scanner in this state. */
  lemma {:induction false} Inert(s: Scan, text: bytes)
    requires !Ended(s) && forall i :: 0 <= i < |text| ==> Step(s, text[i]) == s
    ensures Through(s, text) == Some(s)
  {
    if text != [] {
      Inert(s, text[1..]);
    }
  }

  predicate Plain(text: bytes) {
    forall i :: 0 <= i < |text| ==> text[i] != QUOTE && text[i] != BACKSLASH
  }

  function InQuotes(text: bytes): bytes {
    [QUOTE] + text + [QUOTE]
  }

  lemma QuotedThrough(d: nat, text: bytes)
    requires d > 0 && Plain(text)
    ensures Through(Scan(d, false, false), InQuotes(text)) == Some(Scan(d, false, false))
  {
    var s, t := Scan(d, false, false), Scan(d, true, false);
    assert Step(s, QUOTE) == t && Step(t, QUOTE) == s;
    OneByte(s, QUOTE);
    OneByte(t, QUOTE);
    Inert(t, text);
    ThroughAppend(s, [QUOTE], text);
    ThroughAppend(s, [QUOTE] + text, [QUOTE]);
  }

  lemma OneByte(s: Scan, b: byte)
    requires !Ended(Step(s, b))
    ensures Through(s, [b]) == Some(Step(s, b))
  {
    assert [b][1..] == [];
  }

  /** A complete object inside another value is passed over as a whole. */
  lemma ObjectThrough(d: nat, text: bytes)
    requires d > 0 && IsObject(text)
    ensures Through(Scan(d, false, false), text) == Some(Scan(d, false, false))
  {
    Deeper(Scan(1, false, false), text[1..], d);
  }

  lemma {:induction false} Deeper(s: Scan, text: bytes, d: nat)
    requires s.depth > 0 && d > 0 && ValueEnd(s, text) == Some(|text|)
    ensures Through(s.(depth := s.depth + d), text) == Some(Scan(d, false, false))
    decreases text
  {
    var t := Step(s, text[0]);
    assert Step(s.(depth := s.depth + d), text[0]) == t.(depth := t.depth + d);
    if Ended(t) {
      assert text[1..] == [];
      assert !t.escaped;
    } else {
      assert t.depth > 0;
      Deeper(t, text[1..], d);
    }
  }

  /** Cutting a text off short of the end of its value leaves no value; anything more changes nothing. */
  lemma {:induction false} CutOff(s: Scan, bs: bytes, k: nat)
    requires k <= |bs| && ValueEnd(s, bs).Some?
    ensures ValueEnd(s, bs[..k]) == if k >= ValueEnd(s, bs).value then ValueEnd(s, bs) else None
    decreases bs
  {
    if k > 0 && !Ended(Step(s, bs[0])) {
      CutOff(Step(s, bs[0]), bs[1..], k - 1);
      assert bs[..k][1..] == bs[1..][..k - 1];
    }
  }

  // ----- the texts

  function Key(name: string): bytes {
    InQuotes(Text(name)) + [COLON]
  }

  lemma KeyThrough(name: string)
    requires Plain(Text(name))
    ensures Through(Scan(1, false, false), Key(name)) == Some(Scan(1, false, false))
  {
    var s := Scan(1, false, false);
    QuotedThrough(1, Text(name));
    OneByte(s, COLON);
    ThroughAppend(s, InQuotes(Text(name)), [COLON]);
  }

  function InBraces(content: bytes): bytes {
    [OPEN_BRACE] + content + [CLOSE_BRACE]
  }

  lemma BracesMakeObject(content: bytes)
    requires Through(Scan(1, false, false), content) == Some(Scan(1, false, false))
    ensures IsObject(InBraces(content))
  {
    var s := Scan(1, false, false);
    OneByte(START, OPEN_BRACE);
    ThroughAppend(START, [OPEN_BRACE], content);
    ThroughThen(START, [OPEN_BRACE] + content, [CLOSE_BRACE]);
    assert ValueEnd(s, [CLOSE_BRACE]) == Some(1);
  }

  /** No data is written as null. */
  function DataText(data: bytes): bytes {
    if data == [] then NULL else InQuotes(Base64(data))
  }

  function FullContent(header: bytes, data: bytes): bytes {
    Key("Header") + header + ([COMMA] + Key("BlockData") + DataText(data))
  }

  /**
   Printing fails on a header that is no JSON. It is taken in as it stands: encoding/json has written it, so it
   is compact and escaped already, as it would be made here.
   */
  function MarshalFull(fbr: FullBlockResult): Option<bytes> {
    if IsObject(fbr.header) then Some(InBraces(FullContent(fbr.header, fbr.blockData))) else None
  }

  function CutPrefix(bs: bytes, prefix: bytes): Option<bytes> {
    if |prefix| <= |bs| && bs[..|prefix|] == prefix then Some(bs[|prefix|..]) else None
  }

  function UnmarshalFull(bs: bytes): Option<FullBlockResult> {
    match CutPrefix(bs, [OPEN_BRACE]) case None => None case Some(content) =>
    match CutPrefix(content, Key("Header")) case None => None case Some(rest) =>
    match ValueEnd(START, rest) case None => None case Some(n) =>
    match CutPrefix(rest[n..], [COMMA] + Key("BlockData")) case None => None case Some(last) =>
    match ReadData(last) case None => None case Some(data) => Some(FullBlockResult(rest[..n], data))
  }

  /** The data and the brace after it. */
  function ReadData(bs: bytes): Option<bytes> {
    if bs == NULL + [CLOSE_BRACE] then Some([]) else
    match CutPrefix(bs, [QUOTE]) case None => None case Some(rest) =>
    match TakeQuoted(rest) case None => None case Some((text, end)) =>
    if end == [CLOSE_BRACE] then Base64Decode(text) else None
  }

  /** One of the two members, and a newline. */
  function EncodeResult(res: JSONResult): bytes {
    InBraces(if res.err != "" then Key("Err") + InQuotes(Text(res.err)) else Key("Result") + res.result) + [NEWLINE]
  }

  function DecodeResult(bs: bytes): Option<JSONResult> {
    if bs == [] || bs[0] != OPEN_BRACE then None else
    match ValueEnd(START, bs) case None => None case Some(n) => if n < 2 then None else ReadMember(bs[1..n - 1])
  }

  function ReadMember(content: bytes): Option<JSONResult> {
    match CutPrefix(content, Key("Result")) case Some(result) => Some(JSONResult(result, "")) case None =>
    match CutPrefix(content, Key("Err") + [QUOTE]) case None => None case Some(rest) =>
    match TakeQuoted(rest) case None => None case Some((text, end)) =>
    if end == [] then Some(JSONResult([], seq(|text|, i requires 0 <= i < |text| => text[i] as char))) else None
  }

  lemma CutPrefixAppend(prefix: bytes, rest: bytes)
    ensures CutPrefix(prefix + rest, prefix) == Some(rest)
  {
    assert (prefix + rest)[..|prefix|] == prefix;
    assert (prefix + rest)[|prefix|..] == rest;
  }

  lemma OtherPrefix(bs: bytes, prefix: bytes)
    requires |prefix| > 1 && |bs| > 1 && bs[1] != prefix[1]
    ensures CutPrefix(bs, prefix) == None
  {
    assert |prefix| <= |bs| ==> bs[..|prefix|][1] == bs[1];
  }

  lemma {:induction false} Base64Plain(bs: bytes)
    ensures Plain(Base64(bs))
    ensures bs != [] ==> Base64(bs) != []
  {
    if |bs| > 2 {
      Base64Plain(bs[3..]);
    }
  }

  lemma DataThrough(data: bytes)
    ensures Through(Scan(1, false, false), DataText(data)) == Some(Scan(1, false, false))
  {
    if data == [] {
      Inert(Scan(1, false, false), NULL);
    } else {
      Base64Plain(data);
      QuotedThrough(1, Base64(data));
    }
  }

  lemma FullIsObject(header: bytes, data: bytes)
    requires IsObject(header)
    ensures IsObject(InBraces(FullContent(header, data)))
  {
    var s := Scan(1, false, false);
    KeyThrough("Header");
    KeyThrough("BlockData");
    ObjectThrough(1, header);
    DataThrough(data);
    OneByte(s, COMMA);
    ThroughAppend(s, Key("Header"), header);
    ThroughAppend(s, [COMMA], Key("BlockData"));
    ThroughAppend(s, [COMMA] + Key("BlockData"), DataText(data));
    ThroughAppend(s, Key("Header") + header, [COMMA] + Key("BlockData") + DataText(data));
    BracesMakeObject(FullContent(header, data));
  }

  lemma ReadDataRoundTrip(data: bytes)
    ensures ReadData(DataText(data) + [CLOSE_BRACE]) == Some(data)
  {
    if data != [] {
      var text, bs := Base64(data), DataText(data) + [CLOSE_BRACE];
      assert bs == [QUOTE] + Quoted(text, [CLOSE_BRACE]);
      assert bs[0] != NULL[0];
      CutPrefixAppend([QUOTE], Quoted(text, [CLOSE_BRACE]));
      Base64NoQuote(data);
      TakeQuotedRoundTrip(text, [CLOSE_BRACE]);
      Base64RoundTrip(data);
    }
  }

  lemma Regroup(a: bytes, b: bytes, c: bytes, d: bytes)
    ensures InBraces(a + b + (c + d)) == [OPEN_BRACE] + (a + (b + (c + (d + [CLOSE_BRACE]))))
  {
  }

  lemma FullRoundTrip(header: bytes, data: bytes)
    requires IsObject(header)
    ensures UnmarshalFull(InBraces(FullContent(header, data))) == Some(FullBlockResult(header, data))
  {
    var key, last := [COMMA] + Key("BlockData"), DataText(data) + [CLOSE_BRACE];
    var rest := header + (key + last);
    Regroup(Key("Header"), header, key, DataText(data));
    CutPrefixAppend([OPEN_BRACE], Key("Header") + rest);
    CutPrefixAppend(Key("Header"), rest);
    CutOff(START, header, |header|);
    EndOfFront(header, key + last);
    assert rest[..|header|] == header && rest[|header|..] == key + last;
    CutPrefixAppend(key, last);
    ReadDataRoundTrip(data);
  }

  lemma EndOfFront(text: bytes, rest: bytes)
    requires IsObject(text)
    ensures ValueEnd(START, text + rest) == Some(|text|)
  {
    Longer(START, text, rest);
  }

  lemma {:induction false} Longer(s: Scan, text: bytes, rest: bytes)
    requires ValueEnd(s, text).Some?
    ensures ValueEnd(s, text + rest) == ValueEnd(s, text)
    decreases text
  {
    if !Ended(Step(s, text[0])) {
      Longer(Step(s, text[0]), text[1..], rest);
      assert (text + rest)[1..] == text[1..] + rest;
    }
  }

  /** A printed object is read as soon as its last brace has arrived, and not before. */
  lemma ObjectReadBack(content: bytes, k: nat)
    requires Through(Scan(1, false, false), content) == Some(Scan(1, false, false))
    requires k <= |InBraces(content)| + 1
    ensures DecodeResult((InBraces(content) + [NEWLINE])[..k]) ==
            if k >= |InBraces(content)| then ReadMember(content) else None
  {
    var v := InBraces(content);
    var enc := v + [NEWLINE];
    BracesMakeObject(content);
    EndOfFront(v, [NEWLINE]);
    CutOff(START, enc, k);
    if k >= |v| {
      assert enc[..k][..|v|] == v;
      assert enc[..k][1..|v| - 1] == v[1..|v| - 1];
      assert v[1..|v| - 1] == content;
    }
  }

  predicate UnescapedChar(c: char) {
    ' ' <= c <= '~' && c != '"' && c != '\\' && c != '<' && c != '>' && c != '&'
  }

  /** Written in a JSON string as it is: printable, and none of what encoding/json escapes. */
  predicate Unescaped(s: string) {
    forall i :: 0 <= i < |s| ==> UnescapedChar(s[i])
  }

  lemma ErrorThrough(err: string)
    requires Unescaped(err)
    ensures Through(Scan(1, false, false), Key("Err") + InQuotes(Text(err))) == Some(Scan(1, false, false))
  {
    KeyThrough("Err");
    QuotedThrough(1, Text(err));
    ThroughAppend(Scan(1, false, false), Key("Err"), InQuotes(Text(err)));
  }

  lemma ErrorMember(err: string)
    requires Unescaped(err)
    ensures ReadMember(Key("Err") + InQuotes(Text(err))) == Some(JSONResult([], err))
  {
    var text := Text(err);
    var content := Key("Err") + InQuotes(text);
    assert content == (Key("Err") + [QUOTE]) + Quoted(text, []);
    assert content[1] == 'E' as int && Key("Result")[1] == 'R' as int;
    OtherPrefix(content, Key("Result"));
    CutPrefixAppend(Key("Err") + [QUOTE], Quoted(text, []));
    TakeQuotedRoundTrip(text, []);
    assert seq(|text|, i requires 0 <= i < |text| => text[i] as char) == err;
  }

  // ----- main results

  /** These texts, around a given way to print and read headers. */
  function WireOf(
    marshalHeader: CommittedHeader -> Option<bytes>, unmarshalHeader: bytes -> Option<CommittedHeader>): Wire
  {
    Wire(marshalHeader, unmarshalHeader, MarshalFull, UnmarshalFull, EncodeResult, DecodeResult)
  }

  /** Whatever FullBlocks relies on follows from headers being printed as JSON objects that are read back. */
  lemma BlocksAreReadBack(
    marshalHeader: CommittedHeader -> Option<bytes>, unmarshalHeader: bytes -> Option<CommittedHeader>,
    ch: CommittedHeader, data: bytes)
    requires marshalHeader(ch).Some? && IsObject(marshalHeader(ch).value)
    requires unmarshalHeader(marshalHeader(ch).value) == Some(ch)
    ensures BlockReadBack(WireOf(marshalHeader, unmarshalHeader), ch, data)
  {
    var header := marshalHeader(ch).value;
    FullIsObject(header, data);
    FullRoundTrip(header, data);
    ObjectsAreReadBack(marshalHeader, unmarshalHeader, InBraces(FullContent(header, data)));
  }

  lemma ObjectsAreReadBack(
    marshalHeader: CommittedHeader -> Option<bytes>, unmarshalHeader: bytes -> Option<CommittedHeader>, full: bytes)
    requires IsObject(full)
    ensures ResultReadBack(WireOf(marshalHeader, unmarshalHeader), JSONResult(full, ""))
  {
    var content := Key("Result") + full;
    KeyThrough("Result");
    ObjectThrough(1, full);
    ThroughAppend(Scan(1, false, false), Key("Result"), full);
    CutPrefixAppend(Key("Result"), full);
    var enc := EncodeResult(JSONResult(full, ""));
    forall k: nat | k <= |enc|
      ensures DecodeResult(enc[..k]) == if k + 1 >= |enc| then Some(JSONResult(full, "")) else None
    {
      ObjectReadBack(content, k);
    }
  }

  /** The errors that a host reports are read back as well. */
  lemma ErrorsAreReadBack(
    marshalHeader: CommittedHeader -> Option<bytes>, unmarshalHeader: bytes -> Option<CommittedHeader>, err: string)
    requires err != "" && Unescaped(err)
    ensures ResultReadBack(WireOf(marshalHeader, unmarshalHeader), JSONResult([], err))
  {
    var enc := EncodeResult(JSONResult([], err));
    ErrorThrough(err);
    ErrorMember(err);
    forall k: nat | k <= |enc|
      ensures DecodeResult(enc[..k]) == if k + 1 >= |enc| then Some(JSONResult([], err)) else None
    {
      ObjectReadBack(Key("Err") + InQuotes(Text(err)), k);
    }
  }

  lemma {:induction false} Base64Length(bs: bytes)
    ensures |Base64(bs)| == (|bs| + 2) / 3 * 4
  {
    if |bs| > 2 {
      Base64Length(bs[3..]);
    }
  }

  /** How long the reply for a block is: the header and, in base64 and quotes or else as null, the data. */
  lemma ReplyLengthIs(
    marshalHeader: CommittedHeader -> Option<bytes>, unmarshalHeader: bytes -> Option<CommittedHeader>,
    ch: CommittedHeader, data: bytes)
    requires marshalHeader(ch).Some? && IsObject(marshalHeader(ch).value)
    ensures ReplyLength(WireOf(marshalHeader, unmarshalHeader), ch, data) ==
            36 + |marshalHeader(ch).value| + if data == [] then 4 else 2 + (|data| + 2) / 3 * 4
  {
    Base64Length(data);
    assert |Key("Result")| == 9 && |Key("Header")| == 9 && |Key("BlockData")| == 12;
  }

  /** A reported error is short enough to be understood as that. */
  lemma ErrorIsReported(
    e: BlockData.Env,
    marshalHeader: CommittedHeader -> Option<bytes>, unmarshalHeader: bytes -> Option<CommittedHeader>, err: string)
    requires err != "" && Unescaped(err) && |err| < 1000
    ensures ParseReply(e, WireOf(marshalHeader, unmarshalHeader), EncodeResult(JSONResult([], err))) ==
            PeerError(err == "height unknown")
  {
    ErrorsAreReadBack(marshalHeader, unmarshalHeader, err);
    var enc := EncodeResult(JSONResult([], err));
    assert |Key("Err")| == 6;
    assert enc[..|enc|] == enc;
  }

  lemma UnknownIsReported(
    e: BlockData.Env,
    marshalHeader: CommittedHeader -> Option<bytes>, unmarshalHeader: bytes -> Option<CommittedHeader>)
    ensures ParseReply(e, WireOf(marshalHeader, unmarshalHeader), EncodeResult(JSONResult([], "height unknown"))) ==
            PeerError(true)
  {
    ErrorIsReported(e, marshalHeader, unmarshalHeader, "height unknown");
  }

  lemma NoDataText(err: string)
    requires err == "failed to load block data at height"
    ensures err != "" && err != "height unknown" && Unescaped(err) && |err| < 1000
  {
    var front, back := "failed to load ", "block data at height";
    assert Unescaped(front) && Unescaped(back);
    assert err == front + back;
    assert err[0] == 'f';
  }

  lemma NoDataIsReported(
    e: BlockData.Env,
    marshalHeader: CommittedHeader -> Option<bytes>, unmarshalHeader: bytes -> Option<CommittedHeader>, err: string)
    requires err == "failed to load block data at height"
    ensures ParseReply(e, WireOf(marshalHeader, unmarshalHeader), EncodeResult(JSONResult([], err))) ==
            PeerError(false)
  {
    NoDataText(err);
    ErrorIsReported(e, marshalHeader, unmarshalHeader, err);
  }

  lemma KeyTexts()
    ensures [OPEN_BRACE] + Key("Header") == Text("{\"Header\":")
    ensures [COMMA] + Key("BlockData") == Text(",\"BlockData\":")
    ensures [OPEN_BRACE] + Key("Result") == Text("{\"Result\":")
    ensures [OPEN_BRACE] + Key("Err") == Text("{\"Err\":")
    ensures [QUOTE] == Text("\"") && [CLOSE_BRACE] == Text("}") && [CLOSE_BRACE] + [NEWLINE] == Text("}\n")
  {
  }

  /** The text of a block, around the header's own text and the base64 of the data. */
  lemma FullText(header: bytes, data: bytes)
    requires IsObject(header)
    ensures MarshalFull(FullBlockResult(header, data)) ==
            Some(Text("{\"Header\":") + header + Text(",\"BlockData\":") +
                 (if data == [] then Text("null") else Text("\"") + Base64(data) + Text("\"")) + Text("}"))
  {
    KeyTexts();
    Regrouped(Key("Header"), header, [COMMA] + Key("BlockData"), DataText(data));
  }

  lemma Regrouped(a: bytes, b: bytes, c: bytes, d: bytes)
    ensures InBraces(a + b + (c + d)) == ([OPEN_BRACE] + a) + b + c + d + [CLOSE_BRACE]
  {
  }

  /** And the text around it, or around an error. */
  lemma ResultText(result: bytes, err: string)
    ensures EncodeResult(JSONResult(result, "")) == Text("{\"Result\":") + result + Text("}\n")
    ensures err != "" ==>
              EncodeResult(JSONResult(result, err)) ==
              Text("{\"Err\":") + (Text("\"") + Text(err) + Text("\"")) + Text("}\n")
  {
    KeyTexts();
    Enclosed(Key("Result"), result);
    Enclosed(Key("Err"), InQuotes(Text(err)));
  }

  lemma Enclosed(a: bytes, b: bytes)
    ensures InBraces(a + b) + [NEWLINE] == ([OPEN_BRACE] + a) + b + ([CLOSE_BRACE] + [NEWLINE])
  {
  }
}
