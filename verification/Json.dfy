/**
 Transactions on the wire: a JSON array of strings (sections 5 and 7 of RFC 8259), each the base64
 (section 4 of RFC 4648) of one encoded transaction, as encoding/json prints a [][]byte.
 The reader here accepts exactly what the printer emits; any reader that does so will do.
 */
module Json {
  import opened Basics

  const QUOTE: byte := 34
  const COMMA: byte := 44
  const PAD: byte := 61
  const OPEN: byte := 91
  const CLOSE: byte := 93

  // ----- base64

  type sextet = v: int | 0 <= v < 64

  function Base64Char(v: sextet): byte {
    if v < 26 then v + 65 else if v < 52 then v + 71 else if v < 62 then v - 4 else if v == 62 then 43 else 47
  }

  function Base64Value(c: byte): Option<sextet> {
    if 65 <= c <= 90 then Some(c - 65)
    else if 97 <= c <= 122 then Some(c - 71)
    else if 48 <= c <= 57 then Some(c + 4)
    else if c == 43 then Some(62)
    else if c == 47 then Some(63)
    else None
  }

  function Base64(bs: bytes): bytes {
    if bs == [] then []
    else if |bs| == 1 then [Base64Char(bs[0] / 4), Base64Char(bs[0] % 4 * 16), PAD, PAD]
    else if |bs| == 2 then
      [Base64Char(bs[0] / 4), Base64Char(bs[0] % 4 * 16 + bs[1] / 16), Base64Char(bs[1] % 16 * 4), PAD]
    else EncodeGroup(bs[0], bs[1], bs[2]) + Base64(bs[3..])
  }

  function EncodeGroup(a: byte, b: byte, c: byte): bytes {
    [Base64Char(a / 4), Base64Char(a % 4 * 16 + b / 16), Base64Char(b % 16 * 4 + c / 64), Base64Char(c % 64)]
  }

  function DecodeGroup(c0: byte, c1: byte, c2: byte, c3: byte): Option<bytes> {
    match Base64Value(c0) case None => None case Some(p) =>
    match Base64Value(c1) case None => None case Some(q) =>
    if c2 == PAD then (if c3 == PAD then Some([p * 4 + q / 16]) else None) else
    match Base64Value(c2) case None => None case Some(r) =>
    if c3 == PAD then Some([p * 4 + q / 16, q % 16 * 16 + r / 4]) else
    match Base64Value(c3) case None => None case Some(s) =>
    Some([p * 4 + q / 16, q % 16 * 16 + r / 4, r % 4 * 64 + s])
  }

  function Base64Decode(cs: bytes): Option<bytes> {
    if cs == [] then Some([])
    else if |cs| < 4 then None
    else
      match DecodeGroup(cs[0], cs[1], cs[2], cs[3])
      case None => None
      case Some(g) =>
        match Base64Decode(cs[4..])
        case None => None
        case Some(rest) => if |g| == 3 || rest == [] then Some(g + rest) else None
  }

  lemma Base64CharRoundTrip(v: sextet)
    ensures Base64Value(Base64Char(v)) == Some(v) && Base64Char(v) != QUOTE && Base64Char(v) != PAD
  {
  }

  lemma GroupRoundTrip(a: byte, b: byte, c: byte, p: sextet, q: sextet, r: sextet, s: sextet)
    requires p == a / 4 && q == a % 4 * 16 + b / 16 && r == b % 16 * 4 + c / 64 && s == c % 64
    ensures DecodeGroup(Base64Char(p), Base64Char(q), Base64Char(r), Base64Char(s)) == Some([a, b, c])
    ensures c == 0 ==> DecodeGroup(Base64Char(p), Base64Char(q), Base64Char(r), PAD) == Some([a, b])
    ensures b == 0 ==> DecodeGroup(Base64Char(p), Base64Char(q), PAD, PAD) == Some([a])
  {
    Base64CharRoundTrip(p);
    Base64CharRoundTrip(q);
    Base64CharRoundTrip(r);
    Base64CharRoundTrip(s);
    assert p * 4 + q / 16 == a;
    assert q % 16 * 16 + r / 4 == b;
    assert r % 4 * 64 + s == c;
  }

  lemma {:induction false} Base64RoundTrip(bs: bytes)
    ensures Base64Decode(Base64(bs)) == Some(bs)
  {
    if |bs| == 1 {
      OneByteRoundTrip(bs);
    } else if |bs| == 2 {
      TwoBytesRoundTrip(bs);
    } else if bs != [] {
      var a, b, c := bs[0], bs[1], bs[2];
      GroupRoundTrip(a, b, c, a / 4, a % 4 * 16 + b / 16, b % 16 * 4 + c / 64, c % 64);
      Base64RoundTrip(bs[3..]);
      FullGroup(Base64(bs), EncodeGroup(a, b, c), Base64(bs[3..]));
      assert bs == [a, b, c] + bs[3..];
    }
  }

  lemma OneByteRoundTrip(bs: bytes)
    requires |bs| == 1
    ensures Base64Decode(Base64(bs)) == Some(bs)
  {
    var p, q := bs[0] / 4, bs[0] % 4 * 16;
    GroupRoundTrip(bs[0], 0, 0, p, q, 0, 0);
    LastGroup([Base64Char(p), Base64Char(q), PAD, PAD]);
    assert bs == [bs[0]];
  }

  lemma TwoBytesRoundTrip(bs: bytes)
    requires |bs| == 2
    ensures Base64Decode(Base64(bs)) == Some(bs)
  {
    var p, q, r := bs[0] / 4, bs[0] % 4 * 16 + bs[1] / 16, bs[1] % 16 * 4;
    GroupRoundTrip(bs[0], bs[1], 0, p, q, r, 0);
    LastGroup([Base64Char(p), Base64Char(q), Base64Char(r), PAD]);
    assert bs == [bs[0], bs[1]];
  }

  lemma LastGroup(cs: bytes)
    requires |cs| == 4
    ensures Base64Decode(cs) == DecodeGroup(cs[0], cs[1], cs[2], cs[3])
  {
    assert cs[4..] == [];
    if DecodeGroup(cs[0], cs[1], cs[2], cs[3]).Some? {
      var g := DecodeGroup(cs[0], cs[1], cs[2], cs[3]).value;
      assert g + [] == g;
    }
  }

  lemma FullGroup(cs: bytes, four: bytes, rest: bytes)
    requires |four| == 4 && cs == four + rest
    requires DecodeGroup(four[0], four[1], four[2], four[3]).Some?
    requires |DecodeGroup(four[0], four[1], four[2], four[3]).value| == 3
    requires Base64Decode(rest).Some?
    ensures Base64Decode(cs) ==
            Some(DecodeGroup(four[0], four[1], four[2], four[3]).value + Base64Decode(rest).value)
  {
    assert cs[4..] == rest;
  }

  lemma {:induction false} Base64NoQuote(bs: bytes)
    ensures QUOTE !in Base64(bs)
  {
    if |bs| > 2 {
      Base64NoQuote(bs[3..]);
    }
  }

  // ----- the array

  /** json.Marshal of a non-nil [][]byte */
  function Marshal(items: seq<bytes>): bytes {
    if items == [] then [OPEN, CLOSE] else [OPEN] + MarshalElements(items)
  }

  function MarshalElements(items: seq<bytes>): bytes
    requires items != []
  {
    var rest := if |items| == 1 then [CLOSE] else [COMMA] + MarshalElements(items[1..]);
    [QUOTE] + Quoted(Base64(items[0]), rest)
  }

  function Quoted(text: bytes, rest: bytes): bytes {
    text + [QUOTE] + rest
  }

  /** Two quotes and a comma or bracket each, at least. */
  lemma {:induction false} ElementsLength(items: seq<bytes>)
    requires items != []
    ensures |MarshalElements(items)| >= 3 * |items|
  {
    if |items| > 1 {
      ElementsLength(items[1..]);
    }
  }

  lemma MarshalLength(items: seq<bytes>)
    ensures |Marshal(items)| >= 3 * |items|
  {
    if items != [] {
      ElementsLength(items);
    }
  }

  /** The text up to the next quote, and what follows that quote. */
  function TakeQuoted(bs: bytes): (r: Option<(bytes, bytes)>)
    ensures r.Some? ==> |r.value.1| < |bs|
  {
    if bs == [] then None
    else if bs[0] == QUOTE then Some(([], bs[1..]))
    else
      match TakeQuoted(bs[1..])
      case Some((text, rest)) => Some(([bs[0]] + text, rest))
      case None => None
  }

  function Unmarshal(bs: bytes): Option<seq<bytes>> {
    if bs == [OPEN, CLOSE] then Some([])
    else if bs == [] || bs[0] != OPEN then None
    else UnmarshalElements(bs[1..])
  }

  function UnmarshalElements(bs: bytes): Option<seq<bytes>>
    decreases |bs|
  {
    if bs == [] || bs[0] != QUOTE then None else
    match TakeQuoted(bs[1..]) case None => None case Some((text, rest)) =>
    match Base64Decode(text) case None => None case Some(item) =>
    if rest == [CLOSE] then Some([item])
    else if rest == [] || rest[0] != COMMA then None
    else Prepend(item, UnmarshalElements(rest[1..]))
  }

  function Prepend(item: bytes, items: Option<seq<bytes>>): Option<seq<bytes>> {
    match items
    case Some(tail) => Some([item] + tail)
    case None => None
  }

  lemma {:induction false} TakeQuotedRoundTrip(text: bytes, rest: bytes)
    requires QUOTE !in text
    ensures TakeQuoted(Quoted(text, rest)) == Some((text, rest))
  {
    var bs := Quoted(text, rest);
    if text == [] {
      assert bs[1..] == rest;
    } else {
      assert bs[1..] == Quoted(text[1..], rest);
      TakeQuotedRoundTrip(text[1..], rest);
      assert text == [text[0]] + text[1..];
    }
  }

  lemma {:induction false} ElementsRoundTrip(items: seq<bytes>)
    requires items != []
    ensures UnmarshalElements(MarshalElements(items)) == Some(items)
  {
    assert items == [items[0]] + items[1..];
    if |items| == 1 {
      assert items == [items[0]];
      LastElement(items[0]);
    } else {
      ElementsRoundTrip(items[1..]);
      MoreElements(items[0], MarshalElements(items[1..]));
    }
  }

  lemma LastElement(item: bytes)
    ensures UnmarshalElements([QUOTE] + Quoted(Base64(item), [CLOSE])) == Some([item])
  {
    var bs := [QUOTE] + Quoted(Base64(item), [CLOSE]);
    assert bs[1..] == Quoted(Base64(item), [CLOSE]);
    Base64RoundTrip(item);
    Base64NoQuote(item);
    TakeQuotedRoundTrip(Base64(item), [CLOSE]);
  }

  lemma MoreElements(item: bytes, tail: bytes)
    ensures UnmarshalElements([QUOTE] + Quoted(Base64(item), [COMMA] + tail)) ==
            Prepend(item, UnmarshalElements(tail))
  {
    var rest := [COMMA] + tail;
    var bs := [QUOTE] + Quoted(Base64(item), rest);
    assert bs[1..] == Quoted(Base64(item), rest);
    Base64RoundTrip(item);
    Base64NoQuote(item);
    TakeQuotedRoundTrip(Base64(item), rest);
    assert rest[0] == COMMA && rest[1..] == tail;
  }

  /** The reader inverts the printer. */
  lemma MarshalRoundTrip(items: seq<bytes>)
    ensures Unmarshal(Marshal(items)) == Some(items)
  {
    if items != [] {
      ElementsRoundTrip(items);
      assert Marshal(items)[1..] == MarshalElements(items);
    }
  }

  /** The test vectors of section 10 of RFC 4648, and the array around them. */
  lemma KnownTexts()
    ensures Base64([0x66]) == [0x5a, 0x67, 0x3d, 0x3d] // f and Zg==
    ensures Base64([0x66, 0x6f]) == [0x5a, 0x6d, 0x38, 0x3d] // fo and Zm8=
    ensures Base64([0x66, 0x6f, 0x6f]) == [0x5a, 0x6d, 0x39, 0x76] // foo and Zm9v
    ensures Base64([0xfb, 0xff, 0xfe]) == [0x2b, 0x2f, 0x2f, 0x2b] // and +//+
    ensures Marshal([]) == [0x5b, 0x5d]
    ensures Marshal([[0x66], []]) == [0x5b, 0x22, 0x5a, 0x67, 0x3d, 0x3d, 0x22, 0x2c, 0x22, 0x22, 0x5d]
  {
    assert [0x66, 0x6f, 0x6f][3..] == [] && [0xfb, 0xff, 0xfe][3..] == [];
    var items: seq<bytes> := [[0x66], []];
    assert items[1..] == [[]];
    assert MarshalElements([[]]) == [0x22, 0x22, 0x5d];
    assert MarshalElements(items) == [0x22, 0x5a, 0x67, 0x3d, 0x3d, 0x22, 0x2c, 0x22, 0x22, 0x5d];
  }
}
