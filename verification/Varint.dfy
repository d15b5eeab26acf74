/** Signed varints (encoding/binary): zigzag, then groups of seven bits, low group first. */
module Varints {
  import opened Basics
  import opened Streams

  const MAX_VARINT_LEN64 := 10

  type int64 = x: int | -0x8000_0000_0000_0000 <= x < 0x8000_0000_0000_0000

  function ZigZag(x: int64): uint64 {
    if x >= 0 then 2 * x else -2 * x - 1
  }

  function UnZigZag(u: uint64): int64 {
    if u % 2 == 0 then u / 2 else -(u / 2) - 1
  }

  function UvarintBytes(n: nat): (bs: bytes)
    ensures |bs| >= 1
  {
    if n < 128 then [n] else [n % 128 + 128] + UvarintBytes(n / 128)
  }

  function VarintBytes(x: int64): bytes {
    UvarintBytes(ZigZag(x))
  }

  /** binary.AppendVarint */
  method AppendVarint(buf: bytes, x: int64) returns (out: bytes)
    ensures out == buf + VarintBytes(x)
  {
    var ux := ZigZag(x);
    out := buf;
    while ux >= 128
      invariant 0 <= ux
      invariant out + UvarintBytes(ux) == buf + VarintBytes(x)
    {
      out := out + [ux % 128 + 128];
      ux := ux / 128;
    }
    out := out + [ux];
  }

  /** Reading on from byte i: the value of the groups from there, and where they end. */
  function UvarintAt(bs: bytes, i: nat): (r: Option<(nat, nat)>)
    ensures r.Some? ==> r.value.0 < Room(i) && i < r.value.1 <= MAX_VARINT_LEN64 && r.value.1 <= |bs|
    decreases MAX_VARINT_LEN64 - i
  {
    if i >= MAX_VARINT_LEN64 || i >= |bs| then None
    else if bs[i] < 128 then
      RoomGrows(i);
      if i == MAX_VARINT_LEN64 - 1 && bs[i] > 1 then None else Some((bs[i], i + 1))
    else
      match UvarintAt(bs, i + 1)
      case Some((high, end)) => Some((bs[i] - 128 + 128 * high, end))
      case None => None
  }

  /** How many values the groups from number i on can hold within 64 bits. */
  function Room(i: nat): nat
    decreases MAX_VARINT_LEN64 - i
  {
    if i >= MAX_VARINT_LEN64 - 1 then 2 else 128 * Room(i + 1)
  }

  lemma {:induction false} RoomGrows(i: nat)
    ensures Room(i) >= if i < MAX_VARINT_LEN64 - 1 then 256 else 2
    decreases MAX_VARINT_LEN64 - i
  {
    if i < MAX_VARINT_LEN64 - 1 {
      RoomGrows(i + 1);
    }
  }

  lemma RoomInAll()
    ensures Room(0) == TWO_64
  {
    assert Room(6) == 128 * 128 * 128 * 2;
    assert Room(3) == 128 * 128 * 128 * Room(6);
    assert Room(0) == 128 * 128 * 128 * Room(3);
  }

  /** The varint at the front of `bs` and its length, if there is one and it fits 64 bits. */
  function VarintAt(bs: bytes): (r: Option<(int64, nat)>)
    ensures r.Some? ==> 1 <= r.value.1 <= MAX_VARINT_LEN64 && r.value.1 <= |bs|
  {
    RoomInAll();
    match UvarintAt(bs, 0)
    case Some((u, end)) => Some((UnZigZag(u), end))
    case None => None
  }

  lemma {:induction false} UvarintRoundTrip(bs: bytes, i: nat, n: nat)
    requires i < MAX_VARINT_LEN64 && n < Room(i)
    requires i + |UvarintBytes(n)| <= |bs| && bs[i..i + |UvarintBytes(n)|] == UvarintBytes(n)
    ensures UvarintAt(bs, i) == Some((n, i + |UvarintBytes(n)|))
    decreases n
  {
    var end := i + |UvarintBytes(n)|;
    assert bs[i] == bs[i..end][0];
    if n < 128 {
      assert bs[i] == n;
    } else {
      assert bs[i] == n % 128 + 128;
      assert i < MAX_VARINT_LEN64 - 1 && n / 128 < Room(i + 1);
      assert bs[i + 1..end] == bs[i..end][1..] == UvarintBytes(n / 128);
      UvarintRoundTrip(bs, i + 1, n / 128);
      assert n % 128 + 128 * (n / 128) == n;
    }
  }

  /** Whatever follows, an appended varint is read back exactly. */
  lemma VarintRoundTrip(x: int64, post: bytes)
    ensures VarintAt(VarintBytes(x) + post) == Some((x, |VarintBytes(x)|))
  {
    RoomInAll();
    UvarintRoundTrip(VarintBytes(x) + post, 0, ZigZag(x));
  }

  lemma {:induction false} UvarintPrefix(bs: bytes, bs': bytes, i: nat)
    requires UvarintAt(bs, i).Some? && UvarintAt(bs, i).value.1 <= |bs'|
    requires bs[..UvarintAt(bs, i).value.1] == bs'[..UvarintAt(bs, i).value.1]
    ensures UvarintAt(bs', i) == UvarintAt(bs, i)
    decreases MAX_VARINT_LEN64 - i
  {
    var end := UvarintAt(bs, i).value.1;
    assert bs[i] == bs[..end][i] == bs'[..end][i] == bs'[i];
    if bs[i] >= 128 {
      UvarintPrefix(bs, bs', i + 1);
    }
  }

  /** A varint is decided by the bytes it spans. */
  lemma VarintPrefix(bs: bytes, bs': bytes)
    requires VarintAt(bs).Some? && VarintAt(bs).value.1 <= |bs'|
    requires bs[..VarintAt(bs).value.1] == bs'[..VarintAt(bs).value.1]
    ensures VarintAt(bs') == VarintAt(bs)
  {
    UvarintPrefix(bs, bs', 0);
  }

  /** The final result, once the groups still to come are known. */
  ghost function Resume(x: int, scale: int, high: Option<(nat, nat)>): Option<(int, nat)> {
    match high
    case Some((v, end)) => Some((x + scale * v, end))
    case None => None
  }

  lemma ResumeStep(bs: bytes, i: nat, x: int, scale: int)
    requires i < MAX_VARINT_LEN64 && i < |bs| && bs[i] >= 128
    ensures Resume(x, scale, UvarintAt(bs, i)) ==
            Resume(x + (bs[i] as int - 128) * scale, scale * 128, UvarintAt(bs, i + 1))
  {
    if UvarintAt(bs, i + 1).Some? {
      Regroup(x, scale, bs[i] - 128, UvarintAt(bs, i + 1).value.0);
    }
  }

  lemma Regroup(x: int, scale: int, low: int, high: int)
    ensures x + scale * (low + 128 * high) == x + low * scale + scale * 128 * high
  {
    assert scale * (low + 128 * high) == scale * low + scale * (128 * high);
  }

  lemma ResumeEnd(bs: bytes, i: nat, x: int, scale: int)
    requires i < MAX_VARINT_LEN64 && i < |bs| && bs[i] < 128
    ensures Resume(x, scale, UvarintAt(bs, i)) ==
            if i == MAX_VARINT_LEN64 - 1 && bs[i] > 1 then None else Some((x + scale * bs[i], i + 1))
  {
  }

  /** The next byte, as byte i of all that was pending once. */
  method ReadByteAt(r: BufReader, ghost all: bytes, ghost i: nat) returns (b: Option<byte>)
    requires r.Valid() && i <= |all| && r.Pending() == all[i..]
    modifies r, r.src
    ensures r.Valid()
    ensures old(r.src.failed) ==> r.src.failed
    ensures r.src.steady ==> r.src.failed == old(r.src.failed)
    ensures r.src.tee + r.src.rest == old(r.src.tee + r.src.rest)
    ensures b.Some? ==> i < |all| && b.value == all[i] && r.Pending() == all[i + 1..] && |r.buf| < BUFFER_SIZE
    ensures b.None? ==> r.src.failed || i == |all|
  {
    b := r.ReadByte();
  }

  /** binary.ReadUvarint through the buffered reader. */
  method ReadUvarint(r: BufReader) returns (u: Option<uint64>)
    requires r.Valid()
    modifies r, r.src
    ensures r.Valid()
    ensures old(r.src.failed) ==> r.src.failed
    ensures r.src.steady ==> r.src.failed == old(r.src.failed)
    ensures r.src.tee + r.src.rest == old(r.src.tee + r.src.rest)
    ensures u.Some? ==>
              var at := UvarintAt(old(r.Pending()), 0);
              && at.Some? && u.value == at.value.0 && r.Pending() == old(r.Pending())[at.value.1..]
              && |r.buf| < BUFFER_SIZE
    ensures u.None? ==> r.src.failed || UvarintAt(old(r.Pending()), 0).None?
  {
    ghost var all := r.Pending();
    RoomInAll();
    var x: int, scale: int := 0, 1;
    for i := 0 to MAX_VARINT_LEN64
      invariant r.Valid() && i <= |all| && r.Pending() == all[i..]
      invariant old(r.src.failed) ==> r.src.failed
      invariant r.src.steady ==> r.src.failed == old(r.src.failed)
      invariant r.src.tee + r.src.rest == old(r.src.tee + r.src.rest)
      invariant UvarintAt(all, 0) == Resume(x, scale, UvarintAt(all, i))
    {
      var b := ReadByteAt(r, all, i);
      if b.None? {
        return None;
      }
      if b.value < 128 {
        ResumeEnd(all, i, x, scale);
        if i == MAX_VARINT_LEN64 - 1 && b.value > 1 {
          return None;
        }
        return Some(x + scale * b.value);
      }
      ResumeStep(all, i, x, scale);
      x, scale := x + (b.value as int - 128) * scale, scale * 128;
    }
    return None;
  }

  /** binary.ReadVarint through the buffered reader. */
  method ReadVarint(r: BufReader) returns (v: Option<int64>)
    requires r.Valid()
    modifies r, r.src
    ensures r.Valid()
    ensures old(r.src.failed) ==> r.src.failed
    ensures r.src.steady ==> r.src.failed == old(r.src.failed)
    ensures r.src.tee + r.src.rest == old(r.src.tee + r.src.rest)
    ensures v.Some? ==>
              var at := VarintAt(old(r.Pending()));
              && at.Some? && v.value == at.value.0 && r.Pending() == old(r.Pending())[at.value.1..]
              && |r.buf| < BUFFER_SIZE
    ensures v.None? ==> r.src.failed || VarintAt(old(r.Pending())).None?
  {
    var u := ReadUvarint(r);
    v := if u.Some? then Some(UnZigZag(u.value)) else None;
  }

  /** Non-negative numbers are even, negative ones odd, and the low seven bits come first. */
  lemma KnownVarints()
    ensures VarintBytes(0) == [0] && VarintBytes(-1) == [1] && VarintBytes(1) == [2] && VarintBytes(-2) == [3]
    ensures VarintBytes(150) == [0xac, 0x02]
  {
    assert UvarintBytes(2) == [2];
  }
}
