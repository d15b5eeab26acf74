/**
 Byte streams as the decoder meets them: a network stream whose reads are cut anywhere and may fail, the
 16-byte buffered reader, and the two readers glued back together (io, bufio).
 */
module Streams {
  import opened Basics

  datatype ReadError = Eof | Failed

  /**
   A stream that copies everything read from it aside, as io.TeeReader does. A read of at least one byte
   yields any nonempty chunk, or an error; the end of the stream may come along with the last chunk.
   */
  class Stream {
    const steady: bool // A reader over memory never fails.
    var rest: bytes
    var tee: bytes
    var failed: bool // Whether a read has returned an error other than the end of the stream.

    constructor (data: bytes, steady: bool)
      ensures this.steady == steady && rest == data && tee == [] && !failed
    {
      this.steady := steady;
      rest, tee, failed := data, [], false;
    }

    method Read(k: nat) returns (chunk: bytes, err: Option<ReadError>)
      requires k > 0
      modifies this
      ensures |chunk| <= k && chunk + rest == old(rest) && tee == old(tee) + chunk
      ensures err == None ==> chunk != []
      ensures err == Some(Eof) ==> rest == []
      ensures failed == (old(failed) || err == Some(Failed))
      ensures steady ==> err != Some(Failed)
    {
      var n: nat :| n <= k && n <= |rest|;
      var fails: bool, endsEarly: bool := *, *;
      if fails && !steady {
        err, failed := Some(Failed), true;
      } else if n == |rest| && (n == 0 || endsEarly) {
        err := Some(Eof);
      } else {
        if n == 0 {
          n := 1;
        }
        err := None;
      }
      chunk, rest := rest[..n], rest[n..];
      tee := tee + chunk;
    }
  }

  const BUFFER_SIZE := 16

  /** bufio.Reader: at most 16 bytes taken from the source ahead of need, and the source's last error. */
  class BufReader {
    const src: Stream
    var buf: bytes
    var err: Option<ReadError>

    constructor (src: Stream)
      ensures this.src == src && buf == [] && err == None
    {
      this.src := src;
      buf, err := [], None;
    }

    ghost predicate Valid()
      reads this, src
    {
      && |buf| <= BUFFER_SIZE
      && (err == Some(Eof) ==> src.rest == [])
      && (err == Some(Failed) ==> src.failed)
    }

    /** What is still to be read through this reader. */
    ghost function Pending(): bytes
      reads this, src
    {
      buf + src.rest
    }

    method ReadByte() returns (b: Option<byte>)
      requires Valid()
      modifies this, src
      ensures Valid()
      ensures old(src.failed) ==> src.failed
      ensures src.steady ==> src.failed == old(src.failed)
      ensures src.tee + src.rest == old(src.tee + src.rest)
      ensures b.Some? ==> |buf| < BUFFER_SIZE
      ensures b.Some? ==> old(Pending()) != [] && b.value == old(Pending())[0] && Pending() == old(Pending())[1..]
      ensures b.None? ==> src.failed || old(Pending()) == []
    {
      while buf == []
        invariant Valid() && Pending() == old(Pending())
        invariant old(src.failed) ==> src.failed
        invariant src.steady ==> src.failed == old(src.failed)
        invariant src.tee + src.rest == old(src.tee + src.rest)
        decreases if buf == [] then 1 else 0, if err.None? then 1 else 0
      {
        if err.Some? {
          assert err.value.Eof? || err.value.Failed?;
          err := None;
          return None;
        }
        buf, err := src.Read(BUFFER_SIZE);
      }
      b := Some(buf[0]);
      buf := buf[1..];
    }
  }

  /** io.MultiReader over the bytes already buffered and the rest of the stream. */
  class MultiReader {
    var head: bytes
    const src: Stream

    constructor (head: bytes, src: Stream)
      ensures this.head == head && this.src == src
    {
      this.head, this.src := head, src;
    }

    ghost function Pending(): bytes
      reads this, src
    {
      head + src.rest
    }

    method Read(k: nat) returns (chunk: bytes, err: Option<ReadError>)
      requires k > 0
      modifies this, src
      ensures |chunk| <= k && chunk + Pending() == old(Pending())
      ensures err == None ==> chunk != []
      ensures err == Some(Eof) ==> Pending() == []
      ensures src.failed == (old(src.failed) || err == Some(Failed))
      ensures src.steady ==> err != Some(Failed)
      ensures src.tee + src.rest == old(src.tee + src.rest)
      ensures old(head) == [] ==> head == []
      ensures old(head) != [] ==> |head| < |old(head)|
    {
      if head != [] {
        var n := if k < |head| then k else |head|;
        chunk, head, err := head[..n], head[n..], None;
      } else {
        chunk, err := src.Read(k);
      }
    }

    /** io.ReadFull into a buffer of the given size. */
    method ReadFull(size: nat) returns (out: Option<bytes>)
      requires size > 0
      modifies this, src
      ensures old(src.failed) ==> src.failed
      ensures src.steady ==> src.failed == old(src.failed)
      ensures src.tee + src.rest == old(src.tee + src.rest)
      ensures out.Some? ==> |out.value| == size && out.value + Pending() == old(Pending())
      ensures out.None? ==> src.failed || |old(Pending())| < size
      ensures old(head) == [] ==> head == []
      ensures old(head) != [] ==> |head| < |old(head)|
    {
      var got: bytes, err := [], None;
      while |got| < size && err.None?
        invariant |got| <= size && got + Pending() == old(Pending())
        invariant err == Some(Eof) ==> Pending() == []
        invariant err == Some(Failed) ==> src.failed
        invariant old(src.failed) ==> src.failed
        invariant src.steady ==> src.failed == old(src.failed)
        invariant src.tee + src.rest == old(src.tee + src.rest)
        invariant got == [] && err.None? ==> head == old(head)
        invariant old(head) == [] ==> head == []
        invariant old(head) != [] && (got != [] || err.Some?) ==> |head| < |old(head)|
        decreases size - |got|, if err.None? then 1 else 0
      {
        var chunk;
        chunk, err := Read(size - |got|);
        got := got + chunk;
      }
      assert err.Some? ==> err.value.Eof? || err.value.Failed?;
      out := if |got| >= size then Some(got) else None;
    }
  }
}
