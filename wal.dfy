/**
 * The byte-level view of the replication log the replica relies on: how a
 * buffer of streamed commands splits into whole commands (the part of
 * RedisCommandDecoder::Decode the replay loop depends on), and the rolling
 * checksum kept next to every log offset.
 *
 * The command decoder and the checksum are foreign to the replication code.
 * A command's raw protocol data is taken to be one line ending in LF, which
 * makes every command self-delimiting as the real decoder's output is; the
 * checksum is a concrete byte-by-byte fold standing in for the log's CRC.
 * Only the facts proved here are used about either.
 */
module Wal {
  import opened Strings

  newtype byte = b: int | 0 <= b < 256

  type Bytes = seq<byte>

  type uint64 = x: int | 0 <= x < UINT64_LIMIT

  const LF: byte := 10

  // ---------------------------------------------------------------------
  // Command framing
  // ---------------------------------------------------------------------

  /** The raw protocol data of one decoded command. */
  predicate IsFrame(f: Bytes) {
    |f| > 0 && f[|f| - 1] == LF && LF !in f[..|f| - 1]
  }

  /** The length of the complete command at the head of `buf`, or 0 when Decode fails. */
  function FrameLength(buf: Bytes): (n: nat)
    ensures n <= |buf|
  {
    if buf == [] then 0
    else if buf[0] == LF then 1
    else
      var m := FrameLength(buf[1..]);
      if m == 0 then 0 else m + 1
  }

  /** Decode succeeds exactly when a line end is buffered, and then yields one whole command. */
  lemma {:induction false} FrameLengthDecodes(buf: Bytes)
    ensures FrameLength(buf) > 0 ==> IsFrame(buf[..FrameLength(buf)])
    ensures FrameLength(buf) == 0 <==> LF !in buf
  {
    if buf != [] && buf[0] != LF {
      var m := FrameLength(buf[1..]);
      FrameLengthDecodes(buf[1..]);
      if m > 0 {
        assert buf[..m + 1] == [buf[0]] + buf[1..][..m];
        assert buf[..m + 1][..m] == [buf[0]] + buf[1..][..m][..m - 1];
      } else {
        assert buf == [buf[0]] + buf[1..];
      }
    }
  }

  /** The commands decoded one after another from the head of `buf`, up to the first that does not decode. */
  function Frames(buf: Bytes): seq<Bytes>
    decreases |buf|
  {
    var n := FrameLength(buf);
    if n == 0 then [] else [buf[..n]] + Frames(buf[n..])
  }

  /** Every decoded command is a whole command. */
  lemma {:induction false} FramesAreFrames(buf: Bytes)
    ensures forall i :: 0 <= i < |Frames(buf)| ==> IsFrame(Frames(buf)[i])
    decreases |buf|
  {
    var n := FrameLength(buf);
    if n > 0 {
      FrameLengthDecodes(buf);
      FramesAreFrames(buf[n..]);
    }
  }

  function Flatten(fs: seq<Bytes>): Bytes {
    if fs == [] then [] else fs[0] + Flatten(fs[1..])
  }

  /** Every byte of `buf` belongs to a whole command. */
  predicate Framed(buf: Bytes) {
    Flatten(Frames(buf)) == buf
  }

  lemma {:induction false} FlattenAppend(a: seq<Bytes>, b: seq<Bytes>)
    ensures Flatten(a + b) == Flatten(a) + Flatten(b)
  {
    if a != [] {
      assert (a + b)[1..] == a[1..] + b;
      FlattenAppend(a[1..], b);
    } else {
      assert a + b == b;
    }
  }

  /** A whole command at the head of a buffer is decoded as exactly that command. */
  lemma {:induction false} FrameLengthOfFrame(f: Bytes, rest: Bytes)
    requires IsFrame(f)
    ensures FrameLength(f + rest) == |f|
  {
    if |f| > 1 {
      assert f[0] != LF by {
        assert f[0] == f[..|f| - 1][0];
      }
      var g := f[1..];
      assert g[..|g| - 1] == f[1..|f| - 1];
      assert IsFrame(g);
      assert (f + rest)[1..] == g + rest;
      FrameLengthOfFrame(g, rest);
    }
  }

  /** Decoding the concatenation of whole commands gives back those commands. */
  lemma {:induction false} FramesOfFlatten(fs: seq<Bytes>)
    requires forall i :: 0 <= i < |fs| ==> IsFrame(fs[i])
    ensures Frames(Flatten(fs)) == fs
  {
    if fs != [] {
      var buf := Flatten(fs);
      FrameLengthOfFrame(fs[0], Flatten(fs[1..]));
      assert buf[..|fs[0]|] == fs[0];
      assert buf[|fs[0]|..] == Flatten(fs[1..]);
      FramesOfFlatten(fs[1..]);
    }
  }

  /**
   * Decoding consumes a prefix of the buffer and stops only where no
   * complete command is left.
   */
  lemma {:induction false} FramesStopAtUndecodable(buf: Bytes)
    ensures var k := |Flatten(Frames(buf))|;
      k <= |buf| && Flatten(Frames(buf)) == buf[..k] && FrameLength(buf[k..]) == 0
    decreases |buf|
  {
    var n := FrameLength(buf);
    if n > 0 {
      var tail := buf[n..];
      FramesStopAtUndecodable(tail);
      FlattenFramesStep(buf);
      SplitAt(buf, n, |Flatten(Frames(tail))|);
    } else {
      assert buf[0..] == buf;
    }
  }

  lemma FlattenFramesStep(buf: Bytes)
    requires FrameLength(buf) > 0
    ensures Flatten(Frames(buf)) == buf[..FrameLength(buf)] + Flatten(Frames(buf[FrameLength(buf)..]))
  {
    var n := FrameLength(buf);
    var fs := Frames(buf);
    assert fs == [buf[..n]] + Frames(buf[n..]);
    assert fs[1..] == Frames(buf[n..]);
  }

  lemma SplitAt(buf: Bytes, n: nat, k: nat)
    requires n + k <= |buf|
    ensures buf[..n] + buf[n..][..k] == buf[..n + k]
    ensures buf[n..][k..] == buf[n + k..]
  {
  }

  lemma FramedEmpty()
    ensures Framed([])
  {
  }

  /** Appending a whole command to a framed log keeps it framed, with that command last. */
  lemma FramedAppend(a: Bytes, f: Bytes)
    requires Framed(a) && IsFrame(f)
    ensures Framed(a + f) && Frames(a + f) == Frames(a) + [f]
  {
    FramesAreFrames(a);
    var fs := Frames(a) + [f];
    FlattenAppend(Frames(a), [f]);
    assert Flatten([f]) == f;
    assert Flatten(fs) == a + f;
    FramesOfFlatten(fs);
  }

  /** Removing the first command of a framed buffer leaves a framed buffer. */
  lemma FramedTail(f: Bytes, rest: Bytes)
    requires Framed(f + rest) && IsFrame(f)
    ensures Framed(rest) && Frames(f + rest) == [f] + Frames(rest)
  {
    FrameLengthOfFrame(f, rest);
    assert (f + rest)[..|f|] == f;
    assert (f + rest)[|f|..] == rest;
  }

  // ---------------------------------------------------------------------
  // Rolling checksum
  // ---------------------------------------------------------------------

  function Step(c: uint64, b: byte): uint64 {
    (c * 31 + b as int + 1) % UINT64_LIMIT
  }

  /** The checksum after feeding `bs` into a checksum that stood at `c`. */
  function Cksm(c: uint64, bs: Bytes): uint64
    decreases |bs|
  {
    if bs == [] then c else Cksm(Step(c, bs[0]), bs[1..])
  }

  /** Checksumming in two steps is checksumming the whole. */
  lemma {:induction false} CksmAppend(c: uint64, a: Bytes, b: Bytes)
    ensures Cksm(c, a + b) == Cksm(Cksm(c, a), b)
    decreases |a|
  {
    if a == [] {
      assert a + b == b;
    } else {
      assert (a + b)[1..] == a[1..] + b;
      CksmAppend(Step(c, a[0]), a[1..], b);
    }
  }
}
