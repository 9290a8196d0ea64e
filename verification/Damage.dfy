/** What damage to the checksummed part of a frame does to the stream that carries it. */
module Damage {
  import opened Bytes
  import opened Packets
  import opened PacketDecoder
  import opened Stream
  import Codec
  import CrcDetection
  import CrcPeriod
  import ModbusCrc
  import Wrappers

  /** From here on a TranslatedData frame is covered by its checksum, trailer included. */
  const COVERED := 20

  predicate Checksummed(frame: seq<byte>)
  {
    && Codec.Framed(frame)
    && frame[7] == Codec.TRANSLATED_DATA
    && VerifyChecksum(frame, Codec.TRANSLATED_DATA).None?
  }

  /** The decoder's comparison is the standard residue test. */
  lemma ChecksumIsResidue(frame: seq<byte>)
    requires 23 <= |frame|
    ensures VerifyChecksum(frame, Codec.TRANSLATED_DATA).None? <==> ModbusCrc.Run(ModbusCrc.INIT, frame[COVERED..]) == 0
  {
    var n := |frame| - 2;
    CrcDetection.ResidueIffChecksum(frame[COVERED..n], frame[n..]);
    assert frame[COVERED..] == frame[COVERED..n] + frame[n..];
  }

  /** The kinds of damage a checksum must notice: up to three bits, any odd number of bits, or a
      burst of at most sixteen bits. Two adjacent bytes are such a burst. */
  ghost predicate Noticeable(x: seq<byte>, y: seq<byte>)
    requires |x| == |y|
  {
    || 1 <= CrcDetection.Distance(x, y) <= 3
    || CrcDetection.Distance(x, y) % 2 == 1
    || (x != y && exists k: nat :: CrcDetection.Burst(x, y, k))
  }

  lemma NoticeableChangesRemainder(x: seq<byte>, y: seq<byte>)
    requires |x| == |y| <= 4095 && Noticeable(x, y)
    ensures ModbusCrc.Run(ModbusCrc.INIT, x) != ModbusCrc.Run(ModbusCrc.INIT, y)
  {
    if 1 <= CrcDetection.Distance(x, y) <= 3 {
      CrcPeriod.FewBitErrorsDetected(ModbusCrc.INIT, x, y);
    } else if CrcDetection.Distance(x, y) % 2 == 1 {
      CrcDetection.OddErrorDetected(ModbusCrc.INIT, x, y);
    } else {
      var k: nat :| CrcDetection.Burst(x, y, k);
      CrcDetection.BurstDetected(ModbusCrc.INIT, x, y, k);
    }
  }

  /** The same frame, damaged only from the covered part on. */
  ghost predicate Damaged(frame: seq<byte>, damaged: seq<byte>)
  {
    && |damaged| == |frame| && COVERED <= |frame|
    && damaged[..COVERED] == frame[..COVERED]
    && Noticeable(frame[COVERED..], damaged[COVERED..])
  }

  lemma DamageBreaksChecksum(frame: seq<byte>, damaged: seq<byte>)
    requires Checksummed(frame) && Damaged(frame, damaged)
    ensures VerifyChecksum(damaged, Codec.TRANSLATED_DATA) == Wrappers.Some(ChecksumMismatch)
  {
    NoticeableChangesRemainder(frame[COVERED..], damaged[COVERED..]);
    ChecksumIsResidue(frame);
    ChecksumIsResidue(damaged);
  }

  lemma SameHeader(frame: seq<byte>, damaged: seq<byte>)
    requires |damaged| == |frame| && COVERED <= |frame|
    requires damaged[..COVERED] == frame[..COVERED]
    ensures forall i :: 0 <= i < COVERED ==> damaged[i] == frame[i]
  {
    assert forall i :: 0 <= i < COVERED ==> damaged[i] == damaged[..COVERED][i];
  }

  /** A damaged frame is refused, whatever follows it. */
  lemma DamageRefused(frame: seq<byte>, damaged: seq<byte>, suffix: seq<byte>)
    requires Checksummed(frame) && Damaged(frame, damaged)
    ensures DecodeStep(damaged + suffix) == Failed(ChecksumMismatch, damaged + suffix)
  {
    DamageBreaksChecksum(frame, damaged);
    SameHeader(frame, damaged);
    assert damaged[..2] == frame[..2];
    WholeFrame(damaged, suffix);
  }

  /** End to end: what came before the damage is delivered, and nothing from it on, however the
      bytes were cut into reads. */
  lemma StreamStopsAtDamage(
    before: seq<seq<byte>>, frame: seq<byte>, damaged: seq<byte>, after: seq<byte>, chunks: seq<seq<byte>>)
    requires AllComplete(before) && Checksummed(frame) && Damaged(frame, damaged)
    requires Flatten(chunks) == Flatten(before) + (damaged + after)
    ensures ReceiveAll(Session([], Pending([])), chunks)
         == Session(PacketsOf(before), Broken(ChecksumMismatch))
  {
    ChunkIndependence(chunks);
    CompleteFramesDelivered(before, damaged + after);
    DamageRefused(frame, damaged, after);
    assert PacketsOf(before) + [] == PacketsOf(before);
  }

  // Adjacent bytes.

  lemma {:induction false} BitsAppend(a: seq<byte>, b: seq<byte>)
    ensures CrcDetection.Bits(a + b) == CrcDetection.Bits(a) + CrcDetection.Bits(b)
  {
    if b == [] {
      assert a + b == a;
    } else {
      var n := |b| - 1;
      BitsAppend(a, b[..n]);
      assert (a + b)[..|a + b| - 1] == a + b[..n];
    }
  }

  lemma BurstInMiddle(a: seq<byte>, m: seq<byte>, n: seq<byte>, b: seq<byte>)
    requires |m| == |n| <= 2
    ensures CrcDetection.Burst(a + m + b, a + n + b, 8 * |a|)
  {
    BitsAppend(a + m, b);
    BitsAppend(a, m);
    BitsAppend(a + n, b);
    BitsAppend(a, n);
  }

  /** Changing bytes only at two adjacent positions is a burst of at most sixteen bits. */
  lemma AdjacentBytesAreBurst(x: seq<byte>, y: seq<byte>, p: nat)
    requires |x| == |y| && p < |x|
    requires forall i :: 0 <= i < |x| && x[i] != y[i] ==> p <= i <= p + 1
    ensures CrcDetection.Burst(x, y, 8 * p)
  {
    var q := if p + 2 <= |x| then p + 2 else |x|;
    assert x[..p] == y[..p] && x[q..] == y[q..];
    assert x == x[..p] + x[p..q] + x[q..];
    assert y == x[..p] + y[p..q] + x[q..];
    BurstInMiddle(x[..p], x[p..q], y[p..q], x[q..]);
  }

  /** Any change confined to two adjacent bytes of payload or trailer is refused. */
  lemma AdjacentBytesRefused(frame: seq<byte>, damaged: seq<byte>, p: nat, suffix: seq<byte>)
    requires Checksummed(frame) && |damaged| == |frame| && damaged != frame
    requires COVERED <= p < |frame|
    requires forall i :: 0 <= i < |frame| && frame[i] != damaged[i] ==> p <= i <= p + 1
    ensures DecodeStep(damaged + suffix) == Failed(ChecksumMismatch, damaged + suffix)
  {
    var x, y := frame[COVERED..], damaged[COVERED..];
    assert damaged[..COVERED] == frame[..COVERED];
    assert frame == frame[..COVERED] + x;
    assert damaged == damaged[..COVERED] + y;
    forall i | 0 <= i < |x| && x[i] != y[i] ensures p - COVERED <= i <= p - COVERED + 1 {
      assert frame[COVERED + i] != damaged[COVERED + i];
    }
    AdjacentBytesAreBurst(x, y, p - COVERED);
    DamageRefused(frame, damaged, suffix);
  }
}
