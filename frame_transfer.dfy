/** send_frame_buffer: the frame buffer sent with D/C high, in chunks of at most BlockSize
    bytes, each through one retry-wrapped transfer; a failed chunk is sent again from the
    same offset. */
module FrameTransfer {
  import opened Config
  import opened Spi
  import Color

  /** The bytes of a buffer of 16-bit pixels as they lie in memory on the little-endian
      host: the low byte of each pixel first. */
  function FrameBytes(pixels: seq<bv16>): (bytes: seq<bv8>)
    ensures |bytes| == 2 * |pixels|
  {
    if pixels == [] then [] else [Color.LowByte(pixels[0]), Color.HighByte(pixels[0])] + FrameBytes(pixels[1..])
  }

  lemma {:induction false} FrameBytesAppend(x: seq<bv16>, y: seq<bv16>)
    ensures FrameBytes(x + y) == FrameBytes(x) + FrameBytes(y)
  {
    if x == [] {
      assert x + y == y;
    } else {
      assert (x + y)[1..] == x[1..] + y;
      FrameBytesAppend(x[1..], y);
    }
  }

  /** The bytes of pixels a..b are bytes 2a..2b of the buffer: the transfer that starts at
      buffer + sent / 2 sends bytes sent.. of the frame. */
  lemma FrameBytesSlice(p: seq<bv16>, a: nat, b: nat)
    requires a <= b <= |p|
    ensures FrameBytes(p[a..b]) == FrameBytes(p)[2 * a..2 * b]
  {
    assert p == p[..a] + p[a..b] + p[b..];
    FrameBytesAppend(p[..a] + p[a..b], p[b..]);
    FrameBytesAppend(p[..a], p[a..b]);
  }

  /** Pixel k occupies bytes 2k (its low byte) and 2k + 1 (its high byte). */
  lemma {:induction false} FrameBytesAt(p: seq<bv16>, k: nat)
    requires k < |p|
    ensures FrameBytes(p)[2 * k] == Color.LowByte(p[k])
    ensures FrameBytes(p)[2 * k + 1] == Color.HighByte(p[k])
  {
    if k > 0 {
      FrameBytesAt(p[1..], k - 1);
      assert FrameBytes(p)[2..] == FrameBytes(p[1..]);
    }
  }

  /** The size of the chunk sent from offset sent: MIN(BlockSize, total - sent). */
  function ChunkSize(sent: nat): (c: nat)
    requires sent < BufferSize
    ensures 0 < c <= BlockSize && sent + c <= BufferSize
    ensures c == BlockSize || sent + c == BufferSize
    ensures c < BlockSize ==> sent + c == BufferSize
  {
    if BufferSize - sent > BlockSize then BlockSize else BufferSize - sent
  }

  /** The chunks the loop sends from offset sent on, as (offset, size) pairs. */
  function Chunks(sent: nat): seq<(nat, nat)>
    requires sent <= BufferSize
    decreases BufferSize - sent
  {
    if sent == BufferSize then [] else [(sent, ChunkSize(sent))] + Chunks(sent + ChunkSize(sent))
  }

  /** The chunks tile [sent, BufferSize): the first starts at sent, each starts where the
      one before ended, the last ends at BufferSize, and every chunk but the last is a full
      block. */
  lemma {:induction false} ChunksTile(sent: nat)
    requires sent <= BufferSize
    ensures var cs := Chunks(sent);
      && (|cs| == 0 <==> sent == BufferSize)
      && (|cs| > 0 ==> cs[0].0 == sent && cs[|cs| - 1].0 + cs[|cs| - 1].1 == BufferSize)
      && (forall j :: 0 <= j < |cs| ==> 0 < cs[j].1 <= BlockSize)
      && (forall j :: 0 <= j < |cs| - 1 ==> cs[j].0 + cs[j].1 == cs[j + 1].0 && cs[j].1 == BlockSize)
    decreases BufferSize - sent
  {
    if sent < BufferSize {
      var c := ChunkSize(sent);
      ChunksTile(sent + c);
      var cs, rest := Chunks(sent), Chunks(sent + c);
      assert cs == [(sent, c)] + rest;
      assert forall j :: 1 <= j < |cs| ==> cs[j] == rest[j - 1];
    }
  }

  /** From block m on, the schedule is the remaining full blocks and a last half block. */
  lemma {:induction false} ChunksFromBlock(m: nat)
    requires m <= 37
    ensures |Chunks(m * BlockSize)| == 38 - m
    ensures forall j :: 0 <= j < 37 - m ==> Chunks(m * BlockSize)[j] == ((m + j) * BlockSize, BlockSize)
    ensures Chunks(m * BlockSize)[37 - m] == (37 * BlockSize, 2048)
    decreases 37 - m
  {
    var cs := Chunks(m * BlockSize);
    if m == 37 {
      assert cs == [(37 * BlockSize, 2048)] + Chunks(BufferSize);
    } else {
      ChunksFromBlock(m + 1);
      var rest := Chunks((m + 1) * BlockSize);
      assert cs == [(m * BlockSize, BlockSize)] + rest;
      assert forall j :: 1 <= j < |cs| ==> cs[j] == rest[j - 1];
    }
  }

  /** A whole frame goes out as 38 chunks: 37 blocks of 4096 bytes at offsets 4096 j, then
      2048 bytes at offset 151552. */
  lemma FrameSchedule()
    ensures |Chunks(0)| == 38
    ensures forall j :: 0 <= j < 37 ==> Chunks(0)[j] == (j * BlockSize, BlockSize)
    ensures Chunks(0)[37] == (151552, 2048)
  {
    ChunksFromBlock(0);
  }

  /** The transactions the loop delivers from offset sent on when no chunk is lost. */
  function ChunkWrites(bytes: seq<bv8>, sent: nat): seq<Event>
    requires |bytes| == BufferSize && sent <= BufferSize
    decreases BufferSize - sent
  {
    if sent == BufferSize then []
    else
      var c := ChunkSize(sent);
      [Write(true, bytes[sent..sent + c])] + ChunkWrites(bytes, sent + c)
  }

  /** The j-th transaction carries the frame bytes of the j-th chunk of the schedule. */
  lemma {:induction false} ChunkWritesFollowSchedule(bytes: seq<bv8>, sent: nat)
    requires |bytes| == BufferSize && sent <= BufferSize
    ensures var ws, cs := ChunkWrites(bytes, sent), Chunks(sent);
      && |ws| == |cs|
      && forall j :: 0 <= j < |cs| ==> cs[j].0 + cs[j].1 <= BufferSize && ws[j] == Write(true, bytes[cs[j].0..cs[j].0 + cs[j].1])
    decreases BufferSize - sent
  {
    if sent < BufferSize {
      var c := ChunkSize(sent);
      ChunkWritesFollowSchedule(bytes, sent + c);
      var ws, cs := ChunkWrites(bytes, sent), Chunks(sent);
      assert forall j :: 1 <= j < |cs| ==> cs[j] == Chunks(sent + c)[j - 1] && ws[j] == ChunkWrites(bytes, sent + c)[j - 1];
    }
  }

  /** The bytes a sequence of events puts on the wire, in order. */
  function Payload(evs: seq<Event>): seq<bv8> {
    if evs == [] then []
    else (match evs[0] case Write(_, data) => data case Delay(_) => []) + Payload(evs[1..])
  }

  /** Without a lost chunk the transactions put exactly bytes sent.. of the frame on the wire:
      contiguous, in order and without overlap. */
  lemma {:induction false} ChunkWritesCoverFrame(bytes: seq<bv8>, sent: nat)
    requires |bytes| == BufferSize && sent <= BufferSize
    ensures Payload(ChunkWrites(bytes, sent)) == bytes[sent..]
    decreases BufferSize - sent
  {
    if sent < BufferSize {
      var c := ChunkSize(sent);
      ChunkWritesCoverFrame(bytes, sent + c);
      var ws := ChunkWrites(bytes, sent);
      assert ws[1..] == ChunkWrites(bytes, sent + c);
      assert bytes[sent..] == bytes[sent..sent + c] + bytes[sent + c..];
    }
  }

  /** How send_frame_buffer ends on the modelled hardware: the whole frame went out, or the
      ioctl oracle ran out while the chunk at offset sent was still unsent, from which
      point on every call fails and the source retries that chunk forever. */
  datatype FrameResult = Complete(bus: Bus) | Stalled(sent: nat, bus: Bus)

  /** The ioctl calls the oracle still has answers for. */
  function Remaining(bus: Bus): nat {
    if bus.attempts < |bus.ioctl| then |bus.ioctl| - bus.attempts else 0
  }

  /** The loop of send_frame_buffer from offset sent on: a delivered chunk moves the offset
      on by its size, a failed one is sent again from the same offset. */
  function Transmit(bytes: seq<bv8>, sent: nat, bus: Bus): FrameResult
    requires |bytes| == BufferSize && sent <= BufferSize
    decreases Remaining(bus), BufferSize - sent, 1
  {
    if sent == BufferSize then Complete(bus)
    else
      var c := ChunkSize(sent);
      TransferEffect(bus, bytes[sent..sent + c]);
      AfterChunk(bytes, sent, Remaining(bus), Transfer(bus, bytes[sent..sent + c]))
  }

  /** The loop after the transfer of the chunk at offset sent ended with t; before is what
      the oracle had left before that transfer, which a transfer that succeeded or left
      calls to make has used up partly. */
  function AfterChunk(bytes: seq<bv8>, sent: nat, before: nat, t: Sent): FrameResult
    requires |bytes| == BufferSize && sent < BufferSize
    requires Remaining(t.bus) < before || (!t.ok && Remaining(t.bus) == 0)
    decreases before, BufferSize - sent, 0
  {
    if t.ok then Transmit(bytes, sent + ChunkSize(sent), t.bus)
    else if Remaining(t.bus) == 0 then Stalled(sent, t.bus)
    else Transmit(bytes, sent, t.bus)
  }

  /** What the loop from offset sent on has done to the hardware when it ends with r: if it
      finished, it has delivered exactly the schedule's transactions from sent on, whatever
      failed in between; if it stalled at offset s, it has delivered those before s, and the
      oracle is exhausted. */
  predicate Delivered(bytes: seq<bv8>, sent: nat, bus: Bus, r: FrameResult)
    requires |bytes| == BufferSize && sent <= BufferSize
  {
    match r
    case Complete(b) => b.trace == bus.trace + ChunkWrites(bytes, sent) && b.dc == bus.dc && b.ioctl == bus.ioctl
    case Stalled(s, b) =>
      && sent <= s < BufferSize && Remaining(b) == 0 && b.dc == bus.dc && b.ioctl == bus.ioctl
      && b.trace + ChunkWrites(bytes, s) == bus.trace + ChunkWrites(bytes, sent)
  }

  /** A delivered chunk followed by the loop from the next offset. */
  lemma DeliveredAfterChunk(bytes: seq<bv8>, sent: nat, bus: Bus, next: Bus, r: FrameResult)
    requires |bytes| == BufferSize && sent < BufferSize
    requires next.trace == bus.trace + [Write(true, bytes[sent..sent + ChunkSize(sent)])]
    requires next.ioctl == bus.ioctl && next.dc == bus.dc
    requires Delivered(bytes, sent + ChunkSize(sent), next, r)
    ensures Delivered(bytes, sent, bus, r)
  {
    var c := ChunkSize(sent);
    var w := Write(true, bytes[sent..sent + c]);
    assert ChunkWrites(bytes, sent) == [w] + ChunkWrites(bytes, sent + c);
    assert bus.trace + [w] + ChunkWrites(bytes, sent + c) == bus.trace + ([w] + ChunkWrites(bytes, sent + c));
  }

  /** A failed chunk followed by the loop from the same offset. */
  lemma DeliveredAfterFailure(bytes: seq<bv8>, sent: nat, bus: Bus, next: Bus, r: FrameResult)
    requires |bytes| == BufferSize && sent < BufferSize
    requires next.trace == bus.trace && next.ioctl == bus.ioctl && next.dc == bus.dc
    requires Delivered(bytes, sent, next, r)
    ensures Delivered(bytes, sent, bus, r)
  {}

  /** Whatever the oracle answers, the loop's end is described by Delivered. */
  lemma {:induction false} TransmitDelivers(bytes: seq<bv8>, sent: nat, bus: Bus)
    requires |bytes| == BufferSize && sent <= BufferSize && bus.dc
    ensures Delivered(bytes, sent, bus, Transmit(bytes, sent, bus))
    decreases Remaining(bus), BufferSize - sent
  {
    if sent < BufferSize {
      var c := ChunkSize(sent);
      var data := bytes[sent..sent + c];
      TransferEffect(bus, data);
      var t := Transfer(bus, data);
      TransmitStep(bytes, sent, bus, t.ok, t.bus);
      if t.ok {
        TransmitDelivers(bytes, sent + c, t.bus);
        DeliveredAfterChunk(bytes, sent, bus, t.bus, Transmit(bytes, sent, bus));
      } else if Remaining(t.bus) > 0 {
        TransmitDelivers(bytes, sent, t.bus);
        DeliveredAfterFailure(bytes, sent, bus, t.bus, Transmit(bytes, sent, bus));
      } else {
        assert t.bus.trace == bus.trace;
      }
    } else {
      assert ChunkWrites(bytes, sent) == [];
    }
  }

  /** One pass of the loop: the chunk at sent is sent once, through the retry. */
  lemma TransmitStep(bytes: seq<bv8>, sent: nat, bus: Bus, ok: bool, next: Bus)
    requires |bytes| == BufferSize && sent < BufferSize
    requires Sent(ok, next) == Transfer(bus, bytes[sent..sent + ChunkSize(sent)])
    ensures Transmit(bytes, sent, bus) ==
      if ok then Transmit(bytes, sent + ChunkSize(sent), next)
      else if Remaining(next) == 0 then Stalled(sent, next)
      else Transmit(bytes, sent, next)
  {}

  /** On a bus whose next calls all succeed, the loop sends one chunk per call and
      completes. */
  lemma {:induction false} TransmitOnHealthyBus(bytes: seq<bv8>, sent: nat, bus: Bus)
    requires |bytes| == BufferSize && sent <= BufferSize
    requires bus.attempts + |Chunks(sent)| <= |bus.ioctl|
    requires forall k :: bus.attempts <= k < bus.attempts + |Chunks(sent)| ==> bus.ioctl[k]
    ensures Transmit(bytes, sent, bus).Complete?
    ensures Transmit(bytes, sent, bus).bus.attempts == bus.attempts + |Chunks(sent)|
    decreases BufferSize - sent
  {
    if sent < BufferSize {
      var c := ChunkSize(sent);
      var next := bus.(attempts := bus.attempts + 1, trace := bus.trace + [Write(bus.dc, bytes[sent..sent + c])]);
      TransferFirstAttempt(bus, bytes[sent..sent + c]);
      TransmitStep(bytes, sent, bus, true, next);
      assert Chunks(sent) == [(sent, c)] + Chunks(sent + c);
      TransmitOnHealthyBus(bytes, sent + c, next);
    }
  }

  /** A frame sent to completion puts exactly the frame's bytes on the wire, in order. */
  lemma CompleteFrameOnWire(pixels: seq<bv16>, bus: Bus)
    requires |pixels| == PixelCount
    requires Transmit(FrameBytes(pixels), 0, SetDc(bus, true)).Complete?
    ensures var b := Transmit(FrameBytes(pixels), 0, SetDc(bus, true)).bus;
      && |bus.trace| <= |b.trace|
      && Payload(b.trace[|bus.trace|..]) == FrameBytes(pixels)
  {
    var bytes := FrameBytes(pixels);
    TransmitDelivers(bytes, 0, SetDc(bus, true));
    assert Delivered(bytes, 0, SetDc(bus, true), Transmit(bytes, 0, SetDc(bus, true)));
    ChunkWritesCoverFrame(bytes, 0);
    var b := Transmit(bytes, 0, SetDc(bus, true)).bus;
    assert b.trace[|bus.trace|..] == ChunkWrites(bytes, 0);
  }

  /** The transfer's tx_buf: chunk bytes starting at buffer + sent / 2. */
  method ChunkData(buffer: array<bv16>, sent: nat, chunk: nat) returns (data: seq<bv8>)
    requires sent % 2 == 0 && chunk % 2 == 0 && sent + chunk <= 2 * buffer.Length
    ensures data == FrameBytes(buffer[..])[sent..sent + chunk]
  {
    var first, last := sent / 2, (sent + chunk) / 2;
    data := FrameBytes(buffer[first..last]);
    FrameBytesSlice(buffer[..], first, last);
    assert buffer[..][first..last] == buffer[first..last];
  }

  /** One pass of the loop of send_frame_buffer: the chunk at offset sent, MIN(BlockSize,
      total - sent) bytes, through one retry-wrapped transfer. */
  method SendChunk(bus: Bus, buffer: array<bv16>, sent: nat) returns (chunk: nat, rc: int, bus': Bus)
    requires buffer.Length == PixelCount && sent < BufferSize && sent % 2 == 0
    ensures chunk == ChunkSize(sent)
    ensures rc == 0 || rc == -1
    ensures Sent(rc == 0, bus') == Transfer(bus, FrameBytes(buffer[..])[sent..sent + chunk])
  {
    chunk := if BufferSize - sent > BlockSize then BlockSize else BufferSize - sent;
    var data := ChunkData(buffer, sent, chunk);
    rc, bus' := SpiTransferWithRetry(bus, data);
  }

  /** send_frame_buffer: drive D/C high once, then send the buffer chunk by chunk. The source
      loops forever once every call fails; the method returns Stalled at that point. */
  method SendFrameBuffer(bus: Bus, buffer: array<bv16>) returns (r: FrameResult)
    requires buffer.Length == PixelCount
    ensures r == Transmit(FrameBytes(buffer[..]), 0, SetDc(bus, true))
  {
    ghost var bytes := FrameBytes(buffer[..]);
    ghost var goal := Transmit(bytes, 0, SetDc(bus, true));
    var b := SetDc(bus, true);
    var sent: nat := 0;
    ghost var pixelsSent: nat := 0;
    while sent < BufferSize
      invariant sent <= BufferSize && sent == 2 * pixelsSent
      invariant Transmit(bytes, sent, b) == goal
      decreases Remaining(b), BufferSize - sent
    {
      var chunk, rc, b' := SendChunk(b, buffer, sent);
      TransferEffect(b, bytes[sent..sent + chunk]);
      TransmitStep(bytes, sent, b, rc == 0, b');
      if rc < 0 {
        if Remaining(b') == 0 {
          return Stalled(sent, b');
        }
        b := b';
        continue;
      }
      ghost var chunkPixels: nat := if chunk == BlockSize then BlockSize / 2 else PixelCount - pixelsSent;
      sent, b := sent + chunk, b';
      pixelsSent := pixelsSent + chunkPixels;
    }
    r := Complete(b);
  }
}
