/** The chunked firmware upload of `sc upgrade`.

    The loaded image is cut into chunks of at most `cap` bytes (the packet
    capacity USB_CMD_DATA_SIZE in the command), in order. Chunk packets carry
    the chunk's offset in `arg0` and its length in `arg1`; their payload is
    the chunk followed by 0xFF up to `cap` bytes. Every chunk must be
    acknowledged before the next is sent; the first timeout ends the upload.

    The counters of the loop are `uint32_t`, and `bytes_remaining` starts as
    the `size_t` byte count truncated to 32 bits, so what is uploaded is the
    first `|dump| mod 2^32` bytes of the image. */
module Upload {
  import opened Usb

  function Min(a: nat, b: nat): (m: nat)
    ensures m <= a && m <= b && (m == a || m == b)
  {
    if a < b then a else b
  }

  /** The part of an image of `n` bytes the 32-bit counters cover. */
  function Truncate32(n: nat): (t: u32)
    ensures (n - t) % Two32 == 0
    ensures n < Two32 ==> t == n
    ensures t <= n
  {
    n % Two32
  }

  /** The length of the chunk that starts at `off`. */
  function ChunkLen(blob: seq<byte>, cap: nat, off: nat): (len: nat)
    requires off < |blob| && 0 < cap
    ensures 0 < len <= cap && off + len <= |blob|
    ensures len < cap ==> off + len == |blob|
  {
    Min(cap, |blob| - off)
  }

  /** The packet that carries the chunk of `blob` at `off`: the chunk's bytes
      first, then 0xFF filler up to the packet capacity. */
  function ChunkPacket(blob: seq<byte>, cap: nat, off: nat): (p: Packet)
    requires off < |blob| < Two32 && 0 < cap
    ensures p.cmd == SmartUpload && p.arg0 == off && p.arg1 == ChunkLen(blob, cap, off) && p.arg2 == 0
  {
    var len := ChunkLen(blob, cap, off);
    Packet(SmartUpload, off, len, 0, blob[off..off + len] + seq(cap - len, _ => 0xFF))
  }

  /** The payload of a chunk packet fills the packet: the chunk's bytes of
      the image, then 0xFF up to `cap`. */
  lemma ChunkPacketLayout(blob: seq<byte>, cap: nat, off: nat)
    requires off < |blob| < Two32 && 0 < cap
    ensures var p := ChunkPacket(blob, cap, off);
      |p.data| == cap &&
      p.data[..p.arg1] == blob[off..off + p.arg1] &&
      forall i :: p.arg1 <= i < cap ==> p.data[i] == 0xFF
  {
  }

  /** The chunk packets of `blob` from offset `off` on, in order. */
  function Plan(blob: seq<byte>, cap: nat, off: nat): seq<Packet>
    requires |blob| < Two32 && 0 < cap
    decreases |blob| - off
  {
    if off >= |blob| then []
    else [ChunkPacket(blob, cap, off)] + Plan(blob, cap, off + ChunkLen(blob, cap, off))
  }

  /** Every chunk packet of the upload of `blob`. */
  function UploadPlan(blob: seq<byte>, cap: nat): seq<Packet>
    requires |blob| < Two32 && 0 < cap
  {
    Plan(blob, cap, 0)
  }

  /** The total of the lengths (`arg1`) of a run of packets. */
  function SumLens(ps: seq<Packet>): nat
  {
    if ps == [] then 0 else ps[0].arg1 + SumLens(ps[1..])
  }

  /** The chunks from `off` cover exactly the rest of the image. */
  lemma {:induction false} PlanCovers(blob: seq<byte>, cap: nat, off: nat)
    requires |blob| < Two32 && 0 < cap && off <= |blob|
    ensures SumLens(Plan(blob, cap, off)) == |blob| - off
    decreases |blob| - off
  {
    if off < |blob| {
      var p := Plan(blob, cap, off);
      PlanCovers(blob, cap, off + ChunkLen(blob, cap, off));
      assert p[1..] == Plan(blob, cap, off + ChunkLen(blob, cap, off));
    }
  }

  /** Each chunk starts where the chunks before it end. */
  lemma {:induction false} PlanContiguousFrom(blob: seq<byte>, cap: nat, off: nat, k: nat)
    requires |blob| < Two32 && 0 < cap
    requires k < |Plan(blob, cap, off)|
    ensures Plan(blob, cap, off)[k].arg0 == off + SumLens(Plan(blob, cap, off)[..k])
    decreases k
  {
    var p := Plan(blob, cap, off);
    if k > 0 {
      var next := off + ChunkLen(blob, cap, off);
      var rest := Plan(blob, cap, next);
      assert p[k] == rest[k - 1];
      PlanContiguousFrom(blob, cap, next, k - 1);
      assert p[..k][1..] == rest[..k - 1];
    }
  }

  /** The offset of chunk `k` is the sum of the lengths of chunks 0..k-1, so
      the chunks are contiguous and in order, and together they cover the
      whole image. */
  lemma PlanContiguous(blob: seq<byte>, cap: nat, k: nat)
    requires |blob| < Two32 && 0 < cap
    requires k < |UploadPlan(blob, cap)|
    ensures UploadPlan(blob, cap)[k].arg0 == SumLens(UploadPlan(blob, cap)[..k])
    ensures SumLens(UploadPlan(blob, cap)) == |blob|
  {
    PlanContiguousFrom(blob, cap, 0, k);
    PlanCovers(blob, cap, 0);
  }

  /** Chunk `k` of the upload from `off` starts at `off + k * cap`: every chunk
      but the last is full. */
  lemma {:induction false} PlanChunkAtFrom(blob: seq<byte>, cap: nat, off: nat, k: nat)
    requires |blob| < Two32 && 0 < cap
    requires k < |Plan(blob, cap, off)|
    ensures off + k * cap < |blob|
    ensures Plan(blob, cap, off)[k] == ChunkPacket(blob, cap, off + k * cap)
    decreases k
  {
    if k == 0 {
      assert k * cap == 0;
    } else {
      var len := ChunkLen(blob, cap, off);
      var rest := Plan(blob, cap, off + len);
      assert Plan(blob, cap, off)[k] == rest[k - 1];
      OnlyLastChunkShort(blob, cap, off);
      assert len == cap;
      PlanChunkAtFrom(blob, cap, off + cap, k - 1);
      MulSucc(k - 1, cap);
      assert off + cap + (k - 1) * cap == off + k * cap;
    }
  }

  lemma MulSucc(a: nat, d: nat)
    ensures (a + 1) * d == a * d + d
  {
  }

  /** A chunk shorter than `cap` is the last one. */
  lemma OnlyLastChunkShort(blob: seq<byte>, cap: nat, off: nat)
    requires |blob| < Two32 && 0 < cap && off < |blob|
    ensures ChunkLen(blob, cap, off) < cap ==> |Plan(blob, cap, off)| == 1
  {
    var len := ChunkLen(blob, cap, off);
    assert |Plan(blob, cap, off)| == 1 + |Plan(blob, cap, off + len)|;
  }

  /** The upload of an image of `n` bytes sends ceil(n / cap) chunks. */
  lemma {:induction false} PlanLengthFrom(blob: seq<byte>, cap: nat, off: nat)
    requires |blob| < Two32 && 0 < cap && off <= |blob|
    ensures |Plan(blob, cap, off)| == (|blob| - off + cap - 1) / cap
    decreases |blob| - off
  {
    var r := |blob| - off;
    if off < |blob| {
      var len := ChunkLen(blob, cap, off);
      PlanLengthFrom(blob, cap, off + len);
      if len == cap {
        DivPlusOne(r - 1, cap);
      } else {
        DivUnique(r + cap - 1, cap, 1, r - 1);
      }
    } else {
      DivUnique(cap - 1, cap, 0, cap - 1);
    }
  }

  /** Euclidean division has one quotient. */
  lemma DivUnique(x: int, d: int, q: int, r: int)
    requires 0 < d && 0 <= r < d && x == q * d + r
    ensures x / d == q
  {
    var q0, r0 := x / d, x % d;
    assert (q - q0) * d == r0 - r by {
      assert q0 * d + r0 == x;
    }
    if q0 < q {
      MulAtLeast(q - q0, d);
    } else if q < q0 {
      MulAtLeast(q0 - q, d);
    }
  }

  lemma MulAtLeast(a: int, d: int)
    requires 1 <= a && 0 < d
    ensures a * d >= d
  {
    assert a * d == (a - 1) * d + d;
  }

  lemma DivPlusOne(y: nat, d: nat)
    requires 0 < d
    ensures (y + d) / d == y / d + 1
  {
    var q, r := y / d, y % d;
    assert y + d == (q + 1) * d + r;
    DivUnique(y + d, d, q + 1, r);
  }

  /** What the upload of `blob` sends, chunk by chunk: there are ceil(n / cap)
      chunks; chunk `k` starts at `k * cap` and is `min(cap, n - k * cap)`
      bytes long, so `0 < len <= cap`; its payload is those bytes of the image
      followed by 0xFF filler. An empty image sends no chunk. */
  lemma UploadPlanChunks(blob: seq<byte>, cap: nat)
    requires |blob| < Two32 && 0 < cap
    ensures |UploadPlan(blob, cap)| == (|blob| + cap - 1) / cap
    ensures |blob| == 0 <==> UploadPlan(blob, cap) == []
    ensures forall k :: 0 <= k < |UploadPlan(blob, cap)| ==>
      var p := UploadPlan(blob, cap)[k];
      k * cap < |blob| &&
      p.cmd == SmartUpload && p.arg0 == k * cap && p.arg1 == Min(cap, |blob| - k * cap) &&
      0 < p.arg1 <= cap && |p.data| == cap &&
      p.data[..p.arg1] == blob[k * cap..k * cap + p.arg1] &&
      (forall i :: p.arg1 <= i < cap ==> p.data[i] == 0xFF)
  {
    PlanLengthFrom(blob, cap, 0);
    forall k | 0 <= k < |UploadPlan(blob, cap)|
      ensures k * cap < |blob| && UploadPlan(blob, cap)[k] == ChunkPacket(blob, cap, k * cap)
    {
      PlanChunkAtFrom(blob, cap, 0, k);
      ChunkPacketLayout(blob, cap, k * cap);
    }
  }

  /** 1000 bytes in chunks of 64: sixteen chunks, fifteen of 64 bytes and a
      last one of 40 bytes at offset 960. */
  lemma UploadThousandBytesIn64(blob: seq<byte>)
    requires |blob| == 1000
    ensures |UploadPlan(blob, 64)| == 16
    ensures forall k :: 0 <= k < 15 ==> UploadPlan(blob, 64)[k].arg1 == 64
    ensures UploadPlan(blob, 64)[15].arg0 == 960 && UploadPlan(blob, 64)[15].arg1 == 40
  {
    UploadPlanChunks(blob, 64);
  }

  /** The payload of one chunk packet, built as the source builds it: the
      whole packet buffer is set to 0xFF, then the chunk is copied over its
      start. */
  method FillChunk(dump: seq<byte>, cap: nat, from: nat, len: nat) returns (data: seq<byte>)
    requires from + len <= |dump| && len <= cap
    ensures |data| == cap
    ensures data[..len] == dump[from..from + len]
    ensures forall i :: len <= i < cap ==> data[i] == 0xFF
  {
    var c := new byte[cap];
    forall i | 0 <= i < cap {
      c[i] := 0xFF;
    }
    forall i | 0 <= i < len {
      c[i] := dump[from + i];
    }
    data := c[..];
  }

  /** A chunk packet is determined by its offset, its length and the layout
      of its payload. */
  lemma ChunkPacketByLayout(blob: seq<byte>, cap: nat, off: nat, p: Packet)
    requires off < |blob| < Two32 && 0 < cap
    requires p.cmd == SmartUpload && p.arg0 == off && p.arg1 == ChunkLen(blob, cap, off) && p.arg2 == 0
    requires |p.data| == cap && p.data[..p.arg1] == blob[off..off + p.arg1]
    requires forall i :: p.arg1 <= i < cap ==> p.data[i] == 0xFF
    ensures p == ChunkPacket(blob, cap, off)
  {
    var q := ChunkPacket(blob, cap, off);
    ChunkPacketLayout(blob, cap, off);
    forall i | 0 <= i < cap ensures p.data[i] == q.data[i] {
      if i < p.arg1 {
        assert p.data[i] == p.data[..p.arg1][i] && q.data[i] == q.data[..q.arg1][i];
      }
    }
    assert p.data == q.data;
  }

  /** A packet built from the image as the loop builds it is the next
      packet of the plan. */
  lemma PlanStep(dump: seq<byte>, blob: seq<byte>, cap: nat, off: nat, p: Packet)
    requires blob <= dump && off < |blob| < Two32 && 0 < cap
    requires p.cmd == SmartUpload && p.arg0 == off && p.arg1 == Min(cap, |blob| - off) && p.arg2 == 0
    requires |p.data| == cap && p.data[..p.arg1] == dump[off..off + p.arg1]
    requires forall i :: p.arg1 <= i < cap ==> p.data[i] == 0xFF
    ensures Plan(blob, cap, off) == [p] + Plan(blob, cap, off + p.arg1)
  {
    assert blob[off..off + p.arg1] == dump[off..off + p.arg1];
    ChunkPacketByLayout(blob, cap, off, p);
  }

  /** One turn of the upload loop: the packet for the chunk at `bytesSent`,
      which is the next packet of the plan. */
  method NextChunk(dump: seq<byte>, cap: nat, bytesSent: u32, bytesRemaining: u32) returns (packet: Packet)
    requires 0 < cap && 0 < bytesRemaining && bytesSent + bytesRemaining == Truncate32(|dump|)
    ensures packet.arg0 == bytesSent && 0 < packet.arg1 <= bytesRemaining
    ensures packet.arg1 == Min(cap, bytesRemaining)
    ensures Plan(dump[..Truncate32(|dump|)], cap, bytesSent)
         == [packet] + Plan(dump[..Truncate32(|dump|)], cap, bytesSent + packet.arg1)
  {
    var index: u32 := 0;
    var bytesInPacket: u32 := Min(cap, bytesRemaining);
    var data := FillChunk(dump, cap, bytesSent, bytesInPacket);
    var offset: u32 := index + bytesSent;
    packet := Packet(SmartUpload, offset, bytesInPacket, 0, data);
    PlanStep(dump, dump[..Truncate32(|dump|)], cap, bytesSent, packet);
  }

  /** The outcome of the upload loop over `blob`, given the device's answers:
      either every chunk was acknowledged and the whole plan was sent, or the
      first chunk without acknowledgement was the last one sent, after a
      prefix of the plan, short of the end of the image. */
  ghost predicate UploadOutcome(blob: seq<byte>, cap: nat, replies: seq<Reply>, sent: seq<Packet>, bytesSent: nat, acked: bool)
    requires |blob| < Two32 && 0 < cap
  {
    var plan := UploadPlan(blob, cap);
    (acked <==> forall j :: 0 <= j < |plan| ==> ReplyAt(replies, j).Ack?) &&
    (acked ==> sent == plan && bytesSent == |blob|) &&
    (!acked ==>
      0 < |sent| <= |plan| && sent == plan[..|sent|] &&
      ReplyAt(replies, |sent| - 1) == Timeout &&
      (forall j :: 0 <= j < |sent| - 1 ==> ReplyAt(replies, j).Ack?) &&
      bytesSent == sent[|sent| - 1].arg0 && bytesSent < |blob|)
  }

  /** The loop ends on a timeout: what was sent is a prefix of the plan. */
  lemma AbortedOutcome(blob: seq<byte>, cap: nat, replies: seq<Reply>, sent: seq<Packet>, rest: seq<Packet>, bytesSent: nat)
    requires |blob| < Two32 && 0 < cap
    requires sent != [] && sent + rest == UploadPlan(blob, cap)
    requires ReplyAt(replies, |sent| - 1) == Timeout
    requires forall j :: 0 <= j < |sent| - 1 ==> ReplyAt(replies, j).Ack?
    requires bytesSent == sent[|sent| - 1].arg0 && bytesSent < |blob|
    ensures UploadOutcome(blob, cap, replies, sent, bytesSent, false)
  {
    var plan := UploadPlan(blob, cap);
    assert plan[..|sent|] == (sent + rest)[..|sent|];
    assert plan[|sent| - 1] == sent[|sent| - 1];
  }

  /** The loop ends with nothing left to send. */
  lemma CompletedOutcome(blob: seq<byte>, cap: nat, replies: seq<Reply>, sent: seq<Packet>)
    requires |blob| < Two32 && 0 < cap
    requires sent + Plan(blob, cap, |blob|) == UploadPlan(blob, cap)
    requires forall j :: 0 <= j < |sent| ==> ReplyAt(replies, j).Ack?
    ensures UploadOutcome(blob, cap, replies, sent, |blob|, true)
  {
    assert sent + [] == sent;
  }

  /** The upload loop of `CmdSmartUpgrade`, given the loaded image `dump` and
      the device's answers `replies` to the chunk packets in order. It returns
      the packets sent, the final `bytes_sent`, and whether every chunk was
      acknowledged (otherwise the command returns 1 at once). */
  method UploadChunks(dump: seq<byte>, cap: nat, replies: seq<Reply>)
    returns (sent: seq<Packet>, bytesSent: u32, acked: bool)
    requires 0 < cap
    ensures UploadOutcome(dump[..Truncate32(|dump|)], cap, replies, sent, bytesSent, acked)
  {
    ghost var blob := dump[..Truncate32(|dump|)];
    ghost var plan := UploadPlan(blob, cap);
    ghost var rest := plan;
    bytesSent := 0;
    var bytesRemaining: u32 := Truncate32(|dump|);
    sent := [];
    while bytesRemaining > 0
      invariant bytesSent + bytesRemaining == |blob|
      invariant rest == Plan(blob, cap, bytesSent) && sent + rest == plan
      invariant forall j :: 0 <= j < |sent| ==> ReplyAt(replies, j).Ack?
      decreases bytesRemaining
    {
      var packet := NextChunk(dump, cap, bytesSent, bytesRemaining);
      sent, rest := sent + [packet], rest[1..];
      assert sent + rest == plan;
      if ReplyAt(replies, |sent| - 1) == Timeout {
        acked := false;
        AbortedOutcome(blob, cap, replies, sent, rest, bytesSent);
        return;
      }
      bytesRemaining := bytesRemaining - packet.arg1;
      bytesSent := bytesSent + packet.arg1;
    }
    acked := true;
    CompletedOutcome(blob, cap, replies, sent);
  }
}
