/** StreamAPI framing on the serial link: encoder, resynchronising parser (src/meshtastic_serial.c). */
module StreamFraming {
  import opened Options

  type Byte = x: nat | x < 256

  const START1: Byte := 0x94
  const START2: Byte := 0xc3
  const HEADER := 4
  const FRAME_MAX := 512
  const WIRE_MAX := 516

  type Bytes = seq<Byte>

  // ---- encoding --------------------------------------------------------------------------------

  /** The big-endian 16-bit length field. */
  function Length(hi: Byte, lo: Byte): nat {
    hi * 256 + lo
  }

  /** `meshtastic_serial_encode_frame` with room in the output buffer: empty when refused. */
  function Encode(payload: Bytes): (wire: Bytes)
    ensures |payload| <= FRAME_MAX ==> |wire| == HEADER + |payload|
    ensures |payload| > FRAME_MAX ==> wire == []
  {
    if |payload| > FRAME_MAX then []
    else [START1, START2, |payload| / 256, |payload| % 256] + payload
  }

  /** The frame on the line: 0x94, 0xc3, the length with its high byte first, the payload. */
  lemma EncodeLayout(payload: Bytes)
    requires |payload| <= 512
    ensures var w := Encode(payload);
      |w| == 4 + |payload| && w[0] == 0x94 && w[1] == 0xc3 && (w[2] as int) * 256 + w[3] == |payload| && w[4..] == payload
  {
  }

  function EncodeAll(payloads: seq<Bytes>): Bytes {
    if payloads == [] then [] else Encode(payloads[0]) + EncodeAll(payloads[1..])
  }

  // ---- one parser step -------------------------------------------------------------------------

  /** `serial_rx_pop_frame`: wait for more, drop a byte, or take one frame off the ring. */
  datatype Pop = Wait | Skip | Take(payload: Bytes)

  function PopFrame(ring: Bytes): Pop {
    if |ring| < HEADER then Wait
    else if ring[0] != START1 || ring[1] != START2 then Skip
    else
      var n := Length(ring[2], ring[3]);
      if n > FRAME_MAX then Skip
      else if |ring| < HEADER + n then Wait
      else Take(ring[HEADER..HEADER + n])
  }

  /** What one step does with the ring, case by case: any byte that cannot start a frame costs that byte only. */
  lemma PopRule(ring: Bytes)
    ensures |ring| < 4 ==> PopFrame(ring) == Wait && Rest(ring) == ring
    ensures |ring| >= 4 && !(ring[0] == 0x94 && ring[1] == 0xc3) ==> PopFrame(ring) == Skip && Rest(ring) == ring[1..]
    ensures |ring| >= 4 && ring[0] == 0x94 && ring[1] == 0xc3 ==>
      var n: int := (ring[2] as int) * 256 + ring[3];
      && (n > 512 ==> PopFrame(ring) == Skip && Rest(ring) == ring[1..])
      && (n <= 512 && |ring| < 4 + n ==> PopFrame(ring) == Wait && Rest(ring) == ring)
      && (n <= 512 && |ring| >= 4 + n ==> PopFrame(ring) == Take(ring[4..4 + n]) && Rest(ring) == ring[4 + n..])
  {
  }

  /** What is left of the ring afterwards. */
  function Rest(ring: Bytes): (r: Bytes)
    ensures |r| <= |ring|
    ensures PopFrame(ring).Wait? <==> |r| == |ring|
    ensures PopFrame(ring).Wait? ==> r == ring
  {
    match PopFrame(ring)
    case Wait => ring
    case Skip => ring[1..]
    case Take(p) => ring[HEADER + |p|..]
  }

  /** Empty frames are swallowed silently. */
  function Delivered(ring: Bytes): seq<Bytes> {
    match PopFrame(ring)
    case Take(p) => if p == [] then [] else [p]
    case _ => []
  }

  // ---- the handler -----------------------------------------------------------------------------

  datatype Parsed = Parsed(frames: seq<Bytes>, left: Bytes)

  /** `rx_work_handler`: step until more data is needed. */
  function Parse(ring: Bytes): Parsed
    decreases |ring|
  {
    if PopFrame(ring).Wait? then Parsed([], ring)
    else
      var p := Parse(Rest(ring));
      Parsed(Delivered(ring) + p.frames, p.left)
  }

  lemma ParseStep(ring: Bytes)
    ensures PopFrame(ring).Wait? ==> Parse(ring) == Parsed([], ring)
    ensures !PopFrame(ring).Wait? ==>
      Parse(ring) == Parsed(Delivered(ring) + Parse(Rest(ring)).frames, Parse(Rest(ring)).left)
  {
  }

  /** The receive side: bytes arrive from the UART, the handler drains what it can. */
  class Receiver {
    const capacity: nat
    var ring: Bytes

    constructor (capacity: nat)
      ensures this.capacity == capacity && ring == []
    {
      this.capacity := capacity;
      ring := [];
    }

    /**
      `serial_isr_rx`: up to `space` bytes, the room that is contiguous, are read, and the rest stays in
      the UART for the next interrupt; a full ring throws away all that the UART holds.
     */
    method Feed(uart: Bytes, space: nat) returns (rest: Bytes)
      requires |ring| + space <= capacity && (space == 0 ==> |ring| == capacity)
      modifies this
      ensures |ring| <= capacity
      ensures old(|ring|) == capacity ==> ring == old(ring) && rest == []
      ensures old(|ring|) < capacity ==> ring + rest == old(ring) + uart && |rest| == |uart| - Min(|uart|, space)
    {
      if space == 0 {
        return [];
      }
      var n := Min(|uart|, space);
      ring := ring + uart[..n];
      rest := uart[n..];
    }

    /** One chunk, in as many interrupts as it takes; `room` is how the free space is laid out. */
    method FeedChunk(chunk: Bytes, room: nat -> nat)
      requires |ring| + |chunk| <= capacity && forall free :: 0 < free ==> 0 < room(free) <= free
      modifies this
      ensures ring == old(ring) + chunk
    {
      var uart := chunk;
      while uart != []
        invariant ring + uart == old(ring) + chunk
        decreases |uart|
      {
        ghost var before, was := ring, uart;
        assert |before + was| == |old(ring) + chunk|;
        uart := Feed(uart, room(capacity - |ring|));
      }
    }

    /** `serial_rx_pop_frame` */
    method Step() returns (pop: Pop)
      modifies this
      ensures pop == PopFrame(old(ring)) && ring == Rest(old(ring))
      ensures !pop.Wait? ==> |ring| < old(|ring|)
    {
      if |ring| < HEADER {
        return Wait;
      }
      if ring[0] != START1 {
        ring := ring[1..];
        return Skip;
      }
      if ring[1] != START2 {
        ring := ring[1..];
        return Skip;
      }
      var n := Length(ring[2], ring[3]);
      if n > FRAME_MAX {
        ring := ring[1..];
        return Skip;
      }
      if |ring| < HEADER + n {
        return Wait;
      }
      pop := Take(ring[HEADER..HEADER + n]);
      ring := ring[HEADER + n..];
    }

    method Work() returns (frames: seq<Bytes>)
      modifies this
      ensures Parsed(frames, ring) == Parse(old(ring))
    {
      hide PopFrame, Rest, Parse;
      frames := [];
      while true
        invariant frames + Parse(ring).frames == Parse(old(ring)).frames
        invariant Parse(ring).left == Parse(old(ring)).left
        decreases |ring|
      {
        ghost var before, was := ring, frames;
        ParseStep(before);
        var pop := Step();
        if pop.Wait? {
          break;
        }
        if pop.Take? && pop.payload != [] {
          frames := frames + [pop.payload];
        }
        assert frames + Parse(ring).frames == was + Parse(before).frames;
      }
    }
  }

  // ---- chunk independence ----------------------------------------------------------------------

  /** A decision already taken is not changed by bytes that arrive later. */
  lemma PopStable(a: Bytes, b: Bytes)
    requires !PopFrame(a).Wait?
    ensures PopFrame(a + b) == PopFrame(a) && Rest(a + b) == Rest(a) + b && Delivered(a + b) == Delivered(a)
  {
    if |a| >= HEADER && a[0] == START1 && a[1] == START2 {
      var n := Length(a[2], a[3]);
      if HEADER + n <= |a| {
        assert (a + b)[HEADER..HEADER + n] == a[HEADER..HEADER + n];
      }
    }
    match PopFrame(a)
    case Skip => assert (a + b)[1..] == a[1..] + b;
    case Take(p) => assert (a + b)[HEADER + |p|..] == a[HEADER + |p|..] + b;
  }

  /** Parsing `a + b` is parsing `a`, then going on from its leftover with `b`. */
  lemma {:induction false} ChunkIndependence(a: Bytes, b: Bytes)
    ensures var first := Parse(a);
      var second := Parse(first.left + b);
      Parse(a + b) == Parsed(first.frames + second.frames, second.left)
    decreases |a|
  {
    hide PopFrame, Rest, Delivered, Parse;
    ParseStep(a);
    if PopFrame(a).Wait? {
      assert [] + Parse(a + b).frames == Parse(a + b).frames;
    } else {
      PopStable(a, b);
      ParseStep(a + b);
      ChunkIndependence(Rest(a), b);
      var inner := Parse(Rest(a));
      var tail := Parse(inner.left + b);
      assert Delivered(a) + (inner.frames + tail.frames) == Delivered(a) + inner.frames + tail.frames;
    }
  }

  /** Feed any chunks one after the other; the frames do not depend on where they were cut. */
  function FeedAll(ring: Bytes, chunks: seq<Bytes>): Parsed
    decreases chunks
  {
    if chunks == [] then Parse(ring)
    else
      var first := Parse(ring);
      var rest := FeedAll(first.left + chunks[0], chunks[1..]);
      Parsed(first.frames + rest.frames, rest.left)
  }

  function Join(chunks: seq<Bytes>): Bytes {
    if chunks == [] then [] else chunks[0] + Join(chunks[1..])
  }

  lemma {:induction false} AnyChunking(ring: Bytes, chunks: seq<Bytes>)
    ensures FeedAll(ring, chunks) == Parse(ring + Join(chunks))
    decreases chunks
  {
    hide Parse, PopFrame, Rest, Delivered;
    if chunks == [] {
      assert ring + Join(chunks) == ring;
    } else {
      var first := Parse(ring);
      AnyChunking(first.left + chunks[0], chunks[1..]);
      ChunkIndependence(ring, Join(chunks));
      assert first.left + chunks[0] + Join(chunks[1..]) == first.left + Join(chunks);
    }
  }

  // ---- round trip and resynchronisation ----------------------------------------------------------

  /** The frames a client can have sent: at most FRAME_MAX bytes each. */
  predicate Sendable(payloads: seq<Bytes>) {
    forall i :: 0 <= i < |payloads| ==> |payloads[i]| <= FRAME_MAX
  }

  function NonEmpty(payloads: seq<Bytes>): seq<Bytes> {
    if payloads == [] then []
    else (if payloads[0] == [] then [] else [payloads[0]]) + NonEmpty(payloads[1..])
  }

  /** A whole frame at the front is taken whole. */
  lemma EncodedPops(p: Bytes, b: Bytes)
    requires |p| <= FRAME_MAX
    ensures PopFrame(Encode(p) + b) == Take(p) && Rest(Encode(p) + b) == b
    ensures Delivered(Encode(p) + b) == if p == [] then [] else [p]
  {
    var w := Encode(p) + b;
    assert Length(w[2], w[3]) == |p|;
    assert w[HEADER..HEADER + |p|] == p;
    assert w[HEADER + |p|..] == b;
  }

  /** Any encoded frames, followed by anything: exactly the non-empty payloads come out, in order. */
  lemma {:induction false} FramesRecovered(payloads: seq<Bytes>, b: Bytes)
    requires Sendable(payloads)
    ensures Parse(EncodeAll(payloads) + b) == Parsed(NonEmpty(payloads) + Parse(b).frames, Parse(b).left)
    decreases payloads
  {
    hide PopFrame, Rest, Parse, Encode, Delivered;
    if payloads == [] {
      assert EncodeAll(payloads) + b == b;
      assert NonEmpty(payloads) + Parse(b).frames == Parse(b).frames;
    } else {
      var (first, rest) := (Encode(payloads[0]), EncodeAll(payloads[1..]));
      var w := first + (rest + b);
      assert EncodeAll(payloads) + b == w;
      EncodedPops(payloads[0], rest + b);
      ParseStep(w);
      FramesRecovered(payloads[1..], b);
      var (d, more, last) := (Delivered(w), NonEmpty(payloads[1..]), Parse(b).frames);
      assert NonEmpty(payloads) == d + more;
      assert (d + more) + last == d + (more + last);
    }
  }

  /** Fed to an idle receiver in any chunks, frames come back exactly and nothing is left over. */
  lemma {:induction false} StreamRoundTrip(payloads: seq<Bytes>, chunks: seq<Bytes>)
    requires Sendable(payloads) && Join(chunks) == EncodeAll(payloads)
    ensures FeedAll([], chunks) == Parsed(NonEmpty(payloads), [])
  {
    AnyChunking([], chunks);
    assert [] + Join(chunks) == EncodeAll(payloads) + [];
    FramesRecovered(payloads, []);
    assert NonEmpty(payloads) + [] == NonEmpty(payloads);
  }

  /** No two adjacent bytes look like the start of a frame. */
  predicate NoStart(g: Bytes) {
    forall i :: 0 <= i < |g| - 1 ==> g[i] != START1 || g[i + 1] != START2
  }

  lemma FrameStarts(p: Bytes, b: Bytes)
    requires |p| <= FRAME_MAX
    ensures var w := Encode(p) + b; |w| >= HEADER && w[0] == START1
  {
  }

  /** The first byte of such garbage is dropped, even where it meets the frame behind it. */
  lemma GarbageSkipped(g: Bytes, frames: Bytes)
    requires g != [] && NoStart(g) && |frames| >= HEADER && frames[0] == START1
    ensures PopFrame(g + frames) == Skip && Rest(g + frames) == (g + frames)[1..] && Delivered(g + frames) == []
  {
    assert (g + frames)[1] == (if |g| > 1 then g[1] else START1);
  }

  /** After any such garbage the parser is back in step with the first frame that follows. */
  lemma {:induction false} Resynchronises(g: Bytes, payloads: seq<Bytes>, b: Bytes)
    requires NoStart(g) && payloads != [] && Sendable(payloads)
    ensures Parse(g + EncodeAll(payloads) + b) == Parse(EncodeAll(payloads) + b)
    decreases |g|
  {
    hide PopFrame, Rest, Parse, Delivered, Encode;
    var frames := EncodeAll(payloads) + b;
    assert frames == Encode(payloads[0]) + (EncodeAll(payloads[1..]) + b);
    FrameStarts(payloads[0], EncodeAll(payloads[1..]) + b);
    assert g + EncodeAll(payloads) + b == g + frames;
    if g == [] {
      assert g + frames == frames;
    } else {
      var w := g + frames;
      GarbageSkipped(g, frames);
      ParseStep(w);
      assert w[1..] == g[1..] + EncodeAll(payloads) + b;
      Resynchronises(g[1..], payloads, b);
      assert [] + Parse(w[1..]).frames == Parse(w[1..]).frames;
    }
  }

  /** The garbage costs nothing: exactly the non-empty payloads behind it come out, and nothing is left. */
  lemma GarbageThenFrames(g: Bytes, payloads: seq<Bytes>)
    requires NoStart(g) && payloads != [] && Sendable(payloads)
    ensures Parse(g + EncodeAll(payloads)) == Parsed(NonEmpty(payloads), [])
  {
    Resynchronises(g, payloads, []);
    FramesRecovered(payloads, []);
    hide PopFrame, Rest, Parse, Delivered, Encode;
    assert g + EncodeAll(payloads) + [] == g + EncodeAll(payloads);
    assert NonEmpty(payloads) + Parse([]).frames == NonEmpty(payloads) by { ParseStep([]); Idle(); }
    ParseStep([]);
    Idle();
  }

  lemma Idle()
    ensures PopFrame([]).Wait?
  {
  }

  // ---- progress ------------------------------------------------------------------------------------

  /** Waiting means the ring holds less than one largest frame. */
  lemma WaitingRingIsShort(ring: Bytes)
    requires PopFrame(ring).Wait?
    ensures |ring| < WIRE_MAX
  {
  }

  /** The handler stops only where it has to wait. */
  lemma {:induction false} LeftoverWaits(ring: Bytes)
    ensures PopFrame(Parse(ring).left).Wait?
    decreases |ring|
  {
    hide PopFrame, Rest, Delivered;
    ParseStep(ring);
    if !PopFrame(ring).Wait? {
      LeftoverWaits(Rest(ring));
    }
  }

  /**
    Chunks arriving one after the other at an idle receiver.  A ring with room for a chunk on top of
    an unfinished frame never overflows, so whatever frames the chunks make up come out exactly.
   */
  method Listen(r: Receiver, chunks: seq<Bytes>, room: nat -> nat) returns (frames: seq<Bytes>)
    requires forall free :: 0 < free ==> 0 < room(free) <= free
    requires r.ring == [] && forall i :: 0 <= i < |chunks| ==> |chunks[i]| + WIRE_MAX <= r.capacity + 1
    modifies r
    ensures Parsed(frames, r.ring) == Parse(Join(chunks))
    ensures forall payloads :: Sendable(payloads) && Join(chunks) == EncodeAll(payloads) ==>
      frames == NonEmpty(payloads) && r.ring == []
  {
    hide PopFrame, Rest, Delivered, Parse;
    frames := [];
    Idle();
    ParseStep([]);
    for i := 0 to |chunks|
      invariant Parsed(frames, r.ring) == Parse(Join(chunks[..i]))
      invariant PopFrame(r.ring).Wait?
    {
      WaitingRingIsShort(r.ring);
      ghost var seen := Join(chunks[..i]);
      r.FeedChunk(chunks[i], room);
      ChunkIndependence(seen, chunks[i]);
      LeftoverWaits(r.ring);
      var more := r.Work();
      frames := frames + more;
      JoinSnoc(chunks[..i], chunks[i]);
      assert chunks[..i + 1] == chunks[..i] + [chunks[i]];
    }
    assert chunks[..|chunks|] == chunks;
    forall payloads | Sendable(payloads) && Join(chunks) == EncodeAll(payloads)
      ensures frames == NonEmpty(payloads) && r.ring == []
    {
      FramesRecovered(payloads, []);
      assert EncodeAll(payloads) + [] == EncodeAll(payloads);
      assert NonEmpty(payloads) + [] == NonEmpty(payloads);
    }
  }

  lemma {:induction false} JoinSnoc(chunks: seq<Bytes>, c: Bytes)
    ensures Join(chunks + [c]) == Join(chunks) + c
  {
    if chunks == [] {
      assert [c][1..] == [];
    } else {
      assert (chunks + [c])[1..] == chunks[1..] + [c];
      JoinSnoc(chunks[1..], c);
    }
  }

  /** A ring that claims the largest frame and then falls silent. */
  function Stuck(capacity: nat): (ring: Bytes)
    ensures |ring| == capacity
  {
    if capacity < HEADER then Repeat(0, capacity)
    else [START1, START2, 2, 0] + Repeat(0, capacity - HEADER)
  }

  /**
    A full ring can stall for good exactly when it is smaller than the largest frame, although
    the build options allow rings from 64 bytes on.
   */
  lemma FullRingStallsIff(capacity: nat)
    ensures (exists ring: Bytes :: |ring| == capacity && PopFrame(ring).Wait?) <==> capacity < WIRE_MAX
  {
    if capacity < WIRE_MAX {
      var ring := Stuck(capacity);
      assert |ring| == capacity && PopFrame(ring).Wait?;
    }
  }
}
