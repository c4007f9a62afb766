/**
  The queue of frames for one phone client (src/meshtastic_phoneapi.c) and the serial transmit
  loop that drains it (src/meshtastic_serial.c).
 */
module PhoneQueue {
  import opened Options
  import opened Rings
  import H = Handshake
  import S = StreamFraming

  /** A frame from the mesh, or one produced by the configuration handshake. */
  datatype Frame = Radio(bytes: seq<nat>) | Config(item: H.Item)

  // ---- the queue as a bounded deque ------------------------------------------------------------

  /** A full queue gives up its oldest frame. */
  function Enqueued(q: seq<Frame>, size: nat, f: Frame): seq<Frame>
    requires 0 < size
  {
    if |q| == size then q[1..] + [f] else q + [f]
  }

  /** Putting a frame back into a full queue costs its newest frame. */
  function PushedFront(q: seq<Frame>, size: nat, f: Frame): seq<Frame>
    requires 0 < size
  {
    if |q| == size then [f] + q[..size - 1] else [f] + q
  }

  /** Enqueuing keeps the newest frames that fit, putting back keeps the oldest. */
  lemma OverflowRules(q: seq<Frame>, size: nat, f: Frame)
    requires |q| <= size && 0 < size
    ensures Enqueued(q, size, f) == (q + [f])[Max(0, |q| + 1 - size)..]
    ensures PushedFront(q, size, f) == ([f] + q)[..Min(size, |q| + 1)]
  {
  }

  // ---- the queue, in place -----------------------------------------------------------------------

  class PhoneApi {
    const queue: array<Frame>
    const gen: H.Generator
    var head: nat
    var tail: nat
    var count: nat
    var current: Frame
    var currentValid: bool

    ghost predicate Valid()
      reads this, queue, gen
    {
      RingOk() && gen.Valid()
    }

    /** In particular head == (tail + count) % size. */
    ghost predicate RingOk()
      reads this
    {
      && 0 < queue.Length
      && head < queue.Length && tail < queue.Length && count <= queue.Length
      && head == Wrap(tail + count, queue.Length)
    }

    ghost function Contents(): seq<Frame>
      requires RingOk()
      reads this, queue
    {
      Unroll(queue[..], tail, count)
    }

    /** Everything still to come: the queue, then the rest of the handshake. */
    ghost function Stream(): seq<Frame>
      requires Valid()
      reads this, queue, gen
    {
      Contents() + Configs(Upcoming())
    }

    ghost function Upcoming(): seq<H.Item>
      requires gen.Valid()
      reads gen
    {
      H.Remaining(gen.nonce, gen.Pos(), gen.has)
    }

    constructor (queue: array<Frame>, gen: H.Generator)
      requires 0 < queue.Length && gen.Valid()
      ensures this.queue == queue && this.gen == gen && Valid() && Contents() == [] && !currentValid
    {
      this.queue, this.gen := queue, gen;
      head, tail, count := 0, 0, 0;
      current, currentValid := Radio([]), false;
    }

    /** `meshtastic_phoneapi_enqueue_fromradio`, past the encoding. */
    method Enqueue(f: Frame)
      requires Valid()
      modifies this, queue
      ensures Valid() && Contents() == Enqueued(old(Contents()), queue.Length, f)
      ensures current == old(current) && currentValid == old(currentValid)
    {
      hide Unroll, Wrap, H.Generator.Valid, H.Remaining;
      if count == queue.Length {
        var _ := TakeOldest();
      }
      Append(f);
    }

    method Append(f: Frame)
      requires Valid() && count < queue.Length
      modifies this, queue
      ensures Valid() && Contents() == old(Contents()) + [f]
      ensures current == old(current) && currentValid == old(currentValid)
    {
      hide Unroll, Wrap, H.Generator.Valid, H.Remaining;
      AppendNewest(queue[..], tail, count, f);
      ghost var cells := queue[..];
      queue[head] := f;
      assert queue[..] == cells[head := f];
      head := StepOn(head, queue.Length);
      count := count + 1;
    }

    /** `meshtastic_phoneapi_push_frame_front` */
    method PushFront(f: Frame)
      requires Valid()
      modifies this, queue
      ensures Valid() && Contents() == PushedFront(old(Contents()), queue.Length, f)
      ensures current == old(current) && currentValid == old(currentValid)
    {
      hide Unroll, Wrap, H.Generator.Valid, H.Remaining;
      if count == queue.Length {
        DropNewest(queue[..], tail, count);
        head := StepBack(head, queue.Length);
        count := count - 1;
      }
      Prepend(f);
    }

    method Prepend(f: Frame)
      requires Valid() && count < queue.Length
      modifies this, queue
      ensures Valid() && Contents() == [f] + old(Contents())
      ensures current == old(current) && currentValid == old(currentValid)
    {
      hide Unroll, Wrap, H.Generator.Valid, H.Remaining;
      PrependOldest(queue[..], tail, count, f);
      ghost var cells := queue[..];
      tail := StepBack(tail, queue.Length);
      queue[tail] := f;
      assert queue[..] == cells[tail := f];
      count := count + 1;
    }

    method TakeOldest() returns (f: Frame)
      requires Valid() && count > 0
      modifies this
      ensures Valid() && f == old(Contents())[0] && Contents() == old(Contents())[1..]
      ensures current == old(current) && currentValid == old(currentValid)
    {
      DropOldest(queue[..], tail, count);
      f := queue[tail];
      tail := StepOn(tail, queue.Length);
      count := count - 1;
    }

    /** `meshtastic_phoneapi_pop_frame`: the queue first, then the handshake. */
    method Pop(encodes: bool) returns (r: Option<Frame>)
      requires Valid()
      modifies this, gen
      ensures Valid() && current == old(current) && currentValid == old(currentValid)
      ensures r.Some? ==>
        old(Stream()) != [] && r.value == old(Stream())[0] && Stream() == old(Stream())[1..]
      ensures r.None? ==> Stream() == old(Stream()) && count == 0 && (encodes ==> Stream() == [])
      ensures old(count) > 0 ==> r == Some(old(Contents())[0])
      ensures old(count) > 0 ==> Upcoming() == old(Upcoming()) && Contents() == old(Contents())[1..]
      ensures old(count) == 0 ==> Contents() == []
      ensures gen.nonce == old(gen.nonce) && gen.requested == old(gen.requested)
    {
      hide Unroll, Wrap, H.Generator.Valid, H.Remaining, Configs;
      ghost var stream := Stream();
      if count == 0 {
        r := Generate(encodes);
        return;
      }
      ghost var rest := Upcoming();
      var f := TakeOldest();
      assert Upcoming() == rest;
      assert Stream() == stream[1..];
      r := Some(f);
    }

    /** One handshake frame, when the queue is empty. */
    method Generate(encodes: bool) returns (r: Option<Frame>)
      requires Valid() && count == 0
      modifies gen
      ensures Valid() && count == 0 && Contents() == []
      ensures r.Some? ==>
        old(Stream()) != [] && r.value == old(Stream())[0] && Stream() == old(Stream())[1..]
      ensures r.None? ==> Stream() == old(Stream()) && (encodes ==> Stream() == [])
      ensures gen.nonce == old(gen.nonce) && gen.requested == old(gen.requested)
    {
      ghost var items := Upcoming();
      RemainingFrom(gen.nonce, gen.Pos(), gen.has);
      hide H.Remaining, H.NextPos;
      var item := gen.Next(encodes);
      if item.None? {
        return None;
      }
      assert items[0] == item.value && Upcoming() == items[1..];
      r := Some(Config(item.value));
    }

    /** `meshtastic_phoneapi_current_frame`: stage a frame and keep returning it. */
    method CurrentFrame(encodes: bool) returns (r: Option<Frame>)
      requires Valid()
      modifies this, gen
      ensures Valid() && Undelivered() == old(Undelivered())
      ensures r.Some? ==> currentValid && r.value == current == Undelivered()[0]
      ensures old(currentValid) ==> r == Some(old(current))
      ensures r.None? ==> !currentValid && (encodes ==> Undelivered() == [])
      ensures gen.nonce == old(gen.nonce) && gen.requested == old(gen.requested)
    {
      hide Unroll, Wrap, H.Generator.Valid, H.Remaining, Configs;
      if currentValid {
        return Some(current);
      }
      r := Pop(encodes);
      if r.None? {
        return;
      }
      ghost var rest := Stream();
      current, currentValid := r.value, true;
      assert Stream() == rest;
    }

    /** What the client has not been given for good. */
    ghost function Undelivered(): seq<Frame>
      requires Valid()
      reads this, queue, gen
    {
      (if currentValid then [current] else []) + Stream()
    }

    /** `meshtastic_phoneapi_release_current_frame` */
    method Release()
      requires Valid()
      modifies this
      ensures Valid() && !currentValid && Stream() == old(Stream())
    {
      currentValid := false;
    }

    /** `meshtastic_phoneapi_enqueue_phone_config`: forget everything, start the handshake. */
    method WantConfig(nonce: nat)
      requires Valid()
      modifies this, gen
      ensures Valid() && !currentValid && Contents() == []
      ensures Upcoming() == H.Remaining(nonce, 0, gen.has)
      ensures gen.requested && gen.nonce == nonce
    {
      head, tail, count := 0, 0, 0;
      currentValid := false;
      gen.Request(nonce);
    }

    /** `meshtastic_phoneapi_reset` */
    method Reset()
      requires Valid()
      modifies this, gen
      ensures Valid() && Undelivered() == [] && !gen.requested
    {
      head, tail, count := 0, 0, 0;
      currentValid := false;
      gen.Reset();
    }
  }

  function Configs(items: seq<H.Item>): (r: seq<Frame>)
    ensures |r| == |items| && forall i :: 0 <= i < |items| ==> r[i] == Config(items[i])
  {
    seq(|items|, i requires 0 <= i < |items| => Config(items[i]))
  }

  lemma RemainingFrom(nonce: nat, pos: nat, has: H.Item -> bool)
    requires pos <= H.SCRIPT_LEN
    ensures var p := H.NextPos(nonce, pos, has);
      if p == H.SCRIPT_LEN then H.Remaining(nonce, pos, has) == []
      else H.Remaining(nonce, pos, has) == [H.ItemAt(nonce, p)] + H.Remaining(nonce, p + 1, has)
  {
  }

  /** What one call undoes of another: a popped frame can be put back. */
  lemma PopThenPushFront(q: seq<Frame>, size: nat)
    requires 0 < |q| <= size
    ensures PushedFront(q[1..], size, q[0]) == q
  {
  }

  // ---- the serial transmit loop --------------------------------------------------------------------

  /** The bytes a list of frames becomes on the serial line. */
  function OnTheLine(frames: seq<Frame>, bytes: Frame -> S.Bytes): S.Bytes {
    if frames == [] then [] else S.Encode(bytes(frames[0])) + OnTheLine(frames[1..], bytes)
  }

  /** What the transmit ring holds when no more whole frames fit. */
  function Pumped(frames: seq<Frame>, tx: S.Bytes, capacity: nat, bytes: Frame -> S.Bytes): S.Bytes
    decreases |frames|
  {
    if frames == [] then tx
    else
      var wire := S.Encode(bytes(frames[0]));
      if |tx| + |wire| > capacity then tx else Pumped(frames[1..], tx + wire, capacity, bytes)
  }

  lemma {:induction false} PumpedGrows(frames: seq<Frame>, tx: S.Bytes, capacity: nat, bytes: Frame -> S.Bytes)
    ensures tx <= Pumped(frames, tx, capacity, bytes)
    decreases |frames|
  {
    if frames != [] {
      PumpedGrows(frames[1..], tx + S.Encode(bytes(frames[0])), capacity, bytes);
    }
  }

  /** From an empty ring something is always sent. */
  ghost predicate AlwaysProgresses(capacity: nat) {
    forall frames: seq<Frame>, bytes: Frame -> S.Bytes ::
      frames != [] && (forall f :: |bytes(f)| <= S.FRAME_MAX) ==> Pumped(frames, [], capacity, bytes) != []
  }

  /**
    A frame can be popped and put back for ever, with everything behind it, exactly when the transmit
    ring is smaller than the largest frame, although the build options allow rings from 256 bytes on.
   */
  lemma PumpProgressesIff(capacity: nat)
    ensures AlwaysProgresses(capacity) <==> capacity >= S.WIRE_MAX
  {
    if capacity >= S.WIRE_MAX {
      forall frames: seq<Frame>, bytes: Frame -> S.Bytes | frames != [] && forall f :: |bytes(f)| <= S.FRAME_MAX
        ensures Pumped(frames, [], capacity, bytes) != []
      {
        var wire := S.Encode(bytes(frames[0]));
        assert [] + wire == wire;
        PumpedGrows(frames[1..], wire, capacity, bytes);
      }
    } else {
      var largest: S.Bytes := Repeat(0, S.FRAME_MAX);
      var bytes := (f: Frame) => largest;
      assert |S.Encode(largest)| == S.WIRE_MAX;
      assert Pumped([Radio([])], [], capacity, bytes) == [];
    }
  }

  /**
    `tx_work_handler`: pop, frame, queue for the UART; when the transmit ring is short of room, put
    the frame back and stop.  Nothing is lost, repeated or reordered: what is on the line already and
    what is still to come always make up the same byte stream.
   */
  method Pump(api: PhoneApi, bytes: Frame -> S.Bytes, tx: S.Bytes, capacity: nat, encodes: nat -> bool)
    returns (tx': S.Bytes)
    requires api.Valid() && |tx| <= capacity && forall f :: |bytes(f)| <= S.FRAME_MAX
    modifies api, api.queue, api.gen
    ensures api.Valid() && tx <= tx' && |tx'| <= capacity
    ensures tx' + OnTheLine(api.Stream(), bytes) == tx + OnTheLine(old(api.Stream()), bytes)
    ensures (forall i :: encodes(i)) ==> tx' == Pumped(old(api.Stream()), tx, capacity, bytes)
  {
    hide Unroll, Wrap, H.Generator.Valid, H.Remaining, Configs, S.Encode, PhoneApi.Stream;
    tx' := tx;
    ghost var all := tx + OnTheLine(api.Stream(), bytes);
    ghost var goal := Pumped(api.Stream(), tx, capacity, bytes);
    var i := 0;
    while true
      invariant api.Valid() && tx <= tx' && |tx'| <= capacity
      invariant tx' + OnTheLine(api.Stream(), bytes) == all
      invariant (forall i :: encodes(i)) ==> Pumped(api.Stream(), tx', capacity, bytes) == goal
      decreases |api.Stream()|
    {
      ghost var stream := api.Stream();
      var f := api.Pop(encodes(i));
      i := i + 1;
      if f.None? {
        break;
      }
      var wire := S.Encode(bytes(f.value));
      assert stream == [f.value] + api.Stream();
      if capacity - |tx'| < |wire| {
        PutBack(api, f.value);
        break;
      }
      tx' := tx' + wire;
    }
  }

  /** Right after a pop there is room to put the frame back. */
  method PutBack(api: PhoneApi, f: Frame)
    requires api.Valid() && api.count < api.queue.Length
    modifies api, api.queue
    ensures api.Valid() && api.Stream() == [f] + old(api.Stream())
    ensures api.Contents() == PushedFront(old(api.Contents()), api.queue.Length, f)
  {
    hide Unroll, Wrap, H.Generator.Valid, H.Remaining, Configs;
    ghost var rest := api.Upcoming();
    ghost var q := api.Contents();
    api.PushFront(f);
    assert api.Upcoming() == rest;
    assert api.Contents() == [f] + q;
  }

  /** A pop, then a push-front: everything still to come is as before, and so is the queue it came from. */
  method PopAndPutBack(api: PhoneApi, encodes: bool)
    requires api.Valid()
    modifies api, api.queue, api.gen
    ensures api.Valid() && api.Stream() == old(api.Stream())
    ensures old(api.count) > 0 ==> api.Contents() == old(api.Contents())
  {
    hide Unroll, Wrap, H.Generator.Valid, H.Remaining, Configs, PhoneApi.Stream;
    ghost var q, stream := api.Contents(), api.Stream();
    var f := api.Pop(encodes);
    if f.Some? {
      assert stream == [f.value] + stream[1..];
      if q != [] {
        PopThenPushFront(q, api.queue.Length);
      }
      PutBack(api, f.value);
    }
  }

  // ---- any use of the queue ---------------------------------------------------------------------------

  datatype Use =
    | Enqueue(frame: Frame) | PushFront(frame: Frame) | Pop(encodes: bool) | Stage(encodes: bool) | LetGo
    | WantConfig(nonce: nat) | Disconnect

  /** The nonce of the last request not followed by a reset. */
  function Asked(uses: seq<Use>, start: Option<nat>): Option<nat> {
    if uses == [] then start
    else
      var last := uses[|uses| - 1];
      if last.WantConfig? then Some(last.nonce)
      else if last.Disconnect? then None
      else Asked(uses[..|uses| - 1], start)
  }

  /** The generator is in the state a request with this nonce, or none, has put it in. */
  ghost predicate Serves(g: H.Generator, nonce: Option<nat>)
    reads g
  {
    if nonce.Some? then g.requested && g.nonce == nonce.value else !g.requested
  }

  /**
    Whatever is done with the queue, in any order: what has been generated since the last request
    follows the one script, ends with the completion that carries that request's nonce, and only then;
    and nothing was generated without a request.
   */
  method Drive(api: PhoneApi, uses: seq<Use>, ghost start: Option<nat>)
    requires api.Valid() && Serves(api.gen, start)
    modifies api, api.queue, api.gen
    ensures api.Valid() && Serves(api.gen, Asked(uses, start))
    ensures Asked(uses, start).None? ==> api.gen.generated == []
    ensures Asked(uses, start).Some? ==>
      H.FollowsScript(api.gen.generated, Asked(uses, start).value, api.gen.has, api.gen.stage == H.IDLE)
  {
    for i := 0 to |uses|
      invariant api.Valid() && Serves(api.gen, Asked(uses[..i], start))
    {
      assert uses[..i + 1][..i] == uses[..i];
      Apply(api, uses[i]);
    }
    assert uses[..|uses|] == uses;
    if api.gen.requested {
      H.GeneratedIsPrefix(api.gen);
    }
  }

  method Apply(api: PhoneApi, use: Use)
    requires api.Valid()
    modifies api, api.queue, api.gen
    ensures api.Valid()
    ensures match use
      case WantConfig(nonce) => Serves(api.gen, Some(nonce))
      case Disconnect => Serves(api.gen, None)
      case _ => api.gen.nonce == old(api.gen.nonce) && api.gen.requested == old(api.gen.requested)
  {
    hide Unroll, Wrap, H.Generator.Valid, H.Remaining, Configs, PhoneApi.Stream, PhoneApi.Contents;
    match use {
      case Enqueue(f) => api.Enqueue(f);
      case PushFront(f) => api.PushFront(f);
      case Pop(encodes) => var _ := api.Pop(encodes);
      case Stage(encodes) => var _ := api.CurrentFrame(encodes);
      case LetGo => api.Release();
      case WantConfig(nonce) => api.WantConfig(nonce);
      case Disconnect => api.Reset();
    }
  }
}
