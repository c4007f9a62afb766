/**
  The wire format: the 16-byte header, per-channel encryption in counter mode (section 6.5 of
  NIST SP 800-38A) and trial decryption over the channel table (src/meshtastic_packet.c).

  The AES keystream and the protobuf codec are libraries; they appear as parameters, and what
  is assumed of them is `Env.Lawful`.
 */
module Wire {
  import opened Options
  import opened Channels

  const HDR_LEN := 16
  const PKT_MAX := 255
  const PAYLOAD_MAX := 239
  const MAX_PAYLOAD_LEN := 233

  const HOP_LIMIT_MASK: bv8 := 0x07
  const WANT_ACK: bv8 := 0x08
  const VIA_MQTT: bv8 := 0x10
  const HOP_START_MASK: bv8 := 0xE0

  type Bytes = seq<bv8>

  /** The protobuf Data message. */
  datatype Data = Data(portnum: bv32, payload: Bytes, wantResponse: bool, dest: bv32, source: bv32,
                       requestId: bv32, replyId: bv32)

  datatype Header = Header(dest: bv32, src: bv32, id: bv32, flags: bv8, channel: bv8, nextHop: bv8, relayNode: bv8)

  datatype Packet = Packet(from: bv32, to: bv32, id: bv32, data: Data, hopLimit: bv8, hopStart: bv8, channel: bv8,
                           channelIndex: nat, nextHop: bv8, relayNode: bv8, wantAck: bool, viaMqtt: bool)

  /** What the code finds around it: the channel table and the two libraries. */
  datatype Env = Env(
    table: Table,
    keystream: (Bytes, Bytes, nat) -> bv8,      // key, nonce, position
    encode: Data -> Option<Bytes>,
    decode: Bytes -> Option<Data>,
    knows: bv32 -> bool,                        // sender allowed by the rebroadcast mode
    peer: bv32 -> Option<nat>)                  // slot on record for a destination
  {
    /** Encoding fits the buffer, decoding inverts it, and a non-zero port makes it non-empty. */
    ghost predicate Lawful() {
      && Consistent(table)
      && forall d :: encode(d).Some? ==>
           && |encode(d).value| <= PAYLOAD_MAX
           && decode(encode(d).value) == Some(d)
           && (d.portnum != 0 ==> |encode(d).value| > 0)
    }
  }

  // ---- header ----------------------------------------------------------------------------------

  function Le32(x: bv32): (b: Bytes)
    ensures |b| == 4
  {
    [(x & 0xFF) as bv8, ((x >> 8) & 0xFF) as bv8, ((x >> 16) & 0xFF) as bv8, ((x >> 24) & 0xFF) as bv8]
  }

  function FromLe32(b: Bytes): bv32
    requires |b| == 4
  {
    (b[0] as bv32) | ((b[1] as bv32) << 8) | ((b[2] as bv32) << 16) | ((b[3] as bv32) << 24)
  }

  lemma Le32RoundTrip(x: bv32)
    ensures FromLe32(Le32(x)) == x
  {
  }

  function Flags(hopLimit: bv8, hopStart: bv8, wantAck: bool, viaMqtt: bool): bv8 {
    (hopLimit & HOP_LIMIT_MASK) | ((hopStart & 0x07) << 5)
    | (if wantAck then WANT_ACK else 0) | (if viaMqtt then VIA_MQTT else 0)
  }

  function HopLimit(flags: bv8): bv8 { flags & HOP_LIMIT_MASK }
  function HopStart(flags: bv8): bv8 { (flags & HOP_START_MASK) >> 5 }
  function WantsAck(flags: bv8): bool { flags & WANT_ACK != 0 }
  function ViaMqtt(flags: bv8): bool { flags & VIA_MQTT != 0 }

  lemma FlagsRoundTrip(hopLimit: bv8, hopStart: bv8, wantAck: bool, viaMqtt: bool)
    requires hopLimit <= 7 && hopStart <= 7
    ensures var f := Flags(hopLimit, hopStart, wantAck, viaMqtt);
      HopLimit(f) == hopLimit && HopStart(f) == hopStart && WantsAck(f) == wantAck && ViaMqtt(f) == viaMqtt
  {
  }

  function HeaderBytes(h: Header): (b: Bytes)
    ensures |b| == HDR_LEN
  {
    Le32(h.dest) + Le32(h.src) + Le32(h.id) + [h.flags, h.channel, h.nextHop, h.relayNode]
  }

  function ParseHeader(b: Bytes): Header
    requires |b| >= HDR_LEN
  {
    Header(FromLe32(b[0..4]), FromLe32(b[4..8]), FromLe32(b[8..12]), b[12], b[13], b[14], b[15])
  }

  lemma HeaderRoundTrip(h: Header, rest: Bytes)
    ensures ParseHeader(HeaderBytes(h) + rest) == h
  {
    hide Le32, FromLe32;
    var (x, y, z, tail) := (Le32(h.dest), Le32(h.src), Le32(h.id), [h.flags, h.channel, h.nextHop, h.relayNode]);
    var b := HeaderBytes(h) + rest;
    assert b == x + y + z + (tail + rest);
    Words(x, y, z, tail + rest);
    assert b[12] == h.flags && b[13] == h.channel && b[14] == h.nextHop && b[15] == h.relayNode;
    Le32RoundTrip(h.dest);
    Le32RoundTrip(h.src);
    Le32RoundTrip(h.id);
  }

  lemma Words(x: Bytes, y: Bytes, z: Bytes, rest: Bytes)
    requires |x| == |y| == |z| == 4
    ensures var b := x + y + z + rest; b[0..4] == x && b[4..8] == y && b[8..12] == z
  {
    var b := x + y + z + rest;
    forall k | 0 <= k < 4
      ensures b[k] == x[k] && b[4 + k] == y[k] && b[8 + k] == z[k]
    {
    }
    assert b[4..8] == y;
    assert b[8..12] == z;
  }

  /** What a relay puts on the air: one hop less in the flags byte, every other byte untouched. */
  function RelayBytes(b: Bytes): Bytes
    requires |b| >= HDR_LEN && HopLimit(b[12]) != 0
  {
    b[12 := (b[12] & !HOP_LIMIT_MASK) | ((HopLimit(b[12]) - 1) & HOP_LIMIT_MASK)]
  }

  lemma RelayTakesOneHop(b: Bytes)
    requires |b| >= HDR_LEN && HopLimit(b[12]) != 0
    ensures var (h, r) := (ParseHeader(b), ParseHeader(RelayBytes(b)));
      && r == h.(flags := r.flags) && RelayBytes(b)[HDR_LEN..] == b[HDR_LEN..]
      && HopLimit(r.flags) == HopLimit(h.flags) - 1 && HopStart(r.flags) == HopStart(h.flags)
      && WantsAck(r.flags) == WantsAck(h.flags) && ViaMqtt(r.flags) == ViaMqtt(h.flags)
  {
    var w := RelayBytes(b);
    assert w[0..4] == b[0..4] && w[4..8] == b[4..8] && w[8..12] == b[8..12];
    FlagsAfterRelay(b[12]);
  }

  lemma FlagsAfterRelay(f: bv8)
    requires HopLimit(f) != 0
    ensures var r := (f & !HOP_LIMIT_MASK) | ((HopLimit(f) - 1) & HOP_LIMIT_MASK);
      && HopLimit(r) == HopLimit(f) - 1 && HopStart(r) == HopStart(f)
      && WantsAck(r) == WantsAck(f) && ViaMqtt(r) == ViaMqtt(f)
  {
  }

  // ---- encryption ------------------------------------------------------------------------------

  function Nonce(from: bv32, id: bv32): Bytes {
    Le32(id) + [0, 0, 0, 0] + Le32(from) + [0, 0, 0, 0]
  }

  /** Counter mode; an empty key leaves the bytes in clear. */
  function Crypt(env: Env, key: Bytes, from: bv32, id: bv32, bytes: Bytes): (r: Bytes)
    ensures |r| == |bytes|
  {
    if key == [] then bytes
    else seq(|bytes|, i requires 0 <= i < |bytes| => bytes[i] ^ env.keystream(key, Nonce(from, id), i))
  }

  /** The counter block behind byte `i` of a frame: the nonce with the block number in its last byte. */
  function CounterBlock(from: bv32, id: bv32, i: nat): Bytes
    requires i < PAYLOAD_MAX
  {
    Nonce(from, id)[..15] + [(i / 16) as bv8]
  }

  lemma BlockParts(from: bv32, id: bv32, i: nat)
    requires i < PAYLOAD_MAX
    ensures var b := CounterBlock(from, id, i);
      |b| == 16 && b[0..4] == Le32(id) && b[8..12] == Le32(from) && b[15] as nat == i / 16
  {
    hide Le32;
    var b := CounterBlock(from, id, i);
    assert b[0..4] == Le32(id);
    var low, high := Le32(id) + [0, 0, 0, 0], Le32(from) + [0, 0, 0, 0];
    assert Nonce(from, id) == low + high && |low| == 8;
    var w := b[8..12];
    forall k | 0 <= k < 4
      ensures w[k] == high[k]
    {
      assert w[k] == b[8 + k] == (low + high)[8 + k];
    }
    assert w == high[..4];
    assert b[15] == (i / 16) as bv8;
  }

  /** No two packets, and no two blocks of one packet, ever share a counter block. */
  lemma CounterBlocksDiffer(from: bv32, id: bv32, i: nat, from': bv32, id': bv32, j: nat)
    requires i < PAYLOAD_MAX && j < PAYLOAD_MAX
    ensures CounterBlock(from, id, i) == CounterBlock(from', id', j) <==> from == from' && id == id' && i / 16 == j / 16
  {
    var (a, b) := (CounterBlock(from, id, i), CounterBlock(from', id', j));
    BlockParts(from, id, i);
    BlockParts(from', id', j);
    hide CounterBlock, Le32, FromLe32;
    if a == b {
      Le32RoundTrip(id);
      Le32RoundTrip(id');
      Le32RoundTrip(from);
      Le32RoundTrip(from');
    }
  }

  lemma XorTwice(a: bv8, k: bv8)
    ensures (a ^ k) ^ k == a
  {
  }

  lemma CryptInverts(env: Env, key: Bytes, from: bv32, id: bv32, bytes: Bytes)
    ensures Crypt(env, key, from, id, Crypt(env, key, from, id, bytes)) == bytes
  {
    var once := Crypt(env, key, from, id, bytes);
    var twice := Crypt(env, key, from, id, once);
    if key != [] {
      forall i | 0 <= i < |bytes|
        ensures twice[i] == bytes[i]
      {
        XorTwice(bytes[i], env.keystream(key, Nonce(from, id), i));
      }
    }
  }

  // ---- building --------------------------------------------------------------------------------

  function SendSlot(env: Env, p: Packet): nat
    requires env.table.Shaped()
  {
    ResolveSendIndex(env.table, p.to as nat, p.channelIndex, p.channel, env.peer(p.to))
  }

  function HeaderOf(env: Env, p: Packet): Header
    requires Consistent(env.table)
  {
    ResolvedIsUsable(env.table, p.to as nat, p.channelIndex, p.channel, env.peer(p.to));
    Header(p.to, p.from, p.id, Flags(p.hopLimit, p.hopStart, p.wantAck, p.viaMqtt),
           env.table.hashes[SendSlot(env, p)], p.nextHop, p.relayNode)
  }

  /** `meshtastic_build_wire_packet` */
  function Build(env: Env, p: Packet): (r: Result<Bytes>)
    requires Consistent(env.table)
  {
    if |p.data.payload| > MAX_PAYLOAD_LEN then Err(EINVAL)
    else
      var plain := env.encode(p.data);
      var key := GetKey(env.table, SendSlot(env, p));
      if plain.None? then Err(ENOMEM)
      else if key.Err? then Err(key.errno)
      else Ok(HeaderBytes(HeaderOf(env, p)) + Crypt(env, key.value, p.from, p.id, plain.value))
  }

  /** Copies `bytes` into `out` from position `at` on. */
  method CopyInto(out: array<bv8>, at: nat, bytes: Bytes)
    requires at + |bytes| <= out.Length
    modifies out
    ensures out[..] == old(out[..at]) + bytes + old(out[at + |bytes|..])
  {
    for i := 0 to |bytes|
      invariant forall k :: 0 <= k < out.Length ==>
        out[k] == if at <= k < at + i then bytes[k - at] else old(out[k])
    {
      out[at + i] := bytes[i];
    }
  }

  /** The same, filling the caller's buffer field by field. */
  method BuildInto(env: Env, p: Packet, out: array<bv8>) returns (r: Result<nat>)
    requires env.Lawful() && out.Length >= PKT_MAX
    modifies out
    ensures r.Ok? <==> Build(env, p).Ok?
    ensures r.Ok? ==> r.value <= out.Length && out[..r.value] == Build(env, p).value
    ensures r.Ok? ==> out[r.value..] == old(out[..])[r.value..]
    ensures r.Err? ==> out[..] == old(out[..]) && r.errno == Build(env, p).errno
  {
    hide GetKey, ResolveSendIndex, Crypt, HeaderBytes;
    if |p.data.payload| > MAX_PAYLOAD_LEN {
      return Err(EINVAL);
    }
    var plain := env.encode(p.data);
    if plain.None? {
      return Err(ENOMEM);
    }
    var key := GetKey(env.table, SendSlot(env, p));
    if key.Err? {
      return Err(key.errno);
    }
    var enc := Crypt(env, key.value, p.from, p.id, plain.value);
    var header := HeaderBytes(HeaderOf(env, p));
    ghost var was := out[..];
    CopyInto(out, 0, header);
    assert out[..] == header + was[HDR_LEN..];
    CopyInto(out, HDR_LEN, enc);
    var n := HDR_LEN + |enc|;
    Joined(header, enc, was, out[..]);
    return Ok(n);
  }

  lemma Joined(header: Bytes, enc: Bytes, was: Bytes, now: Bytes)
    requires |header| + |enc| <= |was|
    requires var mid := header + was[|header|..]; now == mid[..|header|] + enc + mid[|header| + |enc|..]
    ensures var n := |header| + |enc|; now[..n] == header + enc && now[n..] == was[n..]
  {
    var mid := header + was[|header|..];
    assert mid[..|header|] == header;
    assert mid[|header| + |enc|..] == was[|header| + |enc|..];
  }

  // ---- decoding --------------------------------------------------------------------------------

  /** `decrypt_mesh_encrypted_key`, for one key. */
  function Open(env: Env, key: Bytes, from: bv32, id: bv32, enc: Bytes): Result<Data> {
    if enc == [] || |enc| > PAYLOAD_MAX || |key| !in {0, 16, 32} then Err(EINVAL)
    else
      var data := env.decode(Crypt(env, key, from, id, enc));
      if data.None? || data.value.portnum == 0 then Err(EIO) else Ok(data.value)
  }

  /** Slot `ch` is enabled, carries this hash, has a key, and that key opens the bytes. */
  predicate Accepts(env: Env, hash: bv8, from: bv32, id: bv32, enc: Bytes, ch: nat)
    requires Consistent(env.table) && ch < MAX_CHANNELS
  {
    && env.table.slots[ch].role != DISABLED
    && env.table.hashes[ch] == hash
    && GetKey(env.table, ch).Ok?
    && Open(env, GetKey(env.table, ch).value, from, id, enc).Ok?
  }

  /** The first accepting slot at or after `ch`, or MAX_CHANNELS. */
  function FirstAccepting(env: Env, hash: bv8, from: bv32, id: bv32, enc: Bytes, ch: nat): (r: nat)
    requires Consistent(env.table) && ch <= MAX_CHANNELS
    ensures ch <= r <= MAX_CHANNELS
    ensures r < MAX_CHANNELS ==> Accepts(env, hash, from, id, enc, r)
    ensures forall j :: ch <= j < r ==> !Accepts(env, hash, from, id, enc, j)
    decreases MAX_CHANNELS - ch
  {
    if ch == MAX_CHANNELS || Accepts(env, hash, from, id, enc, ch) then ch
    else FirstAccepting(env, hash, from, id, enc, ch + 1)
  }

  /** The trial-decryption loop, as written. */
  method TryDecrypt(env: Env, hash: bv8, from: bv32, id: bv32, enc: Bytes)
    returns (r: Result<Data>, index: nat)
    requires Consistent(env.table)
    ensures var ch := FirstAccepting(env, hash, from, id, enc, 0);
      if ch == MAX_CHANNELS then r == Err(EBADMSG)
      else r == Open(env, GetKey(env.table, ch).value, from, id, enc) && r.Ok? && index == ch
  {
    hide Open, Crypt, GetKey;
    var ch := 0;
    while ch < MAX_CHANNELS
      invariant ch <= MAX_CHANNELS
      invariant FirstAccepting(env, hash, from, id, enc, 0) == FirstAccepting(env, hash, from, id, enc, ch)
    {
      if env.table.slots[ch].role != DISABLED && env.table.hashes[ch] == hash {
        var key := GetKey(env.table, ch);
        if key.Ok? {
          r := Open(env, key.value, from, id, enc);
          if r.Ok? {
            return r, ch;
          }
        }
      }
      ch := ch + 1;
    }
    return Err(EBADMSG), INDEX_INVALID;
  }

  /** What a receiver makes of a frame: the header always, the rest only if a key opens it. */
  datatype Decoding = HeaderOnly(header: Header) | Full(packet: Packet)

  /** `meshtastic_try_decode_wire_packet` */
  function Decode(env: Env, buf: Bytes): Result<Decoding>
    requires Consistent(env.table)
  {
    if |buf| < HDR_LEN then Err(EINVAL)
    else
      var h, enc := ParseHeader(buf), buf[HDR_LEN..];
      var ch := FirstAccepting(env, h.channel, h.src, h.id, enc, 0);
      if !env.knows(h.src) || ch == MAX_CHANNELS then Ok(HeaderOnly(h))
      else
        var data := Open(env, GetKey(env.table, ch).value, h.src, h.id, enc).value;
        if |data.payload| > MAX_PAYLOAD_LEN then Err(ENOMEM)
        else Ok(Full(Packet(h.src, h.dest, h.id, data, HopLimit(h.flags), HopStart(h.flags), h.channel, ch,
                            h.nextHop, h.relayNode, WantsAck(h.flags), ViaMqtt(h.flags))))
  }

  // ---- round trip ------------------------------------------------------------------------------

  /** The slot a packet was sent on opens what was sent. */
  lemma OwnSlotOpens(env: Env, p: Packet)
    requires env.Lawful() && p.data.portnum != 0 && Build(env, p).Ok?
    ensures var enc := Build(env, p).value[HDR_LEN..];
      && SendSlot(env, p) < MAX_CHANNELS
      && Accepts(env, HeaderOf(env, p).channel, p.from, p.id, enc, SendSlot(env, p))
      && Open(env, GetKey(env.table, SendSlot(env, p)).value, p.from, p.id, enc) == Ok(p.data)
  {
    var key := GetKey(env.table, SendSlot(env, p)).value;
    var plain := env.encode(p.data).value;
    assert Build(env, p).value[HDR_LEN..] == Crypt(env, key, p.from, p.id, plain);
    CryptInverts(env, key, p.from, p.id, plain);
  }

  /**
    Sent and decoded with the same channel table, a packet comes back whole, on the slot it was
    sent on, exactly when no lower-numbered slot accepts the bytes first.
   */
  lemma WireRoundTrip(env: Env, p: Packet)
    requires env.Lawful() && env.knows(p.from)
    requires p.data.portnum != 0 && p.hopLimit <= 7 && p.hopStart <= 7 && Build(env, p).Ok?
    ensures var (w, ch) := (Build(env, p).value, SendSlot(env, p));
      && |w| <= PKT_MAX && ch < MAX_CHANNELS
      && (Decode(env, w) == Ok(Full(p.(channel := env.table.hashes[ch], channelIndex := ch)))
          <==> forall j :: 0 <= j < ch ==> !Accepts(env, env.table.hashes[ch], p.from, p.id, w[HDR_LEN..], j))
  {
    hide Open, Crypt, GetKey, ResolveSendIndex, HeaderBytes, ParseHeader, Flags, HopLimit, HopStart, WantsAck, ViaMqtt;
    var (w, ch) := (Build(env, p).value, SendSlot(env, p));
    var h, enc := HeaderOf(env, p), w[HDR_LEN..];
    OwnSlotOpens(env, p);
    HeaderRoundTrip(h, enc);
    assert w == HeaderBytes(h) + enc;
    FlagsRoundTrip(p.hopLimit, p.hopStart, p.wantAck, p.viaMqtt);
    var first := FirstAccepting(env, h.channel, h.src, h.id, enc, 0);
    assert first <= ch;
    if first == ch {
      assert Decode(env, w) == Ok(Full(p.(channel := env.table.hashes[ch], channelIndex := ch)));
    }
  }

  // ---- the format, written out -----------------------------------------------------------------------

  /** Where every header field lies, least significant byte first. */
  lemma HeaderLayout(flags: bv8, channel: bv8, nextHop: bv8, relayNode: bv8)
    ensures HeaderBytes(Header(0x1122_3344, 0x5566_7788, 0x99aa_bbcc, flags, channel, nextHop, relayNode))
         == [0x44, 0x33, 0x22, 0x11, 0x88, 0x77, 0x66, 0x55, 0xcc, 0xbb, 0xaa, 0x99, flags, channel, nextHop, relayNode]
  {
    Le32Of(0x1122_3344, 0x44, 0x33, 0x22, 0x11);
    Le32Of(0x5566_7788, 0x88, 0x77, 0x66, 0x55);
    Le32Of(0x99aa_bbcc, 0xcc, 0xbb, 0xaa, 0x99);
    hide Le32;
  }

  lemma Le32Of(x: bv32, a: bv8, b: bv8, c: bv8, d: bv8)
    requires x == (a as bv32) | ((b as bv32) << 8) | ((c as bv32) << 16) | ((d as bv32) << 24)
    ensures Le32(x) == [a, b, c, d]
  {
  }

  /** The flags byte: hop limit in the low three bits, then the two flags, hop start in the high three. */
  lemma FlagsValue(hopLimit: bv8, hopStart: bv8, wantAck: bool, viaMqtt: bool)
    requires hopLimit <= 7 && hopStart <= 7
    ensures Flags(hopLimit, hopStart, wantAck, viaMqtt)
         == hopLimit + (if wantAck then 8 else 0) + (if viaMqtt then 16 else 0) + 32 * hopStart
  {
  }

  /** The nonce: packet id, four zero bytes, sender, four zero bytes. */
  lemma NonceLayout()
    ensures Nonce(0x1122_3344, 0x5566_7788)
         == [0x88, 0x77, 0x66, 0x55, 0, 0, 0, 0, 0x44, 0x33, 0x22, 0x11, 0, 0, 0, 0]
  {
    Le32Of(0x1122_3344, 0x44, 0x33, 0x22, 0x11);
    Le32Of(0x5566_7788, 0x88, 0x77, 0x66, 0x55);
    hide Le32;
  }

  /** With a key, plaintext and ciphertext differ by the keystream of that key and nonce; without one, not at all. */
  lemma CryptRule(env: Env, key: Bytes, from: bv32, id: bv32, bytes: Bytes, i: nat)
    requires i < |bytes|
    ensures Crypt(env, key, from, id, bytes)[i] ^ bytes[i] == if key == [] then 0 else env.keystream(key, Nonce(from, id), i)
  {
    hide Nonce;
    if key != [] {
      XorUndone(bytes[i], env.keystream(key, Nonce(from, id), i));
    } else {
      XorItself(bytes[i]);
    }
  }

  lemma XorUndone(a: bv8, k: bv8)
    ensures (a ^ k) ^ a == k
  {
  }

  lemma XorItself(a: bv8)
    ensures a ^ a == 0
  {
  }

  /** When a frame is built, and which error says why not. */
  lemma BuildRule(env: Env, p: Packet)
    requires env.Lawful()
    ensures var key := GetKey(env.table, SendSlot(env, p));
      && (|p.data.payload| > 233 ==> Build(env, p) == Err(EINVAL))
      && (|p.data.payload| <= 233 && env.encode(p.data).None? ==> Build(env, p) == Err(ENOMEM))
      && (|p.data.payload| <= 233 && env.encode(p.data).Some? && key.Err? ==> Build(env, p) == Err(key.errno))
      && (|p.data.payload| <= 233 && env.encode(p.data).Some? && key.Ok? ==>
            && Build(env, p).Ok?
            && Build(env, p).value[..16] == HeaderBytes(Header(p.to, p.from, p.id, Flags(p.hopLimit, p.hopStart, p.wantAck, p.viaMqtt),
                                                           env.table.hashes[SendSlot(env, p)], p.nextHop, p.relayNode))
            && Build(env, p).value[16..] == Crypt(env, key.value, p.from, p.id, env.encode(p.data).value))
  {
    hide GetKey, ResolveSendIndex, Crypt, HeaderBytes, Flags;
  }

  /** A slot accepts bytes under the hash in the header, if it is enabled and its key opens them to a message with a port. */
  lemma AcceptsRule(env: Env, hash: bv8, from: bv32, id: bv32, enc: Bytes, ch: nat)
    requires env.Lawful() && ch < MAX_CHANNELS
    ensures Accepts(env, hash, from, id, enc, ch) <==>
      && env.table.slots[ch].role != DISABLED && env.table.hashes[ch] == hash && GetKey(env.table, ch).Ok?
      && 0 < |enc| <= 239
      && var data := env.decode(Crypt(env, GetKey(env.table, ch).value, from, id, enc)); data.Some? && data.value.portnum != 0
  {
    hide Crypt;
  }

  /** The lowest slot that accepts the bytes behind this header. */
  predicate FirstToOpen(env: Env, h: Header, enc: Bytes, ch: nat)
    requires Consistent(env.table) && ch < MAX_CHANNELS
  {
    && Accepts(env, h.channel, h.src, h.id, enc, ch)
    && forall j :: 0 <= j < ch ==> !Accepts(env, h.channel, h.src, h.id, enc, j)
  }

  /** What a receiver makes of bytes: too short, a sender it does not open, nothing it can open, too long, or the packet. */
  lemma DecodeRule(env: Env, buf: Bytes)
    requires env.Lawful()
    ensures |buf| < 16 ==> Decode(env, buf) == Err(EINVAL)
    ensures |buf| >= 16 ==>
      var h := ParseHeader(buf);
      && (!env.knows(h.src) ==> Decode(env, buf) == Ok(HeaderOnly(h)))
      && ((forall ch :: 0 <= ch < MAX_CHANNELS ==> !Accepts(env, h.channel, h.src, h.id, buf[16..], ch)) ==>
            Decode(env, buf) == Ok(HeaderOnly(h)))
      && (forall ch :: 0 <= ch < MAX_CHANNELS && env.knows(h.src) && FirstToOpen(env, h, buf[16..], ch) ==>
              var data := Open(env, GetKey(env.table, ch).value, h.src, h.id, buf[16..]).value;
              Decode(env, buf) == if |data.payload| > 233 then Err(ENOMEM)
                                  else Ok(Full(Packet(h.src, h.dest, h.id, data, HopLimit(h.flags), HopStart(h.flags), h.channel, ch,
                                                      h.nextHop, h.relayNode, WantsAck(h.flags), ViaMqtt(h.flags)))))
  {
    if |buf| >= 16 {
      var h := ParseHeader(buf);
      var first := FirstAccepting(env, h.channel, h.src, h.id, buf[16..], 0);
      forall ch | 0 <= ch < MAX_CHANNELS && FirstToOpen(env, h, buf[16..], ch)
        ensures first == ch
      {
      }
    }
  }

  // ---- between nodes whose tables differ ----------------------------------------------------------------

  /** Two nodes with the same libraries. */
  ghost predicate SameLibraries(a: Env, b: Env) {
    && (forall key, nonce, i :: a.keystream(key, nonce, i) == b.keystream(key, nonce, i))
    && (forall bytes :: a.decode(bytes) == b.decode(bytes))
  }

  lemma SameCrypt(a: Env, b: Env, key: Bytes, from: bv32, id: bv32, bytes: Bytes)
    requires SameLibraries(a, b)
    ensures Crypt(a, key, from, id, bytes) == Crypt(b, key, from, id, bytes)
  {
    hide Nonce;
    var (x, y) := (Crypt(a, key, from, id, bytes), Crypt(b, key, from, id, bytes));
    var nonce := Nonce(from, id);
    forall i | 0 <= i < |bytes|
      ensures x[i] == y[i]
    {
      assert a.keystream(key, nonce, i) == b.keystream(key, nonce, i);
    }
  }

  /**
    A packet built with one table decodes whole with another, on a slot that has the same hash and key
    there, if no lower slot of the receiver accepts the bytes.
   */
  lemma WireAcross(a: Env, b: Env, p: Packet, j: nat)
    requires a.Lawful() && b.Lawful() && SameLibraries(a, b) && b.knows(p.from) && j < MAX_CHANNELS
    requires p.data.portnum != 0 && p.hopLimit <= 7 && p.hopStart <= 7 && Build(a, p).Ok? && SendSlot(a, p) < MAX_CHANNELS
    requires b.table.slots[j].role != DISABLED && b.table.hashes[j] == a.table.hashes[SendSlot(a, p)]
    requires GetKey(b.table, j) == GetKey(a.table, SendSlot(a, p))
    requires forall i :: 0 <= i < j ==> !Accepts(b, b.table.hashes[j], p.from, p.id, Build(a, p).value[HDR_LEN..], i)
    ensures Decode(b, Build(a, p).value) == Ok(Full(p.(channel := b.table.hashes[j], channelIndex := j)))
  {
    OwnSlotOpens(a, p);
    var (w, ch) := (Build(a, p).value, SendSlot(a, p));
    var h, enc := HeaderOf(a, p), w[HDR_LEN..];
    SameOpen(a, b, GetKey(a.table, ch).value, p.from, p.id, enc);
    HeaderRoundTrip(h, enc);
    assert w == HeaderBytes(h) + enc;
    FlagsRoundTrip(p.hopLimit, p.hopStart, p.wantAck, p.viaMqtt);
    hide Open, Crypt, GetKey, ResolveSendIndex, HeaderBytes, ParseHeader, Flags, HopLimit, HopStart, WantsAck, ViaMqtt;
    assert Accepts(b, h.channel, p.from, p.id, enc, j);
    assert FirstAccepting(b, h.channel, h.src, h.id, enc, 0) == j;
  }

  lemma SameOpen(a: Env, b: Env, key: Bytes, from: bv32, id: bv32, enc: Bytes)
    requires SameLibraries(a, b)
    ensures Open(a, key, from, id, enc) == Open(b, key, from, id, enc)
  {
    hide Crypt;
    SameCrypt(a, b, key, from, id, enc);
  }

  /** The standard key, given by its number or in full. */
  predicate StandardPsk(psk: Psk) {
    psk == [1] || WellKnown(psk)
  }

  lemma StandardSlots(t: Table, i: nat, u: Table, j: nat)
    requires Consistent(t) && Consistent(u) && i < MAX_CHANNELS && j < MAX_CHANNELS
    requires t.slots[i].role != DISABLED && u.slots[j].role != DISABLED && t.slots[i].name == u.slots[j].name
    requires StandardPsk(t.slots[i].psk) && StandardPsk(u.slots[j].psk)
    ensures GetKey(t, i) == GetKey(u, j) && GetKey(t, i).Ok? && WellKnown(GetKey(t, i).value) && t.hashes[i] == u.hashes[j]
  {
    hide GetKey, Expand, Xor, HashWith;
    StandardSlot(t, i);
    StandardSlot(u, j);
    assert GetKey(t, i) == GetKey(u, j);
    assert HashWith(t.slots[i], GetKey(t, i)) == HashWith(u.slots[j], GetKey(u, j)) by {
      SameNameHash(t.slots[i], u.slots[j], GetKey(t, i));
    }
  }

  lemma SameNameHash(a: Channel, b: Channel, key: Result<seq<bv8>>)
    requires a.hasSettings && b.hasSettings && a.name == b.name
    ensures HashWith(a, key) == HashWith(b, key)
  {
    hide Xor;
  }

  lemma StandardSlot(t: Table, i: nat)
    requires Consistent(t) && i < MAX_CHANNELS && t.slots[i].role != DISABLED && StandardPsk(t.slots[i].psk)
    ensures t.slots[i].hasSettings && GetKey(t, i).Ok? && WellKnown(GetKey(t, i).value)
    ensures t.hashes[i] == HashWith(t.slots[i], GetKey(t, i))
  {
    hide Xor, Expand, GetKey, HashOf, HashWith, WellKnown;
    assert SlotSettled(t, i);
    KeyRule(t, i);
    ExpandRule(t.slots[i].psk);
    if t.slots[i].psk == [1] {
      assert t.slots[i].psk != [];
    } else {
      FullExpand(t.slots[i].psk);
      LongPsk(t.slots[i].psk);
    }
    HashIsWith(t, i);
  }

  lemma LongPsk(psk: Psk)
    requires WellKnown(psk)
    ensures psk != []
  {
  }

  lemma FullExpand(psk: Psk)
    requires WellKnown(psk)
    ensures Expand(psk) == psk
  {
  }

  /** A sender that gives the standard key by its number and a receiver that gives it in full understand each other, either way. */
  lemma StandardKeyAcross(a: Env, b: Env, p: Packet, j: nat)
    requires a.Lawful() && b.Lawful() && SameLibraries(a, b) && b.knows(p.from) && j < MAX_CHANNELS
    requires p.data.portnum != 0 && p.hopLimit <= 7 && p.hopStart <= 7 && |p.data.payload| <= 233 && a.encode(p.data).Some?
    requires SendSlot(a, p) < MAX_CHANNELS
    requires var (s, t) := (a.table.slots[SendSlot(a, p)], b.table.slots[j]);
      s.role != DISABLED && t.role != DISABLED && s.name == t.name && StandardPsk(s.psk) && StandardPsk(t.psk)
    ensures Build(a, p).Ok?
    ensures (forall i :: 0 <= i < j ==> !Accepts(b, b.table.hashes[j], p.from, p.id, Build(a, p).value[HDR_LEN..], i)) ==>
      Decode(b, Build(a, p).value) == Ok(Full(p.(channel := b.table.hashes[j], channelIndex := j)))
  {
    hide Decode, Accepts, GetKey, ResolveSendIndex, Crypt, HeaderBytes, Flags;
    StandardSlots(a.table, SendSlot(a, p), b.table, j);
    BuildRule(a, p);
    if forall i :: 0 <= i < j ==> !Accepts(b, b.table.hashes[j], p.from, p.id, Build(a, p).value[HDR_LEN..], i) {
      WireAcross(a, b, p, j);
    }
  }

  // ---- relayed frames -------------------------------------------------------------------------------

  /** Whoever can read a frame reads the same packet in a relayed copy of it, one hop shorter. */
  lemma RelayDecodes(env: Env, b: Bytes)
    requires Consistent(env.table) && |b| >= HDR_LEN && HopLimit(b[12]) != 0
    requires Decode(env, b).Ok? && Decode(env, b).value.Full?
    ensures Decode(env, RelayBytes(b)) == Ok(Full(Decode(env, b).value.packet.(hopLimit := HopLimit(b[12]) - 1)))
    ensures Decode(env, b).value.packet.hopLimit == HopLimit(b[12])
  {
    RelayTakesOneHop(b);
    hide RelayBytes, Open, GetKey, HopLimit, HopStart, WantsAck, ViaMqtt;
  }

  /** A number of hops less, as a header field. */
  function HopsLeft(hops: bv8, k: nat): (r: bv8)
    requires hops <= 7 && k <= hops as nat
    ensures r <= hops && r as nat == hops as nat - k
  {
    if k == 0 then hops else HopsLeft(hops, k - 1) - 1
  }

  /** A frame after `k` relays. */
  function Relayed(b: Bytes, k: nat): (r: Bytes)
    requires |b| >= HDR_LEN && k <= HopLimit(b[12]) as nat
    ensures |r| == |b| && HopLimit(b[12]) <= 7 && HopLimit(r[12]) == HopsLeft(HopLimit(b[12]), k)
  {
    HopBits(b[12]);
    if k == 0 then b
    else
      var last := Relayed(b, k - 1);
      RelayTakesOneHop(last);
      RelayBytes(last)
  }

  lemma HopBits(f: bv8)
    ensures HopLimit(f) <= 7
  {
  }

  /** So after any number of relays within the hop limit, only the hop limit has changed. */
  lemma {:induction false} RelayedDecodes(env: Env, b: Bytes, k: nat)
    requires Consistent(env.table) && |b| >= HDR_LEN && k <= HopLimit(b[12]) as nat
    requires Decode(env, b).Ok? && Decode(env, b).value.Full?
    ensures HopLimit(b[12]) <= 7
    ensures Decode(env, Relayed(b, k)) == Ok(Full(Decode(env, b).value.packet.(hopLimit := HopsLeft(HopLimit(b[12]), k))))
  {
    HopBits(b[12]);
    if k == 0 {
      hide Decode, HopLimit;
      DecodedHops(env, b);
    } else {
      RelayedDecodes(env, b, k - 1);
      RelayedStep(b, k);
      RelayDecodes(env, Relayed(b, k - 1));
      hide Decode, Relayed, RelayBytes, HopsLeft, HopLimit;
    }
  }

  lemma RelayedStep(b: Bytes, k: nat)
    requires |b| >= HDR_LEN && 0 < k <= HopLimit(b[12]) as nat
    ensures HopLimit(b[12]) <= 7
    ensures var (last, hops) := (Relayed(b, k - 1), HopsLeft(HopLimit(b[12]), k - 1));
      && HopLimit(last[12]) == hops != 0 && HopsLeft(HopLimit(b[12]), k) == hops - 1
      && Relayed(b, k) == RelayBytes(last)
  {
    HopBits(b[12]);
    hide RelayBytes, HopLimit;
  }

  lemma DecodedHops(env: Env, b: Bytes)
    requires Consistent(env.table) && |b| >= HDR_LEN && Decode(env, b).Ok? && Decode(env, b).value.Full?
    ensures Decode(env, b).value.packet.hopLimit == HopLimit(b[12])
  {
    hide Open, GetKey;
  }

  /** From sender over `k` relays to receiver: the packet that was sent, `k` hops shorter. */
  lemma {:induction false} RelayedRoundTrip(env: Env, p: Packet, k: nat)
    requires env.Lawful() && env.knows(p.from)
    requires p.data.portnum != 0 && p.hopLimit <= 7 && p.hopStart <= 7 && Build(env, p).Ok? && k <= p.hopLimit as nat
    requires SendSlot(env, p) < MAX_CHANNELS
    requires var (w, ch) := (Build(env, p).value, SendSlot(env, p));
      forall j :: 0 <= j < ch ==> !Accepts(env, env.table.hashes[ch], p.from, p.id, w[HDR_LEN..], j)
    ensures var (w, ch) := (Build(env, p).value, SendSlot(env, p));
      && |w| >= HDR_LEN && HopLimit(w[12]) == p.hopLimit
      && Decode(env, Relayed(w, k))
         == Ok(Full(p.(channel := env.table.hashes[ch], channelIndex := ch, hopLimit := HopsLeft(p.hopLimit, k))))
  {
    WireRoundTrip(env, p);
    var w := Build(env, p).value;
    assert |w| >= HDR_LEN;
    DecodedHops(env, w);
    hide Decode, Build, HopLimit;
    RelayedDecodes(env, w, k);
  }

  // ---- stolen frames ------------------------------------------------------------------------------

  /** A lower slot with the same hash and the same key takes every frame away from a higher one. */
  lemma SameKeySteals(env: Env, p: Packet, j: nat)
    requires env.Lawful() && env.knows(p.from)
    requires p.data.portnum != 0 && p.hopLimit <= 7 && p.hopStart <= 7 && Build(env, p).Ok?
    requires SendSlot(env, p) < MAX_CHANNELS && j < SendSlot(env, p) && env.table.slots[j].role != DISABLED
    requires env.table.hashes[j] == env.table.hashes[SendSlot(env, p)]
    requires GetKey(env.table, j) == GetKey(env.table, SendSlot(env, p))
    ensures var (w, ch) := (Build(env, p).value, SendSlot(env, p));
      Decode(env, w) != Ok(Full(p.(channel := env.table.hashes[ch], channelIndex := ch)))
  {
    WireRoundTrip(env, p);
    OwnSlotOpens(env, p);
    hide Open, Crypt, GetKey, ResolveSendIndex, Decode;
    var (w, ch) := (Build(env, p).value, SendSlot(env, p));
    assert Accepts(env, env.table.hashes[ch], p.from, p.id, w[HDR_LEN..], j);
  }

  const TWIN := DEFAULT_SLOT.(role := SECONDARY)
  const PING := Data(1, [], false, 0, 0, 0, 0)

  /** Two slots with the default name and key, and a codec that knows one message. */
  function TwinEnv(): Env {
    Env(SetSlot(InitDefaults(), 1, TWIN).value, (k, n, i) => 0, d => if d == PING then Some([1]) else None,
        b => if b == [1] then Some(PING) else None, a => true, a => None)
  }

  lemma TwinTable()
    ensures var t := TwinEnv().table;
      && Consistent(t) && t.slots[0] == DEFAULT_SLOT && t.slots[1] == TWIN && t.primary == 0
      && GetKey(t, 0) == GetKey(t, 1) == Ok(DEFAULT_PSK) && t.hashes[0] == t.hashes[1]
  {
    InitConsistent();
    SetSlotKeeps(InitDefaults(), 1, TWIN);
    OthersStay(InitDefaults(), 1, TWIN);
    hide Xor;
    var t := TwinEnv().table;
    assert SlotSettled(t, 0) && SlotSettled(t, 1);
  }

  lemma OthersStay(t: Table, i: nat, ch: Channel)
    requires t.Shaped() && Grounded(t) && i < MAX_CHANNELS && ch.role != PRIMARY && !Diverges(t, i, ch)
    ensures var t' := SetSlot(t, i, ch).value; t'.slots == t.slots[i := Clean(ch)] && t'.primary == t.primary
  {
    hide HashOf;
  }

  /** A packet sent on slot 1 that comes back as one of slot 0. */
  lemma StolenFrame()
    ensures var env, p := TwinEnv(), Packet(2, 3, 4, PING, 3, 3, 0, 1, 0, 0, false, false);
      && env.Lawful() && env.knows(p.from) && Build(env, p).Ok? && SendSlot(env, p) == 1
      && Decode(env, Build(env, p).value) != Ok(Full(p.(channel := env.table.hashes[1], channelIndex := 1)))
  {
    var env, p := TwinEnv(), Packet(2, 3, 4, PING, 3, 3, 0, 1, 0, 0, false, false);
    TwinTable();
    hide SetSlot, GetKey, Consistent;
    assert env.encode(p.data) == Some([1]);
    assert SendSlot(env, p) == 1;
    SameKeySteals(env, p, 0);
  }
}
