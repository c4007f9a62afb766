/** The channel table: key expansion, hash index, primary slot (src/meshtastic_channels.c). */
module Channels {
  import opened Options

  const MAX_CHANNELS := 8
  const INDEX_INVALID := 255
  const BROADCAST := 0xFFFF_FFFF

  datatype Role = DISABLED | PRIMARY | SECONDARY

  /** Key material as configured; the protobuf schema allows at most 32 bytes. */
  type Psk = s: seq<bv8> | |s| <= 32

  /** A C string: no NUL inside. */
  type Name = s: seq<bv8> | 0 !in s

  datatype Channel = Channel(role: Role, hasSettings: bool, name: Name, psk: Psk, uplink: bool, downlink: bool)

  datatype Table = Table(slots: seq<Channel>, hashes: seq<bv8>, primary: nat) {
    predicate Shaped() {
      |slots| == MAX_CHANNELS && |hashes| == MAX_CHANNELS && primary < MAX_CHANNELS
    }
  }

  const DEFAULT_PSK: seq<bv8> :=
    [0xd4, 0xf1, 0xbb, 0x3a, 0x20, 0x29, 0x07, 0x59, 0xf0, 0xbc, 0xff, 0xab, 0xcf, 0x4e, 0x69, 0x01]

  const LONGFAST: Name := [0x4c, 0x6f, 0x6e, 0x67, 0x46, 0x61, 0x73, 0x74]
  const DEFAULT_NAME: Name := [0x44, 0x65, 0x66, 0x61, 0x75, 0x6c, 0x74]

  const BLANK := Channel(DISABLED, true, [], [], false, false)

  // ---- keys and hashes -------------------------------------------------------------------

  function Xor(data: seq<bv8>): bv8 {
    if data == [] then 0 else Xor(data[..|data| - 1]) ^ data[|data| - 1]
  }

  method XorBytes(data: seq<bv8>) returns (code: bv8)
    ensures code == Xor(data)
  {
    code := 0;
    for i := 0 to |data|
      invariant code == Xor(data[..i])
    {
      assert data[..i + 1][..i] == data[..i];
      code := code ^ data[i];
    }
    assert data[..|data|] == data;
  }

  /** A one-byte key selects a variation of the well-known key. */
  function ExpandShort(index: bv8): (key: seq<bv8>)
    ensures |key| == 16
  {
    if index > 1 then DEFAULT_PSK[15 := DEFAULT_PSK[15] + (index - 1)] else DEFAULT_PSK
  }

  function Pad(psk: seq<bv8>, n: nat): (key: seq<bv8>)
    requires |psk| <= n
    ensures |key| == n && psk <= key
  {
    psk + Repeat(0, n - |psk|)
  }

  /** The AES key a slot's own key material stands for; empty means cleartext. */
  function Expand(psk: Psk): (key: seq<bv8>)
    ensures |key| in {0, 16, 32}
    ensures |psk| in {16, 32} ==> key == psk
  {
    if |psk| == 0 then []
    else if |psk| == 1 then (if psk[0] == 0 then [] else ExpandShort(psk[0]))
    else if |psk| <= 16 then Pad(psk, 16)
    else Pad(psk, 32)
  }

  /** The well-known key of the Meshtastic network. */
  predicate WellKnown(key: seq<bv8>) {
    key == [0xd4, 0xf1, 0xbb, 0x3a, 0x20, 0x29, 0x07, 0x59, 0xf0, 0xbc, 0xff, 0xab, 0xcf, 0x4e, 0x69, 0x01]
  }

  /** What every key material stands for, length by length. */
  lemma ExpandRule(psk: Psk)
    ensures var key := Expand(psk);
      && (psk == [] || psk == [0] ==> key == [])
      && (psk == [1] ==> WellKnown(key))
      && (|psk| == 1 && psk[0] > 1 ==>
            |key| == 16 && WellKnown(key[..15] + [0x01]) && key[15] == 0x01 + (psk[0] - 1))
      && (2 <= |psk| <= 16 ==> |key| == 16 && key[..|psk|] == psk && forall i :: |psk| <= i < 16 ==> key[i] == 0)
      && (17 <= |psk| <= 32 ==> |key| == 32 && key[..|psk|] == psk && forall i :: |psk| <= i < 32 ==> key[i] == 0)
  {
    if |psk| == 1 && psk[0] > 1 {
      var key := Expand(psk);
      assert key[..15] + [0x01] == DEFAULT_PSK;
    }
  }

  /** A SECONDARY slot without key material uses the primary slot's key. */
  predicate Inherits(ch: Channel) {
    ch.hasSettings && ch.role == SECONDARY && ch.psk == []
  }

  /** Key lookup ends: the slot at the primary index does not look itself up. */
  predicate Grounded(t: Table)
    requires t.Shaped()
  {
    !Inherits(t.slots[t.primary])
  }

  /** `channel_get_key` */
  function GetKey(t: Table, i: nat): (r: Result<seq<bv8>>)
    requires t.Shaped() && Grounded(t)
    ensures r.Ok? ==> |r.value| in {0, 16, 32}
    ensures r.Ok? ==> i < MAX_CHANNELS && t.slots[i].role != DISABLED
    decreases i < MAX_CHANNELS && Inherits(t.slots[i])
  {
    if i >= MAX_CHANNELS then Err(EINVAL)
    else if !t.slots[i].hasSettings || t.slots[i].role == DISABLED then Err(ENOENT)
    else if Inherits(t.slots[i]) then GetKey(t, t.primary)
    else Ok(Expand(t.slots[i].psk))
  }

  /** Which slots have a key, and which. */
  lemma KeyRule(t: Table, i: nat)
    requires t.Shaped() && Grounded(t)
    ensures i >= 8 ==> GetKey(t, i) == Err(EINVAL)
    ensures i < 8 && (t.slots[i].role == DISABLED || !t.slots[i].hasSettings) ==> GetKey(t, i) == Err(ENOENT)
    ensures i < 8 && t.slots[i].role == PRIMARY && t.slots[i].hasSettings ==> GetKey(t, i) == Ok(Expand(t.slots[i].psk))
    ensures i < 8 && t.slots[i].role == SECONDARY && t.slots[i].hasSettings && t.slots[i].psk != [] ==>
      GetKey(t, i) == Ok(Expand(t.slots[i].psk))
    ensures i < 8 && t.slots[i].role == SECONDARY && t.slots[i].hasSettings && t.slots[i].psk == [] ==>
      GetKey(t, i) == GetKey(t, t.primary)
  {
  }

  /** The same lookup cut off after `depth` calls; None when it has not returned by then. */
  function GetKeyWithin(t: Table, i: nat, depth: nat): Option<Result<seq<bv8>>>
    requires t.Shaped()
    decreases depth
  {
    if depth == 0 then None
    else if i >= MAX_CHANNELS then Some(Err(EINVAL))
    else if !t.slots[i].hasSettings || t.slots[i].role == DISABLED then Some(Err(ENOENT))
    else if Inherits(t.slots[i]) then GetKeyWithin(t, t.primary, depth - 1)
    else Some(Ok(Expand(t.slots[i].psk)))
  }

  lemma {:induction false} UngroundedNeverReturns(t: Table, depth: nat)
    requires t.Shaped() && !Grounded(t)
    ensures GetKeyWithin(t, t.primary, depth) == None
  {
    if depth > 0 {
      UngroundedNeverReturns(t, depth - 1);
    }
  }

  /** The recursion runs for ever exactly on an inheriting slot of a table that is not grounded. */
  lemma KeyLookupDivergesIff(t: Table, i: nat)
    requires t.Shaped()
    ensures (forall depth: nat :: GetKeyWithin(t, i, depth) == None) <==>
      (i < MAX_CHANNELS && Inherits(t.slots[i]) && !Grounded(t))
    ensures Grounded(t) ==> GetKeyWithin(t, i, 2) == Some(GetKey(t, i))
  {
    if i < MAX_CHANNELS && Inherits(t.slots[i]) && !Grounded(t) {
      forall depth: nat ensures GetKeyWithin(t, i, depth) == None {
        if depth > 0 {
          UngroundedNeverReturns(t, depth - 1);
        }
      }
    } else {
      assert GetKeyWithin(t, i, 2) == (if i < MAX_CHANNELS && Inherits(t.slots[i])
                                       then GetKeyWithin(t, t.primary, 1) else GetKeyWithin(t, i, 1));
    }
  }

  function NameOf(ch: Channel): Name {
    if !ch.hasSettings || ch.name == [] then LONGFAST else ch.name
  }

  /** `channel_generate_hash` */
  function HashOf(t: Table, i: nat): bv8
    requires t.Shaped() && Grounded(t) && i < MAX_CHANNELS
  {
    var key := GetKey(t, i);
    if key.Err? then 0
    else Xor(NameOf(t.slots[i])) ^ (if key.value == [] then 0 else Xor(key.value))
  }

  /** The hash: the XOR of the name's bytes and the key's, LongFast standing in for no name; 0 without a key. */
  lemma HashRule(t: Table, i: nat)
    requires t.Shaped() && Grounded(t) && i < MAX_CHANNELS
    ensures GetKey(t, i).Err? ==> HashOf(t, i) == 0
    ensures GetKey(t, i).Ok? && t.slots[i].name != [] ==> HashOf(t, i) == Xor(t.slots[i].name) ^ Xor(GetKey(t, i).value)
    ensures GetKey(t, i).Ok? && t.slots[i].name == [] ==> HashOf(t, i) == Xor(LONGFAST) ^ Xor(GetKey(t, i).value)
  {
    assert GetKey(t, i).Ok? ==> t.slots[i].hasSettings;
  }

  // ---- changing the table ------------------------------------------------------------------

  function Clean(ch: Channel): Channel {
    var c := if ch.hasSettings then ch else BLANK;
    if c.name == DEFAULT_NAME then c.(name := []) else c
  }

  function Fixup(t: Table, i: nat): (t': Table)
    requires t.Shaped() && i < MAX_CHANNELS && Grounded(t.(slots := t.slots[i := Clean(t.slots[i])]))
    ensures t'.Shaped() && Grounded(t')
  {
    var u := t.(slots := t.slots[i := Clean(t.slots[i])]);
    u.(hashes := u.hashes[i := HashOf(u, i)])
  }

  /** One round of the demotion loop. */
  function DemoteOne(t: Table, keep: nat, i: nat): (t': Table)
    requires t.Shaped() && keep == t.primary && t.slots[keep].role == PRIMARY && i < MAX_CHANNELS
    ensures t'.Shaped() && t'.primary == t.primary && t'.slots[keep] == t.slots[keep]
  {
    if i != keep && t.slots[i].role == PRIMARY
    then Fixup(t.(slots := t.slots[i := t.slots[i].(role := SECONDARY)]), i)
    else t
  }

  function DemoteOthers(t: Table, keep: nat, n: nat): (t': Table)
    requires t.Shaped() && keep == t.primary && t.slots[keep].role == PRIMARY && n <= MAX_CHANNELS
    ensures t'.Shaped() && t'.primary == t.primary && t'.slots[keep] == t.slots[keep]
  {
    if n == 0 then t else DemoteOne(DemoteOthers(t, keep, n - 1), keep, n - 1)
  }

  /** Storing `ch` at `i` would make the primary slot look itself up. */
  predicate Diverges(t: Table, i: nat, ch: Channel) {
    i == t.primary && Inherits(ch)
  }

  function Place(t: Table, i: nat, ch: Channel): (t': Table)
    requires t.Shaped() && i < MAX_CHANNELS
    ensures t'.Shaped() && t'.slots[i] == ch
  {
    var u := t.(slots := t.slots[i := ch]);
    if ch.role == PRIMARY then DemoteOthers(u.(primary := i), i, MAX_CHANNELS) else u
  }

  /** `meshtastic_channels_set_slot` */
  function SetSlot(t: Table, i: nat, ch: Channel): (r: Result<Table>)
    requires t.Shaped() && Grounded(t) && (i < MAX_CHANNELS ==> !Diverges(t, i, ch))
  {
    if i >= MAX_CHANNELS then Err(EINVAL)
    else
      var u := Place(t, i, ch);
      assert u.primary == (if ch.role == PRIMARY then i else t.primary);
      Ok(Fixup(u, i))
  }

  // ---- the table's invariant -----------------------------------------------------------------

  predicate SlotSettled(t: Table, i: nat)
    requires t.Shaped() && Grounded(t) && i < MAX_CHANNELS
  {
    && t.slots[i].hasSettings && t.slots[i].name != DEFAULT_NAME
    && (!Inherits(t.slots[i]) ==> t.hashes[i] == HashOf(t, i))
  }

  /** PRIMARY only at the primary index, and every cached hash of a slot with its own key is current. */
  ghost predicate Consistent(t: Table) {
    && t.Shaped() && Grounded(t)
    && forall i :: 0 <= i < MAX_CHANNELS ==>
         SlotSettled(t, i) && (t.slots[i].role == PRIMARY ==> i == t.primary)
  }

  /** A slot with its own key has a hash that no other slot can influence. */
  lemma HashLocal(t: Table, u: Table, i: nat)
    requires t.Shaped() && Grounded(t) && u.Shaped() && Grounded(u) && i < MAX_CHANNELS
    requires t.slots[i] == u.slots[i] && !Inherits(t.slots[i])
    ensures HashOf(t, i) == HashOf(u, i)
  {
  }

  lemma FixupSettles(t: Table, i: nat)
    requires t.Shaped() && i < MAX_CHANNELS && Grounded(t.(slots := t.slots[i := Clean(t.slots[i])]))
    ensures var t' := Fixup(t, i);
      && SlotSettled(t', i) && t'.slots == t.slots[i := Clean(t.slots[i])] && t'.primary == t.primary
      && forall j :: 0 <= j < MAX_CHANNELS && j != i ==> t'.hashes[j] == t.hashes[j]
  {
    var u := t.(slots := t.slots[i := Clean(t.slots[i])]);
    if !Inherits(u.slots[i]) {
      HashLocal(u, Fixup(t, i), i);
    }
  }

  /** Everything but slot `keep` is settled. */
  ghost predicate OthersSettled(t: Table, keep: nat)
    requires t.Shaped() && Grounded(t)
  {
    forall j :: 0 <= j < MAX_CHANNELS && j != keep ==> SlotSettled(t, j)
  }

  lemma SettledStays(t: Table, u: Table, j: nat)
    requires t.Shaped() && Grounded(t) && u.Shaped() && Grounded(u) && j < MAX_CHANNELS
    requires SlotSettled(t, j) && u.slots[j] == t.slots[j] && u.hashes[j] == t.hashes[j]
    ensures SlotSettled(u, j)
  {
    if !Inherits(t.slots[j]) {
      HashLocal(t, u, j);
    }
  }

  lemma DemoteOneKeeps(t: Table, keep: nat, i: nat)
    requires t.Shaped() && keep == t.primary && t.slots[keep].role == PRIMARY && i < MAX_CHANNELS
    requires OthersSettled(t, keep)
    ensures var t' := DemoteOne(t, keep, i);
      && OthersSettled(t', keep) && (i != keep ==> t'.slots[i].role != PRIMARY)
      && forall j :: 0 <= j < MAX_CHANNELS && j != i ==> t'.slots[j] == t.slots[j]
  {
    if i != keep && t.slots[i].role == PRIMARY {
      var u := t.(slots := t.slots[i := t.slots[i].(role := SECONDARY)]);
      FixupSettles(u, i);
      forall j | 0 <= j < MAX_CHANNELS && j != keep && j != i
        ensures SlotSettled(Fixup(u, i), j)
      {
        SettledStays(t, Fixup(u, i), j);
      }
    }
  }

  lemma {:induction false} DemoteOthersKeeps(t: Table, keep: nat, n: nat)
    requires t.Shaped() && keep == t.primary && t.slots[keep].role == PRIMARY && n <= MAX_CHANNELS
    requires OthersSettled(t, keep)
    ensures var t' := DemoteOthers(t, keep, n);
      && OthersSettled(t', keep)
      && forall j :: 0 <= j < n && j != keep ==> t'.slots[j].role != PRIMARY
  {
    if n > 0 {
      DemoteOthersKeeps(t, keep, n - 1);
      DemoteOneKeeps(DemoteOthers(t, keep, n - 1), keep, n - 1);
    }
  }

  lemma PlaceKeeps(t: Table, i: nat, ch: Channel)
    requires Consistent(t) && i < MAX_CHANNELS && !Diverges(t, i, ch)
    ensures var u := Place(t, i, ch);
      && Grounded(u) && OthersSettled(u, i) && u.primary == (if ch.role == PRIMARY then i else t.primary)
      && forall j :: 0 <= j < MAX_CHANNELS && u.slots[j].role == PRIMARY ==> j == u.primary
  {
    var u := t.(slots := t.slots[i := ch], primary := if ch.role == PRIMARY then i else t.primary);
    forall j | 0 <= j < MAX_CHANNELS && j != i
      ensures SlotSettled(u, j)
    {
      SettledStays(t, u, j);
    }
    if ch.role == PRIMARY {
      DemoteOthersKeeps(u, i, MAX_CHANNELS);
    }
  }

  /** What a slot looks like once stored: blank and disabled without settings, and never called "Default". */
  lemma CleanRule(ch: Channel)
    ensures !ch.hasSettings ==> Clean(ch) == Channel(DISABLED, true, [], [], false, false)
    ensures ch.hasSettings && ch.name == [0x44, 0x65, 0x66, 0x61, 0x75, 0x6c, 0x74] ==> Clean(ch) == ch.(name := [])
    ensures ch.hasSettings && ch.name != [0x44, 0x65, 0x66, 0x61, 0x75, 0x6c, 0x74] ==> Clean(ch) == ch
  {
  }

  lemma {:induction false} DemotedExactly(t: Table, keep: nat, n: nat, j: nat)
    requires t.Shaped() && keep == t.primary && t.slots[keep].role == PRIMARY && n <= MAX_CHANNELS
    requires j < MAX_CHANNELS && j != keep
    ensures DemoteOthers(t, keep, n).slots[j]
         == if j < n && t.slots[j].role == PRIMARY then Clean(t.slots[j].(role := SECONDARY)) else t.slots[j]
  {
    if n > 0 {
      DemotedExactly(t, keep, n - 1, j);
    }
  }

  /** The whole table after an update: the slot itself, a demoted primary, and everything else as it was. */
  lemma SetSlotExactly(t: Table, i: nat, ch: Channel, j: nat)
    requires Consistent(t) && i < MAX_CHANNELS && !Diverges(t, i, ch) && j < MAX_CHANNELS
    ensures SetSlot(t, i, ch).Ok?
    ensures var t' := SetSlot(t, i, ch).value;
      && t'.primary == (if ch.role == PRIMARY then i else t.primary)
      && t'.slots[j] == if j == i then Clean(ch)
                        else if ch.role == PRIMARY && t.slots[j].role == PRIMARY then t.slots[j].(role := SECONDARY)
                        else t.slots[j]
  {
    PlaceKeeps(t, i, ch);
    assert SlotSettled(t, j);
    if ch.role == PRIMARY && j != i {
      DemotedExactly(t.(slots := t.slots[i := ch], primary := i), i, MAX_CHANNELS, j);
    }
    hide DemoteOthers, HashOf;
  }

  /** Every update that returns keeps the table consistent. */
  lemma SetSlotKeeps(t: Table, i: nat, ch: Channel)
    requires Consistent(t) && i < MAX_CHANNELS && !Diverges(t, i, ch)
    ensures SetSlot(t, i, ch).Ok? && Consistent(SetSlot(t, i, ch).value)
    ensures SetSlot(t, i, ch).value.slots[i] == Clean(ch)
  {
    hide Place;
    var u := Place(t, i, ch);
    PlaceKeeps(t, i, ch);
    FixupSettles(u, i);
    var t' := Fixup(u, i);
    forall j | 0 <= j < MAX_CHANNELS && j != i
      ensures SlotSettled(t', j)
    {
      SettledStays(u, t', j);
    }
  }

  // ---- updates that never return -----------------------------------------------------------------

  /** The update again, every key lookup in it cut off after `depth` calls; None when one has not returned. */
  function HashWithin(t: Table, i: nat, depth: nat): Option<bv8>
    requires t.Shaped() && i < MAX_CHANNELS
  {
    match GetKeyWithin(t, i, depth)
    case None => None
    case Some(key) =>
      Some(if key.Err? then 0 else Xor(NameOf(t.slots[i])) ^ (if key.value == [] then 0 else Xor(key.value)))
  }

  function FixupWithin(t: Table, i: nat, depth: nat): (r: Option<Table>)
    requires t.Shaped() && i < MAX_CHANNELS
    ensures r.Some? ==> r.value.Shaped()
  {
    var u := t.(slots := t.slots[i := Clean(t.slots[i])]);
    var hash := HashWithin(u, i, depth);
    if hash.None? then None else Some(u.(hashes := u.hashes[i := hash.value]))
  }

  function DemoteOthersWithin(t: Table, keep: nat, n: nat, depth: nat): (r: Option<Table>)
    requires t.Shaped() && n <= MAX_CHANNELS
    ensures r.Some? ==> r.value.Shaped()
  {
    if n == 0 then Some(t)
    else
      var r := DemoteOthersWithin(t, keep, n - 1, depth);
      if r.None? || n - 1 == keep || r.value.slots[n - 1].role != PRIMARY then r
      else FixupWithin(r.value.(slots := r.value.slots[n - 1 := r.value.slots[n - 1].(role := SECONDARY)]), n - 1, depth)
  }

  function SetSlotWithin(t: Table, i: nat, ch: Channel, depth: nat): Option<Table>
    requires t.Shaped() && i < MAX_CHANNELS
  {
    var u := t.(slots := t.slots[i := ch]);
    var placed := if ch.role == PRIMARY then DemoteOthersWithin(u.(primary := i), i, MAX_CHANNELS, depth) else Some(u);
    if placed.None? then None else FixupWithin(placed.value, i, depth)
  }

  lemma FixupReturns(t: Table, i: nat)
    requires t.Shaped() && i < MAX_CHANNELS && Grounded(t.(slots := t.slots[i := Clean(t.slots[i])]))
    ensures FixupWithin(t, i, 2) == Some(Fixup(t, i))
  {
    KeyLookupDivergesIff(t.(slots := t.slots[i := Clean(t.slots[i])]), i);
    hide GetKey, GetKeyWithin, Xor;
  }

  lemma {:induction false} DemoteReturns(t: Table, keep: nat, n: nat)
    requires t.Shaped() && keep == t.primary && t.slots[keep].role == PRIMARY && n <= MAX_CHANNELS
    ensures DemoteOthersWithin(t, keep, n, 2) == Some(DemoteOthers(t, keep, n))
  {
    hide FixupWithin, Fixup, HashOf;
    if n > 0 {
      DemoteReturns(t, keep, n - 1);
      var u := DemoteOthers(t, keep, n - 1);
      if n - 1 != keep && u.slots[n - 1].role == PRIMARY {
        FixupReturns(u.(slots := u.slots[n - 1 := u.slots[n - 1].(role := SECONDARY)]), n - 1);
      }
    }
  }

  /**
    An update of any table whose lookups end runs for ever, in the slot itself or in the demotion of
    the other slots, exactly in the case `Diverges` names; otherwise no lookup goes deeper than two calls.
   */
  lemma UpdateDivergesIff(t: Table, i: nat, ch: Channel)
    requires t.Shaped() && Grounded(t) && i < MAX_CHANNELS
    ensures (forall depth: nat :: SetSlotWithin(t, i, ch, depth) == None) <==> Diverges(t, i, ch)
    ensures !Diverges(t, i, ch) ==> SetSlotWithin(t, i, ch, 2) == Some(SetSlot(t, i, ch).value)
  {
    var u := t.(slots := t.slots[i := ch]);
    if Diverges(t, i, ch) {
      var v := u.(slots := u.slots[i := Clean(ch)]);
      KeyLookupDivergesIff(v, i);
      forall depth: nat ensures SetSlotWithin(t, i, ch, depth) == None {
        assert GetKeyWithin(v, i, depth) == None;
      }
    } else {
      hide FixupWithin, Fixup, DemoteOthersWithin, HashOf;
      if ch.role == PRIMARY {
        DemoteReturns(u.(primary := i), i, MAX_CHANNELS);
      }
      assert u.(primary := t.primary) == u;
      var placed := Place(t, i, ch);
      FixupReturns(placed, i);
      assert SetSlotWithin(t, i, ch, 2) == FixupWithin(placed, i, 2);
    }
  }

  // ---- any sequence of updates ------------------------------------------------------------------

  datatype Update = Update(index: nat, channel: Channel)

  /** `meshtastic_channels_init_defaults`, then any updates. */
  const DEFAULT_SLOT := Channel(PRIMARY, true, LONGFAST, DEFAULT_PSK, true, true)

  function InitDefaults(): (t: Table)
    ensures t.Shaped() && Grounded(t)
  {
    var slots := [DEFAULT_SLOT] + Repeat(BLANK, MAX_CHANNELS - 1);
    var t := Table(slots, Repeat(0, MAX_CHANNELS), 0);
    t.(hashes := t.hashes[0 := HashOf(t, 0)])
  }

  lemma InitConsistent()
    ensures Consistent(InitDefaults())
  {
    var slots := [DEFAULT_SLOT] + Repeat(BLANK, MAX_CHANNELS - 1);
    HashLocal(Table(slots, Repeat(0, MAX_CHANNELS), 0), InitDefaults(), 0);
  }

  /** Out of the box the primary channel is LongFast with hash 0x08. */
  lemma DefaultHash()
    ensures InitDefaults().hashes[0] == 0x08 && NameOf(InitDefaults().slots[0]) == LONGFAST
  {
    XorOfName();
    XorOfKey();
    InitConsistent();
    hide Xor;
    assert SlotSettled(InitDefaults(), 0);
    DefaultKey();
    hide GetKey, Expand, InitDefaults;
    assert HashOf(InitDefaults(), 0) == Xor(LONGFAST) ^ Xor(DEFAULT_PSK);
  }

  /** Slot 0 is the public channel, with the well-known key and both MQTT directions open; the rest is blank. */
  lemma DefaultsRule()
    ensures var t := InitDefaults();
      && t.primary == 0 && t.slots[0].role == PRIMARY && t.slots[0].hasSettings && t.slots[0].uplink && t.slots[0].downlink
      && t.slots[0].name == [0x4c, 0x6f, 0x6e, 0x67, 0x46, 0x61, 0x73, 0x74] && WellKnown(t.slots[0].psk)
      && forall i :: 0 < i < 8 ==> t.slots[i] == Channel(DISABLED, true, [], [], false, false) && t.hashes[i] == 0
  {
    hide Xor;
  }

  lemma DefaultKey()
    ensures var t := InitDefaults(); t.slots[0] == DEFAULT_SLOT && GetKey(t, 0) == Ok(DEFAULT_PSK)
  {
    hide Xor;
  }

  lemma XorOfNone()
    ensures Xor([]) == 0
  {
  }

  lemma XorOfName()
    ensures Xor(LONGFAST) == 0x0a
  {
    hide Xor;
    var n := LONGFAST;
    XorOfNone();
    XorLastFour(n[..4]);
    assert n[..4][..0] == [];
    assert Xor(n[..4]) == 0x2a;
    XorLastFour(n);
  }

  lemma XorOfKey()
    ensures Xor(DEFAULT_PSK) == 0x02
  {
    hide Xor;
    var k := DEFAULT_PSK;
    XorOfNone();
    XorLastFour(k[..4]);
    assert k[..4][..0] == [];
    assert Xor(k[..4]) == 0xa4;
    XorLastFour(k[..8]);
    assert k[..8][..4] == k[..4];
    assert Xor(k[..8]) == 0xf3;
    XorLastFour(k[..12]);
    assert k[..12][..8] == k[..8];
    assert Xor(k[..12]) == 0xeb;
    XorLastFour(k);
  }

  lemma {:induction false} XorLastFour(s: seq<bv8>)
    requires |s| >= 4
    ensures var n := |s| - 4; Xor(s) == Xor(s[..n]) ^ s[n] ^ s[n + 1] ^ s[n + 2] ^ s[n + 3]
  {
    var n := |s| - 4;
    assert s[..n + 4] == s;
    XorLast(s, n + 3);
    XorLast(s, n + 2);
    XorLast(s, n + 1);
    XorLast(s, n);
  }

  lemma {:induction false} XorLast(s: seq<bv8>, k: nat)
    requires k < |s|
    ensures Xor(s[..k + 1]) == Xor(s[..k]) ^ s[k]
  {
    assert s[..k + 1][..k] == s[..k];
  }

  ghost predicate Returns(t: Table, updates: seq<Update>)
    requires t.Shaped() && Grounded(t)
    decreases updates
  {
    updates == [] ||
    (var (i, ch) := (updates[0].index, updates[0].channel);
     (i >= MAX_CHANNELS && Returns(t, updates[1..]))
     || (i < MAX_CHANNELS && !Diverges(t, i, ch)
         && Returns(SetSlot(t, i, ch).value, updates[1..])))
  }

  ghost function AfterUpdates(t: Table, updates: seq<Update>): Table
    requires t.Shaped() && Grounded(t) && Returns(t, updates)
    decreases updates
  {
    if updates == [] then t
    else if updates[0].index >= MAX_CHANNELS then AfterUpdates(t, updates[1..])
    else AfterUpdates(SetSlot(t, updates[0].index, updates[0].channel).value, updates[1..])
  }

  lemma {:induction false} UpdatesKeep(t: Table, updates: seq<Update>)
    requires Consistent(t) && Returns(t, updates)
    ensures Consistent(AfterUpdates(t, updates))
    decreases updates
  {
    if updates != [] {
      var (i, ch) := (updates[0].index, updates[0].channel);
      if i < MAX_CHANNELS {
        SetSlotKeeps(t, i, ch);
        UpdatesKeep(SetSlot(t, i, ch).value, updates[1..]);
      } else {
        UpdatesKeep(t, updates[1..]);
      }
    }
  }

  /** From power-up on, after any updates whatsoever that return, the table is consistent. */
  lemma AlwaysConsistent(updates: seq<Update>)
    requires Returns(InitDefaults(), updates)
    ensures Consistent(AfterUpdates(InitDefaults(), updates))
  {
    InitConsistent();
    UpdatesKeep(InitDefaults(), updates);
  }

  /** A disabled slot answers to no hash but 0. */
  lemma DisabledHashZero(t: Table, i: nat)
    requires Consistent(t) && i < MAX_CHANNELS && t.slots[i].role == DISABLED
    ensures t.hashes[i] == 0
  {
    assert SlotSettled(t, i);
  }

  /** The key the primary slot stands for after an update, told from the update alone. */
  function KeyAfter(t: Table, i: nat, ch: Channel): Result<seq<bv8>>
    requires t.Shaped() && Grounded(t)
  {
    if ch.role != PRIMARY && i != t.primary then GetKey(t, t.primary)
    else if Clean(ch).role == DISABLED then Err(ENOENT)
    else Ok(Expand(Clean(ch).psk))
  }

  /** The hash of a slot that uses this key; 0 when there is none. */
  function HashWith(ch: Channel, key: Result<seq<bv8>>): bv8 {
    if key.Err? then 0 else Mix(Xor(NameOf(ch)), Xor(key.value))
  }

  function Mix(a: bv8, b: bv8): bv8 {
    a ^ b
  }

  lemma HashIsWith(t: Table, i: nat)
    requires t.Shaped() && Grounded(t) && i < MAX_CHANNELS
    ensures HashOf(t, i) == HashWith(t.slots[i], GetKey(t, i))
  {
    XorOfNone();
    hide Xor, GetKey, NameOf;
  }

  lemma InheritedHash(t: Table, j: nat)
    requires t.Shaped() && Grounded(t) && j < MAX_CHANNELS && Inherits(t.slots[j])
    ensures HashOf(t, j) == HashWith(t.slots[j], GetKey(t, t.primary))
  {
  }

  lemma PrimaryKeyAfter(t: Table, i: nat, ch: Channel)
    requires Consistent(t) && i < MAX_CHANNELS && !Diverges(t, i, ch)
    ensures var t' := SetSlot(t, i, ch).value; Grounded(t') && GetKey(t', t'.primary) == KeyAfter(t, i, ch)
  {
    SetSlotKeeps(t, i, ch);
    var t' := SetSlot(t, i, ch).value;
    assert t'.primary == if ch.role == PRIMARY then i else t.primary by {
      PlaceKeeps(t, i, ch);
      hide Place, HashOf;
    }
    assert t'.slots[i] == Clean(ch);
    if ch.role != PRIMARY {
      assert t'.slots == t.slots[i := Clean(ch)];
    }
  }

  /**
    The cached hash of an inheriting slot is not refreshed by an update of another slot.  It stays
    current exactly when the slot hashes alike with the primary key of before and the one the update
    brings, a missing key included; between two keys, exactly when their bytes XOR to the same.
   */
  lemma InheritedHashCurrentIff(t: Table, i: nat, ch: Channel, j: nat)
    requires Consistent(t) && i < MAX_CHANNELS && !Diverges(t, i, ch) && j < MAX_CHANNELS && j != i
    requires Inherits(t.slots[j]) && t.hashes[j] == HashOf(t, j)
    ensures var t' := SetSlot(t, i, ch).value;
      var (before, after) := (GetKey(t, t.primary), KeyAfter(t, i, ch));
      && t'.slots[j] == t.slots[j] && t'.hashes[j] == t.hashes[j] && Consistent(t')
      && (t'.hashes[j] == HashOf(t', j) <==> HashWith(t.slots[j], after) == HashWith(t.slots[j], before))
      && (before.Ok? && after.Ok? ==> (t'.hashes[j] == HashOf(t', j) <==> Xor(after.value) == Xor(before.value)))
  {
    SetSlotKeeps(t, i, ch);
    OthersUntouched(t, i, ch, j);
    PrimaryKeyAfter(t, i, ch);
    hide SetSlot, HashOf, GetKey, Xor, KeyAfter, HashWith;
    var t' := SetSlot(t, i, ch).value;
    InheritedHash(t, j);
    InheritedHash(t', j);
    var (before, after) := (GetKey(t, t.primary), KeyAfter(t, i, ch));
    if before.Ok? && after.Ok? {
      SameHash(t.slots[j], after, before);
    }
  }

  lemma SameHash(ch: Channel, a: Result<seq<bv8>>, b: Result<seq<bv8>>)
    requires a.Ok? && b.Ok?
    ensures HashWith(ch, a) == HashWith(ch, b) <==> Xor(a.value) == Xor(b.value)
  {
    hide Xor, Mix;
    MixCancels(Xor(NameOf(ch)), Xor(a.value), Xor(b.value));
  }

  lemma MixCancels(a: bv8, b: bv8, c: bv8)
    ensures Mix(a, b) == Mix(a, c) <==> b == c
  {
  }

  const INHERITING := Channel(SECONDARY, true, [], [], false, false)

  /** A slot that inherits the default key, next to the default primary slot. */
  lemma InheritingNext()
    ensures var t := SetSlot(InitDefaults(), 1, INHERITING).value;
      Consistent(t) && t.primary == 0 && t.slots[1] == INHERITING && t.hashes[1] == HashOf(t, 1) == 0x08
  {
    var t0 := InitDefaults();
    InitConsistent();
    DefaultHash();
    SetSlotKeeps(t0, 1, INHERITING);
    PrimaryKeyAfter(t0, 1, INHERITING);
    hide Xor, Expand;
    var t := SetSlot(t0, 1, INHERITING).value;
    assert t.slots == t0.slots[1 := INHERITING];
    InheritedHash(t, 1);
    assert HashOf(t0, 0) == HashWith(INHERITING, GetKey(t0, 0)) == 0x08;
  }

  /** Disabling the primary slot of a default table leaves an inheriting slot with a stale hash. */
  lemma StaleHash()
    ensures var updates := [Update(1, INHERITING), Update(0, BLANK)];
      && Returns(InitDefaults(), updates)
      && var t := AfterUpdates(InitDefaults(), updates);
         Consistent(t) && Inherits(t.slots[1]) && t.hashes[1] == 0x08 && HashOf(t, 1) == 0
  {
    var t0 := InitDefaults();
    var updates := [Update(1, INHERITING), Update(0, BLANK)];
    InheritingNext();
    var t1 := SetSlot(t0, 1, INHERITING).value;
    InheritedHashCurrentIff(t1, 0, BLANK, 1);
    PrimaryKeyAfter(t1, 0, BLANK);
    var t2 := SetSlot(t1, 0, BLANK).value;
    InheritedHash(t2, 1);
    hide SetSlot, HashOf, GetKey, Xor, InitDefaults, Consistent;
    assert updates[1..] == [Update(0, BLANK)] && updates[1..][1..] == [];
    assert Returns(t2, updates[1..][1..]);
    assert Returns(t1, updates[1..]);
    assert AfterUpdates(t2, updates[1..][1..]) == t2;
    assert AfterUpdates(t1, updates[1..]) == t2;
  }

  lemma {:induction false} DemoteLeaves(t: Table, keep: nat, n: nat, j: nat)
    requires t.Shaped() && keep == t.primary && t.slots[keep].role == PRIMARY && n <= MAX_CHANNELS
    requires j < MAX_CHANNELS && t.slots[j].role != PRIMARY
    ensures DemoteOthers(t, keep, n).slots[j] == t.slots[j]
    ensures DemoteOthers(t, keep, n).hashes[j] == t.hashes[j]
  {
    if n > 0 {
      DemoteLeaves(t, keep, n - 1, j);
    }
  }

  lemma OthersUntouched(t: Table, i: nat, ch: Channel, j: nat)
    requires t.Shaped() && Grounded(t) && i < MAX_CHANNELS && !Diverges(t, i, ch) && j < MAX_CHANNELS && j != i
    requires t.slots[j].role != PRIMARY
    ensures var t' := SetSlot(t, i, ch).value; t'.slots[j] == t.slots[j] && t'.hashes[j] == t.hashes[j]
  {
    if ch.role == PRIMARY {
      DemoteLeaves(t.(slots := t.slots[i := ch], primary := i), i, MAX_CHANNELS, j);
    }
  }

  // ---- choosing a slot to send on ------------------------------------------------------------------

  /** First slot at or after `i` with the given hash, or MAX_CHANNELS. */
  function FindHash(t: Table, hash: bv8, i: nat): (r: nat)
    requires t.Shaped() && i <= MAX_CHANNELS
    ensures i <= r <= MAX_CHANNELS && (r < MAX_CHANNELS ==> t.hashes[r] == hash)
    ensures forall j :: i <= j < r ==> t.hashes[j] != hash
    decreases MAX_CHANNELS - i
  {
    if i == MAX_CHANNELS || t.hashes[i] == hash then i else FindHash(t, hash, i + 1)
  }

  /** `meshtastic_channels_resolve_send_index`; `peer`: the slot the node database has for the destination. */
  function ResolveSendIndex(t: Table, dest: nat, index: nat, hash: bv8, peer: Option<nat>): nat
    requires t.Shaped()
  {
    if index < MAX_CHANNELS && t.slots[index].role != DISABLED then index
    else if hash != 0 && FindHash(t, hash, 0) < MAX_CHANNELS then FindHash(t, hash, 0)
    else if && dest != 0 && dest != BROADCAST && peer.Some? && 0 < peer.value < MAX_CHANNELS
            && t.slots[peer.value].role != DISABLED then peer.value
    else t.primary
  }

  /** The order of the choices: the caller's enabled slot, the first with the caller's hash, the peer's, the primary. */
  lemma ResolveRule(t: Table, dest: nat, index: nat, hash: bv8, peer: Option<nat>)
    requires t.Shaped()
    ensures var r := ResolveSendIndex(t, dest, index, hash, peer);
      var given := index < 8 && t.slots[index].role != DISABLED;
      var hashed := hash != 0 && exists j :: 0 <= j < 8 && t.hashes[j] == hash;
      var known := && dest != 0 && dest != 0xFFFF_FFFF && peer.Some? && 0 < peer.value < 8
                   && t.slots[peer.value].role != DISABLED;
      && (given ==> r == index)
      && (!given && hashed ==> r < 8 && t.hashes[r] == hash && forall j :: 0 <= j < r ==> t.hashes[j] != hash)
      && (!given && !hashed && known ==> r == peer.value)
      && (!given && !hashed && !known ==> r == t.primary)
  {
    var k := FindHash(t, hash, 0);
    if k == MAX_CHANNELS {
      assert forall j :: 0 <= j < 8 ==> t.hashes[j] != hash;
    }
  }

  /** The chosen slot exists, and is enabled unless it is the fallback to the primary index. */
  lemma ResolvedIsUsable(t: Table, dest: nat, index: nat, hash: bv8, peer: Option<nat>)
    requires Consistent(t)
    ensures var r := ResolveSendIndex(t, dest, index, hash, peer);
      r < MAX_CHANNELS && (t.slots[r].role != DISABLED || r == t.primary)
  {
    var r := FindHash(t, hash, 0);
    if hash != 0 && r < MAX_CHANNELS && t.slots[r].role == DISABLED {
      DisabledHashZero(t, r);
    }
  }

  // ---- the table, in place ---------------------------------------------------------------------------

  class ChannelTable {
    const slots: array<Channel>
    const hashes: array<bv8>
    var primary: nat

    ghost function View(): Table
      reads this, slots, hashes
    {
      Table(slots[..], hashes[..], primary)
    }

    ghost predicate Valid()
      reads this, slots, hashes
    {
      Shaped() && Grounded(View())
    }

    ghost predicate Shaped()
      reads this, slots, hashes
    {
      slots as object != hashes && View().Shaped()
    }

    constructor ()
      ensures fresh(slots) && fresh(hashes) && Valid() && View() == InitDefaults()
    {
      slots := new Channel[8](i => if i == 0 then DEFAULT_SLOT else BLANK);
      hashes := new bv8[8](_ => 0);
      primary := 0;
      new;
      ghost var t := Table([DEFAULT_SLOT] + Repeat(BLANK, MAX_CHANNELS - 1), Repeat(0, MAX_CHANNELS), 0);
      assert View().slots == t.slots;
      assert View().hashes == t.hashes;
      FixupSlot(0);
      FixupSettles(t, 0);
      assert t.slots[0 := Clean(t.slots[0])] == t.slots;
    }

    /** `channel_generate_hash`, with its two XOR loops. */
    method GenerateHash(i: nat) returns (h: bv8)
      requires Valid() && i < MAX_CHANNELS
      ensures h == HashOf(View(), i)
    {
      hide Xor, GetKey;
      var key := GetKey(Table(slots[..], hashes[..], primary), i);
      if key.Err? {
        return 0;
      }
      h := XorBytes(NameOf(slots[i]));
      if key.value != [] {
        var k := XorBytes(key.value);
        h := h ^ k;
      }
    }

    method FixupSlot(i: nat)
      requires Shaped() && i < MAX_CHANNELS
      requires Grounded(View().(slots := View().slots[i := Clean(slots[i])]))
      modifies slots, hashes
      ensures Valid() && View() == Fixup(old(View()), i)
    {
      hide HashOf, GetKey, Xor;
      if !slots[i].hasSettings {
        slots[i] := BLANK;
      }
      if slots[i].name == DEFAULT_NAME {
        slots[i] := slots[i].(name := []);
      }
      assert slots[..] == old(slots[..])[i := Clean(old(slots[i]))];
      ghost var u := View();
      var h := GenerateHash(i);
      hashes[i] := h;
      assert hashes[..] == u.hashes[i := HashOf(u, i)];
    }

    method DemoteOtherPrimary(keep: nat)
      requires Shaped() && keep == primary && slots[keep].role == PRIMARY
      modifies slots, hashes
      ensures View() == DemoteOthers(old(View()), keep, MAX_CHANNELS)
    {
      for i := 0 to MAX_CHANNELS
        invariant View() == DemoteOthers(old(View()), keep, i)
        invariant primary == keep
      {
        ghost var t := View();
        if i != keep && slots[i].role == PRIMARY {
          slots[i] := slots[i].(role := SECONDARY);
          assert slots[..] == t.slots[i := t.slots[i].(role := SECONDARY)];
          FixupSlot(i);
        }
        assert View() == DemoteOne(t, keep, i);
      }
    }

    method SetSlotAt(i: nat, ch: Channel) returns (ok: bool)
      requires Valid() && (i < MAX_CHANNELS ==> !Diverges(View(), i, ch))
      modifies this, slots, hashes
      ensures Valid() && (ok <==> SetSlot(old(View()), i, ch).Ok?) && (ok <==> i < 8)
      ensures View() == if ok then SetSlot(old(View()), i, ch).value else old(View())
    {
      if i >= MAX_CHANNELS {
        return false;
      }
      slots[i] := ch;
      assert slots[..] == old(slots[..])[i := ch];
      if ch.role == PRIMARY {
        primary := i;
        DemoteOtherPrimary(i);
      }
      assert View() == Place(old(View()), i, ch);
      FixupSlot(i);
      return true;
    }
  }
}
