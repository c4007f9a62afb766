/** The configuration handshake sent to phone clients (src/meshtastic_phoneapi_config.c). */
module Handshake {
  import opened Options

  const CHANNELS := 8
  const CONFIGS := 10
  const MODULES := 16
  const SCRIPT_LEN := 40

  /** What a generated frame carries. */
  datatype Item =
    | MyInfo
    | DeviceUi
    | NodeInfo
    | Metadata
    | ChannelSlot(index: nat)
    | ConfigVariant(index: nat)
    | ModuleVariant(index: nat)
    | QueueStatus
    | Complete(nonce: nat)

  datatype Stage =
    | IDLE | MY_INFO | DEVICE_UI | NODE_INFO | METADATA | SENDING_CHANNELS | SENDING_CONFIGS | SENDING_MODULES
    | QUEUE_STATUS | COMPLETE

  // ---- the script --------------------------------------------------------------------------------

  /** The item at a position of the one fixed sequence the apps expect. */
  function ItemAt(nonce: nat, pos: nat): Item
    requires pos < SCRIPT_LEN
  {
    if pos == 0 then MyInfo
    else if pos == 1 then DeviceUi
    else if pos == 2 then NodeInfo
    else if pos == 3 then Metadata
    else if pos < 12 then ChannelSlot(pos - 4)
    else if pos < 22 then ConfigVariant(pos - 12)
    else if pos < 38 then ModuleVariant(pos - 22)
    else if pos == 38 then QueueStatus
    else Complete(nonce)
  }

  /** Items from position `pos` on that the configuration store can supply. */
  function Remaining(nonce: nat, pos: nat, has: Item -> bool): seq<Item>
    requires pos <= SCRIPT_LEN
    decreases SCRIPT_LEN - pos
  {
    if pos == SCRIPT_LEN then []
    else if Skipped(ItemAt(nonce, pos), has) then Remaining(nonce, pos + 1, has)
    else [ItemAt(nonce, pos)] + Remaining(nonce, pos + 1, has)
  }

  /** Items before position `pos` that the configuration store could supply. */
  function Emitted(nonce: nat, pos: nat, has: Item -> bool): seq<Item>
    requires pos <= SCRIPT_LEN
  {
    if pos == 0 then []
    else
      var item := ItemAt(nonce, pos - 1);
      Emitted(nonce, pos - 1, has) + (if Skipped(item, has) then [] else [item])
  }

  /** Only config and module variants are skipped, and only when the store lacks them. */
  predicate Skipped(item: Item, has: Item -> bool) {
    (item.ConfigVariant? || item.ModuleVariant?) && !has(item)
  }

  /** Whatever the position, what was emitted and what remains make up the same script. */
  lemma {:induction false} EmittedAndRemaining(nonce: nat, pos: nat, has: Item -> bool)
    requires pos <= SCRIPT_LEN
    ensures Emitted(nonce, pos, has) + Remaining(nonce, pos, has) == Remaining(nonce, 0, has)
  {
    hide Emitted, Remaining;
    FromStart(nonce, 0, pos, has);
  }

  lemma {:induction false} FromStart(nonce: nat, start: nat, pos: nat, has: Item -> bool)
    requires start == 0 && pos <= SCRIPT_LEN
    ensures Emitted(nonce, pos, has) + Remaining(nonce, pos, has) == Remaining(nonce, start, has)
    decreases pos
  {
    hide ItemAt, Skipped, Remaining;
    if pos == 0 {
      assert Emitted(nonce, pos, has) == [];
    } else {
      FromStart(nonce, start, pos - 1, has);
      RemainingStep(nonce, pos - 1, has);
      var item := ItemAt(nonce, pos - 1);
      var (done, step, left) :=
        (Emitted(nonce, pos - 1, has), if Skipped(item, has) then [] else [item], Remaining(nonce, pos, has));
      assert (done + step) + left == done + (step + left);
    }
  }

  lemma RemainingStep(nonce: nat, pos: nat, has: Item -> bool)
    requires pos < SCRIPT_LEN
    ensures var item := ItemAt(nonce, pos);
      Remaining(nonce, pos, has) == (if Skipped(item, has) then [] else [item]) + Remaining(nonce, pos + 1, has)
  {
    hide ItemAt, Skipped;
  }

  /** The next position that is not skipped. */
  function NextPos(nonce: nat, pos: nat, has: Item -> bool): (r: nat)
    requires pos <= SCRIPT_LEN
    ensures pos <= r <= SCRIPT_LEN
    ensures r < SCRIPT_LEN ==> !Skipped(ItemAt(nonce, r), has)
    ensures pos < SCRIPT_LEN ==> r < SCRIPT_LEN
    ensures Remaining(nonce, r, has) == Remaining(nonce, pos, has)
    ensures Emitted(nonce, r, has) == Emitted(nonce, pos, has)
    decreases SCRIPT_LEN - pos
  {
    if pos < SCRIPT_LEN && Skipped(ItemAt(nonce, pos), has) then NextPos(nonce, pos + 1, has) else pos
  }

  // ---- the generator -------------------------------------------------------------------------------

  class Generator {
    const has: Item -> bool            // what the configuration store can supply
    var stage: Stage
    var index: nat
    var nonce: nat
    ghost var requested: bool          // a client has asked, and there was no reset since
    ghost var generated: seq<Item>     // since that request

    /** Position in the script; the end of it when idle. */
    function Pos(): nat
      reads this
    {
      match stage
      case MY_INFO => 0
      case DEVICE_UI => 1
      case NODE_INFO => 2
      case METADATA => 3
      case SENDING_CHANNELS => 4 + index
      case SENDING_CONFIGS => 12 + index
      case SENDING_MODULES => 22 + index
      case QUEUE_STATUS => 38
      case COMPLETE => 39
      case IDLE => SCRIPT_LEN
    }

    predicate Shaped()
      reads this
    {
      match stage
      case SENDING_CHANNELS => index < CHANNELS
      case SENDING_CONFIGS => index < CONFIGS
      case SENDING_MODULES => index < MODULES
      case _ => true
    }

    /** Everything generated since the request is the beginning of the script. */
    ghost predicate Valid()
      reads this
    {
      && Shaped()
      && if requested then generated == Emitted(nonce, Pos(), has) else stage == IDLE && generated == []
    }

    constructor (has: Item -> bool)
      ensures Valid() && stage == IDLE && !requested && generated == [] && this.has == has
    {
      this.has := has;
      stage, index, nonce := IDLE, 0, 0;
      requested, generated := false, [];
    }

    /** `want_config`: start over with the client's nonce. */
    method Request(id: nat)
      modifies this
      ensures Valid() && Pos() == 0 && nonce == id && requested && generated == []
    {
      stage, index, nonce := MY_INFO, 0, id;
      requested, generated := true, [];
    }

    method Reset()
      modifies this
      ensures Valid() && stage == IDLE && !requested && generated == []
    {
      stage, index, nonce := IDLE, 0, 0;
      requested, generated := false, [];
    }

    /** `emit_frame`: the state moves on only if the item could be encoded. */
    method Emit(item: Item, encodes: bool, next: Stage, nextIndex: nat) returns (r: Option<Item>)
      requires Valid() && Pos() < SCRIPT_LEN && item == ItemAt(nonce, Pos()) && !Skipped(item, has)
      requires match next
        case SENDING_CHANNELS => nextIndex < CHANNELS && Pos() + 1 == 4 + nextIndex
        case SENDING_CONFIGS => nextIndex < CONFIGS && Pos() + 1 == 12 + nextIndex
        case SENDING_MODULES => nextIndex < MODULES && Pos() + 1 == 22 + nextIndex
        case DEVICE_UI => Pos() == 0
        case NODE_INFO => Pos() == 1
        case METADATA => Pos() == 2
        case QUEUE_STATUS => Pos() == 37
        case COMPLETE => Pos() == 38
        case IDLE => Pos() == 39
        case MY_INFO => false
      modifies this
      ensures Valid() && nonce == old(nonce) && requested == old(requested)
      ensures r == if encodes then Some(item) else None
      ensures Pos() == old(Pos()) + (if encodes then 1 else 0)
      ensures generated == old(generated) + (if encodes then [item] else [])
    {
      if !encodes {
        return None;
      }
      generated := generated + [item];
      stage, index := next, nextIndex;
      return Some(item);
    }

    /** Passes over config and module variants the store lacks; ends for any set of them. */
    method SkipMissing()
      requires Valid()
      modifies this
      ensures Valid() && nonce == old(nonce) && requested == old(requested) && generated == old(generated)
      ensures Pos() == NextPos(nonce, old(Pos()), has)
    {
      hide Emitted, Remaining, NextPos;
      while (stage == SENDING_CONFIGS && !has(ConfigVariant(index)))
         || (stage == SENDING_MODULES && !has(ModuleVariant(index)))
        invariant Valid() && nonce == old(nonce) && requested == old(requested) && generated == old(generated)
        invariant NextPos(nonce, Pos(), has) == NextPos(nonce, old(Pos()), has)
        decreases SCRIPT_LEN - Pos()
      {
        StepOver(nonce, Pos(), has);
        var last := index + 1 >= (if stage == SENDING_CONFIGS then CONFIGS else MODULES);
        var next := if stage == SENDING_CONFIGS then SENDING_MODULES else QUEUE_STATUS;
        stage, index := if last then next else stage, if last then 0 else index + 1;
      }
      StopHere(nonce, Pos(), has);
    }

    /** Emits the item of the current stage and names the stage that follows it. */
    method EmitCurrent(encodes: bool) returns (r: Option<Item>)
      requires Valid() && stage != IDLE && !Skipped(ItemAt(nonce, Pos()), has)
      modifies this
      ensures Valid() && nonce == old(nonce) && requested == old(requested)
      ensures var item := old(ItemAt(nonce, Pos()));
        && r == (if encodes then Some(item) else None)
        && Pos() == old(Pos()) + (if encodes then 1 else 0)
        && generated == old(generated) + (if encodes then [item] else [])
    {
      hide Emitted, Remaining;
      match stage {
        case MY_INFO => r := Emit(MyInfo, encodes, DEVICE_UI, 0);
        case DEVICE_UI => r := Emit(DeviceUi, encodes, NODE_INFO, 0);
        case NODE_INFO => r := Emit(NodeInfo, encodes, METADATA, 0);
        case METADATA => r := Emit(Metadata, encodes, SENDING_CHANNELS, 0);
        case SENDING_CHANNELS =>
          var last := index + 1 >= CHANNELS;
          r := Emit(ChannelSlot(index), encodes, if last then SENDING_CONFIGS else SENDING_CHANNELS,
                    if last then 0 else index + 1);
        case SENDING_CONFIGS =>
          var last := index + 1 >= CONFIGS;
          r := Emit(ConfigVariant(index), encodes, if last then SENDING_MODULES else SENDING_CONFIGS,
                    if last then 0 else index + 1);
        case SENDING_MODULES =>
          var last := index + 1 >= MODULES;
          r := Emit(ModuleVariant(index), encodes, if last then QUEUE_STATUS else SENDING_MODULES,
                    if last then 0 else index + 1);
        case QUEUE_STATUS => r := Emit(QueueStatus, encodes, COMPLETE, 0);
        case COMPLETE => r := Emit(Complete(nonce), encodes, IDLE, 0);
      }
    }

    /**
      `meshtastic_phoneapi_next_config_frame`.  It returns for any set of missing variants; a
      failed encoding stays at its item, so that no later item overtakes it.
     */
    method Next(encodes: bool) returns (r: Option<Item>)
      requires Valid()
      modifies this
      ensures Valid() && nonce == old(nonce) && requested == old(requested)
      ensures var p := NextPos(nonce, old(Pos()), has);
        if p == SCRIPT_LEN then r == None && Pos() == p && generated == old(generated)
        else if encodes then
          r == Some(ItemAt(nonce, p)) && Pos() == p + 1 && generated == old(generated) + [ItemAt(nonce, p)]
        else r == None && Pos() == p && generated == old(generated)
    {
      hide Emitted, Remaining, ItemAt;
      SkipMissing();
      if stage == IDLE {
        return None;
      }
      r := EmitCurrent(encodes);
    }
  }

  lemma StopHere(nonce: nat, pos: nat, has: Item -> bool)
    requires pos <= SCRIPT_LEN && (pos < SCRIPT_LEN ==> !Skipped(ItemAt(nonce, pos), has))
    ensures NextPos(nonce, pos, has) == pos
  {
  }

  lemma StepOver(nonce: nat, pos: nat, has: Item -> bool)
    requires pos < SCRIPT_LEN && Skipped(ItemAt(nonce, pos), has)
    ensures NextPos(nonce, pos + 1, has) == NextPos(nonce, pos, has)
    ensures Emitted(nonce, pos + 1, has) == Emitted(nonce, pos, has)
  {
  }

  // ---- the script, written out ------------------------------------------------------------------

  /** The fixed 40-item sequence the apps expect. */
  function Script(nonce: nat): seq<Item> {
    ScriptBody() + [Complete(nonce)]
  }

  function ScriptBody(): seq<Item> {
    [MyInfo, DeviceUi, NodeInfo, Metadata]
    + seq(8, i requires 0 <= i < 8 => ChannelSlot(i))
    + seq(10, i requires 0 <= i < 10 => ConfigVariant(i))
    + seq(16, i requires 0 <= i < 16 => ModuleVariant(i))
    + [QueueStatus]
  }

  /** What is left of a list without the config and module variants the store lacks. */
  function Available(items: seq<Item>, has: Item -> bool): seq<Item> {
    if items == [] then []
    else
      var first := items[0];
      (if (first.ConfigVariant? || first.ModuleVariant?) && !has(first) then [] else [first]) + Available(items[1..], has)
  }

  lemma ScriptAt(nonce: nat, pos: nat)
    requires pos < SCRIPT_LEN
    ensures |Script(nonce)| == SCRIPT_LEN && Script(nonce)[pos] == ItemAt(nonce, pos)
  {
  }

  /** What remains at any position is what the store has of the rest of the script. */
  lemma {:induction false} RemainingIsAvailable(nonce: nat, pos: nat, has: Item -> bool)
    requires pos <= SCRIPT_LEN
    ensures |Script(nonce)| == SCRIPT_LEN && Remaining(nonce, pos, has) == Available(Script(nonce)[pos..], has)
    decreases SCRIPT_LEN - pos
  {
    ScriptAt(nonce, 0);
    hide Script, ItemAt;
    if pos < SCRIPT_LEN {
      ScriptAt(nonce, pos);
      RemainingIsAvailable(nonce, pos + 1, has);
      RemainingStep(nonce, pos, has);
      AvailableStep(Script(nonce)[pos..], has);
      assert Script(nonce)[pos..][1..] == Script(nonce)[pos + 1..];
      hide Remaining, Available;
    } else {
      assert Script(nonce)[pos..] == [];
    }
  }

  /** With a complete store the whole script is sent, item by item. */
  lemma {:induction false} CompleteStore(nonce: nat, pos: nat, has: Item -> bool)
    requires pos <= SCRIPT_LEN && forall item :: has(item)
    ensures |Script(nonce)| == SCRIPT_LEN && Emitted(nonce, pos, has) == Script(nonce)[..pos]
  {
    ScriptAt(nonce, 0);
    hide Script, ItemAt;
    if pos > 0 {
      CompleteStore(nonce, pos - 1, has);
      ScriptAt(nonce, pos - 1);
      assert Script(nonce)[..pos] == Script(nonce)[..pos - 1] + [Script(nonce)[pos - 1]];
    }
  }

  lemma AvailableStep(items: seq<Item>, has: Item -> bool)
    requires items != []
    ensures Available(items, has) == (if Skipped(items[0], has) then [] else [items[0]]) + Available(items[1..], has)
  {
  }

  lemma {:induction false} AvailableJoined(a: seq<Item>, b: seq<Item>, has: Item -> bool)
    ensures Available(a + b, has) == Available(a, has) + Available(b, has)
  {
    hide Available, Skipped;
    if a == [] {
      assert a + b == b;
      NoneAvailable(has);
    } else {
      assert (a + b)[0] == a[0] && (a + b)[1..] == a[1..] + b;
      AvailableStep(a + b, has);
      AvailableStep(a, has);
      AvailableJoined(a[1..], b, has);
      var (first, rest, last) := (if Skipped(a[0], has) then [] else [a[0]], Available(a[1..], has), Available(b, has));
      assert first + (rest + last) == (first + rest) + last;
    }
  }

  lemma NoneAvailable(has: Item -> bool)
    ensures Available([], has) == []
  {
  }

  lemma {:induction false} AvailableOnly(items: seq<Item>, has: Item -> bool)
    ensures forall item :: item in Available(items, has) ==> item in items
    ensures (forall item :: has(item)) ==> Available(items, has) == items
  {
    if items != [] {
      AvailableOnly(items[1..], has);
      assert items == [items[0]] + items[1..];
    }
  }

  /** Whatever the store lacks, the last item is the completion with the request's nonce, and it comes only once. */
  lemma EndsComplete(nonce: nat, has: Item -> bool)
    ensures var all := Available(Script(nonce), has);
      && all != [] && all[|all| - 1] == Complete(nonce)
      && forall i :: 0 <= i < |all| - 1 ==> !all[i].Complete?
  {
    hide Available, ScriptBody;
    AvailableJoined(ScriptBody(), [Complete(nonce)], has);
    AvailableOnly(ScriptBody(), has);
    OneAvailable(nonce, has);
    NoneEarlier();
    var body := Available(ScriptBody(), has);
    assert forall i :: 0 <= i < |body| ==> body[i] in ScriptBody();
  }

  lemma OneAvailable(nonce: nat, has: Item -> bool)
    ensures Available([Complete(nonce)], has) == [Complete(nonce)]
  {
    assert [Complete(nonce)][1..] == [];
    assert Available([Complete(nonce)], has) == [Complete(nonce)] + Available([Complete(nonce)][1..], has);
  }

  lemma NoneEarlier()
    ensures forall item :: item in ScriptBody() ==> !item.Complete?
  {
  }

  /** Everything generated, apart from what the store lacks, is the beginning of the script. */
  ghost predicate FollowsScript(generated: seq<Item>, nonce: nat, has: Item -> bool, idle: bool) {
    && generated <= Available(Script(nonce), has)
    && ((forall item :: has(item)) ==> generated <= Script(nonce))
    && (idle ==>
          && generated != [] && generated[|generated| - 1] == Complete(nonce)
          && (forall i :: 0 <= i < |generated| - 1 ==> !generated[i].Complete?)
          && generated == Available(Script(nonce), has)
          && ((forall item :: has(item)) ==> generated == Script(nonce)))
  }

  /** What was generated since a request follows the script, and ends it once the generator is idle. */
  lemma {:induction false} GeneratedIsPrefix(g: Generator)
    requires g.Valid() && g.requested
    ensures FollowsScript(g.generated, g.nonce, g.has, g.stage == IDLE)
  {
    hide Emitted, Remaining, Script, Available;
    EmittedAndRemaining(g.nonce, g.Pos(), g.has);
    Whole(g.nonce, g.has);
    EndsComplete(g.nonce, g.has);
    AvailableOnly(Script(g.nonce), g.has);
    if g.stage == IDLE {
      NothingAfter(g.nonce, g.has);
    }
  }

  lemma NothingAfter(nonce: nat, has: Item -> bool)
    ensures Remaining(nonce, SCRIPT_LEN, has) == []
  {
  }

  lemma Whole(nonce: nat, has: Item -> bool)
    ensures Remaining(nonce, 0, has) == Available(Script(nonce), has)
  {
    hide Remaining, Script, Available;
    RemainingIsAvailable(nonce, 0, has);
    assert Script(nonce)[0..] == Script(nonce);
  }
}
