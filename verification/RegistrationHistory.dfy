/** Which listeners the managers have, in every run and for every class, follows the history
    of calls. */
module RegistrationHistory {
  import opened Text
  import opened ListenerSpec
  import opened ListenerProofs
  import opened ListenerTheorems
  import opened GroupListeners
  import opened ListenerHistory
  import opened InstanceHistory
  import opened CallbackData

  // ---------- one call ----------

  /** Whether a replay of the state registers a class. */
  ghost predicate StateReplays(tables: Tables, s: State, cls: Class) {
    exists i :: 0 <= i < |tables.blocks| && tables.blocks[i].cls == cls && StateBlock(s, tables.blocks[i])
  }

  ghost predicate StateBlock(s: State, b: Block) {
    b.always || AnyHeld(Created(s), s.nextInstance, b.names)
  }

  /** Whether a call adds to a list, and whether it empties it. */
  ghost predicate Adds(tables: Tables, s: State, e: Event, slot: Slot) {
    match e
    case SetCallback(cls, _, _) => slot == Slot(cls, s.current)
    case SetGroupTips(_) => slot.cls == Group && (slot.instance == s.current || slot.instance in s.live)
    case CreateInstance(headless, initOk) =>
      initOk && !headless && slot.instance == s.nextInstance && StateReplays(tables, s, slot.cls)
    case _ => false
  }

  predicate Empties(s: State, e: Event, slot: Slot) {
    match e
    case DestroyInstance(i) => i == slot.instance && i != 0 && i in s.live
    case DetachDefault => slot.instance == 0
    case RemoveSignaling => slot == Slot(Signaling, s.current)
    case _ => false
  }

  lemma CallbackAdds(s: State, cls: Class, name: string, data: Address, slot: Slot)
    requires Inv(s)
    ensures var t := Register(Store(s, s.current, name, data), Slot(cls, s.current));
      Attached(t, slot) != [] <==> Attached(s, slot) != [] || slot == Slot(cls, s.current)
  {
    StoreKeepsInv(s, s.current, name, data);
    RegisterEffect(Store(s, s.current, name, data), Slot(cls, s.current));
  }

  lemma TipsAdds(s: State, tips: string, data: Address, slot: Slot)
    requires Inv(s)
    ensures Attached(SetGroupTipsEffect(s, tips, data), slot) != [] <==>
      Attached(s, slot) != [] || (slot.cls == Group && (slot.instance == s.current || slot.instance in s.live))
  {
    if slot.cls == Group {
      TipsReach(s, tips, data, slot.instance);
      assert slot == Slot(Group, slot.instance);
    } else {
      GroupTipsStep(s, tips, data);
    }
  }

  lemma ReplayAdds(tables: Tables, s: State, slot: Slot)
    requires Inv(s) && DistinctClasses(tables.blocks)
    ensures Attached(Replay(Created(s), s.nextInstance, tables.blocks), slot) != [] <==>
      Attached(s, slot) != [] || (slot.instance == s.nextInstance && StateReplays(tables, s, slot.cls))
  {
    var t := Replay(Created(s), s.nextInstance, tables.blocks);
    CreatedReplay(tables, s, t);
    CreatedIsFresh(s);
    assert Attached(Created(s), slot) == Attached(s, slot);
    if slot.instance == s.nextInstance {
      assert slot == Slot(slot.cls, s.nextInstance);
      if i :| 0 <= i < |tables.blocks| && tables.blocks[i].cls == slot.cls {
        OneBlock(tables, s, i);
        assert tables.blocks[i] in tables.blocks;
        assert OnceIf(t, slot, StateBlock(s, tables.blocks[i]));
      } else {
        assert forall b :: b in tables.blocks ==> b.cls != slot.cls;
      }
    }
  }

  lemma OneBlock(tables: Tables, s: State, i: nat)
    requires DistinctClasses(tables.blocks) && i < |tables.blocks|
    ensures StateReplays(tables, s, tables.blocks[i].cls) <==> StateBlock(s, tables.blocks[i])
  {
  }

  lemma CreateAdds(tables: Tables, s: State, headless: bool, initOk: bool, slot: Slot)
    requires Inv(s) && DistinctClasses(tables.blocks)
    ensures Attached(CreateEffect(s, tables, headless, initOk), slot) != [] <==>
      Attached(s, slot) != [] || Adds(tables, s, CreateInstance(headless, initOk), slot)
  {
    if initOk && !headless { ReplayAdds(tables, s, slot); }
  }

  lemma DestroyEmpties(s: State, id: nat, slot: Slot)
    requires Inv(s)
    ensures Attached(DestroyEffect(s, id), slot) != [] <==>
      Attached(s, slot) != [] && !Empties(s, DestroyInstance(id), slot)
  {
    DestroyEffects(s, id);
  }

  lemma DetachEmpties(s: State, slot: Slot)
    requires Inv(s)
    ensures Attached(DetachEffect(s), slot) != [] <==> Attached(s, slot) != [] && slot.instance != 0
  {
    DetachSparesOthers(s);
    if slot.instance == 0 { assert slot == Slot(slot.cls, 0); }
  }

  lemma RemoveEmpties(s: State, slot: Slot)
    requires Inv(s)
    ensures Attached(Removed(s, Slot(Signaling, s.current)), slot) != [] <==>
      Attached(s, slot) != [] && slot != Slot(Signaling, s.current)
  {
    RemovedEffect(s, Slot(Signaling, s.current));
  }

  lemma StepAdds(tables: Tables, s: State, e: Event, slot: Slot)
    requires Inv(s) && DistinctClasses(tables.blocks)
    ensures Attached(Step(tables, s, e), slot) != [] <==>
      (Attached(s, slot) != [] || Adds(tables, s, e, slot)) && !Empties(s, e, slot)
  {
    match e
    case SetCurrent(_) =>
    case SetCallback(cls, name, data) => CallbackAdds(s, cls, name, data, slot);
    case SetGroupTips(data) => TipsAdds(s, tables.tips, data, slot);
    case CreateInstance(headless, initOk) => CreateAdds(tables, s, headless, initOk, slot);
    case DestroyInstance(id) => DestroyEmpties(s, id, slot);
    case DetachDefault => DetachEmpties(s, slot);
    case RemoveSignaling => RemoveEmpties(s, slot);
  }

  // ---------- the history ----------

  lemma BlockAgrees(tables: Tables, s: State, es: seq<Event>, b: Block)
    requires Inv(s) && InstancesAgree(s, es) && DataAgrees(tables, s, es)
    ensures StateBlock(s, b) <==> BlockReplays(tables, es, b)
  {
    forall j | 0 <= j < |b.names|
      ensures Holder(Created(s), s.nextInstance, b.names[j]).Some? <==> FirstData(tables, es, b.names[j], 0) != 0
    {
      CopyIsFirst(tables, s, es, b.names[j]);
    }
  }

  lemma ReplaysAgrees(tables: Tables, s: State, es: seq<Event>, cls: Class)
    requires Inv(s) && InstancesAgree(s, es) && DataAgrees(tables, s, es)
    ensures StateReplays(tables, s, cls) <==> Replays(tables, es, cls)
  {
    forall i | 0 <= i < |tables.blocks|
      ensures StateBlock(s, tables.blocks[i]) <==> BlockReplays(tables, es, tables.blocks[i])
    {
      BlockAgrees(tables, s, es, tables.blocks[i]);
    }
  }

  /** One call, in terms of the history before it. */
  lemma HistoryAdds(tables: Tables, es: seq<Event>, s: State, slot: Slot)
    requires es != [] && Inv(s) && InstancesAgree(s, es[..|es| - 1]) && DataAgrees(tables, s, es[..|es| - 1])
    requires Attached(s, slot) != [] <==> Registrations(tables, es[..|es| - 1], slot) > 0
    ensures (Attached(s, slot) != [] || Adds(tables, s, es[|es| - 1], slot)) && !Empties(s, es[|es| - 1], slot)
      <==> Registrations(tables, es, slot) > 0
  {
    ReplaysAgrees(tables, s, es[..|es| - 1], slot.cls);
  }

  lemma {:induction false} RunRegistrations(tables: Tables, es: seq<Event>, slot: Slot)
    requires DistinctClasses(tables.blocks)
    ensures Attached(Run(tables, es), slot) != [] <==> Registrations(tables, es, slot) > 0
  {
    if es != [] {
      var before := es[..|es| - 1];
      var s := Run(tables, before);
      RunRegistrations(tables, before, slot);
      RunKeepsInv(tables, before);
      RunInstances(tables, before);
      RunData(tables, before);
      StepAdds(tables, s, es[|es| - 1], slot);
      HistoryAdds(tables, es, s, slot);
    }
  }

  /** In every run and for every class but conversations, a manager has its own Dart listener
      exactly once if the history has registered it since its list was last emptied, and has no
      Dart listener otherwise. */
  lemma ListenerIff(tables: Tables, es: seq<Event>, slot: Slot)
    requires DistinctClasses(tables.blocks) && slot.cls != Conversation
    ensures var s := Run(tables, es);
      if Registrations(tables, es, slot) > 0
      then slot in s.listeners && Attached(s, slot) == [s.listeners[slot]]
      else Attached(s, slot) == []
  {
    RunRegistrations(tables, es, slot);
    RunKeepsInv(tables, es);
    var s := Run(tables, es);
    var list := Attached(s, slot);
    assert list != [] ==> list[0] in list && SlotInv(slot, list, s.listeners);
  }

  lemma {:induction false} ConversationCount(tables: Tables, es: seq<Event>, id: nat)
    requires TablesOk(tables)
    ensures ConversationAdds(tables, es, id) == Registrations(tables, es, Slot(Conversation, id))
  {
    if es != [] {
      var before := es[..|es| - 1];
      ConversationCount(tables, before, id);
      RunInstances(tables, before);
      RunKeepsInv(tables, before);
      var b :| b in tables.blocks && b.cls == Conversation && b.always;
      var i :| 0 <= i < |tables.blocks| && tables.blocks[i] == b;
      assert BlockReplays(tables, before, tables.blocks[i]);
    }
  }

  /** A conversation manager has its own Dart listener as often as the history has registered
      it since its list was last emptied, and nothing else from Dart. */
  lemma ConversationListenerIff(tables: Tables, es: seq<Event>, id: nat)
    requires TablesOk(tables)
    ensures var s, slot := Run(tables, es), Slot(Conversation, id);
      && |Attached(s, slot)| == Registrations(tables, es, slot)
      && forall x :: x in Attached(s, slot) ==> slot in s.listeners && x == s.listeners[slot]
  {
    ConversationListenerRepeats(tables, es, id);
    ConversationCount(tables, es, id);
    RunKeepsInv(tables, es);
    var s, slot := Run(tables, es), Slot(Conversation, id);
    assert slot in s.attached ==> SlotInv(slot, s.attached[slot], s.listeners);
  }

  // ---------- the listener maps ----------

  /** Listeners belong to the default instance or to live ones, and outside signaling they are
      registered with their manager. */
  ghost predicate Backed(s: State) {
    forall o :: o in s.listeners ==> BackedSlot(s, o)
  }

  ghost predicate BackedSlot(s: State, o: Slot) {
    (o.instance == 0 || o.instance in s.live) && (o.cls != Signaling ==> Attached(s, o) != [])
  }

  lemma RegisterKeepsBacked(s: State, slot: Slot)
    requires Inv(s) && Backed(s) && slot.instance < s.nextInstance && (slot.instance == 0 || slot.instance in s.live)
    ensures Inv(Register(s, slot)) && Backed(Register(s, slot)) && SameInstances(s, Register(s, slot))
  {
    RegisterEffect(s, slot);
    var t := Register(s, slot);
    forall o | o in t.listeners ensures BackedSlot(t, o) {
      if o != slot { assert BackedSlot(s, o); }
    }
  }

  /** A state that differs in user data only. */
  lemma DataKeepsBacked(s: State, u: State)
    requires Backed(s) && SameInstances(s, u) && u.listeners == s.listeners && u.attached == s.attached
    ensures Backed(u)
  {
    forall o | o in u.listeners ensures BackedSlot(u, o) {
      assert BackedSlot(s, o);
    }
  }

  lemma {:induction false} GroupForAllKeepsBacked(s: State, ids: seq<nat>, tips: string, data: Address)
    requires Inv(s) && Backed(s) && forall id :: id in ids ==> id in s.live
    ensures var t := RegisterGroupForAll(s, ids, tips, data); Inv(t) && Backed(t) && SameInstances(s, t)
    decreases |ids|
  {
    hide Backed, ListenersInv, AttachedInv, DataInv, OwnersInv;
    if ids != [] {
      var u := Store(s, ids[0], tips, data);
      assert ids[0] in ids && forall id :: id in ids[1..] ==> id in ids;
      StoreKeepsInv(s, ids[0], tips, data);
      DataKeepsBacked(s, u);
      RegisterKeepsBacked(u, Slot(Group, ids[0]));
      GroupForAllKeepsBacked(Register(u, Slot(Group, ids[0])), ids[1..], tips, data);
    }
  }

  lemma TipsKeepsBacked(s: State, tips: string, data: Address)
    requires Inv(s) && Backed(s)
    ensures Backed(SetGroupTipsEffect(s, tips, data))
  {
    hide Backed;
    var u := Store(s, s.current, tips, data);
    StoreKeepsInv(s, s.current, tips, data);
    DataKeepsBacked(s, u);
    GroupForAllKeepsBacked(u, s.live, tips, data);
    RegisterKeepsBacked(RegisterGroupForAll(u, s.live, tips, data), Slot(Group, s.current));
  }

  lemma {:induction false} ReplayKeepsBacked(s: State, instance: nat, blocks: seq<Block>)
    requires Inv(s) && Backed(s) && instance < s.nextInstance && instance in s.live
    ensures Backed(Replay(s, instance, blocks))
    decreases |blocks|
  {
    if blocks != [] {
      var b := blocks[0];
      var u := CopyNames(s, instance, b.names);
      CopyKeepsInv(s, instance, b.names);
      DataKeepsBacked(s, u);
      if b.always || AnyHeld(s, instance, b.names) { RegisterKeepsBacked(u, Slot(b.cls, instance)); }
      ReplayKeepsBacked(ReplayBlock(s, instance, b), instance, blocks[1..]);
    }
  }

  lemma CreateKeepsBacked(tables: Tables, s: State, headless: bool, initOk: bool)
    requires Inv(s) && Backed(s)
    ensures Backed(CreateEffect(s, tables, headless, initOk))
  {
    var c := Created(s);
    CreatedIsFresh(s);
    forall o | o in s.listeners ensures BackedSlot(c, o) {
      assert BackedSlot(s, o);
    }
    if initOk && !headless { ReplayKeepsBacked(c, s.nextInstance, tables.blocks); }
  }

  lemma DestroyKeepsBacked(s: State, id: nat)
    requires Inv(s) && Backed(s)
    ensures Backed(DestroyEffect(s, id))
  {
    var t := DestroyEffect(s, id);
    DestroyEffects(s, id);
    DestroyInstances(s, id);
    forall o | o in t.listeners ensures BackedSlot(t, o) {
      assert BackedSlot(s, o);
    }
  }

  lemma DetachKeepsBacked(s: State)
    requires Inv(s) && Backed(s)
    ensures Backed(DetachEffect(s))
  {
    var t := DetachEffect(s);
    DetachSparesOthers(s);
    forall o | o in t.listeners ensures BackedSlot(t, o) {
      assert BackedSlot(s, o);
      assert o == Slot(o.cls, o.instance);
    }
  }

  lemma RemoveKeepsBacked(s: State)
    requires Inv(s) && Backed(s)
    ensures Backed(Removed(s, Slot(Signaling, s.current)))
  {
    var t := Removed(s, Slot(Signaling, s.current));
    RemovedEffect(s, Slot(Signaling, s.current));
    forall o | o in t.listeners ensures BackedSlot(t, o) {
      assert BackedSlot(s, o);
    }
  }

  lemma CallbackKeepsBacked(s: State, cls: Class, name: string, data: Address)
    requires Inv(s) && Backed(s)
    ensures Backed(Register(Store(s, s.current, name, data), Slot(cls, s.current)))
  {
    var u := Store(s, s.current, name, data);
    StoreKeepsInv(s, s.current, name, data);
    DataKeepsBacked(s, u);
    RegisterKeepsBacked(u, Slot(cls, s.current));
  }

  lemma StepKeepsBacked(tables: Tables, s: State, e: Event)
    requires Inv(s) && Backed(s)
    ensures Backed(Step(tables, s, e))
  {
    hide Inv, Backed;
    match e
    case SetCurrent(_) => SwitchKeepsBacked(s, Step(tables, s, e));
    case SetCallback(cls, name, data) => CallbackKeepsBacked(s, cls, name, data);
    case SetGroupTips(data) => TipsKeepsBacked(s, tables.tips, data);
    case CreateInstance(headless, initOk) => CreateKeepsBacked(tables, s, headless, initOk);
    case DestroyInstance(id) => DestroyKeepsBacked(s, id);
    case DetachDefault => DetachKeepsBacked(s);
    case RemoveSignaling => RemoveKeepsBacked(s);
  }

  /** A state that differs in the current instance only. */
  lemma SwitchKeepsBacked(s: State, t: State)
    requires Backed(s) && t.live == s.live && t.listeners == s.listeners && t.attached == s.attached
    ensures Backed(t)
  {
    forall o | o in t.listeners ensures BackedSlot(t, o) {
      assert BackedSlot(s, o);
    }
  }

  lemma {:induction false} RunKeepsBacked(tables: Tables, es: seq<Event>)
    requires DistinctClasses(tables.blocks)
    ensures Backed(Run(tables, es))
  {
    if es != [] {
      RunKeepsBacked(tables, es[..|es| - 1]);
      RunKeepsInv(tables, es[..|es| - 1]);
      StepKeepsBacked(tables, Run(tables, es[..|es| - 1]), es[|es| - 1]);
    }
  }

  /** In every run a listener object is kept for the default instance and live ones only, and
      outside signaling exactly while the history has it registered. */
  lemma KeptIff(tables: Tables, es: seq<Event>, slot: Slot)
    requires DistinctClasses(tables.blocks)
    ensures slot in Run(tables, es).listeners ==> slot.instance == 0 || Live(es, slot.instance)
    ensures slot.cls != Signaling ==> (slot in Run(tables, es).listeners <==> Registrations(tables, es, slot) > 0)
  {
    var s := Run(tables, es);
    RunKeepsBacked(tables, es);
    RunKeepsInv(tables, es);
    RunInstances(tables, es);
    RunRegistrations(tables, es, slot);
    assert slot in s.listeners ==> BackedSlot(s, slot);
    var list := Attached(s, slot);
    assert list != [] ==> list[0] in list && SlotInv(slot, list, s.listeners);
  }

  /** An event of an object that is in none of the maps, such as a listener after its instance
      was detached, is attributed to the current instance, unless it is a group listener or a
      receiver is set. */
  lemma UnknownIsCurrent(tables: Tables, es: seq<Event>, cls: Class, listener: Address)
    requires cls != Group && forall slot :: slot in Run(tables, es).listeners && slot.cls == cls ==>
      Run(tables, es).listeners[slot] != listener
    requires DistinctClasses(tables.blocks)
    ensures Attribute(Run(tables, es), cls, listener, 0) == Current(es)
  {
    RunInstances(tables, es);
    NotFound(Run(tables, es).listeners, cls, listener, 0, Run(tables, es).nextInstance);
  }

  lemma {:induction false} NotFound(listeners: map<Slot, Address>, cls: Class, listener: Address, from: nat, bound: nat)
    requires forall slot :: slot in listeners && slot.cls == cls ==> listeners[slot] != listener
    ensures InstanceOf(listeners, cls, listener, from, bound) == 0
    decreases bound - from
  {
    if from < bound { NotFound(listeners, cls, listener, from + 1, bound); }
  }
}
