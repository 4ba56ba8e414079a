/** Which managers have a Dart group listener, read off the history of calls. */
module GroupListeners {
  import opened Text
  import opened ListenerSpec
  import opened ListenerProofs
  import opened ListenerTheorems

  /** A call that registers the group listener of an existing instance. */
  predicate Registers(s: State, e: Event, id: nat) {
    match e
    case SetCallback(cls, _, _) => cls == Group && s.current == id
    case SetGroupTips(_) => id == s.current || id in s.live
    case _ => false
  }

  /** What a replay looks for before it registers the group listener: user data of one of the
      group callbacks, held by any instance. */
  ghost predicate GroupHeld(tables: Tables, s: State)
    requires tables.blocks != []
  {
    var b := tables.blocks[0];
    b.always || exists i :: 0 <= i < |b.names| && Holds(s, b.names[i])
  }

  /** Whether an instance has its group listener after a call, given whether it had it. */
  ghost predicate ReachedAfter(tables: Tables, s: State, e: Event, before: bool, id: nat)
    requires tables.blocks != []
  {
    match e
    case CreateInstance(headless, initOk) =>
      before || (initOk && !headless && id == s.nextInstance && GroupHeld(tables, s))
    case DestroyInstance(i) => before && !(i == id && i != 0 && i in s.live)
    case DetachDefault => before && id != 0
    case _ => before || Registers(s, e, id)
  }

  /** The history of one instance: reached by a registration, or by its own replay, and not
      destroyed or detached since. */
  ghost predicate Reached(tables: Tables, es: seq<Event>, id: nat)
    requires tables.blocks != []
  {
    if es == [] then false
    else
      var before := es[..|es| - 1];
      ReachedAfter(tables, Run(tables, before), es[|es| - 1], Reached(tables, before, id), id)
  }

  // ---------- one call ----------

  /** A group manager's list holds its own listener or nothing. */
  lemma OnceIff(s: State, id: nat)
    requires Inv(s)
    ensures AttachedOnce(s, Slot(Group, id)) <==> Attached(s, Slot(Group, id)) != []
  {
    var list := Attached(s, Slot(Group, id));
    assert list != [] ==> list[0] in list && SlotInv(Slot(Group, id), list, s.listeners);
  }

  lemma {:induction false} GroupForAllOnly(s: State, ids: seq<nat>, tips: string, data: Address, id: nat)
    requires id !in ids
    ensures Attached(RegisterGroupForAll(s, ids, tips, data), Slot(Group, id)) == Attached(s, Slot(Group, id))
    decreases |ids|
  {
    if ids != [] {
      var u := Store(s, ids[0], tips, data);
      var v := Register(u, Slot(Group, ids[0]));
      RegisterFrame(u, Slot(Group, ids[0]));
      assert ids[0] in ids && forall i :: i in ids[1..] ==> i in ids;
      GroupForAllOnly(v, ids[1..], tips, data, id);
    }
  }

  lemma TipsReach(s: State, tips: string, data: Address, id: nat)
    requires Inv(s)
    ensures var t := SetGroupTipsEffect(s, tips, data);
      Attached(t, Slot(Group, id)) != [] <==> Attached(s, Slot(Group, id)) != [] || id == s.current || id in s.live
  {
    GroupTipsStep(s, tips, data);
    OnceIff(s, id);
    OnceIff(SetGroupTipsEffect(s, tips, data), id);
    if id != s.current && id !in s.live {
      var u := Store(s, s.current, tips, data);
      GroupForAllOnly(u, s.live, tips, data, id);
      RegisterFrame(RegisterGroupForAll(u, s.live, tips, data), Slot(Group, s.current));
      StoreKeepsInv(s, s.current, tips, data);
      GroupForAllEffect(u, s.live, tips, data);
    } else {
      assert id in s.live + [s.current];
    }
  }

  lemma CallbackReach(s: State, cls: Class, name: string, data: Address, id: nat)
    requires Inv(s)
    ensures var t := Register(Store(s, s.current, name, data), Slot(cls, s.current));
      Attached(t, Slot(Group, id)) != [] <==> Attached(s, Slot(Group, id)) != [] || (cls == Group && s.current == id)
  {
    StoreKeepsInv(s, s.current, name, data);
    RegisterEffect(Store(s, s.current, name, data), Slot(cls, s.current));
  }

  lemma HeldIff(s: State, names: seq<string>)
    requires Inv(s)
    ensures AnyHeld(Created(s), s.nextInstance, names) <==> exists i :: 0 <= i < |names| && Holds(s, names[i])
  {
    var u, id := Created(s), s.nextInstance;
    forall i | 0 <= i < |names| ensures Holder(u, id, names[i]).Some? <==> Holds(s, names[i]) {
      if Holds(s, names[i]) {
        var j: nat :| (j, names[i]) in s.userData;
        assert j < id;
      }
    }
  }

  lemma CreateReach(tables: Tables, s: State, headless: bool, initOk: bool, id: nat)
    requires Inv(s) && TablesOk(tables)
    ensures var t := CreateEffect(s, tables, headless, initOk);
      Attached(t, Slot(Group, id)) != [] <==>
        Attached(s, Slot(Group, id)) != [] || (initOk && !headless && id == s.nextInstance && GroupHeld(tables, s))
  {
    CreatedIsFresh(s);
    if initOk && !headless {
      var t, b := Replay(Created(s), s.nextInstance, tables.blocks), tables.blocks[0];
      CreatedReplay(tables, s, t);
      assert b in tables.blocks;
      assert OnceIf(t, Slot(Group, s.nextInstance), b.always || AnyHeld(Created(s), s.nextInstance, b.names));
      HeldIff(s, b.names);
      assert Attached(Created(s), Slot(Group, id)) == Attached(s, Slot(Group, id));
    }
  }

  lemma DestroyReach(s: State, i: nat, id: nat)
    requires Inv(s)
    ensures Attached(DestroyEffect(s, i), Slot(Group, id)) != [] <==>
      Attached(s, Slot(Group, id)) != [] && !(i == id && i != 0 && i in s.live)
  {
    DestroyEffects(s, i);
  }

  lemma DetachReach(s: State, id: nat)
    requires Inv(s)
    ensures Attached(DetachEffect(s), Slot(Group, id)) != [] <==> Attached(s, Slot(Group, id)) != [] && id != 0
  {
    DetachSparesOthers(s);
  }

  lemma RemoveReach(s: State, slot: Slot, id: nat)
    requires Inv(s) && slot.cls != Group
    ensures Attached(Removed(s, slot), Slot(Group, id)) == Attached(s, Slot(Group, id))
  {
    RemovedEffect(s, slot);
  }

  /** One call brings the group listener, or takes it away, exactly as the history says. */
  lemma StepReach(tables: Tables, s: State, e: Event, id: nat)
    requires Inv(s) && TablesOk(tables)
    ensures Attached(Step(tables, s, e), Slot(Group, id)) != [] <==>
      ReachedAfter(tables, s, e, Attached(s, Slot(Group, id)) != [], id)
  {
    match e
    case SetCurrent(_) =>
    case SetCallback(cls, name, data) => CallbackReach(s, cls, name, data, id);
    case SetGroupTips(data) => TipsReach(s, tables.tips, data, id);
    case CreateInstance(headless, initOk) => CreateReach(tables, s, headless, initOk, id);
    case DestroyInstance(i) => DestroyReach(s, i, id);
    case DetachDefault => DetachReach(s, id);
    case RemoveSignaling => RemoveReach(s, Slot(Signaling, s.current), id);
  }

  // ---------- whole runs ----------

  /** In every run and for every instance, the manager has exactly one Dart group listener
      if the history reached the instance, and none otherwise. */
  lemma {:induction false} GroupListenerIff(tables: Tables, es: seq<Event>, id: nat)
    requires TablesOk(tables)
    ensures AttachedOnce(Run(tables, es), Slot(Group, id)) <==> Reached(tables, es, id)
    ensures !Reached(tables, es, id) ==> Attached(Run(tables, es), Slot(Group, id)) == []
  {
    RunKeepsInv(tables, es);
    OnceIff(Run(tables, es), id);
    if es != [] {
      var before := es[..|es| - 1];
      GroupListenerIff(tables, before, id);
      RunKeepsInv(tables, before);
      OnceIff(Run(tables, before), id);
      StepReach(tables, Run(tables, before), es[|es| - 1], id);
    }
  }

  /** Call `k` of a run registers the group listener of an instance. */
  predicate RegisteredAt(tables: Tables, es: seq<Event>, k: nat, id: nat) {
    k < |es| && Registers(Run(tables, es[..k]), es[k], id)
  }

  lemma RegisteredSnoc(tables: Tables, es: seq<Event>, id: nat)
    requires es != []
    ensures var before := es[..|es| - 1];
      (exists k: nat :: RegisteredAt(tables, es, k, id)) <==>
        (exists k: nat :: RegisteredAt(tables, before, k, id)) || Registers(Run(tables, before), es[|es| - 1], id)
  {
    var before := es[..|es| - 1];
    forall k: nat | k < |before| ensures RegisteredAt(tables, es, k, id) <==> RegisteredAt(tables, before, k, id) {
      assert before[..k] == es[..k];
    }
    assert RegisteredAt(tables, es, |before|, id) <==> Registers(Run(tables, before), es[|es| - 1], id);
  }

  /** Created without listeners and still live, or not created yet. */
  predicate HeadlessOrUnborn(s: State, id: nat) {
    (id in s.live && id !in s.mirrored) || id >= s.nextInstance
  }

  lemma TipsSame(s: State, tips: string, data: Address)
    requires Inv(s)
    ensures SameInstances(s, SetGroupTipsEffect(s, tips, data))
  {
    GroupTipsStep(s, tips, data);
  }

  lemma DetachSame(s: State)
    requires Inv(s)
    ensures SameInstances(s, DetachEffect(s))
  {
    DetachSparesOthers(s);
  }

  lemma ReplaySame(tables: Tables, s: State)
    requires Inv(s) && DistinctClasses(tables.blocks)
    ensures SameInstances(Created(s), Replay(Created(s), s.nextInstance, tables.blocks))
  {
    CreatedReplay(tables, s, Replay(Created(s), s.nextInstance, tables.blocks));
  }

  lemma HeadlessBefore(tables: Tables, s: State, e: Event, id: nat)
    requires Inv(s) && TablesOk(tables) && HeadlessOrUnborn(Step(tables, s, e), id)
    ensures HeadlessOrUnborn(s, id) && id != 0
  {
    hide AlwaysBlock, ListenersInv, AttachedInv, DataInv, OwnersInv;
    match e
    case SetGroupTips(data) => TipsSame(s, tables.tips, data);
    case CreateInstance(headless, initOk) => if initOk && !headless { ReplaySame(tables, s); }
    case DetachDefault => DetachSame(s);
    case _ =>
  }

  /** Such an instance is reached by registrations only. */
  lemma HeadlessReach(tables: Tables, s: State, e: Event, id: nat, before: bool)
    requires Inv(s) && TablesOk(tables) && HeadlessOrUnborn(Step(tables, s, e), id) && id != 0
    ensures ReachedAfter(tables, s, e, before, id) <==> before || Registers(s, e, id)
  {
    match e
    case CreateInstance(headless, initOk) =>
      if initOk && !headless { ReplaySame(tables, s); }
    case _ =>
  }

  lemma {:induction false} HeadlessReachedIff(tables: Tables, es: seq<Event>, id: nat)
    requires TablesOk(tables) && HeadlessOrUnborn(Run(tables, es), id)
    ensures Reached(tables, es, id) <==> exists k: nat :: RegisteredAt(tables, es, k, id)
  {
    if es != [] {
      var before := es[..|es| - 1];
      RunKeepsInv(tables, before);
      HeadlessBefore(tables, Run(tables, before), es[|es| - 1], id);
      HeadlessReach(tables, Run(tables, before), es[|es| - 1], id, Reached(tables, before, id));
      HeadlessReachedIff(tables, before, id);
      RegisteredSnoc(tables, es, id);
    }
  }

  /** In every run in which user data of the group tips callback is stored anywhere, a live
      instance has exactly one Dart group listener if and only if it was created with
      listeners, or some call since registered the listener for it. */
  lemma LiveInstanceIff(tables: Tables, es: seq<Event>, id: nat)
    requires TablesOk(tables) && OwnNames(tables, es)
    requires Holds(Run(tables, es), tables.tips) && id in Run(tables, es).live
    ensures AttachedOnce(Run(tables, es), Slot(Group, id)) <==>
      id in Run(tables, es).mirrored || exists k: nat :: RegisteredAt(tables, es, k, id)
  {
    RunKeepsGroupInv(tables, es);
    GroupListenerIff(tables, es, id);
    if id !in Run(tables, es).mirrored { HeadlessReachedIff(tables, es, id); }
  }

  /** A headless instance created after the group tips registration has none. */
  lemma HeadlessMissesGroup(tables: Tables)
    requires TablesOk(tables)
    ensures exists es: seq<Event>, id: nat ::
      && Holds(Run(tables, es), tables.tips) && id in Run(tables, es).live
      && Attached(Run(tables, es), Slot(Group, id)) == []
  {
    var es := [SetGroupTips(1), CreateInstance(true, true)];
    var s := SetGroupTipsEffect(Initial(), tables.tips, 1);
    assert es[..1] == [SetGroupTips(1)];
    RunOne(tables, SetGroupTips(1));
    RunKeepsInv(tables, es[..1]);
    assert s.live == [] && s.nextInstance == 1 && (0, tables.tips) in s.userData;
    CreatedIsFresh(s);
    var t := Run(tables, es);
    assert t == CreateEffect(s, tables, true, true);
    assert Holds(t, tables.tips) && 1 in t.live && Attached(t, Slot(Group, 1)) == [];
  }

  lemma RunOne(tables: Tables, e: Event)
    ensures Run(tables, [e]) == Step(tables, Initial(), e)
  {
    assert [e][..0] == [];
  }
}
