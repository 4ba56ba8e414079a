/** Whole runs of the listener registry. */
module ListenerTheorems {
  import opened Text
  import opened ListenerSpec
  import opened ListenerProofs

  // ---------- every call keeps the invariant ----------

  /** The given instances have their group listener; nothing else changed but the group
      listeners of others. */
  ghost predicate GroupProgress(s: State, t: State, ids: seq<nat>) {
    && SameInstances(s, t)
    && (forall id: nat :: id in ids || AttachedOnce(s, Slot(Group, id)) ==> AttachedOnce(t, Slot(Group, id)))
    && (forall o: Slot :: o.cls != Group ==> Attached(t, o) == Attached(s, o))
  }

  lemma RegisterKeepsOnce(s: State, slot: Slot, o: Slot)
    requires Inv(s) && slot.instance < s.nextInstance && o.cls != Conversation && AttachedOnce(s, o)
    ensures AttachedOnce(Register(s, slot), o)
  {
    RegisterEffect(s, slot);
  }

  lemma GroupOne(s: State, id: nat)
    requires Inv(s) && id < s.nextInstance
    ensures Inv(Register(s, Slot(Group, id))) && GroupProgress(s, Register(s, Slot(Group, id)), [id])
  {
    RegisterEffect(s, Slot(Group, id));
    forall i: nat | AttachedOnce(s, Slot(Group, i)) ensures AttachedOnce(Register(s, Slot(Group, id)), Slot(Group, i)) {
      RegisterKeepsOnce(s, Slot(Group, id), Slot(Group, i));
    }
  }

  lemma GroupTrans(s: State, u: State, t: State, a: seq<nat>, b: seq<nat>)
    requires GroupProgress(s, u, a) && GroupProgress(u, t, b)
    ensures GroupProgress(s, t, a + b)
  {
  }

  lemma StoreProgress(s: State, u: State, instance: nat, name: string, data: Address, t: State, ids: seq<nat>)
    requires u == Store(s, instance, name, data) && GroupProgress(u, t, ids)
    ensures GroupProgress(s, t, ids)
  {
  }

  /** One round of the loop over all instances. */
  lemma GroupRound(s: State, id: nat, tips: string, data: Address, v: State)
    requires Inv(s) && id < s.nextInstance && v == Register(Store(s, id, tips, data), Slot(Group, id))
    ensures Inv(v) && GroupProgress(s, v, [id])
  {
    StoreKeepsInv(s, id, tips, data);
    GroupOne(Store(s, id, tips, data), id);
    StoreProgress(s, Store(s, id, tips, data), id, tips, data, v, [id]);
  }

  /** The loop over all instances: each of them ends up with its group listener. */
  lemma {:induction false} GroupForAllEffect(s: State, ids: seq<nat>, tips: string, data: Address)
    requires Inv(s) && forall id :: id in ids ==> id < s.nextInstance
    ensures var t := RegisterGroupForAll(s, ids, tips, data); Inv(t) && GroupProgress(s, t, ids)
    decreases |ids|
  {
    if ids != [] {
      var v := Register(Store(s, ids[0], tips, data), Slot(Group, ids[0]));
      assert ids[0] in ids && forall id :: id in ids[1..] ==> id in ids;
      GroupRound(s, ids[0], tips, data, v);
      GroupForAllEffect(v, ids[1..], tips, data);
      GroupForAllCons(s, v, RegisterGroupForAll(v, ids[1..], tips, data), ids);
    }
  }

  lemma GroupForAllCons(s: State, v: State, t: State, ids: seq<nat>)
    requires ids != [] && GroupProgress(s, v, [ids[0]]) && GroupProgress(v, t, ids[1..])
    ensures GroupProgress(s, t, ids)
  {
    GroupTrans(s, v, t, [ids[0]], ids[1..]);
    assert [ids[0]] + ids[1..] == ids;
  }

  lemma GroupTipsStep(s: State, tips: string, data: Address)
    requires Inv(s)
    ensures var t := SetGroupTipsEffect(s, tips, data); Inv(t) && GroupProgress(s, t, s.live + [s.current])
  {
    var u := Store(s, s.current, tips, data);
    var v := RegisterGroupForAll(u, s.live, tips, data);
    StoreKeepsInv(s, s.current, tips, data);
    GroupForAllEffect(u, s.live, tips, data);
    GroupOne(v, s.current);
    GroupTrans(u, v, SetGroupTipsEffect(s, tips, data), s.live, [s.current]);
    StoreProgress(s, u, s.current, tips, data, SetGroupTipsEffect(s, tips, data), s.live + [s.current]);
  }

  /** What the results about replays need of the tables: one block per class; friendship,
      message and conversation blocks that always register; and a group block that starts
      with the group tips callback. */
  ghost predicate TablesOk(tables: Tables) {
    && DistinctClasses(tables.blocks)
    && AlwaysBlock(tables, Friendship) && AlwaysBlock(tables, AdvancedMsg) && AlwaysBlock(tables, Conversation)
    && tables.blocks != [] && tables.blocks[0].cls == Group
    && tables.blocks[0].names != [] && tables.blocks[0].names[0] == tables.tips
  }

  ghost predicate AlwaysBlock(tables: Tables, cls: Class) {
    exists b :: b in tables.blocks && b.cls == cls && b.always
  }

  lemma ActualTables()
    ensures TablesOk(TABLES)
  {
    var bs := TABLES.blocks;
    assert bs[1] in bs && bs[3] in bs && bs[4] in bs;
  }

  lemma CreatedIsFresh(s: State)
    requires Inv(s)
    ensures Inv(Created(s)) && forall c :: Attached(Created(s), Slot(c, s.nextInstance)) == []
  {
  }

  /** The replay of a new instance. */
  lemma CreatedReplay(tables: Tables, s: State, t: State)
    requires Inv(s) && DistinctClasses(tables.blocks)
    requires t == Replay(Created(s), s.nextInstance, tables.blocks)
    ensures Replaying(Created(s), t, s.nextInstance, Names(tables.blocks))
    ensures ListsKept(Created(s), t, s.nextInstance, tables.blocks)
    ensures BlocksDone(Created(s), t, s.nextInstance, tables.blocks)
  {
    CreatedIsFresh(s);
    ReplayEffect(Created(s), Created(s), s.nextInstance, [], tables.blocks);
    assert [] + Names(tables.blocks) == Names(tables.blocks);
  }

  lemma CreateKeepsInv(tables: Tables, s: State, headless: bool, initOk: bool)
    requires Inv(s) && DistinctClasses(tables.blocks)
    ensures Inv(CreateEffect(s, tables, headless, initOk))
  {
    if initOk && !headless { CreatedReplay(tables, s, Replay(Created(s), s.nextInstance, tables.blocks)); }
  }

  lemma {:induction false} RemoveDefaultsEffect(s: State, classes: seq<Class>)
    requires Inv(s)
    ensures var t := RemoveDefaults(s, classes);
      && Inv(t) && SameInstances(s, t) && t.userData == s.userData && t.listeners == s.listeners
      && (forall o: Slot :: o.instance != 0 ==> Attached(t, o) == Attached(s, o))
      && (forall c :: c in classes || Attached(s, Slot(c, 0)) == [] ==> Attached(t, Slot(c, 0)) == [])
    decreases |classes|
  {
    if classes != [] {
      RemovedEffect(s, Slot(classes[0], 0));
      RemoveDefaultsEffect(Removed(s, Slot(classes[0], 0)), classes[1..]);
      assert forall c :: c in classes <==> c == classes[0] || c in classes[1..];
    }
  }

  lemma AllClasses(c: Class)
    ensures c in CLASSES
  {
    assert CLASSES[0] == Sdk && CLASSES[1] == AdvancedMsg && CLASSES[2] == Conversation && CLASSES[3] == Group;
    assert CLASSES[4] == Friendship && CLASSES[5] == Signaling && CLASSES[6] == Community;
  }

  /** Forgetting the listeners of an instance whose lists are empty. */
  lemma ForgetKeepsInv(u: State, t: State, id: nat)
    requires Inv(u) && t == u.(listeners := EraseInstance(u.listeners, id))
    requires forall c :: Attached(u, Slot(c, id)) == []
    ensures Inv(t)
  {
    forall o | o in t.attached ensures SlotInv(o, t.attached[o], t.listeners) {
      assert SlotInv(o, u.attached[o], u.listeners);
      if o.instance == id { assert o == Slot(o.cls, id) && Attached(u, o) == []; }
    }
  }

  /** Outside the default instance the lists, the listeners and the user data are the same. */
  ghost predicate OthersSpared(s: State, t: State) {
    && t.userData == s.userData && SameInstances(s, t)
    && (forall o: Slot :: o.instance != 0 ==>
          Attached(t, o) == Attached(s, o) && (o in t.listeners <==> o in s.listeners))
    && (forall o :: o in t.listeners ==> o in s.listeners && t.listeners[o] == s.listeners[o])
  }

  /** Taking the listeners out of every class's manager. */
  lemma RemoveAllDefaults(s: State, u: State)
    requires Inv(s) && u == RemoveDefaults(s, CLASSES)
    ensures Inv(u) && SameInstances(s, u) && u.userData == s.userData && u.listeners == s.listeners
    ensures forall o: Slot :: o.instance != 0 ==> Attached(u, o) == Attached(s, o)
    ensures forall c :: Attached(u, Slot(c, 0)) == []
  {
    RemoveDefaultsEffect(s, CLASSES);
    forall c ensures Attached(u, Slot(c, 0)) == [] {
      AllClasses(c);
    }
  }

  lemma ForgetSparesOthers(s: State, u: State, t: State)
    requires SameInstances(s, u) && u.userData == s.userData && u.listeners == s.listeners
    requires forall o: Slot :: o.instance != 0 ==> Attached(u, o) == Attached(s, o)
    requires t == u.(listeners := EraseInstance(u.listeners, 0))
    ensures OthersSpared(s, t)
  {
  }

  /** Detaching the default instance empties its lists and its maps, and leaves every
      other instance as it was. */
  lemma DetachSparesOthers(s: State)
    requires Inv(s)
    ensures var t := DetachEffect(s);
      && Inv(t) && OthersSpared(s, t)
      && (forall c :: Attached(t, Slot(c, 0)) == [] && Slot(c, 0) !in t.listeners)
  {
    var u := RemoveDefaults(s, CLASSES);
    RemoveAllDefaults(s, u);
    ForgetKeepsInv(u, DetachEffect(s), 0);
    ForgetSparesOthers(s, u, DetachEffect(s));
  }

  lemma DestroyKeepsInv(s: State, id: nat)
    requires Inv(s)
    ensures Inv(DestroyEffect(s, id))
  {
    var t := DestroyEffect(s, id);
    forall o | o in t.attached ensures SlotInv(o, t.attached[o], t.listeners) {
      assert SlotInv(o, s.attached[o], s.listeners);
    }
  }

  /** Only the destroyed instance loses its lists and listeners; no user data is lost. */
  lemma DestroyEffects(s: State, id: nat)
    requires Inv(s)
    ensures var t := DestroyEffect(s, id);
      && Inv(t) && t.userData == s.userData && t.nextInstance == s.nextInstance
      && (forall i :: i in t.mirrored ==> i in s.mirrored)
      && (id != 0 && id in s.live ==> id !in t.mirrored && forall o: Slot :: o.instance == id ==> Attached(t, o) == [])
      && (forall o: Slot :: o.instance != id || id == 0 || id !in s.live ==>
            Attached(t, o) == Attached(s, o)
            && (o in t.listeners <==> o in s.listeners) && (o in s.listeners ==> t.listeners[o] == s.listeners[o]))
  {
    DestroyKeepsInv(s, id);
  }

  lemma StepKeepsInv(tables: Tables, s: State, e: Event)
    requires Inv(s) && DistinctClasses(tables.blocks)
    ensures Inv(Step(tables, s, e))
  {
    match e
    case SetCurrent(_) =>
    case SetCallback(cls, name, data) =>
      StoreKeepsInv(s, s.current, name, data);
      RegisterEffect(Store(s, s.current, name, data), Slot(cls, s.current));
    case SetGroupTips(data) => GroupTipsStep(s, tables.tips, data);
    case CreateInstance(headless, initOk) => CreateKeepsInv(tables, s, headless, initOk);
    case DestroyInstance(id) => DestroyEffects(s, id);
    case DetachDefault => DetachSparesOthers(s);
    case RemoveSignaling => RemovedEffect(s, Slot(Signaling, s.current));
  }

  /** In every run the listener maps are injective, and a manager's list holds nothing but
      its own instance's listener: at most once, except in conversation managers. */
  lemma {:induction false} RunKeepsInv(tables: Tables, es: seq<Event>)
    requires DistinctClasses(tables.blocks)
    ensures Inv(Run(tables, es))
  {
    if es != [] {
      RunKeepsInv(tables, es[..|es| - 1]);
      StepKeepsInv(tables, Run(tables, es[..|es| - 1]), es[|es| - 1]);
    }
  }

  // ---------- attribution ----------

  lemma {:induction false} InstanceOfOwner(listeners: map<Slot, Address>, slot: Slot, from: nat, bound: nat)
    requires slot in listeners && from <= slot.instance < bound
    requires forall a, b :: a in listeners && b in listeners && a != b ==> listeners[a] != listeners[b]
    ensures InstanceOf(listeners, slot.cls, listeners[slot], from, bound) == slot.instance
    decreases bound - from
  {
    if from < slot.instance { InstanceOfOwner(listeners, slot, from + 1, bound); }
  }

  /** In every run an event of a registered listener is attributed to the listener's own
      instance, exactly when it is a group listener, or it receives a message for which that
      very instance was set as the receiver, or no receiver was set and the instance is a
      test instance or the default instance is current. */
  lemma AttributionIff(tables: Tables, es: seq<Event>, slot: Slot, receiver: nat)
    requires DistinctClasses(tables.blocks) && slot in Run(tables, es).listeners
    ensures var s := Run(tables, es);
      Attribute(s, slot.cls, s.listeners[slot], receiver) == slot.instance <==>
        slot.cls == Group
        || (if slot.cls == AdvancedMsg && receiver != 0 then receiver == slot.instance
            else slot.instance != 0 || s.current == 0)
  {
    RunKeepsInv(tables, es);
    InstanceOfOwner(Run(tables, es).listeners, slot, 0, Run(tables, es).nextInstance);
  }

  /** A registration for the default instance and a switch to a new instance suffice to have
      the default instance's events attributed elsewhere, in every class but the group's. */
  lemma DefaultMisattributed(tables: Tables, cls: Class, name: string, data: Address)
    requires DistinctClasses(tables.blocks) && cls != Group
    ensures var s := Run(tables, [SetCallback(cls, name, data), CreateInstance(true, true), SetCurrent(1)]);
      Slot(cls, 0) in s.listeners && Attribute(s, cls, s.listeners[Slot(cls, 0)], 0) == 1
  {
    var es := [SetCallback(cls, name, data), CreateInstance(true, true), SetCurrent(1)];
    var a := Register(Store(Initial(), 0, name, data), Slot(cls, 0));
    assert es[..2][..1] == [es[0]] && es[..1][..0] == [];
    assert Run(tables, es[..1]) == a;
    assert Run(tables, es[..2]) == Created(a).(mirrored := a.mirrored);
    assert Run(tables, es) == Run(tables, es[..2]).(current := 1);
    RunKeepsInv(tables, es);
    InstanceOfOwner(Run(tables, es).listeners, Slot(cls, 0), 0, Run(tables, es).nextInstance);
  }

  /** A manager sets its own instance as the receiver.  In every run that gives what looking
      the listener up gives; for the default instance it sets nothing at all. */
  lemma OwnReceiverChangesNothing(tables: Tables, es: seq<Event>, slot: Slot)
    requires DistinctClasses(tables.blocks) && slot in Run(tables, es).listeners
    ensures var s := Run(tables, es);
      Attribute(s, slot.cls, s.listeners[slot], slot.instance) == Attribute(s, slot.cls, s.listeners[slot], 0)
  {
    RunKeepsInv(tables, es);
    InstanceOfOwner(Run(tables, es).listeners, slot, 0, Run(tables, es).nextInstance);
  }

  // ---------- a new instance ----------

  ghost predicate Holds(s: State, name: string) {
    exists i: nat :: (i, name) in s.userData
  }

  /** Name `n` of the new instance has the data of its lowest-numbered holder, if any. */
  ghost predicate FromLowest(s: State, data: map<(nat, string), Address>, n: string) {
    && (!Holds(s, n) ==> (s.nextInstance, n) !in data)
    && (forall i: nat :: LowestHolder(s, i, n) ==>
          (s.nextInstance, n) in data && data[(s.nextInstance, n)] == s.userData[(i, n)])
  }

  ghost predicate LowestHolder(s: State, i: nat, n: string) {
    (i, n) in s.userData && forall j: nat :: j < i ==> (j, n) !in s.userData
  }

  lemma NewInstanceName(s: State, data: map<(nat, string), Address>, names: seq<string>, n: string)
    requires Inv(s) && Copied(Created(s), data, s.nextInstance, names) && n in names
    ensures FromLowest(s, data, n)
  {
    var u, id := Created(s), s.nextInstance;
    assert CopiedName(u, data, id, n);
    assert (id, n) !in s.userData;
    forall i: nat | LowestHolder(s, i, n) ensures Holder(u, id, n) == Some(i) {
      assert i < id;
    }
  }

  /** Creating an instance, in plain terms: each name of the tables held by any instance
      gets the data of the lowest-numbered holder, and other names and instances keep
      theirs. */
  lemma NewInstanceData(tables: Tables, s: State, t: State)
    requires Inv(s) && DistinctClasses(tables.blocks) && t == Step(tables, s, CreateInstance(false, true))
    ensures forall n :: n in Names(tables.blocks) ==> FromLowest(s, t.userData, n)
    ensures forall k: (nat, string) :: k.0 != s.nextInstance || k.1 !in Names(tables.blocks) ==>
      Unchanged(s.userData, t.userData, k)
  {
    CreatedReplay(tables, s, t);
    forall n | n in Names(tables.blocks) ensures FromLowest(s, t.userData, n) {
      NewInstanceName(s, t.userData, Names(tables.blocks), n);
    }
  }

  /** The new manager has exactly one friendship, message and conversation listener, and
      the managers of other instances keep their lists. */
  lemma NewInstanceLists(tables: Tables, s: State, t: State)
    requires Inv(s) && TablesOk(tables) && t == Step(tables, s, CreateInstance(false, true))
    ensures forall c :: c in {Friendship, AdvancedMsg, Conversation} ==> AttachedOnce(t, Slot(c, s.nextInstance))
    ensures forall o: Slot :: o.instance != s.nextInstance ==> Attached(t, o) == Attached(s, o)
  {
    CreatedReplay(tables, s, t);
    forall c | c in {Friendship, AdvancedMsg, Conversation} ensures AttachedOnce(t, Slot(c, s.nextInstance)) {
      AlwaysRegistered(tables, s, t, c);
    }
  }

  lemma AlwaysRegistered(tables: Tables, s: State, t: State, cls: Class)
    requires AlwaysBlock(tables, cls) && BlocksDone(Created(s), t, s.nextInstance, tables.blocks)
    ensures AttachedOnce(t, Slot(cls, s.nextInstance))
  {
    var b :| b in tables.blocks && b.cls == cls && b.always;
    assert OnceIf(t, Slot(b.cls, s.nextInstance), true);
  }

  // ---------- group listeners ----------

  /** Once user data of the group tips callback is stored anywhere, every test instance
      created with listeners has exactly one Dart group listener. */
  ghost predicate GroupInv(tips: string, s: State) {
    Holds(s, tips) ==> forall id :: id in s.mirrored ==> AttachedOnce(s, Slot(Group, id))
  }

  /** No other callback uses the name of the group tips callback. */
  predicate OwnNames(tables: Tables, es: seq<Event>) {
    forall i :: 0 <= i < |es| && es[i].SetCallback? ==> es[i].name != tables.tips
  }

  /** A replay stores a name only when another instance holds it. */
  lemma ReplayStoresHeld(s: State, data: map<(nat, string), Address>, names: seq<string>, name: string)
    requires Inv(s) && Copied(Created(s), data, s.nextInstance, names) && name in names
    requires !Holds(s, name)
    ensures forall i: nat :: (i, name) !in data
  {
    NewInstanceName(s, data, names, name);
    forall i: nat ensures (i, name) !in data {
      if i != s.nextInstance { assert Unchanged(Created(s).userData, data, (i, name)); }
    }
  }

  lemma HeldIsFound(s: State, names: seq<string>, name: string)
    requires Inv(s) && names != [] && names[0] == name && Holds(s, name)
    ensures AnyHeld(Created(s), s.nextInstance, names)
  {
    var i: nat :| (i, name) in s.userData;
    assert i < s.nextInstance;
    assert Holder(Created(s), s.nextInstance, names[0]).Some?;
  }

  lemma CreateKeepsGroupInv(tables: Tables, s: State, t: State)
    requires Inv(s) && GroupInv(tables.tips, s) && TablesOk(tables)
    requires t == Replay(Created(s), s.nextInstance, tables.blocks)
    ensures GroupInv(tables.tips, t)
  {
    var b, names := tables.blocks[0], Names(tables.blocks);
    CreatedReplay(tables, s, t);
    assert b in tables.blocks && names[0] == tables.tips;
    if Holds(s, tables.tips) {
      HeldIsFound(s, b.names, tables.tips);
      assert OnceIf(t, Slot(b.cls, s.nextInstance), true);
      OthersKeepGroup(tables, s, t);
    } else {
      ReplayStoresHeld(s, t.userData, names, tables.tips);
    }
  }

  lemma OthersKeepGroup(tables: Tables, s: State, t: State)
    requires GroupInv(tables.tips, s) && Holds(s, tables.tips) && SameInstances(Created(s), t)
    requires ListsKept(Created(s), t, s.nextInstance, tables.blocks)
    requires AttachedOnce(t, Slot(Group, s.nextInstance))
    ensures GroupInv(tables.tips, t)
  {
    forall m | m in t.mirrored && m != s.nextInstance ensures AttachedOnce(t, Slot(Group, m)) {
      assert AttachedOnce(s, Slot(Group, m));
      assert AttachedOnce(Created(s), Slot(Group, m));
    }
  }

  /** Group listeners that stay where they are, for no more instances than before. */
  lemma GroupInvKept(tips: string, s: State, t: State)
    requires GroupInv(tips, s)
    requires Holds(t, tips) ==> Holds(s, tips)
    requires forall id :: id in t.mirrored ==> id in s.mirrored
    requires forall id :: id in t.mirrored && AttachedOnce(s, Slot(Group, id)) ==> AttachedOnce(t, Slot(Group, id))
    ensures GroupInv(tips, t)
  {
  }

  lemma CallbackKeepsGroupInv(tips: string, s: State, cls: Class, name: string, data: Address)
    requires Inv(s) && GroupInv(tips, s) && name != tips
    ensures GroupInv(tips, Register(Store(s, s.current, name, data), Slot(cls, s.current)))
  {
    var u, slot := Store(s, s.current, name, data), Slot(cls, s.current);
    StoreKeepsInv(s, s.current, name, data);
    if Holds(u, tips) {
      var i: nat :| (i, tips) in u.userData;
      assert (i, tips) in s.userData;
    }
    GroupInvKept(tips, s, u);
    RegisterFrame(u, slot);
    forall id | id in u.mirrored && AttachedOnce(u, Slot(Group, id))
      ensures AttachedOnce(Register(u, slot), Slot(Group, id))
    {
      RegisterKeepsOnce(u, slot, Slot(Group, id));
    }
    GroupInvKept(tips, u, Register(u, slot));
  }

  lemma TipsKeepsGroupInv(tips: string, s: State, data: Address)
    requires Inv(s)
    ensures GroupInv(tips, SetGroupTipsEffect(s, tips, data))
  {
    GroupTipsStep(s, tips, data);
  }

  lemma DestroyKeepsGroupInv(tips: string, s: State, id: nat)
    requires Inv(s) && GroupInv(tips, s)
    ensures GroupInv(tips, DestroyEffect(s, id))
  {
    DestroyEffects(s, id);
    GroupInvKept(tips, s, DestroyEffect(s, id));
  }

  lemma DetachKeepsGroupInv(tips: string, s: State)
    requires Inv(s) && GroupInv(tips, s)
    ensures GroupInv(tips, DetachEffect(s))
  {
    DetachSparesOthers(s);
    GroupInvKept(tips, s, DetachEffect(s));
  }

  lemma RemoveKeepsGroupInv(tips: string, s: State, slot: Slot)
    requires Inv(s) && GroupInv(tips, s) && slot.cls != Group
    ensures GroupInv(tips, Removed(s, slot))
  {
    RemovedEffect(s, slot);
    GroupInvKept(tips, s, Removed(s, slot));
  }

  lemma StepKeepsGroupInv(tables: Tables, s: State, e: Event)
    requires Inv(s) && GroupInv(tables.tips, s) && TablesOk(tables)
    requires e.SetCallback? ==> e.name != tables.tips
    ensures GroupInv(tables.tips, Step(tables, s, e))
  {
    match e
    case SetCurrent(_) => GroupInvKept(tables.tips, s, Step(tables, s, e));
    case SetCallback(cls, name, data) => CallbackKeepsGroupInv(tables.tips, s, cls, name, data);
    case SetGroupTips(data) => TipsKeepsGroupInv(tables.tips, s, data);
    case CreateInstance(headless, initOk) =>
      if initOk && !headless {
        CreateKeepsGroupInv(tables, s, Step(tables, s, e));
      } else {
        GroupInvKept(tables.tips, s, Step(tables, s, e));
      }
    case DestroyInstance(id) => DestroyKeepsGroupInv(tables.tips, s, id);
    case DetachDefault => DetachKeepsGroupInv(tables.tips, s);
    case RemoveSignaling => RemoveKeepsGroupInv(tables.tips, s, Slot(Signaling, s.current));
  }

  /** In every run mixing registrations, creations, destructions and detaching, whichever
      came first, group tips user data stored anywhere means one group listener each. */
  lemma {:induction false} RunKeepsGroupInv(tables: Tables, es: seq<Event>)
    requires TablesOk(tables) && OwnNames(tables, es)
    ensures GroupInv(tables.tips, Run(tables, es))
  {
    if es != [] {
      var before := es[..|es| - 1];
      RunKeepsGroupInv(tables, before);
      RunKeepsInv(tables, before);
      StepKeepsGroupInv(tables, Run(tables, before), es[|es| - 1]);
    }
  }

  // ---------- conversation listeners ----------

  /** How one call changes the number of times a conversation listener was added. */
  function AddsAfter(s: State, e: Event, before: nat, id: nat): nat {
    match e
    case SetCallback(cls, _, _) => if cls == Conversation && s.current == id then before + 1 else before
    case CreateInstance(headless, initOk) => if initOk && !headless && s.nextInstance == id then before + 1 else before
    case DestroyInstance(i) => if i == id && i != 0 && i in s.live then 0 else before
    case DetachDefault => if id == 0 then 0 else before
    case _ => before
  }

  /** How often the conversation listener of an instance was added since its list was last
      emptied. */
  function ConversationAdds(tables: Tables, es: seq<Event>, id: nat): nat {
    if es == [] then 0
    else
      var before := es[..|es| - 1];
      AddsAfter(Run(tables, before), es[|es| - 1], ConversationAdds(tables, before, id), id)
  }

  /** A conversation manager holds its listener once per registration, not once: the list
      is appended to without a check. */
  lemma {:induction false} ConversationListenerRepeats(tables: Tables, es: seq<Event>, id: nat)
    requires TablesOk(tables)
    ensures |Attached(Run(tables, es), Slot(Conversation, id))| == ConversationAdds(tables, es, id)
    decreases |es|
  {
    if es != [] {
      var before := es[..|es| - 1];
      ConversationListenerRepeats(tables, before, id);
      RunKeepsInv(tables, before);
      ConversationStep(tables, Run(tables, before), es[|es| - 1], id);
    }
  }

  lemma ConversationCallback(s: State, cls: Class, name: string, data: Address, id: nat)
    requires Inv(s)
    ensures |Attached(Register(Store(s, s.current, name, data), Slot(cls, s.current)), Slot(Conversation, id))|
      == |Attached(s, Slot(Conversation, id))| + if cls == Conversation && s.current == id then 1 else 0
  {
    StoreKeepsInv(s, s.current, name, data);
    RegisterEffect(Store(s, s.current, name, data), Slot(cls, s.current));
  }

  lemma ConversationCreate(tables: Tables, s: State, headless: bool, initOk: bool, id: nat)
    requires Inv(s) && TablesOk(tables)
    ensures |Attached(CreateEffect(s, tables, headless, initOk), Slot(Conversation, id))|
      == |Attached(s, Slot(Conversation, id))| + if initOk && !headless && s.nextInstance == id then 1 else 0
  {
    CreatedIsFresh(s);
    assert Attached(Created(s), Slot(Conversation, s.nextInstance)) == Attached(s, Slot(Conversation, s.nextInstance));
    if initOk && !headless { NewInstanceLists(tables, s, CreateEffect(s, tables, headless, initOk)); }
  }

  lemma ConversationStep(tables: Tables, s: State, e: Event, id: nat)
    requires Inv(s) && TablesOk(tables)
    ensures |Attached(Step(tables, s, e), Slot(Conversation, id))| ==
      AddsAfter(s, e, |Attached(s, Slot(Conversation, id))|, id)
  {
    match e
    case SetCurrent(_) =>
    case SetCallback(cls, name, data) => ConversationCallback(s, cls, name, data, id);
    case SetGroupTips(data) => ConversationTips(s, tables.tips, data, id);
    case CreateInstance(headless, initOk) => ConversationCreate(tables, s, headless, initOk, id);
    case DestroyInstance(i) => ConversationDestroy(s, i, id);
    case DetachDefault => ConversationDetach(s, id);
    case RemoveSignaling =>
  }

  lemma ConversationTips(s: State, tips: string, data: Address, id: nat)
    requires Inv(s)
    ensures Attached(SetGroupTipsEffect(s, tips, data), Slot(Conversation, id)) == Attached(s, Slot(Conversation, id))
  {
    GroupTipsStep(s, tips, data);
  }

  lemma ConversationDestroy(s: State, i: nat, id: nat)
    requires Inv(s)
    ensures Attached(DestroyEffect(s, i), Slot(Conversation, id)) ==
      if i == id && i != 0 && i in s.live then [] else Attached(s, Slot(Conversation, id))
  {
  }

  lemma ConversationDetach(s: State, id: nat)
    requires Inv(s)
    ensures Attached(DetachEffect(s), Slot(Conversation, id)) ==
      if id == 0 then [] else Attached(s, Slot(Conversation, id))
  {
    DetachSparesOthers(s);
  }

  /** At most one Dart listener in every list: always for the other classes, and for
      conversation managers exactly when it was added at most once. */
  lemma AtMostOneListenerIff(tables: Tables, es: seq<Event>, slot: Slot)
    requires TablesOk(tables)
    ensures |Attached(Run(tables, es), slot)| <= 1 <==>
      slot.cls != Conversation || ConversationAdds(tables, es, slot.instance) <= 1
  {
    RunKeepsInv(tables, es);
    var s := Run(tables, es);
    assert slot in s.attached ==> SlotInv(slot, s.attached[slot], s.listeners);
    ConversationListenerRepeats(tables, es, slot.instance);
  }

  /** Two conversation callbacks of one instance are enough to have the listener twice. */
  lemma ConversationListenerTwice(tables: Tables)
    requires TablesOk(tables)
    ensures exists es: seq<Event> :: |Attached(Run(tables, es), Slot(Conversation, 0))| == 2
  {
    var e := SetCallback(Conversation, "ConvEvent", 1);
    var es := [e, e];
    assert es[..1] == [e] && [e][..0] == [];
    assert Run(tables, []).current == 0 && ConversationAdds(tables, [], 0) == 0;
    assert Run(tables, [e]).current == 0 && ConversationAdds(tables, [e], 0) == 1;
    assert ConversationAdds(tables, es, 0) == 2;
    ConversationListenerRepeats(tables, es, 0);
  }
}
