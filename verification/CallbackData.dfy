/** Which user data the callbacks of each instance see, read off the history of calls. */
module CallbackData {
  import opened Text
  import opened ListenerSpec
  import opened ListenerProofs
  import opened ListenerTheorems
  import opened GroupListeners
  import opened ListenerHistory
  import opened InstanceHistory

  /** The data stored under a key, or null. */
  function Look(userData: map<(nat, string), Address>, k: (nat, string)): Address {
    if k in userData then userData[k] else 0
  }

  /** `GetCallbackUserData`: an instance's own data, or else the default instance's. */
  function Seen(s: State, instance: nat, name: string): Address {
    if (instance, name) in s.userData then s.userData[(instance, name)]
    else if instance != 0 && (0, name) in s.userData then s.userData[(0, name)]
    else 0
  }

  /** How one call changes the data stored for an instance under a name. */
  function OwnAfter(tables: Tables, s: State, e: Event, before: Address, id: nat, name: string): Address {
    match e
    case SetCallback(_, n, data) => if n == name && s.current == id && data != 0 then data else before
    case SetGroupTips(data) =>
      if name == tables.tips && data != 0 && (id == s.current || id in s.live) then data else before
    case CreateInstance(headless, initOk) =>
      if initOk && !headless && id == s.nextInstance && name in Names(tables.blocks) then Copy(s, name) else before
    case _ => before
  }

  /** What a new instance is given: the lowest-numbered holder's data. */
  function Copy(s: State, name: string): Address {
    match Holder(Created(s), s.nextInstance, name)
    case None => 0
    case Some(i) => Look(s.userData, (i, name))
  }

  // ---------- one call ----------

  lemma {:induction false} GroupForAllData(s: State, ids: seq<nat>, tips: string, data: Address, k: (nat, string))
    ensures Look(RegisterGroupForAll(s, ids, tips, data).userData, k)
      == if data != 0 && k.1 == tips && k.0 in ids then data else Look(s.userData, k)
    decreases |ids|
  {
    if ids != [] {
      var u := Store(s, ids[0], tips, data);
      RegisterFrame(u, Slot(Group, ids[0]));
      GroupForAllData(Register(u, Slot(Group, ids[0])), ids[1..], tips, data, k);
      assert forall i :: i in ids <==> i == ids[0] || i in ids[1..];
    }
  }

  lemma TipsData(s: State, tips: string, data: Address, id: nat, name: string)
    ensures Look(SetGroupTipsEffect(s, tips, data).userData, (id, name))
      == if name == tips && data != 0 && (id == s.current || id in s.live) then data else Look(s.userData, (id, name))
  {
    var u := Store(s, s.current, tips, data);
    GroupForAllData(u, s.live, tips, data, (id, name));
    RegisterFrame(RegisterGroupForAll(u, s.live, tips, data), Slot(Group, s.current));
  }

  lemma CallbackDataStored(s: State, cls: Class, n: string, data: Address, id: nat, name: string)
    ensures Look(Register(Store(s, s.current, n, data), Slot(cls, s.current)).userData, (id, name))
      == if n == name && s.current == id && data != 0 then data else Look(s.userData, (id, name))
  {
    RegisterFrame(Store(s, s.current, n, data), Slot(cls, s.current));
  }

  lemma ReplayData(tables: Tables, s: State, id: nat, name: string)
    requires Inv(s) && DistinctClasses(tables.blocks)
    ensures Look(Replay(Created(s), s.nextInstance, tables.blocks).userData, (id, name))
      == if id == s.nextInstance && name in Names(tables.blocks) then Copy(s, name) else Look(s.userData, (id, name))
  {
    var t := Replay(Created(s), s.nextInstance, tables.blocks);
    CreatedReplay(tables, s, t);
    assert Copied(Created(s), t.userData, s.nextInstance, Names(tables.blocks));
    if id == s.nextInstance && name in Names(tables.blocks) {
      assert CopiedName(Created(s), t.userData, id, name);
    } else {
      assert Unchanged(Created(s).userData, t.userData, (id, name));
    }
  }

  lemma StepData(tables: Tables, s: State, e: Event, id: nat, name: string)
    requires Inv(s) && DistinctClasses(tables.blocks)
    ensures Look(Step(tables, s, e).userData, (id, name))
      == OwnAfter(tables, s, e, Look(s.userData, (id, name)), id, name)
  {
    match e
    case SetCallback(cls, n, data) => CallbackDataStored(s, cls, n, data, id, name);
    case SetGroupTips(data) => TipsData(s, tables.tips, data, id, name);
    case CreateInstance(headless, initOk) => if initOk && !headless { ReplayData(tables, s, id, name); }
    case DetachDefault => DetachSparesOthers(s);
    case _ =>
  }

  // ---------- whole runs ----------

  /** The data agrees with the history. */
  ghost predicate DataAgrees(tables: Tables, s: State, es: seq<Event>) {
    forall id: nat, name :: Look(s.userData, (id, name)) == Data(tables, es, id, name)
  }

  /** The lowest-numbered holder is the first instance that has data. */
  lemma {:induction false} FirstIsLowest(tables: Tables, s: State, es: seq<Event>, name: string, from: nat)
    requires Inv(s) && InstancesAgree(s, es) && DataAgrees(tables, s, es) && from <= s.nextInstance
    ensures FirstData(tables, es, name, from) ==
      match Lowest(s.userData, s.nextInstance, name, from, s.nextInstance + 1)
      case None => 0
      case Some(i) => Look(s.userData, (i, name))
    decreases s.nextInstance - from
  {
    assert Look(s.userData, (from, name)) == Data(tables, es, from, name);
    if from < s.nextInstance {
      FirstIsLowest(tables, s, es, name, from + 1);
    } else {
      assert Lowest(s.userData, s.nextInstance, name, from + 1, s.nextInstance + 1) == None;
    }
  }

  lemma CopyIsFirst(tables: Tables, s: State, es: seq<Event>, name: string)
    requires Inv(s) && InstancesAgree(s, es) && DataAgrees(tables, s, es)
    ensures Copy(s, name) == FirstData(tables, es, name, 0)
    ensures Holder(Created(s), s.nextInstance, name).Some? <==> FirstData(tables, es, name, 0) != 0
  {
    FirstIsLowest(tables, s, es, name, 0);
  }

  lemma StepAgrees(tables: Tables, es: seq<Event>, s: State, id: nat, name: string)
    requires es != [] && Inv(s) && DistinctClasses(tables.blocks)
    requires InstancesAgree(s, es[..|es| - 1]) && DataAgrees(tables, s, es[..|es| - 1])
    ensures Look(Step(tables, s, es[|es| - 1]).userData, (id, name)) == Data(tables, es, id, name)
  {
    var before := es[..|es| - 1];
    StepData(tables, s, es[|es| - 1], id, name);
    CopyIsFirst(tables, s, before, name);
    assert Look(s.userData, (id, name)) == Data(tables, before, id, name);
  }

  /** In every run the data stored for each instance is what the history says. */
  lemma {:induction false} RunData(tables: Tables, es: seq<Event>)
    requires DistinctClasses(tables.blocks)
    ensures DataAgrees(tables, Run(tables, es), es)
  {
    if es != [] {
      var before := es[..|es| - 1];
      RunData(tables, before);
      RunKeepsInv(tables, before);
      RunInstances(tables, before);
      forall id: nat, name ensures Look(Run(tables, es).userData, (id, name)) == Data(tables, es, id, name) {
        StepAgrees(tables, es, Run(tables, before), id, name);
      }
    }
  }

  /** In every run the callbacks of an instance see the last data that the history stored for
      the instance, by a registration or by its own creation, or else the default instance's. */
  lemma SeenIsLastStored(tables: Tables, es: seq<Event>, id: nat, name: string)
    requires DistinctClasses(tables.blocks)
    ensures Seen(Run(tables, es), id, name) ==
      if Data(tables, es, id, name) != 0 then Data(tables, es, id, name)
      else if id != 0 then Data(tables, es, 0, name)
      else 0
  {
    RunKeepsInv(tables, es);
    RunData(tables, es);
    assert Look(Run(tables, es).userData, (id, name)) == Data(tables, es, id, name);
    assert Look(Run(tables, es).userData, (0, name)) == Data(tables, es, 0, name);
  }

  /** Right after its creation an instance sees, under the names of the tables, the data of the
      lowest-numbered holder, and under any other name the default instance's. */
  lemma NewInstanceSees(tables: Tables, s: State, name: string)
    requires Inv(s) && DistinctClasses(tables.blocks)
    ensures var seen := Seen(Step(tables, s, CreateInstance(false, true)), s.nextInstance, name);
      if name !in Names(tables.blocks) then seen == Look(s.userData, (0, name))
      else
        && (!Holds(s, name) ==> seen == 0)
        && (forall i: nat :: LowestHolder(s, i, name) ==> seen == s.userData[(i, name)])
  {
    var t := Step(tables, s, CreateInstance(false, true));
    ReplayData(tables, s, s.nextInstance, name);
    ReplayData(tables, s, 0, name);
    CreateKeepsInv(tables, s, false, true);
    assert (s.nextInstance, name) !in s.userData;
    if name in Names(tables.blocks) { NewInstanceData(tables, s, t); }
  }

  /** User data outlives its instance: a destroyed instance's data is still what later
      instances are given, as long as no lower-numbered one holds the name. */
  lemma DestroyedDataIsCopied(tables: Tables, s: State, id: nat, name: string)
    requires Inv(s) && DistinctClasses(tables.blocks) && id != 0 && id in s.live
    requires LowestHolder(s, id, name) && name in Names(tables.blocks)
    ensures var t := Step(tables, Step(tables, s, DestroyInstance(id)), CreateInstance(false, true));
      id !in t.live && Seen(t, s.nextInstance, name) == s.userData[(id, name)]
  {
    var u := Step(tables, s, DestroyInstance(id));
    DestroyEffects(s, id);
    assert LowestHolder(u, id, name);
    NewInstanceSees(tables, u, name);
    CreatedReplay(tables, u, Step(tables, u, CreateInstance(false, true)));
  }
}
