/** What the listener registry guarantees in every run. */
module ListenerProofs {
  import opened Text
  import opened ListenerSpec

  // ---------- the invariant ----------

  /** Listener objects are pairwise different, so each of the seven maps is injective. */
  ghost predicate ListenersInv(listeners: map<Slot, Address>, nextListener: nat, bound: nat) {
    && (forall a :: a in listeners ==> listeners[a] < nextListener && a.instance < bound)
    && (forall a, b :: a in listeners && b in listeners && a != b ==> listeners[a] != listeners[b])
  }

  /** A group listener carries the instance it is registered for. */
  ghost predicate OwnersInv(listeners: map<Slot, Address>, groupOwners: map<Address, nat>) {
    forall a :: a in listeners && a.cls == Group ==>
      listeners[a] in groupOwners && groupOwners[listeners[a]] == a.instance
  }

  /** A manager's list holds nothing but the listener of its own slot, and holds it at most
      once unless it is a conversation manager's list. */
  ghost predicate AttachedInv(attached: map<Slot, seq<Address>>, listeners: map<Slot, Address>, bound: nat) {
    forall slot :: slot in attached ==> SlotInv(slot, attached[slot], listeners) && slot.instance < bound
  }

  ghost predicate SlotInv(slot: Slot, list: seq<Address>, listeners: map<Slot, Address>) {
    && (forall x :: x in list ==> slot in listeners && x == listeners[slot])
    && (slot.cls != Conversation ==> |list| <= 1)
  }

  ghost predicate InstancesInv(live: seq<nat>, mirrored: set<nat>, current: nat, bound: nat) {
    && (forall id :: id in live ==> 0 < id < bound)
    && current < bound && (current == 0 || current in live)
    && (forall id :: id in mirrored ==> id in live)
  }

  ghost predicate DataInv(userData: map<(nat, string), Address>, bound: nat) {
    forall k :: k in userData ==> k.0 < bound && userData[k] != 0
  }

  ghost predicate Inv(s: State) {
    && ListenersInv(s.listeners, s.nextListener, s.nextInstance)
    && OwnersInv(s.listeners, s.groupOwners)
    && AttachedInv(s.attached, s.listeners, s.nextInstance)
    && InstancesInv(s.live, s.mirrored, s.current, s.nextInstance)
    && DataInv(s.userData, s.nextInstance)
  }

  // ---------- registering ----------

  /** Nothing but listeners and lists differs. */
  ghost predicate SameInstances(s: State, t: State) {
    t.live == s.live && t.mirrored == s.mirrored && t.current == s.current && t.nextInstance == s.nextInstance
  }

  /** Nothing outside one slot changed: not its list, and not its listener. */
  ghost predicate OnlySlot(s: State, t: State, slot: Slot) {
    && (forall o :: o != slot ==> Attached(t, o) == Attached(s, o))
    && (forall o :: o != slot ==> (o in t.listeners <==> o in s.listeners))
    && (forall o :: o in s.listeners ==> o in t.listeners && t.listeners[o] == s.listeners[o])
  }

  lemma AddedKeeps(slot: Slot, list: seq<Address>, listeners: map<Slot, Address>)
    requires SlotInv(slot, list, listeners) && slot in listeners
    ensures var more := Added(slot.cls, list, listeners[slot]);
      && SlotInv(slot, more, listeners)
      && (if slot.cls == Conversation then |more| == |list| + 1 else more == [listeners[slot]])
      && (list == [] ==> more == [listeners[slot]])
  {
    if slot.cls != Conversation && list != [] { assert list[0] in list; }
  }

  lemma GetOrCreateKeepsInv(s: State, slot: Slot)
    requires Inv(s) && slot.instance < s.nextInstance
    ensures Inv(GetOrCreate(s, slot))
  {
    var t := GetOrCreate(s, slot);
    forall o | o in t.attached ensures SlotInv(o, t.attached[o], t.listeners) {
      assert SlotInv(o, s.attached[o], s.listeners);
    }
  }

  /** What registering leaves in the slot. */
  ghost predicate Attaches(s: State, t: State, slot: Slot) {
    && slot in t.listeners
    && (if slot.cls == Conversation then |Attached(t, slot)| == |Attached(s, slot)| + 1
        else Attached(t, slot) == [t.listeners[slot]])
    && (Attached(s, slot) == [] ==> Attached(t, slot) == [t.listeners[slot]])
  }

  lemma RegisterFrame(s: State, slot: Slot)
    ensures var t := Register(s, slot);
      OnlySlot(s, t, slot) && SameInstances(s, t) && t.userData == s.userData
  {
  }

  lemma RegisterAttaches(s: State, slot: Slot)
    requires AttachedInv(s.attached, s.listeners, s.nextInstance)
    ensures Attaches(s, Register(s, slot), slot)
    ensures var t := Register(s, slot); SlotInv(slot, Attached(t, slot), t.listeners)
  {
    var g := GetOrCreate(s, slot);
    assert SlotInv(slot, Attached(s, slot), s.listeners);
    assert SlotInv(slot, Attached(g, slot), g.listeners);
    AddedKeeps(slot, Attached(g, slot), g.listeners);
  }

  lemma RegisterKeepsInv(s: State, slot: Slot)
    requires Inv(s) && slot.instance < s.nextInstance
    ensures Inv(Register(s, slot))
  {
    var t := Register(s, slot);
    GetOrCreateKeepsInv(s, slot);
    RegisterAttaches(s, slot);
    var g := GetOrCreate(s, slot);
    forall o | o in t.attached ensures SlotInv(o, t.attached[o], t.listeners) && o.instance < t.nextInstance {
      if o != slot { assert SlotInv(o, g.attached[o], g.listeners); }
    }
  }

  /** Registering touches one slot only, and leaves its listener attached: once more for a
      conversation manager, exactly once for the others. */
  lemma RegisterEffect(s: State, slot: Slot)
    requires Inv(s) && slot.instance < s.nextInstance
    ensures var t := Register(s, slot);
      Inv(t) && OnlySlot(s, t, slot) && SameInstances(s, t) && t.userData == s.userData && Attaches(s, t, slot)
  {
    RegisterFrame(s, slot);
    RegisterAttaches(s, slot);
    RegisterKeepsInv(s, slot);
  }

  lemma StoreKeepsInv(s: State, instance: nat, name: string, data: Address)
    requires Inv(s) && instance < s.nextInstance
    ensures Inv(Store(s, instance, name, data))
  {
  }

  lemma RemovedEffect(s: State, slot: Slot)
    requires Inv(s)
    ensures var t := Removed(s, slot);
      && Inv(t) && OnlySlot(s, t, slot) && SameInstances(s, t) && t.userData == s.userData
      && t.listeners == s.listeners && Attached(t, slot) == []
  {
    var list := Attached(s, slot);
    assert SlotInv(slot, list, s.listeners);
    assert list == [] || list[0] in list;
  }

  // ---------- replay ----------

  /** What copying some names does to the user data: nothing outside the instance and the
      names, and each name another instance holds gets the lowest holder's data. */
  ghost predicate Copied(s: State, data: map<(nat, string), Address>, instance: nat, names: seq<string>) {
    && (forall k: (nat, string) :: k.0 != instance || k.1 !in names ==> Unchanged(s.userData, data, k))
    && (forall n :: n in names ==> CopiedName(s, data, instance, n))
  }

  ghost predicate Unchanged(before: map<(nat, string), Address>, after: map<(nat, string), Address>, k: (nat, string)) {
    (k in after <==> k in before) && (k in before ==> after[k] == before[k])
  }

  ghost predicate CopiedName(s: State, data: map<(nat, string), Address>, instance: nat, n: string) {
    match Holder(s, instance, n)
    case Some(i) => (instance, n) in data && data[(instance, n)] == s.userData[(i, n)]
    case None => Unchanged(s.userData, data, (instance, n))
  }

  lemma {:induction false} LowestUnaffected(a: map<(nat, string), Address>, b: map<(nat, string), Address>,
                                            self: nat, name: string, from: nat, bound: nat)
    requires forall k: (nat, string) :: k.0 != self ==> (k in a <==> k in b)
    ensures Lowest(a, self, name, from, bound) == Lowest(b, self, name, from, bound)
    decreases bound - from
  {
    if from < bound { LowestUnaffected(a, b, self, name, from + 1, bound); }
  }

  /** Copying one name does not change who holds what elsewhere. */
  lemma CopyNameKeepsHolders(s: State, instance: nat, name: string)
    ensures forall n :: Holder(CopyName(s, instance, name), instance, n) == Holder(s, instance, n)
  {
    var u := CopyName(s, instance, name);
    forall n ensures Holder(u, instance, n) == Holder(s, instance, n) {
      LowestUnaffected(u.userData, s.userData, instance, n, 0, s.nextInstance);
    }
  }

  lemma {:induction false} CopyNamesFrame(s: State, instance: nat, names: seq<string>)
    requires DataInv(s.userData, s.nextInstance) && instance < s.nextInstance
    ensures var t := CopyNames(s, instance, names);
      t == s.(userData := t.userData) && DataInv(t.userData, t.nextInstance)
    decreases |names|
  {
    if names != [] { CopyNamesFrame(CopyName(s, instance, names[0]), instance, names[1..]); }
  }

  lemma {:induction false} CopyNamesEffect(s: State, instance: nat, names: seq<string>)
    requires DataInv(s.userData, s.nextInstance) && instance < s.nextInstance
    ensures Copied(s, CopyNames(s, instance, names).userData, instance, names)
    decreases |names|
  {
    if names != [] {
      var u := CopyName(s, instance, names[0]);
      var data := CopyNames(u, instance, names[1..]).userData;
      CopyNamesEffect(u, instance, names[1..]);
      CopyNameKeepsHolders(s, instance, names[0]);
      assert CopiedName(s, u.userData, instance, names[0]);
      CopiedCons(s, u, data, instance, names);
    }
  }

  lemma CopiedCons(s: State, u: State, data: map<(nat, string), Address>, instance: nat, names: seq<string>)
    requires names != [] && u == CopyName(s, instance, names[0]) && CopiedName(s, u.userData, instance, names[0])
    requires forall n :: Holder(u, instance, n) == Holder(s, instance, n)
    requires Copied(u, data, instance, names[1..])
    ensures Copied(s, data, instance, names)
  {
    assert forall n :: n in names <==> n == names[0] || n in names[1..];
    forall n | n in names ensures CopiedName(s, data, instance, n) {
      if n in names[1..] { assert CopiedName(u, data, instance, n); }
    }
  }

  /** The slot's manager has the slot's listener, once, and nothing else from Dart. */
  ghost predicate AttachedOnce(s: State, slot: Slot) {
    slot in s.listeners && Attached(s, slot) == [s.listeners[slot]]
  }

  /** The list of a slot after its block: the listener once, or still nothing. */
  ghost predicate OnceIf(s: State, slot: Slot, registered: bool) {
    if registered then AttachedOnce(s, slot) else Attached(s, slot) == []
  }

  lemma CopyKeepsInv(s: State, instance: nat, names: seq<string>)
    requires Inv(s) && instance < s.nextInstance
    ensures var u := CopyNames(s, instance, names);
      Inv(u) && SameInstances(s, u) && u.listeners == s.listeners && u.attached == s.attached
  {
    CopyNamesFrame(s, instance, names);
  }

  /** Registering in a state that differs in user data only. */
  lemma RegisteredAfter(s: State, u: State, slot: Slot)
    requires Inv(u) && SameInstances(s, u) && u.listeners == s.listeners && u.attached == s.attached
    requires slot.instance < u.nextInstance && Attached(s, slot) == []
    ensures var t := Register(u, slot);
      Inv(t) && t.userData == u.userData && OnlySlot(s, t, slot) && SameInstances(s, t) && AttachedOnce(t, slot)
  {
    RegisterEffect(u, slot);
  }

  /** One block of the replay on a slot nothing was attached to. */
  lemma ReplayBlockEffect(s: State, instance: nat, b: Block)
    requires Inv(s) && instance < s.nextInstance && Attached(s, Slot(b.cls, instance)) == []
    ensures var t, slot := ReplayBlock(s, instance, b), Slot(b.cls, instance);
      && Inv(t) && Copied(s, t.userData, instance, b.names) && OnlySlot(s, t, slot) && SameInstances(s, t)
      && OnceIf(t, slot, b.always || AnyHeld(s, instance, b.names))
  {
    var u := CopyNames(s, instance, b.names);
    CopyNamesEffect(s, instance, b.names);
    CopyKeepsInv(s, instance, b.names);
    if b.always || AnyHeld(s, instance, b.names) { RegisteredAfter(s, u, Slot(b.cls, instance)); }
  }

  // ---------- a whole replay ----------

  /** Outside the instance the user data is the same. */
  ghost predicate SameElsewhere(s: State, t: State, instance: nat) {
    && t.nextInstance == s.nextInstance
    && forall k: (nat, string) :: k.0 != instance ==> Unchanged(s.userData, t.userData, k)
  }

  lemma HoldersKept(s: State, t: State, instance: nat)
    requires SameElsewhere(s, t, instance)
    ensures forall n :: Holder(t, instance, n) == Holder(s, instance, n)
    ensures forall names :: AnyHeld(t, instance, names) == AnyHeld(s, instance, names)
  {
    forall n ensures Holder(t, instance, n) == Holder(s, instance, n) {
      LowestUnaffected(t.userData, s.userData, instance, n, 0, s.nextInstance);
    }
  }

  /** Copying one table and then another copies both. */
  lemma CopiedTwice(s: State, t: State, data: map<(nat, string), Address>, instance: nat,
                    a: seq<string>, b: seq<string>)
    requires Copied(s, t.userData, instance, a) && t.nextInstance == s.nextInstance
    requires Copied(t, data, instance, b)
    ensures Copied(s, data, instance, a + b)
    ensures SameElsewhere(s, t, instance)
  {
    HoldersKept(s, t, instance);
    forall n | n in a + b ensures CopiedName(s, data, instance, n) {
      if n in b {
        assert CopiedName(t, data, instance, n);
        if n in a { assert CopiedName(s, t.userData, instance, n); }
      } else {
        assert CopiedName(s, t.userData, instance, n);
        assert Unchanged(t.userData, data, (instance, n));
      }
    }
  }

  /** The state between two blocks of a replay of `s0`. */
  ghost predicate Replaying(s0: State, s: State, instance: nat, names: seq<string>) {
    && Inv(s) && instance < s.nextInstance && SameInstances(s0, s)
    && Copied(s0, s.userData, instance, names)
    && (forall o: Slot :: o.instance != instance ==> Attached(s, o) == Attached(s0, o))
    && (forall o :: o in s0.listeners ==> o in s.listeners && s.listeners[o] == s0.listeners[o])
  }

  lemma NextBlock(s0: State, s: State, instance: nat, done: seq<string>, b: Block)
    requires Replaying(s0, s, instance, done) && Attached(s, Slot(b.cls, instance)) == []
    ensures var t, slot := ReplayBlock(s, instance, b), Slot(b.cls, instance);
      && Replaying(s0, t, instance, done + b.names) && OnlySlot(s, t, slot)
      && OnceIf(t, slot, b.always || AnyHeld(s0, instance, b.names))
  {
    ReplayBlockEffect(s, instance, b);
    CopiedTwice(s0, s, ReplayBlock(s, instance, b).userData, instance, done, b.names);
    HoldersKept(s0, s, instance);
  }

  /** Each class has one block at most. */
  ghost predicate DistinctClasses(blocks: seq<Block>) {
    forall i, j :: 0 <= i < j < |blocks| ==> blocks[i].cls != blocks[j].cls
  }

  /** Every list that is not touched by the blocks stays as it is. */
  ghost predicate ListsKept(s: State, t: State, instance: nat, blocks: seq<Block>) {
    forall o: Slot :: o.instance != instance || (forall b :: b in blocks ==> b.cls != o.cls) ==>
      Attached(t, o) == Attached(s, o) && (AttachedOnce(s, o) ==> AttachedOnce(t, o))
  }

  ghost predicate BlocksDone(s0: State, t: State, instance: nat, blocks: seq<Block>) {
    forall b :: b in blocks ==> OnceIf(t, Slot(b.cls, instance), b.always || AnyHeld(s0, instance, b.names))
  }

  /** A replay for an instance without listeners: user data copied from the lowest holders,
      other instances untouched, and for each block the class's listener once, if the block
      always registers or one of its names is held elsewhere. */
  lemma {:induction false} ReplayEffect(s0: State, s: State, instance: nat, done: seq<string>, blocks: seq<Block>)
    requires Replaying(s0, s, instance, done) && DistinctClasses(blocks)
    requires forall b :: b in blocks ==> Attached(s, Slot(b.cls, instance)) == []
    ensures var t := Replay(s, instance, blocks);
      && Replaying(s0, t, instance, done + Names(blocks))
      && ListsKept(s, t, instance, blocks) && BlocksDone(s0, t, instance, blocks)
    decreases |blocks|
  {
    if blocks == [] {
      assert done + [] == done;
    } else {
      var b, rest := blocks[0], blocks[1..];
      var u := ReplayBlock(s, instance, b);
      assert b in blocks;
      NextBlock(s0, s, instance, done, b);
      assert forall x :: x in rest ==> x in blocks && x.cls != b.cls;
      ReplayEffect(s0, u, instance, done + b.names, rest);
      Assoc(done, b.names, Names(rest));
      KeptThenDone(s0, s, u, Replay(u, instance, rest), instance, blocks);
    }
  }

  lemma KeptThenDone(s0: State, s: State, u: State, t: State, instance: nat, blocks: seq<Block>)
    requires blocks != [] && DistinctClasses(blocks)
    requires OnlySlot(s, u, Slot(blocks[0].cls, instance))
    requires OnceIf(u, Slot(blocks[0].cls, instance), blocks[0].always || AnyHeld(s0, instance, blocks[0].names))
    requires ListsKept(u, t, instance, blocks[1..]) && BlocksDone(s0, t, instance, blocks[1..])
    ensures ListsKept(s, t, instance, blocks) && BlocksDone(s0, t, instance, blocks)
  {
    assert forall x :: x in blocks <==> x == blocks[0] || x in blocks[1..];
    assert forall x :: x in blocks[1..] ==> x.cls != blocks[0].cls;
  }
}
