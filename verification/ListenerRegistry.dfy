/** The listener registry itself: global maps updated in place.  Every method is proved to
    be one call of `ListenerSpec.Step` on the tables of the code. */
module ListenerRegistry {
  import opened Text
  import opened ListenerSpec
  import ListenerProofs
  import ListenerTheorems
  import CallbackData

  class Registry {
    var current: nat
    var nextInstance: nat
    var nextListener: nat
    var live: seq<nat>
    ghost var mirrored: set<nat>
    var listeners: map<Slot, Address>
    var groupOwners: map<Address, nat>
    var userData: map<(nat, string), Address>
    var attached: map<Slot, seq<Address>>

    ghost function View(): State
      reads this
    {
      State(current, nextInstance, nextListener, live, mirrored, listeners, groupOwners, userData, attached)
    }

    constructor ()
      ensures View() == Initial()
    {
      current, nextInstance, nextListener := 0, 1, 0;
      live, mirrored := [], {};
      listeners, groupOwners, userData, attached := map[], map[], map[], map[];
    }

    /** Store user data unless it is null: under this instance and name it is then what is
        found, and what is found under any other key is as before. */
    method StoreCallbackUserData(instance: nat, name: string, data: Address)
      modifies `userData
      ensures data != 0 ==> (instance, name) in userData && userData[(instance, name)] == data
      ensures forall k :: k != (instance, name) || data == 0 ==> ListenerProofs.Unchanged(old(userData), userData, k)
      ensures View() == Store(old(View()), instance, name, data)
    {
      if data != 0 { userData := userData[(instance, name) := data]; }
    }

    /** The data a callback of an instance sees: the instance's own, or else the default
        instance's. */
    method GetCallbackUserData(instance: nat, name: string) returns (data: Address)
      ensures data == CallbackData.Seen(View(), instance, name)
    {
      if (instance, name) in userData { return userData[(instance, name)]; }
      if instance != 0 && (0, name) in userData { return userData[(0, name)]; }
      data := 0;
    }

    method GetOrCreateListener(slot: Slot) returns (listener: Address)
      modifies `listeners, `groupOwners, `nextListener
      ensures View() == GetOrCreate(old(View()), slot)
      ensures slot in listeners && listener == listeners[slot]
    {
      if slot in listeners { return listeners[slot]; }
      listener := nextListener;
      nextListener := nextListener + 1;
      if slot.cls == Group { groupOwners := groupOwners[listener := slot.instance]; }
      listeners := listeners[slot := listener];
    }

    /** `Add...Listener` of the manager of a slot: the listener is in the list, at its end
        when it is new there or the manager does not check; nothing leaves any list. */
    method AddToManager(slot: Slot, listener: Address)
      modifies `attached
      ensures slot in attached && listener in attached[slot]
      ensures var before, after := Attached(old(View()), slot), attached[slot];
        after == before || (after == before + [listener] && (listener in before ==> slot.cls == Conversation))
      ensures slot.cls == Conversation ==> attached[slot] != Attached(old(View()), slot)
      ensures forall o :: o != slot ==> Attached(View(), o) == Attached(old(View()), o)
      ensures attached == old(attached)[slot := Added(slot.cls, Attached(old(View()), slot), listener)]
    {
      var list := if slot in attached then attached[slot] else [];
      if slot.cls == Conversation || listener !in list { list := list + [listener]; }
      attached := attached[slot := list];
    }

    /** `Remove...Listener` of the manager of a slot. */
    method RemoveFromManager(slot: Slot, listener: Address)
      modifies `attached
      ensures attached ==
        if slot in old(attached) then old(attached)[slot := Without(old(attached)[slot], listener)] else old(attached)
    {
      if slot in attached { attached := attached[slot := Without(attached[slot], listener)]; }
    }

    method RegisterListener(slot: Slot)
      modifies `listeners, `groupOwners, `nextListener, `attached
      ensures View() == Register(old(View()), slot)
    {
      var listener := GetOrCreateListener(slot);
      AddToManager(slot, listener);
    }

    method SetCurrentInstance(instance: nat)
      modifies `current
      ensures View() == Step(TABLES, old(View()), SetCurrent(instance))
    {
      if instance == 0 || instance in live { current := instance; }
    }

    /** Any `DartSet...Callback` other than the group tips one. */
    method DartSetCallback(cls: Class, name: string, data: Address)
      modifies `userData, `listeners, `groupOwners, `nextListener, `attached
      ensures View() == Step(TABLES, old(View()), SetCallback(cls, name, data))
    {
      StoreCallbackUserData(current, name, data);
      RegisterListener(Slot(cls, current));
    }

    method DartSetGroupTipsEventCallback(data: Address)
      modifies `userData, `listeners, `groupOwners, `nextListener, `attached
      ensures View() == Step(TABLES, old(View()), SetGroupTips(data))
    {
      StoreCallbackUserData(current, TABLES.tips, data);
      RegisterGroupOnAll(TABLES.tips, data);
      RegisterListener(Slot(Group, current));
    }

    /** The loop over all test instances. */
    method RegisterGroupOnAll(tips: string, data: Address)
      modifies `userData, `listeners, `groupOwners, `nextListener, `attached
      ensures View() == RegisterGroupForAll(old(View()), live, tips, data)
    {
      var i := 0;
      assert live[0..] == live;
      while i < |live|
        invariant 0 <= i <= |live| && live == old(live)
        invariant RegisterGroupForAll(old(View()), live, tips, data) ==
          RegisterGroupForAll(View(), live[i..], tips, data)
      {
        assert live[i..][0] == live[i] && live[i..][1..] == live[i + 1..];
        StoreCallbackUserData(live[i], tips, data);
        RegisterListener(Slot(Group, live[i]));
        i := i + 1;
      }
    }

    /** The search through the stored user data, in instance order. */
    method FindExistingUserData(self: nat, name: string) returns (data: Address)
      requires forall k :: k in userData ==> userData[k] != 0
      ensures data == match Holder(View(), self, name) case None => 0 case Some(i) => userData[(i, name)]
    {
      var i := 0;
      while i < nextInstance
        invariant i <= nextInstance
        invariant Holder(View(), self, name) == Lowest(userData, self, name, i, nextInstance)
      {
        if i != self && (i, name) in userData { return userData[(i, name)]; }
        i := i + 1;
      }
      data := 0;
    }

    /** One block of the replay. */
    method ReplayOneBlock(instance: nat, b: Block)
      requires forall k :: k in userData ==> userData[k] != 0
      modifies `userData, `listeners, `groupOwners, `nextListener, `attached
      ensures View() == ReplayBlock(old(View()), instance, b)
      ensures forall k :: k in userData ==> userData[k] != 0
    {
      var registered := CopyUserData(instance, b.names);
      if b.always || registered { RegisterListener(Slot(b.cls, instance)); }
    }

    /** Copy the user data of each name another instance holds; tell whether there was any. */
    method CopyUserData(instance: nat, names: seq<string>) returns (found: bool)
      requires forall k :: k in userData ==> userData[k] != 0
      modifies `userData
      ensures View() == CopyNames(old(View()), instance, names)
      ensures found == AnyHeld(old(View()), instance, names)
      ensures forall k :: k in userData ==> userData[k] != 0
    {
      ghost var s := View();
      found := false;
      var i := 0;
      assert names[0..] == names;
      while i < |names|
        invariant 0 <= i <= |names|
        invariant CopyNames(s, instance, names) == CopyNames(View(), instance, names[i..])
        invariant forall k :: k in userData ==> userData[k] != 0
        invariant forall n :: Holder(View(), instance, n) == Holder(s, instance, n)
        invariant found == AnyHeld(s, instance, names[..i])
      {
        assert names[i..][0] == names[i] && names[i..][1..] == names[i + 1..];
        AnyHeldSnoc(s, instance, names[..i], names[i]);
        assert names[..i + 1] == names[..i] + [names[i]];
        CopyNameKeeps(View(), instance, names[i]);
        var data := FindExistingUserData(instance, names[i]);
        if data != 0 {
          StoreCallbackUserData(instance, names[i], data);
          found := true;
        }
        i := i + 1;
      }
      assert names[..i] == names;
    }

    method ReplayListenersForNewInstance(instance: nat, blocks: seq<Block>)
      requires forall k :: k in userData ==> userData[k] != 0
      modifies `userData, `listeners, `groupOwners, `nextListener, `attached
      ensures View() == Replay(old(View()), instance, blocks)
      ensures forall k :: k in userData ==> userData[k] != 0
    {
      var i := 0;
      assert blocks[0..] == blocks;
      while i < |blocks|
        invariant 0 <= i <= |blocks|
        invariant Replay(old(View()), instance, blocks) == Replay(View(), instance, blocks[i..])
        invariant forall k :: k in userData ==> userData[k] != 0
      {
        assert blocks[i..][0] == blocks[i] && blocks[i..][1..] == blocks[i + 1..];
        ReplayOneBlock(instance, blocks[i]);
        i := i + 1;
      }
    }

    /** Creation of a test instance; `initOk` is the outcome of its SDK initialisation. */
    method CreateManagedInstance(headless: bool, initOk: bool) returns (id: nat)
      requires forall k :: k in userData ==> userData[k] != 0
      modifies this
      ensures View() == Step(TABLES, old(View()), CreateInstance(headless, initOk))
      ensures id == if initOk then old(nextInstance) else 0
      ensures forall k :: k in userData ==> userData[k] != 0
    {
      id := CreateWithTables(TABLES, headless, initOk);
    }

    method CreateWithTables(tables: Tables, headless: bool, initOk: bool) returns (id: nat)
      requires forall k :: k in userData ==> userData[k] != 0
      modifies this
      ensures View() == CreateEffect(old(View()), tables, headless, initOk)
      ensures id == if initOk then old(nextInstance) else 0
      ensures forall k :: k in userData ==> userData[k] != 0
    {
      id := nextInstance;
      nextInstance := nextInstance + 1;
      if !initOk { return 0; }
      live := live + [id];
      if headless { return; }
      mirrored := mirrored + {id};
      ReplayListenersForNewInstance(id, tables.blocks);
    }

    /** Forget the listeners of an instance in all seven maps: no slot of it is left, and
        every other slot has the listener it had. */
    method CleanupInstanceListeners(instance: nat)
      modifies `listeners
      ensures forall c :: Slot(c, instance) !in listeners
      ensures forall o :: o in listeners <==> o in old(listeners) && o.instance != instance
      ensures forall o :: o in listeners ==> listeners[o] == old(listeners)[o]
      ensures listeners == EraseInstance(old(listeners), instance)
    {
      listeners := map slot | slot in listeners && slot.instance != instance :: listeners[slot];
    }

    method DestroyTestInstance(instance: nat)
      modifies this
      ensures View() == Step(TABLES, old(View()), DestroyInstance(instance))
    {
      if instance == 0 || instance !in live { return; }
      if current == instance { current := 0; }
      CleanupInstanceListeners(instance);
      live := WithoutId(live, instance);
      mirrored := mirrored - {instance};
      attached := map slot | slot in attached && slot.instance != instance :: attached[slot];
    }

    method DetachDefaultInstanceListeners()
      modifies `listeners, `attached
      ensures View() == Step(TABLES, old(View()), DetachDefault)
    {
      RemoveDefaultListeners(CLASSES);
      CleanupInstanceListeners(0);
    }

    /** Take the default instance's listener of each class out of its manager. */
    method RemoveDefaultListeners(classes: seq<Class>)
      modifies `attached
      ensures View() == RemoveDefaults(old(View()), classes)
    {
      var i := 0;
      assert classes[0..] == classes;
      while i < |classes|
        invariant 0 <= i <= |classes|
        invariant RemoveDefaults(old(View()), classes) == RemoveDefaults(View(), classes[i..])
      {
        assert classes[i..][0] == classes[i] && classes[i..][1..] == classes[i + 1..];
        var slot := Slot(classes[i], 0);
        if slot in listeners { RemoveFromManager(slot, listeners[slot]); }
        i := i + 1;
      }
    }

    method DartRemoveSignalingListenerForCurrentInstance()
      modifies `attached
      ensures View() == Step(TABLES, old(View()), RemoveSignaling)
    {
      var slot := Slot(Signaling, current);
      if slot in listeners { RemoveFromManager(slot, listeners[slot]); }
    }

    /** The instance an event of a listener is attributed to, given the receiver set for the
        delivery; a message listener uses that once. */
    method ResolveInstance(cls: Class, listener: Address, receiver: nat) returns (instance: nat, left: nat)
      requires cls == Group ==> listener in groupOwners
      ensures instance == Attribute(View(), cls, listener, receiver)
      ensures left == if cls == AdvancedMsg then 0 else receiver
    {
      left := receiver;
      if cls == Group { return groupOwners[listener], left; }
      if cls == AdvancedMsg {
        left := 0;
        if receiver != 0 { return receiver, left; }
      }
      instance := GetInstanceIdForListener(cls, listener);
      if instance == 0 { instance := current; }
    }

    /** The search for a listener in its class's map; group listeners have no such search. */
    method GetInstanceIdForListener(cls: Class, listener: Address) returns (instance: nat)
      ensures instance == InstanceOf(listeners, cls, listener, 0, nextInstance)
    {
      instance := 0;
      var i := 0;
      while i < nextInstance
        invariant i <= nextInstance
        invariant InstanceOf(listeners, cls, listener, 0, nextInstance) ==
          InstanceOf(listeners, cls, listener, i, nextInstance)
      {
        if Slot(cls, i) in listeners && listeners[Slot(cls, i)] == listener {
          instance := i;
          break;
        }
        i := i + 1;
      }
    }
  }

  lemma AnyHeldSnoc(s: State, instance: nat, names: seq<string>, n: string)
    ensures AnyHeld(s, instance, names + [n]) <==> AnyHeld(s, instance, names) || Holder(s, instance, n).Some?
  {
    var all := names + [n];
    assert all[|names|] == n;
    if AnyHeld(s, instance, names) {
      var i :| 0 <= i < |names| && Holder(s, instance, names[i]).Some?;
      assert all[i] == names[i];
    }
  }

  lemma CopyNameKeeps(s: State, instance: nat, name: string)
    ensures forall n :: Holder(CopyName(s, instance, name), instance, n) == Holder(s, instance, n)
  {
    ListenerProofs.CopyNameKeepsHolders(s, instance, name);
  }

  /** Any sequence of calls on a new registry leaves it in the state of the run; no call
      asks for more than the runs guarantee. */
  method RunRegistry(es: seq<Event>) returns (registry: Registry)
    ensures fresh(registry) && registry.View() == Run(TABLES, es)
  {
    registry := new Registry();
    var i := 0;
    while i < |es|
      invariant 0 <= i <= |es|
      invariant fresh(registry) && registry.View() == Run(TABLES, es[..i])
    {
      assert es[..i + 1][..i] == es[..i];
      DataIsNeverNull(es[..i]);
      Apply(registry, es[i]);
      i := i + 1;
    }
    assert es[..i] == es;
  }

  lemma DataIsNeverNull(es: seq<Event>)
    ensures forall k :: k in Run(TABLES, es).userData ==> Run(TABLES, es).userData[k] != 0
  {
    ListenerTheorems.ActualTables();
    ListenerTheorems.RunKeepsInv(TABLES, es);
  }

  method Apply(registry: Registry, e: Event)
    requires forall k :: k in registry.userData ==> registry.userData[k] != 0
    modifies registry
    ensures registry.View() == Step(TABLES, old(registry.View()), e)
  {
    match e
    case SetCurrent(instance) => registry.SetCurrentInstance(instance);
    case SetCallback(cls, name, data) => registry.DartSetCallback(cls, name, data);
    case SetGroupTips(data) => registry.DartSetGroupTipsEventCallback(data);
    case CreateInstance(headless, initOk) => var _ := registry.CreateManagedInstance(headless, initOk);
    case DestroyInstance(instance) => registry.DestroyTestInstance(instance);
    case DetachDefault => registry.DetachDefaultInstanceListeners();
    case RemoveSignaling => registry.DartRemoveSignalingListenerForCurrentInstance();
  }
}
