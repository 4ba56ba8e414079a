/** What the per-instance listener registry does: listener objects, callback user data and
    the listener lists of the managers, told as a step function over values. */
module ListenerSpec {
  import opened Text

  datatype Class = Sdk | AdvancedMsg | Conversation | Group | Friendship | Signaling | Community

  /** One entry of one of the seven listener maps; instance 0 is the default instance. */
  datatype Slot = Slot(cls: Class, instance: nat)

  /** Addresses; user data 0 is the null pointer. */
  type Address = nat

  /** `live` lists the test instances in ascending order, `mirrored` the ones among them
      that were created with listeners.  `groupOwners` is the instance stored in each group
      listener object.  `attached` holds the Dart listeners in each manager's own list. */
  datatype State = State(
    current: nat, nextInstance: nat, nextListener: nat,
    live: seq<nat>, mirrored: set<nat>,
    listeners: map<Slot, Address>, groupOwners: map<Address, nat>,
    userData: map<(nat, string), Address>,
    attached: map<Slot, seq<Address>>)

  function Initial(): State {
    State(0, 1, 0, [], {}, map[], map[], map[], map[])
  }

  datatype Event =
    | SetCurrent(instance: nat)
    | SetCallback(cls: Class, name: string, data: Address)
    | SetGroupTips(data: Address)
    | CreateInstance(headless: bool, initOk: bool)
    | DestroyInstance(instance: nat)
    | DetachDefault
    | RemoveSignaling

  // ---------- the tables ----------

  /** One block of the replay: a listener class, its callback names, and whether the
      listener is registered even when none of the names is held by another instance. */
  datatype Block = Block(cls: Class, names: seq<string>, always: bool)

  function Names(blocks: seq<Block>): seq<string> {
    if blocks == [] then [] else blocks[0].names + Names(blocks[1..])
  }

  /** The name of the group tips callback, and the blocks of the replay. */
  datatype Tables = Tables(tips: string, blocks: seq<Block>)

  const TABLES := Tables("GroupTipsEvent", [
    Block(Group, ["GroupTipsEvent", "GroupAttributeChanged", "GroupCounterChanged"], false),
    Block(Friendship,
      ["AddFriend", "FriendInfoChanged", "FriendListAdded", "FriendListDeleted",
       "FriendApplicationListAdded", "FriendApplicationListDeleted", "FriendApplicationListRead",
       "BlackListAdded", "BlackListDeleted"], true),
    Block(Sdk,
      ["NetworkStatus", "KickedOffline", "UserSigExpired", "SelfInfoUpdated",
       "UserStatusChanged", "UserInfoChanged", "LogCallback", "AllMessageReceiveOption"], false),
    Block(AdvancedMsg,
      ["ReceiveNewMessage", "MessageElemUploadProgress", "MessageReadReceipt", "MessageRevoke",
       "MessageUpdate", "MessageExtensionsChanged", "MessageExtensionsDeleted",
       "MessageReactionChange", "GroupPinnedMessageChanged"], true),
    Block(Conversation,
      ["ConvEvent", "ConvTotalUnreadMessageCountChanged", "ConvUnreadMessageCountChangedByFilter",
       "ConvConversationGroupCreated", "ConvConversationGroupDeleted",
       "ConvConversationGroupNameChanged", "ConvConversationsAddedToGroup",
       "ConvConversationsDeletedFromGroup"], true)])

  // ---------- listeners ----------

  function Attached(s: State, slot: Slot): seq<Address> {
    if slot in s.attached then s.attached[slot] else []
  }

  function GetOrCreate(s: State, slot: Slot): (t: State)
    ensures slot in t.listeners
  {
    if slot in s.listeners then s
    else
      s.(listeners := s.listeners[slot := s.nextListener], nextListener := s.nextListener + 1,
         groupOwners := if slot.cls == Group then s.groupOwners[s.nextListener := slot.instance] else s.groupOwners)
  }

  /** The managers ignore a listener they have; the conversation manager does not check. */
  function Added(cls: Class, list: seq<Address>, listener: Address): seq<Address> {
    if cls != Conversation && listener in list then list else list + [listener]
  }

  /** Get or create the listener of a slot and add it to the slot's manager. */
  function Register(s: State, slot: Slot): State {
    var t := GetOrCreate(s, slot);
    t.(attached := t.attached[slot := Added(slot.cls, Attached(t, slot), t.listeners[slot])])
  }

  function Without(list: seq<Address>, listener: Address): (r: seq<Address>)
    ensures forall x :: x in r <==> x in list && x != listener
    ensures (forall x :: x in list ==> x == listener) ==> r == []
  {
    if list == [] then []
    else
      assert list[0] in list;
      if list[0] == listener then Without(list[1..], listener)
      else [list[0]] + Without(list[1..], listener)
  }

  /** Remove a slot's listener from its manager. */
  function Removed(s: State, slot: Slot): State {
    if slot !in s.listeners || slot !in s.attached then s
    else s.(attached := s.attached[slot := Without(s.attached[slot], s.listeners[slot])])
  }

  // ---------- user data ----------

  function Store(s: State, instance: nat, name: string, data: Address): State {
    if data == 0 then s else s.(userData := s.userData[(instance, name) := data])
  }

  /** The lowest-numbered instance other than `self`, from `from` on, that holds a name. */
  function Lowest(userData: map<(nat, string), Address>, self: nat, name: string, from: nat, bound: nat)
    : (r: Option<nat>)
    ensures r.Some? ==> from <= r.value < bound && r.value != self && (r.value, name) in userData
    ensures r.Some? ==> forall j :: from <= j < r.value && j != self ==> (j, name) !in userData
    ensures r.None? ==> forall j :: from <= j < bound && j != self ==> (j, name) !in userData
    decreases bound - from
  {
    if from >= bound then None
    else if from != self && (from, name) in userData then Some(from)
    else Lowest(userData, self, name, from + 1, bound)
  }

  function Holder(s: State, self: nat, name: string): Option<nat> {
    Lowest(s.userData, self, name, 0, s.nextInstance)
  }

  /** Copy one callback's user data to a new instance, if another instance has it. */
  function CopyName(s: State, instance: nat, name: string): State {
    match Holder(s, instance, name)
    case None => s
    case Some(i) => Store(s, instance, name, s.userData[(i, name)])
  }

  function CopyNames(s: State, instance: nat, names: seq<string>): State
    decreases |names|
  {
    if names == [] then s else CopyNames(CopyName(s, instance, names[0]), instance, names[1..])
  }

  predicate AnyHeld(s: State, instance: nat, names: seq<string>) {
    exists i :: 0 <= i < |names| && Holder(s, instance, names[i]).Some?
  }

  // ---------- replay ----------

  /** One block of the replay: copy the user data of its names, and register the listener
      if any was found or if the block registers in any case. */
  function ReplayBlock(s: State, instance: nat, b: Block): State {
    var t := CopyNames(s, instance, b.names);
    if b.always || AnyHeld(s, instance, b.names) then Register(t, Slot(b.cls, instance)) else t
  }

  function Replay(s: State, instance: nat, blocks: seq<Block>): State
    decreases |blocks|
  {
    if blocks == [] then s else Replay(ReplayBlock(s, instance, blocks[0]), instance, blocks[1..])
  }

  // ---------- calls ----------

  /** The loop over all test instances. */
  function RegisterGroupForAll(s: State, instances: seq<nat>, tips: string, data: Address): State
    decreases |instances|
  {
    if instances == [] then s
    else
      RegisterGroupForAll(
        Register(Store(s, instances[0], tips, data), Slot(Group, instances[0])), instances[1..], tips, data)
  }

  function SetGroupTipsEffect(s: State, tips: string, data: Address): State {
    var t := RegisterGroupForAll(Store(s, s.current, tips, data), s.live, tips, data);
    Register(t, Slot(Group, s.current))
  }

  /** The state in which a new instance replays. */
  function Created(s: State): State {
    s.(nextInstance := s.nextInstance + 1, live := s.live + [s.nextInstance], mirrored := s.mirrored + {s.nextInstance})
  }

  function CreateEffect(s: State, tables: Tables, headless: bool, initOk: bool): State {
    if !initOk then s.(nextInstance := s.nextInstance + 1)
    else if headless then Created(s).(mirrored := s.mirrored)
    else Replay(Created(s), s.nextInstance, tables.blocks)
  }

  const CLASSES: seq<Class> := [Sdk, AdvancedMsg, Conversation, Group, Friendship, Signaling, Community]

  function RemoveDefaults(s: State, classes: seq<Class>): State
    decreases |classes|
  {
    if classes == [] then s else RemoveDefaults(Removed(s, Slot(classes[0], 0)), classes[1..])
  }

  /** Erase the listeners of an instance from all seven maps. */
  function EraseInstance<V>(m: map<Slot, V>, instance: nat): map<Slot, V> {
    map slot | slot in m && slot.instance != instance :: m[slot]
  }

  function DetachEffect(s: State): State {
    var t := RemoveDefaults(s, CLASSES);
    t.(listeners := EraseInstance(t.listeners, 0))
  }

  function WithoutId(ids: seq<nat>, id: nat): (r: seq<nat>)
    ensures forall x :: x in r <==> x in ids && x != id
  {
    if ids == [] then []
    else if ids[0] == id then WithoutId(ids[1..], id)
    else [ids[0]] + WithoutId(ids[1..], id)
  }

  /** Destroying an instance forgets its listeners and its manager; its user data stays. */
  function DestroyEffect(s: State, id: nat): State {
    if id == 0 || id !in s.live then s
    else
      s.(current := if s.current == id then 0 else s.current,
         listeners := EraseInstance(s.listeners, id),
         live := WithoutId(s.live, id), mirrored := s.mirrored - {id},
         attached := EraseInstance(s.attached, id))
  }

  function Step(tables: Tables, s: State, e: Event): State {
    match e
    case SetCurrent(id) => if id == 0 || id in s.live then s.(current := id) else s
    case SetCallback(cls, name, data) => Register(Store(s, s.current, name, data), Slot(cls, s.current))
    case SetGroupTips(data) => SetGroupTipsEffect(s, tables.tips, data)
    case CreateInstance(headless, initOk) => CreateEffect(s, tables, headless, initOk)
    case DestroyInstance(id) => DestroyEffect(s, id)
    case DetachDefault => DetachEffect(s)
    case RemoveSignaling => Removed(s, Slot(Signaling, s.current))
  }

  function Run(tables: Tables, es: seq<Event>): State {
    if es == [] then Initial() else Step(tables, Run(tables, es[..|es| - 1]), es[|es| - 1])
  }

  // ---------- which instance an event belongs to ----------

  /** The first instance whose entry is this listener, or 0. */
  function InstanceOf(listeners: map<Slot, Address>, cls: Class, listener: Address, from: nat, bound: nat): nat
    decreases bound - from
  {
    if from >= bound then 0
    else if Slot(cls, from) in listeners && listeners[Slot(cls, from)] == listener then from
    else InstanceOf(listeners, cls, listener, from + 1, bound)
  }

  /** How the callbacks attribute an event.  A group listener answers with the instance it
      was made for.  A message listener that receives a message takes the receiver the
      library has set for the delivery, if there is one; 0 is none, and what other message
      callbacks see.  Otherwise the listener is looked up: 0 counts as not found and falls
      back to the current instance. */
  function Attribute(s: State, cls: Class, listener: Address, receiver: nat): nat {
    if cls == Group then if listener in s.groupOwners then s.groupOwners[listener] else 0
    else if cls == AdvancedMsg && receiver != 0 then receiver
    else
      var i := InstanceOf(s.listeners, cls, listener, 0, s.nextInstance);
      if i == 0 then s.current else i
  }
}
