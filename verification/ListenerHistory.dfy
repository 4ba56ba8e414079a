/** What the listener registry holds after any calls, told from the calls alone: which
    instance is current, which are live, what data is stored, and which listeners the managers
    have.  Nothing here looks at the state of the registry. */
module ListenerHistory {
  import opened Text
  import opened ListenerSpec

  /** The number the next instance gets; failed creations use one up. */
  function NextId(es: seq<Event>): (n: nat)
    ensures n >= 1
  {
    if es == [] then 1
    else NextId(es[..|es| - 1]) + if es[|es| - 1].CreateInstance? then 1 else 0
  }

  /** Created successfully and not destroyed since. */
  predicate Live(es: seq<Event>, id: nat) {
    if es == [] then false
    else
      var before := es[..|es| - 1];
      match es[|es| - 1]
      case CreateInstance(_, initOk) => Live(before, id) || (initOk && id == NextId(before))
      case DestroyInstance(i) => Live(before, id) && i != id
      case _ => Live(before, id)
  }

  /** The last instance switched to that was the default one or live, unless it was destroyed
      since. */
  function Current(es: seq<Event>): nat {
    if es == [] then 0
    else
      var before := es[..|es| - 1];
      match es[|es| - 1]
      case SetCurrent(id) => if id == 0 || Live(before, id) then id else Current(before)
      case DestroyInstance(id) => if id == Current(before) then 0 else Current(before)
      case _ => Current(before)
  }

  /** The last data stored for an instance under a name, by a registration or by its own
      creation; 0 is none. */
  function Data(tables: Tables, es: seq<Event>, id: nat, name: string): Address
    decreases |es|, 0, 0
  {
    if es == [] then 0
    else
      var before := es[..|es| - 1];
      match es[|es| - 1]
      case SetCallback(_, n, data) =>
        if n == name && id == Current(before) && data != 0 then data else Data(tables, before, id, name)
      case SetGroupTips(data) =>
        if name == tables.tips && (id == Current(before) || Live(before, id)) && data != 0 then data
        else Data(tables, before, id, name)
      case CreateInstance(headless, initOk) =>
        if initOk && !headless && id == NextId(before) && name in Names(tables.blocks)
        then FirstData(tables, before, name, 0)
        else Data(tables, before, id, name)
      case _ => Data(tables, before, id, name)
  }

  /** The data of the lowest-numbered instance that has any. */
  function FirstData(tables: Tables, es: seq<Event>, name: string, from: nat): Address
    decreases |es|, 1, NextId(es) - from
  {
    if from >= NextId(es) then 0
    else if Data(tables, es, from, name) != 0 then Data(tables, es, from, name)
    else FirstData(tables, es, name, from + 1)
  }

  /** The creation of an instance registers a class when the class's block always does, or
      when data is stored anywhere under one of its names. */
  predicate Replays(tables: Tables, es: seq<Event>, cls: Class) {
    exists i :: 0 <= i < |tables.blocks| && tables.blocks[i].cls == cls && BlockReplays(tables, es, tables.blocks[i])
  }

  predicate BlockReplays(tables: Tables, es: seq<Event>, b: Block) {
    b.always || exists j :: 0 <= j < |b.names| && FirstData(tables, es, b.names[j], 0) != 0
  }

  /** How often a listener was registered with its manager since the manager's list was last
      emptied: by a callback of the current instance, by group tips for all of them, or by the
      creation of the instance; emptied by destruction, detaching, or removal. */
  function Registrations(tables: Tables, es: seq<Event>, slot: Slot): nat {
    if es == [] then 0
    else
      var before := es[..|es| - 1];
      var n := Registrations(tables, before, slot);
      match es[|es| - 1]
      case SetCallback(cls, _, _) => if slot == Slot(cls, Current(before)) then n + 1 else n
      case SetGroupTips(_) =>
        if slot.cls == Group && (slot.instance == Current(before) || Live(before, slot.instance)) then n + 1 else n
      case CreateInstance(headless, initOk) =>
        if initOk && !headless && slot.instance == NextId(before) && Replays(tables, before, slot.cls) then n + 1 else n
      case DestroyInstance(i) => if i == slot.instance && Live(before, i) then 0 else n
      case DetachDefault => if slot.instance == 0 then 0 else n
      case RemoveSignaling => if slot == Slot(Signaling, Current(before)) then 0 else n
      case SetCurrent(_) => n
  }
}
