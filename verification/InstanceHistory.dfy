/** Numbers, life and the current instance follow the history of calls. */
module InstanceHistory {
  import opened ListenerSpec
  import opened ListenerProofs
  import opened ListenerTheorems
  import opened GroupListeners
  import opened ListenerHistory

  ghost predicate InstancesAgree(s: State, es: seq<Event>) {
    s.current == Current(es) && s.nextInstance == NextId(es) && forall id :: id in s.live <==> Live(es, id)
  }

  /** What one call does to the instances. */
  ghost predicate InstancesAfter(s: State, e: Event, t: State) {
    && t.nextInstance == s.nextInstance + (if e.CreateInstance? then 1 else 0)
    && (forall id :: id in t.live <==>
          if e.CreateInstance? then id in s.live || (e.initOk && id == s.nextInstance)
          else if e.DestroyInstance? then id in s.live && id != e.instance
          else id in s.live)
    && t.current ==
         if e.SetCurrent? && (e.instance == 0 || e.instance in s.live) then e.instance
         else if e.DestroyInstance? && e.instance == s.current then 0
         else s.current
  }

  lemma SameIsAfter(s: State, e: Event, t: State)
    requires SameInstances(s, t) && !e.CreateInstance? && !e.DestroyInstance? && !e.SetCurrent?
    ensures InstancesAfter(s, e, t)
  {
  }

  lemma CreateInstances(tables: Tables, s: State, headless: bool, initOk: bool)
    requires Inv(s) && DistinctClasses(tables.blocks)
    ensures InstancesAfter(s, CreateInstance(headless, initOk), CreateEffect(s, tables, headless, initOk))
  {
    if initOk && !headless { ReplaySame(tables, s); }
  }

  lemma DestroyInstances(s: State, id: nat)
    requires Inv(s)
    ensures InstancesAfter(s, DestroyInstance(id), DestroyEffect(s, id))
  {
  }

  lemma StepInstances(tables: Tables, s: State, e: Event)
    requires Inv(s) && DistinctClasses(tables.blocks)
    ensures InstancesAfter(s, e, Step(tables, s, e))
  {
    var t := Step(tables, s, e);
    match e
    case SetCurrent(_) =>
    case SetCallback(cls, name, data) =>
      RegisterFrame(Store(s, s.current, name, data), Slot(cls, s.current));
      SameIsAfter(s, e, t);
    case SetGroupTips(data) =>
      TipsSame(s, tables.tips, data);
      SameIsAfter(s, e, t);
    case CreateInstance(headless, initOk) => CreateInstances(tables, s, headless, initOk);
    case DestroyInstance(id) => DestroyInstances(s, id);
    case DetachDefault =>
      DetachSame(s);
      SameIsAfter(s, e, t);
    case RemoveSignaling =>
      RemovedEffect(s, Slot(Signaling, s.current));
      SameIsAfter(s, e, t);
  }

  lemma HistoryAfter(s: State, es: seq<Event>, t: State)
    requires es != [] && Inv(s) && InstancesAgree(s, es[..|es| - 1]) && InstancesAfter(s, es[|es| - 1], t)
    ensures InstancesAgree(t, es)
  {
  }

  /** In every run the current instance, the number of the next one, and which instances are
      live are as the history says. */
  lemma {:induction false} RunInstances(tables: Tables, es: seq<Event>)
    requires DistinctClasses(tables.blocks)
    ensures InstancesAgree(Run(tables, es), es)
  {
    if es != [] {
      var before := es[..|es| - 1];
      RunInstances(tables, before);
      RunKeepsInv(tables, before);
      StepInstances(tables, Run(tables, before), es[|es| - 1]);
      HistoryAfter(Run(tables, before), es, Run(tables, es));
    }
  }
}
