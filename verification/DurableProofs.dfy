/** Safety of the durable callback buffer over every run. */
module DurableProofs {
  import opened DurableSpec

  // ---------- filtering ----------

  ghost predicate Increasing(q: seq<Msg>) {
    forall i, j :: 0 <= i < j < |q| ==> q[i].id < q[j].id
  }

  ghost predicate UniqueKeys(q: seq<Msg>) {
    forall i, j :: 0 <= i < j < |q| ==> q[i].key != q[j].key
  }

  lemma {:induction false} FilterKeepsOrder(q: seq<Msg>, p: Msg -> bool)
    ensures Increasing(q) ==> Increasing(Filter(q, p))
    ensures UniqueKeys(q) ==> UniqueKeys(Filter(q, p))
  {
    if q != [] {
      var rest := Filter(q[1..], p);
      FilterKeepsOrder(q[1..], p);
      forall j | 0 <= j < |rest|
        ensures Increasing(q) ==> q[0].id < rest[j].id
        ensures UniqueKeys(q) ==> q[0].key != rest[j].key
      {
        assert rest[j] in q[1..];
      }
    }
  }

  lemma {:induction false} FilterSplits(q: seq<Msg>, p: Msg -> bool)
    ensures multiset(q) == multiset(Filter(q, p)) + multiset(Filter(q, Not(p)))
  {
    if q != [] {
      FilterSplits(q[1..], p);
      assert q == [q[0]] + q[1..];
    }
  }

  lemma {:induction false} FilterConcat(a: seq<Msg>, b: seq<Msg>, p: Msg -> bool)
    ensures Filter(a + b, p) == Filter(a, p) + Filter(b, p)
  {
    if a == [] {
      assert a + b == b;
    } else {
      assert (a + b)[1..] == a[1..] + b;
      FilterConcat(a[1..], b, p);
    }
  }

  lemma {:induction false} FilterAll(q: seq<Msg>, p: Msg -> bool)
    requires forall m :: m in q ==> p(m)
    ensures Filter(q, p) == q
  {
    if q != [] { FilterAll(q[1..], p); }
  }

  /** Removing a key that is there removes exactly one message. */
  lemma {:induction false} WithoutKeyLength(q: seq<Msg>, key: string)
    requires UniqueKeys(q)
    ensures |WithoutKey(q, key)| == if exists m :: m in q && m.key == key then |q| - 1 else |q|
  {
    if q == [] {
    } else if q[0].key == key {
      assert forall m :: m in q[1..] ==> exists j :: 1 <= j < |q| && q[j] == m;
      FilterAll(q[1..], Not(KeyIs(key)));
      assert q[0] in q;
    } else {
      WithoutKeyLength(q[1..], key);
      assert forall m :: m in q <==> m == q[0] || m in q[1..];
    }
  }

  // ---------- what every run keeps ----------

  /** Held messages: in send order, one per key, within the bound, real, and current. */
  ghost predicate HeldInv(es: seq<Event>, held: seq<Msg>) {
    && Increasing(held)
    && UniqueKeys(held)
    && |held| <= MAX_PENDING
    && (forall m :: m in held ==> Sends(es, m.id) && m == MsgAt(es, m.id))
    && (forall m, j: nat :: m in held && m.id < j && Sends(es, j) ==> es[j].key != m.key)
  }

  /** A message sent later with the same key has not been delivered earlier. */
  ghost predicate DeliveredInv(es: seq<Event>, delivered: seq<Msg>, held: seq<Msg>) {
    && (forall m :: m in delivered ==> Sends(es, m.id) && m == MsgAt(es, m.id))
    && (forall i, j :: 0 <= i < j < |delivered| && delivered[i].key == delivered[j].key
          ==> delivered[i].id < delivered[j].id)
    && (forall d, m :: d in delivered && m in held && d.key == m.key ==> d.id < m.id)
  }

  lemma SendsOfPrefix(es: seq<Event>)
    requires es != []
    ensures forall i: nat :: i < |es| - 1 ==>
      (Sends(es, i) <==> Sends(es[..|es| - 1], i)) && (Sends(es, i) ==> MsgAt(es, i) == MsgAt(es[..|es| - 1], i))
  {
  }

  /** One more call leaves a list of held messages in order unless it sends one of their keys. */
  lemma HeldExtend(es: seq<Event>, held: seq<Msg>)
    requires es != [] && HeldInv(es[..|es| - 1], held)
    requires Sends(es, |es| - 1) ==> forall m :: m in held ==> m.key != es[|es| - 1].key
    ensures HeldInv(es, held)
  {
    SendsOfPrefix(es);
  }

  lemma HeldSuffix(es: seq<Event>, held: seq<Msg>, r: nat)
    requires HeldInv(es, held) && r <= |held|
    ensures HeldInv(es, held[r..])
  {
  }

  lemma HeldFilter(es: seq<Event>, held: seq<Msg>, p: Msg -> bool)
    requires HeldInv(es, held)
    ensures HeldInv(es, Filter(held, p))
  {
    FilterKeepsOrder(held, p);
  }

  lemma HeldAppend(es: seq<Event>, held: seq<Msg>, m: Msg)
    requires HeldInv(es, held) && |held| < MAX_PENDING
    requires Sends(es, m.id) && m == MsgAt(es, m.id) && m.id == |es| - 1
    requires forall x :: x in held ==> x.id < m.id && x.key != m.key
    ensures HeldInv(es, held + [m])
  {
  }

  lemma HeldHold(es: seq<Event>, held: seq<Msg>, m: Msg)
    requires es != [] && HeldInv(es[..|es| - 1], held)
    requires Sends(es, |es| - 1) && m == MsgAt(es, |es| - 1)
    ensures HeldInv(es, Hold(held, m))
  {
    var rest := WithoutKey(held, m.key);
    HeldFilter(es[..|es| - 1], held, Not(KeyIs(m.key)));
    HeldExtend(es, rest);
    if |rest| >= MAX_PENDING {
      HeldSuffix(es, rest, 1);
      HeldAppend(es, rest[1..], m);
    } else {
      HeldAppend(es, rest, m);
    }
  }

  lemma EffectKeepsHeld(accepts: nat -> bool, es: seq<Event>, s: State)
    requires es != [] && s.clock == |es| - 1 && HeldInv(es[..|es| - 1], s.held)
    ensures HeldInv(es, Effect(accepts, s, es[|es| - 1]).held)
  {
    var n := |es| - 1;
    match es[n]
    case SendDurable(typeIsNull, key, json, owner) =>
      if typeIsNull {
        HeldExtend(es, s.held);
      } else {
        HeldHold(es, s.held, Msg(n, key, json, owner));
        HeldFilter(es[..n], s.held, Not(KeyIs(key)));
        HeldExtend(es, WithoutKey(s.held, key));
      }
    case Discard(owner) =>
      HeldExtend(es, s.held);
      HeldFilter(es, s.held, Not(OwnerIs(owner)));
    case InitApi(_, _) =>
      HeldExtend(es, s.held);
      HeldSuffix(es, s.held, ReplayCount(accepts, s.posts, s.held));
    case RegisterPort(_) =>
      HeldExtend(es, s.held);
      HeldSuffix(es, s.held, ReplayCount(accepts, s.posts, s.held));
    case UnregisterPort(_) =>
      HeldExtend(es, s.held);
    case SendPlain(_, _) =>
      HeldExtend(es, s.held);
  }

  /** Held messages stay in send order, one per key, bounded, and never outdated. */
  lemma {:induction false} RunHeldInv(accepts: nat -> bool, es: seq<Event>)
    ensures HeldInv(es, Run(accepts, es).held)
  {
    if es != [] {
      var before := es[..|es| - 1];
      RunHeldInv(accepts, before);
      EffectKeepsHeld(accepts, es, Run(accepts, before));
      assert Run(accepts, es).held == Effect(accepts, Run(accepts, before), es[|es| - 1]).held;
    }
  }

  lemma DeliveredExtend(es: seq<Event>, delivered: seq<Msg>, held: seq<Msg>)
    requires es != [] && DeliveredInv(es[..|es| - 1], delivered, held)
    ensures DeliveredInv(es, delivered, held)
  {
    SendsOfPrefix(es);
  }

  lemma DeliveredReplay(es: seq<Event>, delivered: seq<Msg>, held: seq<Msg>, r: nat)
    requires HeldInv(es, held) && DeliveredInv(es, delivered, held) && r <= |held|
    ensures DeliveredInv(es, delivered + held[..r], held[r..])
  {
    assert forall m :: m in held[..r] ==> m in held;
    assert forall m :: m in held[r..] ==> m in held;
  }

  /** Delivering or holding the newest message keeps the order. */
  lemma DeliveredSend(es: seq<Event>, delivered: seq<Msg>, held: seq<Msg>, m: Msg)
    requires es != [] && DeliveredInv(es[..|es| - 1], delivered, held)
    requires Sends(es, |es| - 1) && m == MsgAt(es, |es| - 1)
    ensures DeliveredInv(es, delivered + [m], WithoutKey(held, m.key))
    ensures DeliveredInv(es, delivered, Hold(held, m))
  {
    DeliveredExtend(es, delivered, held);
    assert forall x :: x in Hold(held, m) ==> x == m || x in held;
  }

  lemma ReplayKeepsDelivered(accepts: nat -> bool, es: seq<Event>, s: State)
    requires HeldInv(es, s.held) && DeliveredInv(es, s.delivered, s.held)
    ensures DeliveredInv(es, Replay(accepts, s).delivered, Replay(accepts, s).held)
  {
    DeliveredReplay(es, s.delivered, s.held, ReplayCount(accepts, s.posts, s.held));
  }

  lemma DeliveredShrink(es: seq<Event>, delivered: seq<Msg>, held: seq<Msg>, p: Msg -> bool)
    requires DeliveredInv(es, delivered, held)
    ensures DeliveredInv(es, delivered, Filter(held, p))
  {
  }

  lemma EffectKeepsDelivered(accepts: nat -> bool, es: seq<Event>, s: State)
    requires es != [] && s.clock == |es| - 1 && HeldInv(es[..|es| - 1], s.held)
    requires DeliveredInv(es[..|es| - 1], s.delivered, s.held)
    ensures var t := Effect(accepts, s, es[|es| - 1]); DeliveredInv(es, t.delivered, t.held)
  {
    var n := |es| - 1;
    var t := Effect(accepts, s, es[n]);
    match es[n]
    case SendDurable(typeIsNull, key, json, owner) =>
      if typeIsNull {
        DeliveredExtend(es, s.delivered, s.held);
      } else {
        DeliveredSend(es, s.delivered, s.held, Msg(n, key, json, owner));
      }
    case InitApi(dataIsNull, rc) =>
      if !dataIsNull && rc == 0 { ReplayKeepsDelivered(accepts, es[..n], s.(ready := true)); }
      DeliveredExtend(es, t.delivered, t.held);
    case RegisterPort(p) =>
      ReplayKeepsDelivered(accepts, es[..n], s.(port := p));
      DeliveredExtend(es, t.delivered, t.held);
    case UnregisterPort(_) => DeliveredExtend(es, s.delivered, s.held);
    case SendPlain(_, _) => DeliveredExtend(es, s.delivered, s.held);
    case Discard(owner) =>
      DeliveredShrink(es[..n], s.delivered, s.held, Not(OwnerIs(owner)));
      DeliveredExtend(es, t.delivered, t.held);
  }

  /** For every key, deliveries happen in strictly increasing send order, and what is
      still held is newer than anything delivered under its key. */
  lemma {:induction false} RunDeliveredInv(accepts: nat -> bool, es: seq<Event>)
    ensures DeliveredInv(es, Run(accepts, es).delivered, Run(accepts, es).held)
  {
    if es != [] {
      var before := es[..|es| - 1];
      RunHeldInv(accepts, before);
      RunDeliveredInv(accepts, before);
      EffectKeepsDelivered(accepts, es, Run(accepts, before));
    }
  }

  // ---------- what the VM accepts ----------

  lemma {:induction false} DurablePostsConcat(a: seq<Post>, b: seq<Post>)
    ensures DurablePosts(a + b) == DurablePosts(a) + DurablePosts(b)
  {
    if a == [] {
      assert a + b == b;
    } else {
      assert (a + b)[1..] == a[1..] + b;
      DurablePostsConcat(a[1..], b);
    }
  }

  lemma {:induction false} DurablePostsOf(q: seq<Msg>)
    ensures DurablePosts(Durables(q)) == q
  {
    if q != [] {
      assert Durables(q)[1..] == Durables(q[1..]);
      DurablePostsOf(q[1..]);
    }
  }

  /** The durable posts are the deliveries. */
  ghost predicate WireInv(s: State) {
    DurablePosts(s.wire) == s.delivered
  }

  lemma ReplayKeepsWire(accepts: nat -> bool, s: State)
    requires WireInv(s)
    ensures WireInv(Replay(accepts, s))
  {
    var q := s.held[..ReplayCount(accepts, s.posts, s.held)];
    DurablePostsConcat(s.wire, Durables(q));
    DurablePostsOf(q);
  }

  lemma PostKeepsWire(s: State, p: Post)
    ensures DurablePosts(s.wire + [p]) == DurablePosts(s.wire) + if p.Durable? then [p.msg] else []
  {
    DurablePostsConcat(s.wire, [p]);
    assert [p][1..] == [];
  }

  lemma EffectKeepsWire(accepts: nat -> bool, s: State, e: Event)
    requires WireInv(s)
    ensures WireInv(Effect(accepts, s, e))
  {
    match e
    case InitApi(_, _) => ReplayKeepsWire(accepts, s.(ready := true));
    case RegisterPort(p) => ReplayKeepsWire(accepts, s.(port := p));
    case SendPlain(_, json) => PostKeepsWire(s, Plain(json));
    case SendDurable(_, key, json, owner) => PostKeepsWire(s, Durable(Msg(s.clock, key, json, owner)));
    case _ =>
  }

  /** In every run the durable messages among the posts the VM accepted are exactly the
      delivered ones, in the order of delivery. */
  lemma {:induction false} RunWire(accepts: nat -> bool, es: seq<Event>)
    ensures DurablePosts(Run(accepts, es).wire) == Run(accepts, es).delivered
  {
    if es != [] {
      RunWire(accepts, es[..|es| - 1]);
      EffectKeepsWire(accepts, Run(accepts, es[..|es| - 1]), es[|es| - 1]);
    }
  }

  // ---------- conservation ----------

  ghost function Count(q: seq<Msg>, m: Msg): nat {
    multiset(q)[m]
  }

  lemma CountConcat(a: seq<Msg>, b: seq<Msg>, m: Msg)
    ensures Count(a + b, m) == Count(a, m) + Count(b, m)
  {
  }

  /** In how many places a message is. */
  ghost function Places(s: State, m: Msg): nat {
    Count(s.delivered, m) + Count(s.held, m) + Count(s.superseded, m) + Count(s.evicted, m) + Count(s.ended, m)
  }

  lemma ReplayConserves(accepts: nat -> bool, s: State, m: Msg)
    ensures Places(Replay(accepts, s), m) == Places(s, m)
  {
    if s.Open() {
      var r := ReplayCount(accepts, s.posts, s.held);
      assert s.held == s.held[..r] + s.held[r..];
      CountConcat(s.held[..r], s.held[r..], m);
      CountConcat(s.delivered, s.held[..r], m);
    }
  }

  lemma FilterCounts(q: seq<Msg>, p: Msg -> bool, m: Msg)
    ensures Count(q, m) == Count(Filter(q, p), m) + Count(Filter(q, Not(p)), m)
  {
    FilterSplits(q, p);
  }

  lemma HoldCounts(q: seq<Msg>, x: Msg, m: Msg)
    ensures Count(Hold(q, x), m) + Count(Dropped(q, x), m)
         == Count(WithoutKey(q, x.key), m) + Count([x], m)
  {
    var rest := WithoutKey(q, x.key);
    if |rest| >= MAX_PENDING {
      assert rest == rest[..1] + rest[1..];
      CountConcat(rest[..1], rest[1..], m);
      CountConcat(rest[1..], [x], m);
    } else {
      CountConcat(rest, [x], m);
    }
  }

  lemma SendConserves(accepts: nat -> bool, s: State, x: Msg, m: Msg)
    ensures Places(StepSend(accepts, s, x), m) == Places(s, m) + Count([x], m)
  {
    var same := Filter(s.held, KeyIs(x.key));
    FilterCounts(s.held, KeyIs(x.key), m);
    CountConcat(s.superseded, same, m);
    CountConcat(s.delivered, [x], m);
    CountConcat(s.evicted, Dropped(s.held, x), m);
    HoldCounts(s.held, x, m);
  }

  lemma DiscardConserves(accepts: nat -> bool, s: State, owner: int, m: Msg)
    ensures Places(Effect(accepts, s, Discard(owner)), m) == Places(s, m)
  {
    FilterCounts(s.held, OwnerIs(owner), m);
    CountConcat(s.ended, Filter(s.held, OwnerIs(owner)), m);
  }

  lemma InitConserves(accepts: nat -> bool, s: State, dataIsNull: bool, rc: int, m: Msg)
    ensures Places(Effect(accepts, s, InitApi(dataIsNull, rc)), m) == Places(s, m)
  {
    ReplayConserves(accepts, s.(ready := true), m);
  }

  lemma RegisterConserves(accepts: nat -> bool, s: State, p: int, m: Msg)
    ensures Places(Effect(accepts, s, RegisterPort(p)), m) == Places(s, m)
  {
    ReplayConserves(accepts, s.(port := p), m);
  }

  lemma DurableConserves(accepts: nat -> bool, s: State, key: string, json: string, owner: int, m: Msg)
    ensures Places(Effect(accepts, s, SendDurable(false, key, json, owner)), m)
      == Places(s, m) + if m == Msg(s.clock, key, json, owner) then 1 else 0
  {
    SendConserves(accepts, s, Msg(s.clock, key, json, owner), m);
  }

  /** The calls that move no message. */
  lemma OthersConserve(accepts: nat -> bool, s: State, e: Event, m: Msg)
    requires e.UnregisterPort? || e.SendPlain? || (e.SendDurable? && e.typeIsNull)
    ensures Places(Effect(accepts, s, e), m) == Places(s, m)
  {
  }

  ghost predicate IsSendOf(s: State, e: Event, m: Msg) {
    e.SendDurable? && !e.typeIsNull && m == Msg(s.clock, e.key, e.json, e.owner)
  }

  lemma EffectConserves(accepts: nat -> bool, s: State, e: Event, m: Msg)
    ensures Places(Effect(accepts, s, e), m) == Places(s, m) + if IsSendOf(s, e, m) then 1 else 0
  {
    match e
    case InitApi(dataIsNull, rc) => InitConserves(accepts, s, dataIsNull, rc, m);
    case RegisterPort(p) => RegisterConserves(accepts, s, p, m);
    case Discard(owner) => DiscardConserves(accepts, s, owner, m);
    case SendDurable(typeIsNull, key, json, owner) =>
      if typeIsNull {
        OthersConserve(accepts, s, e, m);
      } else {
        DurableConserves(accepts, s, key, json, owner, m);
      }
    case _ => OthersConserve(accepts, s, e, m);
  }

  /** In every run, whatever posts fail, each durable send is in exactly one place:
      delivered, still held, superseded, evicted at the cap, or discarded with its
      session; and nothing that was not sent is anywhere. */
  lemma {:induction false} Conservation(accepts: nat -> bool, es: seq<Event>, m: Msg)
    ensures Places(Run(accepts, es), m) == if Sends(es, m.id) && m == MsgAt(es, m.id) then 1 else 0
  {
    if es != [] {
      Conservation(accepts, es[..|es| - 1], m);
      EffectConserves(accepts, Run(accepts, es[..|es| - 1]), es[|es| - 1], m);
      SendsOfPrefix(es);
    }
  }

  /** The history lists each durable send once, in order. */
  lemma {:induction false} HistoryHasNoRepeats(es: seq<Event>)
    ensures Increasing(History(es))
  {
    if es != [] {
      var before := History(es[..|es| - 1]);
      HistoryHasNoRepeats(es[..|es| - 1]);
      assert forall i :: 0 <= i < |before| ==> before[i] in before;
    }
  }

  // ---------- why a message was lost ----------

  /** A later call sent the same key. */
  ghost predicate Overtaken(es: seq<Event>, m: Msg) {
    exists j: nat :: m.id < j && Sends(es, j) && es[j].key == m.key
  }

  /** A later call ended the session of the message's owner. */
  ghost predicate SessionEnded(es: seq<Event>, m: Msg) {
    exists j: nat :: m.id < j < |es| && es[j] == Discard(m.owner)
  }

  /** After the message, at least MAX_PENDING other keys were sent. */
  ghost predicate Flooded(es: seq<Event>, m: Msg) {
    exists keys :: FloodedBy(es, m, keys)
  }

  ghost predicate FloodedBy(es: seq<Event>, m: Msg, keys: set<string>) {
    |keys| == MAX_PENDING && m.key !in keys && forall k :: k in keys ==> SentAfter(es, m.id, k)
  }

  ghost predicate SentAfter(es: seq<Event>, i: nat, key: string) {
    exists j: nat :: i < j && Sends(es, j) && es[j].key == key
  }

  ghost predicate LossesExplained(es: seq<Event>, s: State) {
    && (forall m :: m in s.superseded ==> Overtaken(es, m))
    && (forall m :: m in s.evicted ==> Flooded(es, m))
    && (forall m :: m in s.ended ==> SessionEnded(es, m))
  }

  lemma ExplainedExtend(es: seq<Event>, m: Msg)
    requires es != []
    ensures Overtaken(es[..|es| - 1], m) ==> Overtaken(es, m)
    ensures Flooded(es[..|es| - 1], m) ==> Flooded(es, m)
    ensures SessionEnded(es[..|es| - 1], m) ==> SessionEnded(es, m)
  {
    var pre := es[..|es| - 1];
    SendsOfPrefix(es);
    if Overtaken(pre, m) {
      var j: nat :| m.id < j && Sends(pre, j) && pre[j].key == m.key;
      assert Sends(es, j);
    }
    if SessionEnded(pre, m) {
      var j: nat :| m.id < j < |pre| && pre[j] == Discard(m.owner);
      assert es[j] == Discard(m.owner);
    }
    if Flooded(pre, m) {
      var keys :| FloodedBy(pre, m, keys);
      forall k | k in keys ensures SentAfter(es, m.id, k) {
        var j: nat :| m.id < j && Sends(pre, j) && pre[j].key == k;
        assert Sends(es, j);
      }
      assert FloodedBy(es, m, keys);
    }
  }

  ghost function Keys(q: seq<Msg>): set<string> {
    set m | m in q :: m.key
  }

  lemma {:induction false} KeysSize(q: seq<Msg>)
    requires UniqueKeys(q)
    ensures |Keys(q)| == |q|
  {
    if q != [] {
      KeysSize(q[1..]);
      assert forall m :: m in q[1..] ==> exists j :: 1 <= j < |q| && q[j] == m;
      assert Keys(q) == {q[0].key} + Keys(q[1..]);
    }
  }

  /** The message dropped at the cap is older than MAX_PENDING other keys. */
  lemma EvictionIsFlooded(es: seq<Event>, held: seq<Msg>, m: Msg)
    requires es != [] && HeldInv(es[..|es| - 1], held)
    requires Sends(es, |es| - 1) && m == MsgAt(es, |es| - 1)
    ensures forall x :: x in Dropped(held, m) ==> Flooded(es, x)
  {
    var rest := WithoutKey(held, m.key);
    if |rest| >= MAX_PENDING {
      HeldFilter(es[..|es| - 1], held, Not(KeyIs(m.key)));
      HeldExtend(es, rest);
      HeadIsFlooded(es, rest, m);
    }
  }

  lemma HeadIsFlooded(es: seq<Event>, rest: seq<Msg>, m: Msg)
    requires HeldInv(es, rest) && |rest| == MAX_PENDING
    requires Sends(es, m.id) && m == MsgAt(es, m.id)
    requires forall x :: x in rest ==> x.id < m.id && x.key != m.key
    ensures Flooded(es, rest[0])
  {
    var x, after := rest[0], rest[1..];
    KeysSize(after);
    var keys := Keys(after) + {m.key};
    forall y | y in after ensures y.key != x.key && y.key != m.key && SentAfter(es, x.id, y.key) {
      var i :| 0 <= i < |after| && after[i] == y;
      assert rest[i + 1] == y && rest[0].id < rest[i + 1].id;
    }
    assert x in rest;
    assert SentAfter(es, x.id, m.key);
    assert |keys| == |Keys(after)| + 1;
    assert FloodedBy(es, x, keys);
  }

  lemma ExplainedExtendAll(es: seq<Event>, s: State)
    requires es != [] && LossesExplained(es[..|es| - 1], s)
    ensures LossesExplained(es, s)
  {
    forall m
      ensures Overtaken(es[..|es| - 1], m) ==> Overtaken(es, m)
      ensures Flooded(es[..|es| - 1], m) ==> Flooded(es, m)
      ensures SessionEnded(es[..|es| - 1], m) ==> SessionEnded(es, m)
    {
      ExplainedExtend(es, m);
    }
  }

  /** The losses one call adds are explained by that call. */
  lemma NewLossesExplained(accepts: nat -> bool, es: seq<Event>, s: State, t: State)
    requires es != [] && LossesExplained(es, s) && HeldInv(es[..|es| - 1], s.held)
    requires s.clock == |es| - 1 && t == Effect(accepts, s, es[|es| - 1])
    ensures LossesExplained(es, t)
  {
    var n := |es| - 1;
    match es[n]
    case SendDurable(typeIsNull, key, json, owner) =>
      if !typeIsNull {
        EvictionIsFlooded(es, s.held, Msg(n, key, json, owner));
        assert Sends(es, n);
      }
    case Discard(_) =>
    case InitApi(_, _) =>
    case RegisterPort(_) =>
    case UnregisterPort(_) =>
    case SendPlain(_, _) =>
  }

  /** Every loss in every run has its cause in the history: a superseded message was
      overtaken by a later send of its key, an evicted one was followed by MAX_PENDING
      other keys, and a discarded one by the end of its own session. */
  lemma {:induction false} RunLossesExplained(accepts: nat -> bool, es: seq<Event>)
    ensures LossesExplained(es, Run(accepts, es))
  {
    if es != [] {
      var pre := es[..|es| - 1];
      RunLossesExplained(accepts, pre);
      ExplainedExtendAll(es, Run(accepts, pre));
      RunHeldInv(accepts, pre);
      NewLossesExplained(accepts, es, Run(accepts, pre), Effect(accepts, Run(accepts, pre), es[|es| - 1]));
    }
  }
}
