/** Consequences over whole runs: sessions, draining, and the offline buffer. */
module DurableTheorems {
  import opened DurableSpec
  import opened DurableProofs
  import opened Text

  // ---------- keys ----------

  datatype Kind = GroupChatIdStored | GroupTypeStored

  function KindName(kind: Kind): (s: string)
    ensures '|' !in s
  {
    match kind
    case GroupChatIdStored => "groupChatIdStored"
    case GroupTypeStored => "groupTypeStored"
  }

  /** The dedupe key of a group notification of one instance. */
  function DurableKey(kind: Kind, instance: int, group: string): string {
    KindName(kind) + ['|'] + (Decimal(instance) + ['|'] + group)
  }

  lemma KindNameInjective(k1: Kind, k2: Kind)
    requires KindName(k1) == KindName(k2)
    ensures k1 == k2
  {
    assert |KindName(GroupChatIdStored)| == 17 && |KindName(GroupTypeStored)| == 15;
  }

  lemma DurableKeyInjective(k1: Kind, i1: int, g1: string, k2: Kind, i2: int, g2: string)
    requires DurableKey(k1, i1, g1) == DurableKey(k2, i2, g2)
    ensures k1 == k2 && i1 == i2 && g1 == g2
  {
    var n1, n2 := KindName(k1), KindName(k2);
    var d1, d2 := Decimal(i1), Decimal(i2);
    SplitUnique(n1, d1 + ['|'] + g1, n2, d2 + ['|'] + g2, '|');
    SplitUnique(d1, g1, d2, g2, '|');
    KindNameInjective(k1, k2);
    DecimalInjective(i1, i2);
  }

  /** Every durable send uses the key of its own instance, as the group notifiers do. */
  ghost predicate ScopedKeys(es: seq<Event>) {
    forall i: nat :: Sends(es, i) ==> Scoped(es[i].key, es[i].owner)
  }

  ghost predicate Scoped(key: string, owner: int) {
    exists kind, group :: key == DurableKey(kind, owner, group)
  }

  /** With scoped keys a message is only ever superseded by a send of its own instance. */
  lemma SupersededWithinInstance(accepts: nat -> bool, es: seq<Event>, m: Msg)
    requires ScopedKeys(es) && m in Run(accepts, es).superseded
    ensures exists j: nat :: m.id < j && Sends(es, j) && es[j].key == m.key && es[j].owner == m.owner
  {
    RunLossesExplained(accepts, es);
    Conservation(accepts, es, m);
    var j: nat :| m.id < j && Sends(es, j) && es[j].key == m.key;
    assert Scoped(es[m.id].key, m.owner) && Scoped(es[j].key, es[j].owner);
    var k1, g1 :| m.key == DurableKey(k1, m.owner, g1);
    var k2, g2 :| es[j].key == DurableKey(k2, es[j].owner, g2);
    DurableKeyInjective(k1, m.owner, g1, k2, es[j].owner, g2);
  }

  // ---------- ended sessions ----------

  lemma SnocAppend(pre: seq<Event>, post: seq<Event>)
    requires post != []
    ensures (pre + post)[..|pre + post| - 1] == pre + post[..|post| - 1]
    ensures (pre + post)[|pre + post| - 1] == post[|post| - 1]
  {
  }

  /** What one call delivers was held before it or is the message it sends. */
  lemma StepDelivers(accepts: nat -> bool, s: State, e: Event)
    ensures var t := Step(accepts, s, e);
      && s.delivered <= t.delivered
      && (forall m :: m in t.delivered[|s.delivered|..] ==> m in s.held || m.id == s.clock)
      && (forall m :: m in t.held ==> m in s.held || m.id == s.clock)
  {
  }

  /** From `s` to `t` nothing sent by `owner` before call `end` was delivered, and none of it
      is held; and what was delivered stays delivered. */
  ghost predicate Gone(s: State, t: State, owner: int, end: nat) {
    && s.delivered <= t.delivered
    && (forall m :: m in t.delivered[|s.delivered|..] && m.owner == owner ==> m.id > end)
    && (forall m :: m in t.held && m.owner == owner ==> m.id > end)
  }

  lemma StepKeepsGone(accepts: nat -> bool, s: State, u: State, e: Event, owner: int, end: nat)
    requires Gone(s, u, owner, end) && u.clock > end
    ensures Gone(s, Step(accepts, u, e), owner, end)
  {
    StepDelivers(accepts, u, e);
    GoneOn(s, u, Step(accepts, u, e), owner, end);
  }

  lemma GoneOn(s: State, u: State, t: State, owner: int, end: nat)
    requires Gone(s, u, owner, end) && u.clock > end && u.delivered <= t.delivered
    requires forall m :: m in t.delivered[|u.delivered|..] ==> m in u.held || m.id == u.clock
    requires forall m :: m in t.held ==> m in u.held || m.id == u.clock
    ensures Gone(s, t, owner, end)
  {
    assert t.delivered[|s.delivered|..] == u.delivered[|s.delivered|..] + t.delivered[|u.delivered|..];
  }

  /** Delivery is never taken back, and after a session has ended nothing its instance
      sent before the end is delivered or held in any continuation. */
  lemma {:induction false} EndedSessionIsGone(accepts: nat -> bool, pre: seq<Event>, owner: int, post: seq<Event>)
    ensures Gone(Run(accepts, pre), Run(accepts, pre + [Discard(owner)] + post), owner, |pre|)
  {
    var base := pre + [Discard(owner)];
    if post == [] {
      assert base + post == base && base[..|base| - 1] == pre;
    } else {
      var before := post[..|post| - 1];
      EndedSessionIsGone(accepts, pre, owner, before);
      SnocAppend(base, post);
      StepKeepsGone(accepts, Run(accepts, pre), Run(accepts, base + before), post[|post| - 1], owner, |pre|);
    }
  }

  /** Ending a session keeps every held message of the other instances, in order. */
  lemma EndedSessionSparesOthers(accepts: nat -> bool, pre: seq<Event>, owner: int)
    ensures var s, t := Run(accepts, pre), Run(accepts, pre + [Discard(owner)]);
      && t.delivered == s.delivered
      && (forall m :: m in t.held <==> m in s.held && m.owner != owner)
      && Increasing(t.held)
  {
    var es := pre + [Discard(owner)];
    assert es[..|es| - 1] == pre;
    RunHeldInv(accepts, es);
  }

  // ---------- draining ----------

  /** Replay empties the buffer exactly when every held message can be posted in turn. */
  lemma ReplayDrainsIff(accepts: nat -> bool, s: State)
    requires s.Open()
    ensures Replay(accepts, s).held == [] <==>
      forall i :: 0 <= i < |s.held| ==> Goes(accepts, s.posts + i, s.held[i].json)
  {
    var r := ReplayCount(accepts, s.posts, s.held);
    assert r < |s.held| ==> !Goes(accepts, s.posts + r, s.held[r].json);
  }

  ghost predicate Reliable(accepts: nat -> bool, es: seq<Event>) {
    && (forall n :: accepts(n))
    && (forall i: nat :: Sends(es, i) ==> |es[i].json| <= MAX_MESSAGE)
  }

  lemma StepDrains(accepts: nat -> bool, s: State, e: Event)
    requires forall n :: accepts(n)
    requires forall i :: 0 <= i < |s.held| ==> |s.held[i].json| <= MAX_MESSAGE
    requires s.Open() ==> s.held == []
    requires e.SendDurable? ==> e.typeIsNull || |e.json| <= MAX_MESSAGE
    ensures var t := Effect(accepts, s, e); t.Open() ==> t.held == []
  {
    match e
    case InitApi(_, _) => if s.(ready := true).Open() { ReplayDrainsIff(accepts, s.(ready := true)); }
    case RegisterPort(p) => if s.(port := p).Open() { ReplayDrainsIff(accepts, s.(port := p)); }
    case SendDurable(_, _, _, _) =>
    case UnregisterPort(_) =>
    case SendPlain(_, _) =>
    case Discard(_) =>
  }

  /** When no post fails and no message is oversized, an open bridge holds nothing. */
  lemma {:induction false} ReliableRunsDrain(accepts: nat -> bool, es: seq<Event>)
    requires Reliable(accepts, es)
    ensures Run(accepts, es).Open() ==> Run(accepts, es).held == []
  {
    if es != [] {
      var n := |es| - 1;
      var s := Run(accepts, es[..n]);
      SendsOfPrefix(es);
      ReliableRunsDrain(accepts, es[..n]);
      RunHeldInv(accepts, es[..n]);
      forall i | 0 <= i < |s.held| ensures |s.held[i].json| <= MAX_MESSAGE {
        assert s.held[i] in s.held;
      }
      assert es[n].SendDurable? && !es[n].typeIsNull ==> Sends(es, n);
      StepDrains(accepts, s, es[n]);
    }
  }

  predicate OnlyPortCalls(es: seq<Event>) {
    forall i :: 0 <= i < |es| ==> !es[i].SendDurable? && !es[i].Discard?
  }

  /** An oversized message at the head of the buffer blocks it: however often a port is
      registered or the API initialised, nothing behind it is replayed. */
  lemma {:induction false} OversizedHeadBlocks(accepts: nat -> bool, pre: seq<Event>, post: seq<Event>)
    requires Run(accepts, pre).held != [] && |Run(accepts, pre).held[0].json| > MAX_MESSAGE
    requires OnlyPortCalls(post)
    ensures Run(accepts, pre + post).held == Run(accepts, pre).held
    ensures Run(accepts, pre + post).delivered == Run(accepts, pre).delivered
  {
    if post == [] {
      assert pre + post == pre;
    } else {
      OversizedHeadBlocks(accepts, pre, post[..|post| - 1]);
      SnocAppend(pre, post);
    }
  }

  /** Two sends on a new bridge are enough: the second message, however small, stays behind
      the oversized first through any port calls, for any answers of the VM. */
  lemma OversizedHeadReached(accepts: nat -> bool, a: Event, b: Event, post: seq<Event>)
    requires a.SendDurable? && !a.typeIsNull && |a.json| > MAX_MESSAGE
    requires b.SendDurable? && !b.typeIsNull && b.key != a.key
    requires OnlyPortCalls(post)
    ensures Run(accepts, [a, b] + post).held == [Msg(0, a.key, a.json, a.owner), Msg(1, b.key, b.json, b.owner)]
    ensures Run(accepts, [a, b] + post).delivered == []
  {
    var first := Msg(0, a.key, a.json, a.owner);
    assert [a, b][..1] == [a] && [a][..0] == [];
    assert Run(accepts, []) == Initial();
    assert Run(accepts, [a]).held == [first] && Run(accepts, [a]).delivered == [] && !Run(accepts, [a]).Open();
    assert WithoutKey([first], b.key) == [first] by { assert [first][1..] == []; }
    OversizedHeadBlocks(accepts, [a, b], post);
  }

  // ---------- the offline buffer ----------

  /** `m` was not replaced by a later message of its key. */
  ghost predicate IsLatest(q: seq<Msg>, m: Msg) {
    m in q && forall x :: x in q && x.key == m.key ==> x.id <= m.id
  }

  lemma {:induction false} LatestInOrder(q: seq<Msg>)
    requires Increasing(q)
    ensures Increasing(LatestPerKey(q))
  {
    if q != [] {
      var rest := LatestPerKey(q[1..]);
      LatestInOrder(q[1..]);
      forall j | 0 <= j < |rest| ensures q[0].id < rest[j].id {
        assert rest[j] in q[1..];
      }
    }
  }

  /** `LatestPerKey` of a history: the messages no later send of their key replaced. */
  lemma {:induction false} LatestMeaning(q: seq<Msg>)
    requires Increasing(q)
    ensures forall m :: m in LatestPerKey(q) <==> IsLatest(q, m)
  {
    if q != [] {
      LatestMeaning(q[1..]);
      forall m ensures IsLatest(q, m) <==>
        IsLatest(q[1..], m) || (m == q[0] && forall x :: x in q[1..] ==> x.key != m.key)
      {
        assert forall x :: x in q <==> x == q[0] || x in q[1..];
        assert forall x :: x in q[1..] ==> q[0].id < x.id;
      }
    }
  }

  lemma LatestUnique(q: seq<Msg>)
    requires Increasing(q)
    ensures UniqueKeys(LatestPerKey(q))
  {
    LatestMeaning(q);
    LatestInOrder(q);
    var r := LatestPerKey(q);
    forall i, j | 0 <= i < j < |r| ensures r[i].key != r[j].key {
      assert r[i] in r && r[j] in r && r[i].id < r[j].id;
    }
  }

  /** Sending once more moves the key to the end of the latest messages. */
  lemma {:induction false} LatestSnoc(q: seq<Msg>, m: Msg)
    ensures LatestPerKey(q + [m]) == WithoutKey(LatestPerKey(q), m.key) + [m]
  {
    if q == [] {
      assert q + [m] == [m] && [m][1..] == [];
    } else {
      assert (q + [m])[1..] == q[1..] + [m];
      LatestSnoc(q[1..], m);
      LaterKey(q[1..], m, q[0].key);
      WithoutKeyCons(q[0], LatestPerKey(q[1..]), m.key);
      Assoc(q[0], WithoutKey(LatestPerKey(q[1..]), m.key), m);
    }
  }

  /** A later message of a key, before or as the last one. */
  lemma LaterKey(q: seq<Msg>, m: Msg, key: string)
    ensures (exists x :: x in q + [m] && x.key == key) <==> (exists x :: x in q && x.key == key) || m.key == key
  {
    assert m in q + [m] && forall x :: x in q + [m] <==> x in q || x == m;
  }

  lemma WithoutKeyCons(x: Msg, q: seq<Msg>, key: string)
    ensures WithoutKey([x] + q, key) == (if x.key == key then [] else [x]) + WithoutKey(q, key)
  {
    assert ([x] + q)[1..] == q;
  }

  lemma Assoc(x: Msg, q: seq<Msg>, m: Msg)
    ensures ([x] + q) + [m] == [x] + (q + [m])
    ensures [] + q == q
  {
  }

  lemma LastNSuffix(a: seq<Msg>, b: seq<Msg>, n: nat)
    requires |b| == n || (|b| < n && a == [])
    ensures LastN(a + b, n) == b
  {
  }

  lemma Regroup(a: seq<Msg>, b: seq<Msg>, c: seq<Msg>)
    requires b != []
    ensures a + b + c == (a + b[..1]) + (b[1..] + c)
  {
  }

  lemma SuffixUnique(a: seq<Msg>, b: seq<Msg>)
    requires UniqueKeys(a + b)
    ensures UniqueKeys(b)
    ensures forall x, y :: x in a && y in b ==> x.key != y.key
  {
    var all := a + b;
    forall i, j | 0 <= i < j < |b| ensures b[i].key != b[j].key {
      assert all[|a| + i].key != all[|a| + j].key;
    }
    forall i, j | 0 <= i < |a| && 0 <= j < |b| ensures a[i].key != b[j].key {
      assert all[i].key != all[|a| + j].key;
    }
  }

  lemma HoldKnownKey(f: seq<Msg>, q: seq<Msg>, m: Msg)
    requires |WithoutKey(q, m.key)| == |q| - 1 && |q| <= MAX_PENDING
    requires f != [] ==> |q| == MAX_PENDING
    ensures Hold(q, m) == LastN(f + WithoutKey(q, m.key) + [m], MAX_PENDING)
  {
    var g := WithoutKey(q, m.key);
    assert f + g + [m] == f + (g + [m]);
    LastNSuffix(f, g + [m], MAX_PENDING);
  }

  lemma HoldNewKey(f: seq<Msg>, q: seq<Msg>, m: Msg)
    requires WithoutKey(q, m.key) == q && |q| <= MAX_PENDING
    requires f != [] ==> |q| == MAX_PENDING
    ensures Hold(q, m) == LastN(f + q + [m], MAX_PENDING)
  {
    if |q| == MAX_PENDING {
      Regroup(f, q, [m]);
      LastNSuffix(f + q[..1], q[1..] + [m], MAX_PENDING);
    } else {
      assert f + q + [m] == q + [m];
    }
  }

  /** Holding a message in the last MAX_PENDING of a list of distinct keys is the last
      MAX_PENDING of moving that key to the end. */
  lemma HoldOfLastN(older: seq<Msg>, q: seq<Msg>, m: Msg)
    requires UniqueKeys(older + q)
    requires |q| <= MAX_PENDING && (older != [] ==> |q| == MAX_PENDING)
    ensures Hold(q, m) == LastN(WithoutKey(older + q, m.key) + [m], MAX_PENDING)
  {
    SuffixUnique(older, q);
    FilterConcat(older, q, Not(KeyIs(m.key)));
    WithoutKeyLength(q, m.key);
    if exists x :: x in q && x.key == m.key {
      FilterAll(older, Not(KeyIs(m.key)));
      HoldKnownKey(older, q, m);
    } else {
      FilterAll(q, Not(KeyIs(m.key)));
      HoldNewKey(WithoutKey(older, m.key), q, m);
    }
  }

  predicate NoDiscards(es: seq<Event>) {
    forall i :: 0 <= i < |es| ==> !es[i].Discard?
  }

  /** One more durable send while nothing can be posted. */
  lemma OfflineSend(sent: seq<Msg>, held: seq<Msg>, m: Msg)
    requires Increasing(sent) && held == LastN(LatestPerKey(sent), MAX_PENDING)
    ensures Hold(held, m) == LastN(LatestPerKey(sent + [m]), MAX_PENDING)
  {
    var all := LatestPerKey(sent);
    LatestSnoc(sent, m);
    LatestUnique(sent);
    var older := all[..|all| - |held|];
    assert all == older + held;
    HoldOfLastN(older, held, m);
  }

  /** As long as no message has been delivered, the map, its sequence numbers and its
      evictions amount to this: the last MAX_PENDING keys by last send, each with its latest
      message. */
  lemma {:induction false} OfflineBuffer(accepts: nat -> bool, es: seq<Event>)
    requires Run(accepts, es).delivered == [] && NoDiscards(es)
    ensures Run(accepts, es).held == LastN(LatestPerKey(History(es)), MAX_PENDING)
  {
    if es != [] {
      var n := |es| - 1;
      var s := Run(accepts, es[..n]);
      StepDelivers(accepts, s, es[n]);
      OfflineBuffer(accepts, es[..n]);
      if Sends(es, n) {
        HistoryHasNoRepeats(es[..n]);
        OfflineSend(History(es[..n]), s.held, MsgAt(es, n));
      }
      OfflineStep(accepts, s, es[n]);
    }
  }

  /** A call that delivers nothing holds what it sends, and only sends and discards change
      what is held. */
  lemma OfflineStep(accepts: nat -> bool, s: State, e: Event)
    requires Step(accepts, s, e).delivered == s.delivered
    ensures !e.SendDurable? && !e.Discard? ==> Step(accepts, s, e).held == s.held
    ensures e.SendDurable? && e.typeIsNull ==> Step(accepts, s, e).held == s.held
    ensures e.SendDurable? && !e.typeIsNull ==>
      Step(accepts, s, e).held == Hold(s.held, Msg(s.clock, e.key, e.json, e.owner))
  {
    match e
    case InitApi(dataIsNull, rc) =>
      if !dataIsNull && rc == 0 { ReplayOfNothing(accepts, s.(ready := true)); }
    case RegisterPort(p) => ReplayOfNothing(accepts, s.(port := p));
    case SendDurable(_, key, json, owner) =>
      var m := Msg(s.clock, key, json, owner);
      assert |s.delivered + [m]| != |s.delivered|;
    case _ =>
  }

  lemma ReplayOfNothing(accepts: nat -> bool, s: State)
    requires Replay(accepts, s).delivered == s.delivered
    ensures Replay(accepts, s).held == s.held
  {
    if s.Open() {
      var r := ReplayCount(accepts, s.posts, s.held);
      assert |s.delivered + s.held[..r]| == |s.delivered| + r;
      assert s.held[0..] == s.held;
    }
  }

  /** Nothing is delivered while the API or the port is missing, or the VM refuses every post. */
  lemma {:induction false} NothingDelivered(accepts: nat -> bool, es: seq<Event>)
    requires (forall n :: !accepts(n)) || (forall n :: 0 <= n <= |es| ==> !Run(accepts, es[..n]).Open())
    ensures Run(accepts, es).delivered == []
  {
    if es != [] {
      var n := |es| - 1;
      assert es[..|es|] == es && forall k :: 0 <= k <= n ==> es[..n][..k] == es[..k];
      NothingDelivered(accepts, es[..n]);
      RefusedStep(accepts, Run(accepts, es[..n]), es[n]);
    }
  }

  lemma RefusedStep(accepts: nat -> bool, s: State, e: Event)
    requires (forall n :: !accepts(n)) || (!s.Open() && !Step(accepts, s, e).Open())
    ensures Step(accepts, s, e).delivered == s.delivered
  {
  }
}
