/** The callback bridge itself: a keyed map of held messages with sequence numbers,
    updated in place.  Every method is proved to be one call of `DurableSpec.Step`. */
module CallbackBridge {
  import opened DurableSpec
  import opened DurableProofs

  datatype Pending = Pending(seqNo: nat, json: string, owner: int)

  // ---------- a map with sequence numbers stands for one ordered list ----------

  predicate Matches(p: Pending, x: Msg) {
    p.json == x.json && p.owner == x.owner
  }

  predicate IsOldest(m: map<string, Pending>, key: string)
    requires key in m
  {
    forall k :: k in m && k != key ==> m[key].seqNo < m[k].seqNo
  }

  /** `m` holds exactly the messages of `q`: its oldest entry is the head, and so on. */
  ghost predicate Represents(m: map<string, Pending>, q: seq<Msg>)
    decreases |q|
  {
    if q == [] then m == map[]
    else q[0].key in m && Matches(m[q[0].key], q[0]) && IsOldest(m, q[0].key) && Represents(m - {q[0].key}, q[1..])
  }

  predicate Below(m: map<string, Pending>, bound: nat) {
    forall k :: k in m ==> m[k].seqNo <= bound
  }

  lemma {:induction false} RepresentsSize(m: map<string, Pending>, q: seq<Msg>)
    requires Represents(m, q)
    ensures |m| == |q|
    ensures forall x :: x in q ==> x.key in m
    decreases |q|
  {
    if q != [] {
      var rest := m - {q[0].key};
      RepresentsSize(rest, q[1..]);
      assert m.Keys == rest.Keys + {q[0].key};
      assert |m| == |m.Keys| && |rest| == |rest.Keys|;
    }
  }

  /** Filtering the list and shrinking the map to the surviving keys go together. */
  lemma {:induction false} FilterRepresents(m: map<string, Pending>, q: seq<Msg>, p: Msg -> bool,
                                            after: map<string, Pending>)
    requires Represents(m, q)
    requires forall k :: k in after ==> k in m && after[k] == m[k]
    requires forall x :: x in q ==> (p(x) <==> x.key in after)
    ensures Represents(after, Filter(q, p))
    decreases |q|
  {
    if q != [] {
      var x := q[0];
      var rest := after - {x.key};
      RepresentsSize(m - {x.key}, q[1..]);
      assert forall y :: y in q[1..] ==> y in q && y.key != x.key;
      assert x in q;
      FilterRepresents(m - {x.key}, q[1..], p, rest);
      if p(x) {
        assert Filter(q, p)[1..] == Filter(q[1..], p);
      } else {
        assert rest == after;
      }
    }
  }

  lemma {:induction false} Appended(m: map<string, Pending>, q: seq<Msg>, x: Msg, p: Pending)
    requires Represents(m, q) && x.key !in m && Matches(p, x)
    requires forall k :: k in m ==> m[k].seqNo < p.seqNo
    ensures Represents(m[x.key := p], q + [x])
    decreases |q|
  {
    var after, r := m[x.key := p], q + [x];
    if q == [] {
      assert r[1..] == [] && after - {x.key} == map[];
    } else {
      Appended(m - {q[0].key}, q[1..], x, p);
      assert r[1..] == q[1..] + [x];
      assert after - {q[0].key} == (m - {q[0].key})[x.key := p];
    }
  }

  lemma Erased(m: map<string, Pending>, q: seq<Msg>, key: string)
    requires Represents(m, q)
    ensures Represents(m - {key}, WithoutKey(q, key))
  {
    RepresentsSize(m, q);
    FilterRepresents(m, q, Not(KeyIs(key)), m - {key});
  }

  /** Overwriting the entry of a key moves its message to the end of the list. */
  lemma EntryReplaced(m: map<string, Pending>, q: seq<Msg>, x: Msg, p: Pending)
    requires Represents(m, q) && |q| <= MAX_PENDING && x.key in m && Matches(p, x)
    requires forall k :: k in m ==> m[k].seqNo < p.seqNo
    ensures Represents(m[x.key := p], Hold(q, x))
  {
    var rest := WithoutKey(q, x.key);
    Erased(m, q, x.key);
    RepresentsSize(m, q);
    RepresentsSize(m - {x.key}, rest);
    assert (m - {x.key}).Keys < m.Keys;
    Appended(m - {x.key}, rest, x, p);
    assert m[x.key := p] == (m - {x.key})[x.key := p];
  }

  /** Holding a message whose key is not in the map. */
  lemma HoldOfNewKey(m: map<string, Pending>, q: seq<Msg>, x: Msg)
    requires Represents(m, q) && x.key !in m
    ensures Hold(q, x) == (if |m| >= MAX_PENDING then q[1..] else q) + [x]
    ensures |m| >= MAX_PENDING ==> m.Keys != {}
  {
    RepresentsSize(m, q);
    FilterAll(q, Not(KeyIs(x.key)));
    assert |m| == |m.Keys|;
  }

  lemma {:induction false} NumbersDiffer(m: map<string, Pending>, q: seq<Msg>)
    requires Represents(m, q)
    ensures forall k, l :: k in m && l in m && k != l ==> m[k].seqNo != m[l].seqNo
    decreases |q|
  {
    if q != [] {
      var rest := m - {q[0].key};
      NumbersDiffer(rest, q[1..]);
      forall k, l | k in m && l in m && k != l ensures m[k].seqNo != m[l].seqNo {
        if k != q[0].key && l != q[0].key { assert k in rest && l in rest; }
      }
    }
  }

  /** The entry with the least number is the head of the list. */
  lemma HeadErased(m: map<string, Pending>, q: seq<Msg>, key: string)
    requires Represents(m, q)
    requires key in m && forall k :: k in m ==> m[key].seqNo <= m[k].seqNo
    ensures q != [] && key == q[0].key && Represents(m - {key}, q[1..])
  {
  }

  lemma {:induction false} OwnersMatch(m: map<string, Pending>, q: seq<Msg>)
    requires Represents(m, q)
    ensures forall x :: x in q ==> x.key in m && m[x.key].owner == x.owner
    decreases |q|
  {
    if q != [] { OwnersMatch(m - {q[0].key}, q[1..]); }
  }

  lemma OwnerErased(m: map<string, Pending>, q: seq<Msg>, owner: int, after: map<string, Pending>)
    requires Represents(m, q)
    requires forall k :: k in after <==> k in m && m[k].owner != owner
    requires forall k :: k in after ==> after[k] == m[k]
    ensures Represents(after, Filter(q, Not(OwnerIs(owner))))
  {
    OwnersMatch(m, q);
    FilterRepresents(m, q, Not(OwnerIs(owner)), after);
  }

  /** The map without the entries of the first `r` messages. */
  ghost function WithoutHeads(m: map<string, Pending>, held: seq<Msg>, r: nat): map<string, Pending>
    requires r <= |held|
  {
    if r == 0 then m else WithoutHeads(m, held, r - 1) - {held[r - 1].key}
  }

  lemma {:induction false} HeadsErased(m: map<string, Pending>, held: seq<Msg>, r: nat)
    requires Represents(m, held) && r <= |held|
    ensures Represents(WithoutHeads(m, held, r), held[r..])
  {
    if r == 0 {
      assert held[0..] == held;
    } else {
      HeadsErased(m, held, r - 1);
      assert held[r - 1..][0] == held[r - 1] && held[r - 1..][1..] == held[r..];
    }
  }

  /** The entry of the first message that is left. */
  lemma NextHead(m: map<string, Pending>, held: seq<Msg>, i: nat)
    requires Represents(m, held) && i < |held|
    ensures var rest := WithoutHeads(m, held, i); held[i].key in rest && rest[held[i].key].json == held[i].json
  {
    HeadsErased(m, held, i);
    assert held[i..][0] == held[i];
  }

  // ---------- what the VM accepted ----------

  lemma {:induction false} TextsAppend(a: seq<Post>, b: seq<Post>)
    ensures Texts(a + b) == Texts(a) + Texts(b)
  {
    if a == [] {
      assert a + b == b;
    } else {
      assert (a + b)[1..] == a[1..] + b;
      TextsAppend(a[1..], b);
    }
  }

  lemma TextsSnoc(wire: seq<Post>, p: Post)
    ensures Texts(wire + [p]) == Texts(wire) + [Text(p)]
  {
    TextsAppend(wire, [p]);
    assert [p][1..] == [];
  }

  lemma {:induction false} TextsOfDurables(q: seq<Msg>)
    ensures Texts(Durables(q)) == Jsons(q)
  {
    if q != [] {
      assert Durables(q)[1..] == Durables(q[1..]);
      TextsOfDurables(q[1..]);
    }
  }

  lemma TextsReplayed(wire: seq<Post>, q: seq<Msg>)
    ensures Texts(wire + Durables(q)) == Texts(wire) + Jsons(q)
  {
    TextsAppend(wire, Durables(q));
    TextsOfDurables(q);
  }

  /** Some texts and then those of the first `r` messages. */
  ghost function WithTexts(sent: seq<string>, held: seq<Msg>, r: nat): seq<string>
    requires r <= |held|
  {
    if r == 0 then sent else WithTexts(sent, held, r - 1) + [held[r - 1].json]
  }

  lemma {:induction false} TextsAdded(sent: seq<string>, held: seq<Msg>, r: nat)
    requires r <= |held|
    ensures WithTexts(sent, held, r) == sent + Jsons(held[..r])
  {
    if r > 0 {
      TextsAdded(sent, held, r - 1);
      JsonsSnoc(held[..r - 1], held[r - 1]);
      assert held[..r] == held[..r - 1] + [held[r - 1]];
      assert (sent + Jsons(held[..r - 1])) + [held[r - 1].json] == sent + (Jsons(held[..r - 1]) + [held[r - 1].json]);
    }
  }

  lemma {:induction false} JsonsSnoc(q: seq<Msg>, m: Msg)
    ensures Jsons(q + [m]) == Jsons(q) + [m.json]
  {
    if q == [] {
      assert q + [m] == [m] && [m][1..] == [];
    } else {
      assert (q + [m])[1..] == q[1..] + [m];
      JsonsSnoc(q[1..], m);
    }
  }

  /** A durable send that goes through. */
  lemma SendPosted(accepts: nat -> bool, s: State, m: Msg)
    requires s.Open() && Goes(accepts, s.posts, m.json) && |s.held| <= MAX_PENDING
    ensures var t := StepSend(accepts, s, m);
      && t.held == WithoutKey(s.held, m.key) && |t.held| <= MAX_PENDING
      && Texts(t.wire) == Texts(s.wire) + [m.json]
      && t.posts == s.posts + 1 && t.port == s.port && t.ready == s.ready
  {
    TextsSnoc(s.wire, Durable(m));
  }

  /** A durable send that does not. */
  lemma SendHeld(accepts: nat -> bool, s: State, m: Msg)
    requires !(s.Open() && Goes(accepts, s.posts, m.json)) && |s.held| <= MAX_PENDING
    ensures var t := StepSend(accepts, s, m);
      && t.held == Hold(s.held, m) && |t.held| <= MAX_PENDING && t.wire == s.wire
      && t.posts == (s.posts + if s.Open() then Cost(m.json) else 0) && t.port == s.port && t.ready == s.ready
  {
  }

  lemma ReplayNothing(accepts: nat -> bool, s: State)
    requires s.Open() && s.held == []
    ensures Replay(accepts, s) == s
  {
    assert s.held[0..] == [] && s.held[..0] == [];
    assert s.wire + [] == s.wire && s.delivered + [] == s.delivered;
  }

  /** What a replay of `r` messages leaves. */
  lemma ReplaySome(accepts: nat -> bool, s: State, r: nat)
    requires s.Open() && r == ReplayCount(accepts, s.posts, s.held)
    ensures var t := Replay(accepts, s);
      && t.held == s.held[r..] && Texts(t.wire) == WithTexts(Texts(s.wire), s.held, r)
      && t.posts == s.posts + r + (if r < |s.held| then Cost(s.held[r].json) else 0)
      && t.port == s.port && t.ready == s.ready
  {
    TextsReplayed(s.wire, s.held[..r]);
    TextsAdded(Texts(s.wire), s.held, r);
  }

  // ---------- sorting ----------

  ghost predicate Ascending(order: seq<(nat, string)>) {
    forall i, j :: 0 <= i < j < |order| ==> order[i].0 < order[j].0
  }

  /** The pairs (sequence number, key) of a map, in ascending order. */
  ghost predicate IsOrderOf(order: seq<(nat, string)>, m: map<string, Pending>) {
    && Ascending(order)
    && (forall p :: p in order <==> p.1 in m && m[p.1].seqNo == p.0)
  }

  /** The first of the sorted pairs is the oldest entry; the others are the other entries. */
  lemma OrderHead(m: map<string, Pending>, order: seq<(nat, string)>)
    requires IsOrderOf(order, m) && m.Keys != {}
    ensures order != [] && order[0].1 in m
    ensures forall k :: k in m ==> m[order[0].1].seqNo <= m[k].seqNo
    ensures IsOrderOf(order[1..], m - {order[0].1})
  {
    var k :| k in m;
    assert (m[k].seqNo, k) in order;
    var p := order[0];
    assert p in order;
    forall l | l in m ensures m[p.1].seqNo <= m[l].seqNo {
      var j :| 0 <= j < |order| && order[j] == (m[l].seqNo, l);
    }
    forall x ensures x in order[1..] <==> x.1 in m - {p.1} && m[x.1].seqNo == x.0 {
      assert x in order <==> x == p || x in order[1..];
      assert x in order[1..] ==> x.0 != p.0;
    }
  }

  /** Sorting the pairs of a map lists the keys of the messages it stands for, in order. */
  lemma {:induction false} SortedIsHeldOrder(m: map<string, Pending>, q: seq<Msg>, order: seq<(nat, string)>)
    requires Represents(m, q) && IsOrderOf(order, m)
    ensures |order| == |q|
    ensures forall i :: 0 <= i < |q| ==> order[i].1 == q[i].key
    decreases |q|
  {
    assert order == [] || order[0] in order;
    if q != [] {
      OrderHead(m, order);
      HeadErased(m, q, order[0].1);
      SortedIsHeldOrder(m - {q[0].key}, q[1..], order[1..]);
      forall i | 0 < i < |q| ensures order[i].1 == q[i].key {
        assert order[1..][i - 1].1 == q[1..][i - 1].key;
      }
    }
  }

  // ---------- loops over the map ----------

  /** The oldest entry, found by visiting the map in an arbitrary order. */
  method OldestKey(m: map<string, Pending>) returns (oldest: string)
    requires m.Keys != {}
    ensures oldest in m && forall k :: k in m ==> m[oldest].seqNo <= m[k].seqNo
  {
    var todo := m.Keys;
    oldest :| oldest in todo;
    while todo != {}
      invariant todo <= m.Keys
      invariant oldest in m
      invariant forall k :: k in m && k !in todo ==> m[oldest].seqNo <= m[k].seqNo
      decreases todo
    {
      var cur :| cur in todo;
      if m[cur].seqNo < m[oldest].seqNo { oldest := cur; }
      todo := todo - {cur};
    }
  }

  /** Collect the pairs of the map and sort them (an insertion stands for `std::sort`). */
  method SortedEntries(m: map<string, Pending>) returns (order: seq<(nat, string)>)
    requires forall k, l :: k in m && l in m && k != l ==> m[k].seqNo != m[l].seqNo
    ensures IsOrderOf(order, m)
  {
    order := [];
    var todo := m.Keys;
    while todo != {}
      invariant todo <= m.Keys
      invariant Ascending(order)
      invariant forall p :: p in order <==> p.1 in m && p.1 !in todo && m[p.1].seqNo == p.0
      decreases todo
    {
      var key :| key in todo;
      todo := todo - {key};
      ghost var before := order;
      order := Insert(order, (m[key].seqNo, key));
    }
  }

  function Insert(order: seq<(nat, string)>, p: (nat, string)): (r: seq<(nat, string)>)
    requires Ascending(order)
    requires forall x :: x in order ==> x.0 != p.0
    ensures Ascending(r)
    ensures forall x :: x in r <==> x in order || x == p
  {
    if order == [] then [p]
    else if p.0 < order[0].0 then [p] + order
    else
      var rest := Insert(order[1..], p);
      assert forall x :: x in order <==> x == order[0] || x in order[1..];
      assert forall j :: 0 <= j < |rest| ==> rest[j] in rest;
      [order[0]] + rest
  }

  // ---------- the bridge ----------

  class Bridge {
    var port: int
    var ready: bool
    var pending: map<string, Pending>
    var seqNo: nat

    // The Dart VM: how often it was asked, and what it answers.
    var posts: nat
    const accepts: nat -> bool

    // What the VM accepted, and the history of this bridge.
    ghost var wire: seq<string>
    ghost var state: State

    ghost predicate Valid()
      reads this
    {
      && state.port == port && state.ready == ready && state.posts == posts
      && wire == Texts(state.wire)
      && Represents(pending, state.held)
      && Below(pending, seqNo)
      && |state.held| <= MAX_PENDING
    }

    constructor (accepts: nat -> bool)
      ensures Valid() && state == Initial() && this.accepts == accepts
    {
      port, ready, pending, seqNo, posts := ILLEGAL_PORT, false, map[], 0, 0;
      wire, state := [], Initial();
      this.accepts := accepts;
    }

    /** Hand one text to the VM; the caller has checked the port and the API. */
    method PostJsonToDartLocked(json: string) returns (posted: bool)
      modifies `posts, `wire
      ensures posted == Goes(accepts, old(posts), json)
      ensures posts == old(posts) + Cost(json)
      ensures wire == if posted then old(wire) + [json] else old(wire)
    {
      if |json| > MAX_MESSAGE { return false; }
      posted := accepts(posts);
      posts := posts + 1;
      if posted { wire := wire + [json]; }
    }

    /** The check of the API and the port, and then the post. */
    method PostIfOpenLocked(json: string) returns (posted: bool)
      modifies `posts, `wire
      ensures var open := ready && port != ILLEGAL_PORT;
        && posted == (open && Goes(accepts, old(posts), json))
        && posts == old(posts) + (if open then Cost(json) else 0)
      ensures wire == if posted then old(wire) + [json] else old(wire)
    {
      posted := false;
      if ready && port != ILLEGAL_PORT {
        posted := PostJsonToDartLocked(json);
      }
    }

    method DartInitDartApiDL(dataIsNull: bool, rc: int) returns (result: int)
      requires Valid()
      modifies this
      ensures Valid() && state == Step(accepts, old(state), InitApi(dataIsNull, rc))
      ensures result == if dataIsNull || rc != 0 then 1 else 0
    {
      ghost var clock := state.clock;
      if dataIsNull || rc != 0 {
        state := state.(clock := clock + 1);
        return 1;
      }
      ready := true;
      state := state.(ready := true);
      ReplayPendingDurableLocked();
      state := state.(clock := clock + 1);
      return 0;
    }

    method DartRegisterSendPort(sendPort: int)
      requires Valid()
      modifies this
      ensures Valid() && state == Step(accepts, old(state), RegisterPort(sendPort))
    {
      port := sendPort;
      state := state.(port := sendPort);
      ReplayPendingDurableLocked();
      state := state.(clock := state.clock + 1);
    }

    method DartUnregisterSendPort(sendPort: int)
      requires Valid()
      modifies this
      ensures Valid() && state == Step(accepts, old(state), UnregisterPort(sendPort))
    {
      if port == sendPort {
        port := ILLEGAL_PORT;
        state := state.(port := ILLEGAL_PORT);
      }
      state := state.(clock := state.clock + 1);
    }

    method SendCallbackToDart(typeIsNull: bool, json: string)
      requires Valid()
      modifies this
      ensures Valid() && state == Step(accepts, old(state), SendPlain(typeIsNull, json))
    {
      ghost var s := state;
      TextsSnoc(s.wire, Plain(json));
      if !typeIsNull {
        var _ := PostIfOpenLocked(json);
      }
      state := Step(accepts, s, SendPlain(typeIsNull, json));
    }

    method SendDurableCallbackToDart(typeIsNull: bool, key: string, json: string, owner: int)
      requires Valid()
      modifies this
      ensures Valid() && state == Step(accepts, old(state), SendDurable(typeIsNull, key, json, owner))
    {
      if typeIsNull {
        state := state.(clock := state.clock + 1);
        return;
      }
      SendOrHoldLocked(key, json, owner);
      state := state.(clock := state.clock + 1);
    }

    method SendOrHoldLocked(key: string, json: string, owner: int)
      requires Valid()
      modifies this
      ensures Valid() && state == StepSend(accepts, old(state), Msg(old(state).clock, key, json, owner))
    {
      ghost var s, m := state, Msg(state.clock, key, json, owner);
      var posted := PostIfOpenLocked(json);
      if posted {
        Erased(pending, s.held, key);
        pending := pending - {key};
        SendPosted(accepts, s, m);
      } else {
        HoldLocked(key, json, owner);
        SendHeld(accepts, s, m);
      }
      state := StepSend(accepts, s, m);
    }

    /** The holding part of a durable send: replace the entry of the key, or make room
        by dropping the oldest entry and add one. */
    method HoldLocked(key: string, json: string, owner: int)
      requires Represents(pending, state.held) && Below(pending, seqNo) && |state.held| <= MAX_PENDING
      modifies `pending, `seqNo
      ensures Represents(pending, Hold(state.held, Msg(state.clock, key, json, owner)))
      ensures Below(pending, seqNo)
    {
      ghost var q, m := state.held, Msg(state.clock, key, json, owner);
      seqNo := seqNo + 1;
      if key in pending {
        EntryReplaced(pending, q, m, Pending(seqNo, json, owner));
        pending := pending[key := Pending(seqNo, json, owner)];
        return;
      }
      HoldOfNewKey(pending, q, m);
      if |pending| >= MAX_PENDING {
        var oldest := OldestKey(pending);
        HeadErased(pending, q, oldest);
        pending := pending - {oldest};
        q := q[1..];
      }
      Appended(pending, q, m, Pending(seqNo, json, owner));
      pending := pending[key := Pending(seqNo, json, owner)];
    }

    method DiscardDurableCallbacksForInstance(owner: int)
      requires Valid()
      modifies this
      ensures Valid() && state == Step(accepts, old(state), Discard(owner))
    {
      EraseOwnerLocked(owner);
      OwnerErased(old(pending), state.held, owner, pending);
      state := Step(accepts, state, Discard(owner));
    }

    /** Erase while iterating: visit every entry once and drop those of one owner. */
    method EraseOwnerLocked(owner: int)
      modifies `pending
      ensures forall k :: k in pending <==> k in old(pending) && old(pending)[k].owner != owner
      ensures forall k :: k in pending ==> pending[k] == old(pending)[k]
    {
      var todo := pending.Keys;
      while todo != {}
        invariant todo <= old(pending).Keys
        invariant forall k :: k in pending <==> k in old(pending) && (k in todo || old(pending)[k].owner != owner)
        invariant forall k :: k in pending ==> pending[k] == old(pending)[k]
        decreases todo
      {
        var key :| key in todo;
        if pending[key].owner == owner { pending := pending - {key}; }
        todo := todo - {key};
      }
    }

    /** Replay what is held, if there is anything and it can be posted at all. */
    method ReplayPendingDurableLocked()
      requires Valid()
      modifies this
      ensures Valid() && state == Replay(accepts, old(state))
    {
      ghost var s := state;
      if !ready || port == ILLEGAL_PORT || pending == map[] {
        if s.Open() { ReplayNothing(accepts, s); }
        return;
      }
      ghost var r := ReplayCount(accepts, posts, s.held);
      HeadsErased(pending, s.held, r);
      ReplaySome(accepts, s, r);
      PostHeldLocked(s.held, r);
      state := Replay(accepts, s);
    }

    /** Collect and sort the entries, then post them. */
    method PostHeldLocked(ghost held: seq<Msg>, ghost r: nat)
      requires Represents(pending, held) && Below(pending, seqNo) && r == ReplayCount(accepts, posts, held)
      modifies `pending, `posts, `wire
      ensures pending == WithoutHeads(old(pending), held, r) && Below(pending, seqNo)
      ensures wire == WithTexts(old(wire), held, r)
      ensures posts == old(posts) + r + if r < |held| then Cost(held[r].json) else 0
    {
      NumbersDiffer(pending, held);
      var order := SortedEntries(pending);
      SortedIsHeldOrder(pending, held, order);
      PostInOrderLocked(order, held, r);
    }

    /** Post in ascending sequence order and stop at the first failure: when `r` messages go
        through and the next one does not, exactly those are sent and erased. */
    method PostInOrderLocked(order: seq<(nat, string)>, ghost held: seq<Msg>, ghost r: nat)
      requires Represents(pending, held) && Below(pending, seqNo)
      requires |order| == |held| && forall i :: 0 <= i < |order| ==> order[i].1 == held[i].key
      requires r <= |held| && forall i :: 0 <= i < r ==> Goes(accepts, posts + i, held[i].json)
      requires r < |held| ==> !Goes(accepts, posts + r, held[r].json)
      modifies `pending, `posts, `wire
      ensures pending == WithoutHeads(old(pending), held, r) && Below(pending, seqNo)
      ensures wire == WithTexts(old(wire), held, r)
      ensures posts == old(posts) + r + if r < |held| then Cost(held[r].json) else 0
    {
      ghost var m, first, sent := pending, posts, wire;
      var i := 0;
      while i < |order|
        invariant 0 <= i <= r
        invariant pending == WithoutHeads(m, held, i) && Below(pending, seqNo)
        invariant posts == first + i && wire == WithTexts(sent, held, i)
      {
        var key := order[i].1;
        NextHead(m, held, i);
        assert i < r <==> Goes(accepts, posts, held[i].json);
        var posted := PostEntryLocked(key);
        if !posted { break; }
        i := i + 1;
      }
      assert i == r;
    }

    /** Post the text of an entry, and erase the entry if it went through. */
    method PostEntryLocked(key: string) returns (posted: bool)
      requires key in pending && Below(pending, seqNo)
      modifies `pending, `posts, `wire
      ensures var json := old(pending)[key].json;
        && posted == Goes(accepts, old(posts), json) && posts == old(posts) + Cost(json)
        && wire == if posted then old(wire) + [json] else old(wire)
      ensures pending == if posted then old(pending) - {key} else old(pending)
      ensures Below(pending, seqNo)
    {
      posted := PostJsonToDartLocked(pending[key].json);
      if posted { pending := pending - {key}; }
    }
  }

  /** Any sequence of calls on a new bridge leaves it in the state of the run, so every
      statement about runs is a statement about the bridge. */
  method RunBridge(accepts: nat -> bool, es: seq<Event>) returns (bridge: Bridge)
    ensures fresh(bridge) && bridge.Valid() && bridge.accepts == accepts
    ensures bridge.state == Run(accepts, es) && bridge.wire == Texts(Run(accepts, es).wire)
  {
    bridge := new Bridge(accepts);
    var i := 0;
    while i < |es|
      invariant 0 <= i <= |es|
      invariant fresh(bridge) && bridge.Valid() && bridge.accepts == accepts
      invariant bridge.state == Run(accepts, es[..i])
    {
      assert es[..i + 1][..i] == es[..i];
      Apply(bridge, es[i]);
      i := i + 1;
    }
    assert es[..i] == es;
  }

  method Apply(bridge: Bridge, e: Event)
    requires bridge.Valid()
    modifies bridge
    ensures bridge.Valid() && bridge.state == Step(bridge.accepts, old(bridge.state), e)
  {
    match e
    case InitApi(dataIsNull, rc) => var _ := bridge.DartInitDartApiDL(dataIsNull, rc);
    case RegisterPort(p) => bridge.DartRegisterSendPort(p);
    case UnregisterPort(p) => bridge.DartUnregisterSendPort(p);
    case SendPlain(typeIsNull, json) => bridge.SendCallbackToDart(typeIsNull, json);
    case SendDurable(typeIsNull, key, json, owner) => bridge.SendDurableCallbackToDart(typeIsNull, key, json, owner);
    case Discard(owner) => bridge.DiscardDurableCallbacksForInstance(owner);
  }
}
