/** What the bridge does, call by call, told from the history of calls alone. */
module BridgeHistory {
  import opened DurableSpec
  import opened DurableProofs

  // ---------- when the bridge is open ----------

  /** The API has been initialised. */
  predicate Initialised(es: seq<Event>) {
    exists i :: 0 <= i < |es| && es[i] == InitApi(false, 0)
  }

  /** The port that the last port calls leave registered. */
  function PortAfter(es: seq<Event>): int {
    if es == [] then ILLEGAL_PORT
    else
      var before, e := PortAfter(es[..|es| - 1]), es[|es| - 1];
      if e.RegisterPort? then e.sendPort
      else if e == UnregisterPort(before) then ILLEGAL_PORT
      else before
  }

  predicate OpenAfter(es: seq<Event>) {
    Initialised(es) && PortAfter(es) != ILLEGAL_PORT
  }

  lemma InitialisedSnoc(es: seq<Event>)
    requires es != []
    ensures Initialised(es) <==> Initialised(es[..|es| - 1]) || es[|es| - 1] == InitApi(false, 0)
  {
    var before := es[..|es| - 1];
    if Initialised(before) {
      var i :| 0 <= i < |before| && before[i] == InitApi(false, 0);
      assert es[i] == before[i];
    }
  }

  /** In every run the bridge is open exactly when the API has been initialised and the last
      port calls left a port. */
  lemma {:induction false} OpenIff(accepts: nat -> bool, es: seq<Event>)
    ensures Run(accepts, es).port == PortAfter(es)
    ensures Run(accepts, es).ready <==> Initialised(es)
    ensures Run(accepts, es).Open() <==> OpenAfter(es)
  {
    if es != [] {
      OpenIff(accepts, es[..|es| - 1]);
      InitialisedSnoc(es);
      EffectOpens(accepts, Run(accepts, es[..|es| - 1]), es[|es| - 1]);
    }
  }

  lemma EffectOpens(accepts: nat -> bool, s: State, e: Event)
    ensures var t := Effect(accepts, s, e);
      && (t.ready <==> s.ready || e == InitApi(false, 0))
      && t.port == if e.RegisterPort? then e.sendPort else if e == UnregisterPort(s.port) then ILLEGAL_PORT else s.port
  {
  }

  // ---------- plain messages ----------

  function PlainTexts(wire: seq<Post>): seq<string> {
    if wire == [] then []
    else if wire[0].Plain? then [wire[0].json] + PlainTexts(wire[1..])
    else PlainTexts(wire[1..])
  }

  /** The plain messages that are sent with a type while the bridge is open, are within the
      limit, and are accepted. */
  function PlainSent(accepts: nat -> bool, es: seq<Event>): seq<string> {
    if es == [] then []
    else
      var before, e := es[..|es| - 1], es[|es| - 1];
      if e.SendPlain? && !e.typeIsNull && OpenAfter(before)
        && |e.json| <= MAX_MESSAGE && accepts(Run(accepts, before).posts)
      then PlainSent(accepts, before) + [e.json]
      else PlainSent(accepts, before)
  }

  lemma {:induction false} PlainTextsConcat(a: seq<Post>, b: seq<Post>)
    ensures PlainTexts(a + b) == PlainTexts(a) + PlainTexts(b)
  {
    if a == [] {
      assert a + b == b;
    } else {
      assert (a + b)[1..] == a[1..] + b;
      PlainTextsConcat(a[1..], b);
    }
  }

  lemma {:induction false} NoPlainInDurables(q: seq<Msg>)
    ensures PlainTexts(Durables(q)) == []
  {
    if q != [] {
      assert Durables(q)[1..] == Durables(q[1..]);
      NoPlainInDurables(q[1..]);
    }
  }

  lemma ReplayPostsNoPlain(accepts: nat -> bool, s: State)
    ensures PlainTexts(Replay(accepts, s).wire) == PlainTexts(s.wire)
  {
    var q := s.held[..ReplayCount(accepts, s.posts, s.held)];
    PlainTextsConcat(s.wire, Durables(q));
    NoPlainInDurables(q);
    assert PlainTexts(s.wire) + [] == PlainTexts(s.wire);
  }

  lemma PostPlain(wire: seq<Post>, p: Post)
    ensures PlainTexts(wire + [p]) == PlainTexts(wire) + if p.Plain? then [p.json] else []
  {
    PlainTextsConcat(wire, [p]);
    assert [p][1..] == [];
  }

  lemma EffectPlain(accepts: nat -> bool, s: State, e: Event)
    ensures PlainTexts(Effect(accepts, s, e).wire) == PlainTexts(s.wire) +
      if e.SendPlain? && !e.typeIsNull && s.Open() && |e.json| <= MAX_MESSAGE && accepts(s.posts) then [e.json] else []
  {
    match e
    case InitApi(_, _) => ReplayPostsNoPlain(accepts, s.(ready := true));
    case RegisterPort(p) => ReplayPostsNoPlain(accepts, s.(port := p));
    case SendPlain(_, json) => PostPlain(s.wire, Plain(json));
    case SendDurable(_, key, json, owner) => PostPlain(s.wire, Durable(Msg(s.clock, key, json, owner)));
    case _ =>
  }

  /** In every run the plain texts that the VM has accepted are, in order, exactly those sent
      with a type while the bridge was open, within 1 MiB, and accepted when it was asked. */
  lemma {:induction false} RunPlain(accepts: nat -> bool, es: seq<Event>)
    ensures PlainTexts(Run(accepts, es).wire) == PlainSent(accepts, es)
  {
    if es != [] {
      var before := es[..|es| - 1];
      RunPlain(accepts, before);
      OpenIff(accepts, before);
      EffectPlain(accepts, Run(accepts, before), es[|es| - 1]);
    }
  }

  // ---------- durable messages ----------

  lemma RunSnoc(accepts: nat -> bool, es: seq<Event>, e: Event)
    ensures Run(accepts, es + [e]) == Step(accepts, Run(accepts, es), e)
  {
    assert (es + [e])[..|es|] == es;
  }

  /** A durable send is delivered at once exactly when the bridge is open, the text within
      1 MiB, and the VM accepts it; otherwise it is the newest message held. */
  lemma SendDeliveredIff(accepts: nat -> bool, es: seq<Event>, key: string, json: string, owner: int)
    ensures var s, t := Run(accepts, es), Run(accepts, es + [SendDurable(false, key, json, owner)]);
      var m := Msg(|es|, key, json, owner);
      if OpenAfter(es) && |json| <= MAX_MESSAGE && accepts(s.posts)
      then
        && t.delivered == s.delivered + [m] && t.wire == s.wire + [Durable(m)]
        && forall x :: x in t.held ==> x.key != key
      else t.delivered == s.delivered && t.wire == s.wire && t.held != [] && t.held[|t.held| - 1] == m
  {
    RunSnoc(accepts, es, SendDurable(false, key, json, owner));
    OpenIff(accepts, es);
  }

  /** The first `r` held messages go through one after the other, and the next one does not. */
  ghost predicate GoThrough(accepts: nat -> bool, n: nat, q: seq<Msg>, r: nat) {
    && r <= |q|
    && (forall i :: 0 <= i < r ==> |q[i].json| <= MAX_MESSAGE && accepts(n + i))
    && (r < |q| ==> |q[r].json| > MAX_MESSAGE || !accepts(n + r))
  }

  /** A call that registers a port or initialises the API, and leaves the bridge open, delivers
      the held messages that go through, in order, and keeps the rest. */
  lemma PortCallReplays(accepts: nat -> bool, es: seq<Event>, e: Event)
    requires (e.RegisterPort? || e == InitApi(false, 0)) && OpenAfter(es + [e])
    ensures var s, t := Run(accepts, es), Run(accepts, es + [e]);
      exists r: nat :: GoThrough(accepts, s.posts, s.held, r)
        && t.delivered == s.delivered + s.held[..r] && t.held == s.held[r..]
  {
    RunSnoc(accepts, es, e);
    OpenIff(accepts, es + [e]);
    var s := Run(accepts, es);
    EffectOpens(accepts, s, e);
    ReplayGoesThrough(accepts, if e.RegisterPort? then s.(port := e.sendPort) else s.(ready := true));
  }

  lemma ReplayGoesThrough(accepts: nat -> bool, s: State)
    requires s.Open()
    ensures var t := Replay(accepts, s);
      exists r: nat :: GoThrough(accepts, s.posts, s.held, r)
        && t.delivered == s.delivered + s.held[..r] && t.held == s.held[r..]
  {
    var r := ReplayCount(accepts, s.posts, s.held);
    assert forall i :: 0 <= i < r ==> Goes(accepts, s.posts + i, s.held[i].json);
    assert GoThrough(accepts, s.posts, s.held, r);
  }

  /** Calls that change nothing but the count of calls, or the port: failed initialisations,
      sends without a type, and removals of a port. */
  predicate IsQuiet(e: Event) {
    match e
    case InitApi(dataIsNull, rc) => dataIsNull || rc != 0
    case UnregisterPort(_) => true
    case SendPlain(typeIsNull, _) => typeIsNull
    case SendDurable(typeIsNull, _, _, _) => typeIsNull
    case _ => false
  }

  /** They post, deliver, hold and lose nothing. */
  lemma QuietCalls(accepts: nat -> bool, es: seq<Event>, e: Event)
    requires IsQuiet(e) || (e.RegisterPort? && !OpenAfter(es + [e])) || (e.InitApi? && !OpenAfter(es + [e]))
    ensures var s, t := Run(accepts, es), Run(accepts, es + [e]);
      && t.wire == s.wire && t.posts == s.posts && t.held == s.held && t.delivered == s.delivered
      && t.superseded == s.superseded && t.evicted == s.evicted && t.ended == s.ended
  {
    RunSnoc(accepts, es, e);
    OpenIff(accepts, es + [e]);
    OpenIff(accepts, es);
  }
}
