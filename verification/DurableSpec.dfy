/** What the durable callback buffer is supposed to do, told over an ordered list.

    Messages carry the number of the call that sent them, so a run can be compared
    with its own history.  `accepts(n)` is the answer the Dart VM gives to the n-th
    post; it is an arbitrary function, so every statement covers every pattern of
    failing posts.
  */
module DurableSpec {

  const ILLEGAL_PORT: int := -1
  const MAX_PENDING: nat := 4096
  const MAX_MESSAGE: nat := 1024 * 1024

  /** A durable message; `id` is the number of the call that sent it. */
  datatype Msg = Msg(id: nat, key: string, json: string, owner: int)

  /** The calls that reach the bridge; each runs under one lock. */
  datatype Event =
    | InitApi(dataIsNull: bool, rc: int)
    | RegisterPort(sendPort: int)
    | UnregisterPort(sendPort: int)
    | SendPlain(typeIsNull: bool, json: string)
    | SendDurable(typeIsNull: bool, key: string, json: string, owner: int)
    | Discard(owner: int)

  /** A text the Dart VM has accepted. */
  datatype Post = Plain(json: string) | Durable(msg: Msg)

  /** `clock` counts calls and `posts` counts uses of the Dart VM; `wire` is what it has
      accepted, in order.  The last three lists record the durable messages that left
      without being delivered. */
  datatype State = State(
    clock: nat, port: int, ready: bool, posts: nat, wire: seq<Post>,
    held: seq<Msg>, delivered: seq<Msg>,
    superseded: seq<Msg>, evicted: seq<Msg>, ended: seq<Msg>)
  {
    predicate Open() {
      ready && port != ILLEGAL_PORT
    }
  }

  function Initial(): State {
    State(0, ILLEGAL_PORT, false, 0, [], [], [], [], [], [])
  }

  // ---------- lists of messages ----------

  function Filter(q: seq<Msg>, p: Msg -> bool): (r: seq<Msg>)
    ensures |r| <= |q|
    ensures forall m :: m in r <==> m in q && p(m)
  {
    if q == [] then []
    else if p(q[0]) then [q[0]] + Filter(q[1..], p)
    else Filter(q[1..], p)
  }

  function Not(p: Msg -> bool): Msg -> bool {
    (m: Msg) => !p(m)
  }

  function KeyIs(key: string): Msg -> bool {
    (m: Msg) => m.key == key
  }

  function OwnerIs(owner: int): Msg -> bool {
    (m: Msg) => m.owner == owner
  }

  function WithoutKey(q: seq<Msg>, key: string): seq<Msg> {
    Filter(q, Not(KeyIs(key)))
  }

  function Durables(q: seq<Msg>): seq<Post> {
    if q == [] then [] else [Durable(q[0])] + Durables(q[1..])
  }

  function Text(p: Post): string {
    match p
    case Plain(json) => json
    case Durable(m) => m.json
  }

  /** The texts of the posts, as the VM sees them. */
  function Texts(wire: seq<Post>): seq<string> {
    if wire == [] then [] else [Text(wire[0])] + Texts(wire[1..])
  }

  /** The texts of some messages. */
  function Jsons(q: seq<Msg>): seq<string> {
    if q == [] then [] else [q[0].json] + Jsons(q[1..])
  }

  /** The durable messages among the posts. */
  function DurablePosts(wire: seq<Post>): seq<Msg> {
    if wire == [] then []
    else if wire[0].Durable? then [wire[0].msg] + DurablePosts(wire[1..])
    else DurablePosts(wire[1..])
  }

  // ---------- one call ----------

  /** Whether the n-th post of `json` goes through: oversized text never does. */
  predicate Goes(accepts: nat -> bool, n: nat, json: string) {
    |json| <= MAX_MESSAGE && accepts(n)
  }

  /** How often posting `json` consults the VM. */
  function Cost(json: string): nat {
    if |json| <= MAX_MESSAGE then 1 else 0
  }

  /** Remove the key, append, and drop the head when the list is over its bound. */
  function Hold(q: seq<Msg>, m: Msg): seq<Msg> {
    var rest := WithoutKey(q, m.key);
    if |rest| >= MAX_PENDING then rest[1..] + [m] else rest + [m]
  }

  function Dropped(q: seq<Msg>, m: Msg): seq<Msg> {
    var rest := WithoutKey(q, m.key);
    if |rest| >= MAX_PENDING then rest[..1] else []
  }

  /** Length of the longest prefix of `q` that can be posted, starting at post `n`. */
  function ReplayCount(accepts: nat -> bool, n: nat, q: seq<Msg>): (r: nat)
    ensures r <= |q|
    ensures forall i :: 0 <= i < r ==> Goes(accepts, n + i, q[i].json)
    ensures r < |q| ==> !Goes(accepts, n + r, q[r].json)
    decreases |q|
  {
    if q == [] || !Goes(accepts, n, q[0].json) then 0
    else
      var rest := ReplayCount(accepts, n + 1, q[1..]);
      assert forall i :: 0 < i <= rest ==> q[i] == q[1..][i - 1];
      1 + rest
  }

  function Replay(accepts: nat -> bool, s: State): State {
    if !s.Open() then s
    else
      var r := ReplayCount(accepts, s.posts, s.held);
      s.(held := s.held[r..],
         delivered := s.delivered + s.held[..r],
         wire := s.wire + Durables(s.held[..r]),
         posts := s.posts + r + if r < |s.held| then Cost(s.held[r].json) else 0)
  }

  function StepSend(accepts: nat -> bool, s: State, m: Msg): State {
    var same := Filter(s.held, KeyIs(m.key));
    if s.Open() && Goes(accepts, s.posts, m.json) then
      s.(held := WithoutKey(s.held, m.key),
         delivered := s.delivered + [m],
         wire := s.wire + [Durable(m)],
         superseded := s.superseded + same,
         posts := s.posts + 1)
    else
      s.(held := Hold(s.held, m),
         superseded := s.superseded + same,
         evicted := s.evicted + Dropped(s.held, m),
         posts := s.posts + if s.Open() then Cost(m.json) else 0)
  }

  function Effect(accepts: nat -> bool, s: State, e: Event): State {
    match e
    case InitApi(dataIsNull, rc) =>
      if dataIsNull || rc != 0 then s else Replay(accepts, s.(ready := true))
    case RegisterPort(p) => Replay(accepts, s.(port := p))
    case UnregisterPort(p) => if s.port == p then s.(port := ILLEGAL_PORT) else s
    case SendPlain(typeIsNull, json) =>
      if typeIsNull || !s.Open() then s
      else
        s.(posts := s.posts + Cost(json),
           wire := if Goes(accepts, s.posts, json) then s.wire + [Plain(json)] else s.wire)
    case SendDurable(typeIsNull, key, json, owner) =>
      if typeIsNull then s else StepSend(accepts, s, Msg(s.clock, key, json, owner))
    case Discard(owner) =>
      s.(held := Filter(s.held, Not(OwnerIs(owner))), ended := s.ended + Filter(s.held, OwnerIs(owner)))
  }

  function Step(accepts: nat -> bool, s: State, e: Event): State {
    Effect(accepts, s, e).(clock := s.clock + 1)
  }

  // ---------- whole runs ----------

  function Run(accepts: nat -> bool, es: seq<Event>): (s: State)
    ensures s.clock == |es|
  {
    if es == [] then Initial()
    else Step(accepts, Run(accepts, es[..|es| - 1]), es[|es| - 1])
  }

  /** Call `i` of the history is a durable send that is not rejected outright. */
  predicate Sends(es: seq<Event>, i: nat) {
    i < |es| && es[i].SendDurable? && !es[i].typeIsNull
  }

  function MsgAt(es: seq<Event>, i: nat): Msg
    requires Sends(es, i)
  {
    Msg(i, es[i].key, es[i].json, es[i].owner)
  }

  /** The durable sends of a history, in order. */
  function History(es: seq<Event>): (q: seq<Msg>)
    ensures forall m :: m in q <==> Sends(es, m.id) && m == MsgAt(es, m.id)
  {
    if es == [] then []
    else
      var n := |es| - 1;
      var before := History(es[..n]);
      if Sends(es, n) then before + [MsgAt(es, n)] else before
  }

  /** The last message of each key, in order of those last sends. */
  function LatestPerKey(q: seq<Msg>): (r: seq<Msg>)
    ensures forall m :: m in r ==> m in q
  {
    if q == [] then []
    else if exists m :: m in q[1..] && m.key == q[0].key then LatestPerKey(q[1..])
    else [q[0]] + LatestPerKey(q[1..])
  }

  function LastN(q: seq<Msg>, n: nat): seq<Msg> {
    if |q| <= n then q else q[|q| - n..]
  }
}
