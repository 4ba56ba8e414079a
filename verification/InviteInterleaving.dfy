/** `DartInvite` against the event thread: the calling thread reports a success or a
    missing callback, the event thread reports an error, and every atomic step of the two
    may interleave. */
module InviteInterleaving {
  import opened TerminalContract

  /** Where the calling thread is, once the invite call has returned its id. */
  datatype CallerPc = ReadSuccess | SendSuccess | ReadCount | TryFailure | SendFailure | Finished

  /** Where the event thread is inside one callback. */
  datatype EventPc = Idle | StoreSuccess | SendError(result: Result)

  /** Who found the counter at zero. */
  datatype Winner = Nobody | EventSuccess | EventError(result: Result) | Caller

  /** `calls` are the callbacks the event thread has yet to make.  `winner`, `sawSuccess`
      and `attempts` are kept for the record only; no step reads them. */
  datatype State = State(
    listening: bool, inviteId: string,
    count: nat, success: bool, sent: seq<Result>,
    caller: CallerPc, event: EventPc, calls: seq<Attempt>,
    winner: Winner, sawSuccess: bool, attempts: nat)

  function Start(listening: bool, inviteId: string, calls: seq<Attempt>): State {
    State(listening, inviteId, 0, false, [], ReadSuccess, Idle, calls, Nobody, false, 0)
  }

  function Success(inviteId: string): Result {
    Result(0, "", InviteJson(inviteId))
  }

  /** `SendApiCallbackResult`. */
  function Send(s: State, r: Result): State {
    if s.listening then s.(sent := s.sent + [r]) else s
  }

  /** One `fetch_add` on the gate. */
  function TryComplete(s: State, winner: Winner): State {
    s.(count := (s.count + 1) % WRAP, winner := if s.count == 0 then winner else s.winner, attempts := s.attempts + 1)
  }

  function EventStep(s: State): State {
    match s.event
    case StoreSuccess => s.(success := true, event := Idle)
    case SendError(r) => Send(s, r).(event := Idle)
    case Idle =>
      if s.calls == [] then s
      else
        var call := s.calls[0];
        var won := s.count == 0;
        match call
        case OnSuccess(_) =>
          TryComplete(s, EventSuccess).(calls := s.calls[1..], event := if won then StoreSuccess else Idle)
        case OnError(_, _) =>
          TryComplete(s, EventError(Report(call)))
            .(calls := s.calls[1..], event := if won then SendError(Report(call)) else Idle)
  }

  function CallerStep(s: State): State {
    match s.caller
    case ReadSuccess =>
      var report := s.listening && s.success && s.inviteId != "";
      s.(sawSuccess := s.success, caller := if report then SendSuccess else ReadCount)
    case SendSuccess => Send(s, Success(s.inviteId)).(caller := ReadCount)
    case ReadCount => s.(caller := if s.count == 0 then TryFailure else Finished)
    case TryFailure => TryComplete(s, Caller).(caller := if s.count == 0 then SendFailure else Finished)
    case SendFailure => Send(s, FAILURE).(caller := Finished)
    case Finished => s
  }

  /** A schedule says which thread moves next. */
  datatype Turn = EventTurn | CallerTurn

  function TakeTurn(s: State, turn: Turn): State {
    match turn
    case EventTurn => EventStep(s)
    case CallerTurn => CallerStep(s)
  }

  function Run(s: State, schedule: seq<Turn>): State {
    if schedule == [] then s
    else TakeTurn(Run(s, schedule[..|schedule| - 1]), schedule[|schedule| - 1])
  }

  predicate Complete(s: State) {
    s.caller == Finished && s.event == Idle && s.calls == []
  }

  // ---------- the invariant ----------

  function Reported(s: State, r: Result): seq<Result> {
    if s.listening then [r] else []
  }

  ghost predicate Inv(s: State) {
    && s.attempts == s.count
    && s.attempts + |s.calls| + (if s.caller in {SendFailure, Finished} then 0 else 1) < WRAP
    && (s.winner == Nobody <==> s.count == 0)
    && match s.winner
       case Nobody =>
         && s.event == Idle && !s.success && s.sent == [] && !s.sawSuccess
         && s.caller in {ReadSuccess, ReadCount, TryFailure}
       case EventSuccess =>
         && s.event == (if s.success then Idle else StoreSuccess)
         && (s.sawSuccess ==> s.success && s.caller != ReadSuccess)
         && s.caller != SendFailure
         && (s.caller == SendSuccess ==> s.sawSuccess && s.listening && s.inviteId != "")
         && s.sent == (if s.sawSuccess && s.listening && s.inviteId != "" && s.caller != SendSuccess
                       then [Success(s.inviteId)] else [])
       case EventError(r) =>
         && !s.success && !s.sawSuccess && s.caller !in {SendSuccess, SendFailure}
         && s.event in {Idle, SendError(r)}
         && s.sent == (if s.event == Idle then Reported(s, r) else [])
       case Caller =>
         && s.event == Idle && !s.success && !s.sawSuccess && s.caller in {SendFailure, Finished}
         && s.sent == (if s.caller == Finished then Reported(s, FAILURE) else [])
  }

  lemma EventStepKeepsInv(s: State)
    requires Inv(s)
    ensures Inv(EventStep(s)) && EventStep(s).listening == s.listening && EventStep(s).inviteId == s.inviteId
  {
    if s.event == Idle && s.calls != [] {
      NextCallKeepsInv(s);
    } else {
      FinishedCallKeepsInv(s);
    }
  }

  /** The event thread begins a callback. */
  lemma NextCallKeepsInv(s: State)
    requires Inv(s) && s.event == Idle && s.calls != []
    ensures Inv(EventStep(s)) && EventStep(s).listening == s.listening && EventStep(s).inviteId == s.inviteId
  {
    match s.calls[0]
    case OnSuccess(_) =>
    case OnError(_, _) =>
  }

  /** It ends one, or has nothing to do. */
  lemma FinishedCallKeepsInv(s: State)
    requires Inv(s) && (s.event != Idle || s.calls == [])
    ensures Inv(EventStep(s)) && EventStep(s).listening == s.listening && EventStep(s).inviteId == s.inviteId
  {
  }

  lemma CallerStepKeepsInv(s: State)
    requires Inv(s)
    ensures Inv(CallerStep(s)) && CallerStep(s).listening == s.listening && CallerStep(s).inviteId == s.inviteId
  {
  }

  lemma TurnKeepsInv(s: State, turn: Turn)
    requires Inv(s)
    ensures var t := TakeTurn(s, turn); Inv(t) && t.listening == s.listening && t.inviteId == s.inviteId
  {
    match turn
    case EventTurn => EventStepKeepsInv(s);
    case CallerTurn => CallerStepKeepsInv(s);
  }

  lemma {:induction false} RunKeepsInv(listening: bool, inviteId: string, calls: seq<Attempt>, schedule: seq<Turn>)
    requires |calls| + 1 < WRAP
    ensures var s := Run(Start(listening, inviteId, calls), schedule);
      Inv(s) && s.listening == listening && s.inviteId == inviteId
  {
    if schedule != [] {
      RunKeepsInv(listening, inviteId, calls, schedule[..|schedule| - 1]);
      TurnKeepsInv(Run(Start(listening, inviteId, calls), schedule[..|schedule| - 1]), schedule[|schedule| - 1]);
    }
  }

  /** Under every interleaving, and at every moment, at most one result has been sent. */
  lemma AtMostOneResult(listening: bool, inviteId: string, calls: seq<Attempt>, schedule: seq<Turn>)
    requires |calls| + 1 < WRAP
    ensures |Run(Start(listening, inviteId, calls), schedule).sent| <= 1
  {
    RunKeepsInv(listening, inviteId, calls, schedule);
  }

  // ---------- what the schedule decides ----------

  function Count(schedule: seq<Turn>, turn: Turn): nat {
    if schedule == [] then 0
    else Count(schedule[..|schedule| - 1], turn) + if schedule[|schedule| - 1] == turn then 1 else 0
  }

  /** The `n`-th turn of one thread comes before the `m`-th turn of the other. */
  predicate Before(schedule: seq<Turn>, a: Turn, n: nat, b: Turn, m: nat) {
    exists k :: 0 <= k <= |schedule| && ReachedFirst(schedule[..k], a, n, b, m)
  }

  predicate ReachedFirst(prefix: seq<Turn>, a: Turn, n: nat, b: Turn, m: nat) {
    Count(prefix, a) >= n && Count(prefix, b) < m
  }

  lemma BeforeSnoc(schedule: seq<Turn>, turn: Turn, a: Turn, n: nat, b: Turn, m: nat)
    ensures var longer := schedule + [turn];
      Before(longer, a, n, b, m) <==> Before(schedule, a, n, b, m) || ReachedFirst(longer, a, n, b, m)
  {
    var longer := schedule + [turn];
    assert longer[..|longer|] == longer;
    forall k | 0 <= k <= |schedule| ensures longer[..k] == schedule[..k] {
    }
  }

  lemma CountSnoc(schedule: seq<Turn>, turn: Turn)
    ensures forall t :: Count(schedule + [turn], t) == Count(schedule, t) + if turn == t then 1 else 0
  {
    assert (schedule + [turn])[..|schedule|] == schedule;
  }

  /** The event thread's first callback reaches the gate before the calling thread's own
      attempt, its third step. */
  predicate EventComesFirst(schedule: seq<Turn>) {
    Before(schedule, EventTurn, 1, CallerTurn, 3)
  }

  /** A first success has stored its flag, the event thread's second step, before the
      calling thread looks, its first. */
  predicate StoredInTime(schedule: seq<Turn>) {
    Before(schedule, EventTurn, 2, CallerTurn, 1)
  }

  /** The one result, or none, that the arguments and the schedule decide. */
  function Answer(inviteId: string, calls: seq<Attempt>, schedule: seq<Turn>): seq<Result> {
    if calls == [] || !EventComesFirst(schedule) then [FAILURE]
    else if calls[0].OnError? then [Report(calls[0])]
    else if inviteId != "" && StoredInTime(schedule) then [Success(inviteId)]
    else []
  }

  function WinnerOf(a: Attempt): Winner {
    if a.OnSuccess? then EventSuccess else EventError(Report(a))
  }

  /** Before anybody has won, the calling thread's step is its number of turns. */
  predicate Untouched(s: State, calls: seq<Attempt>, c: nat) {
    if c >= 3 then s.winner == Caller
    else s.winner == Nobody && s.calls == calls && s.caller == [ReadSuccess, ReadCount, TryFailure][c]
  }

  /** How a state follows from the numbers of turns taken and the two facts above. */
  ghost predicate Follows(s: State, calls: seq<Attempt>, e: nat, c: nat, first: bool, stored: bool) {
    && (s.caller == ReadSuccess <==> c == 0)
    && (stored ==> e >= 2) && (first ==> e >= 1) && (e >= 1 && c < 3 ==> first)
    && (if calls == [] || !first then Untouched(s, calls, c)
        else s.winner == WinnerOf(calls[0]) && (calls[0].OnSuccess? ==> FlagFollows(s, e, c, stored)))
  }

  ghost predicate FlagFollows(s: State, e: nat, c: nat, stored: bool) {
    && (s.success <==> e >= 2)
    && (if c == 0 then (stored <==> e >= 2) && !s.sawSuccess else (s.sawSuccess <==> stored))
  }

  lemma CallerTurnFollows(s: State, calls: seq<Attempt>, e: nat, c: nat, first: bool, stored: bool)
    requires Inv(s) && Follows(s, calls, e, c, first, stored)
    ensures Follows(CallerStep(s), calls, e, c + 1, first, stored)
  {
  }

  lemma EventTurnFollows(s: State, calls: seq<Attempt>, e: nat, c: nat, first: bool, stored: bool)
    requires Inv(s) && Follows(s, calls, e, c, first, stored)
    ensures Follows(EventStep(s), calls, e + 1, c, first || c < 3, stored || (e >= 1 && c < 1))
  {
  }

  ghost predicate FollowsRun(inviteId: string, calls: seq<Attempt>, schedule: seq<Turn>) {
    Follows(Run(Start(true, inviteId, calls), schedule), calls, Count(schedule, EventTurn),
      Count(schedule, CallerTurn), EventComesFirst(schedule), StoredInTime(schedule))
  }

  lemma {:induction false} RunFollows(inviteId: string, calls: seq<Attempt>, schedule: seq<Turn>)
    requires |calls| + 1 < WRAP
    ensures FollowsRun(inviteId, calls, schedule)
  {
    if schedule != [] {
      var before, turn := schedule[..|schedule| - 1], schedule[|schedule| - 1];
      RunFollows(inviteId, calls, before);
      RunKeepsInv(true, inviteId, calls, before);
      assert schedule == before + [turn];
      RunFollowsStep(inviteId, calls, before, turn);
    }
  }

  lemma RunFollowsStep(inviteId: string, calls: seq<Attempt>, schedule: seq<Turn>, turn: Turn)
    requires Inv(Run(Start(true, inviteId, calls), schedule)) && FollowsRun(inviteId, calls, schedule)
    ensures FollowsRun(inviteId, calls, schedule + [turn])
  {
    var s := Run(Start(true, inviteId, calls), schedule);
    var e, c := Count(schedule, EventTurn), Count(schedule, CallerTurn);
    var first, stored := EventComesFirst(schedule), StoredInTime(schedule);
    assert (schedule + [turn])[..|schedule|] == schedule;
    assert Run(Start(true, inviteId, calls), schedule + [turn]) == TakeTurn(s, turn);
    CountSnoc(schedule, turn);
    BeforeSnoc(schedule, turn, EventTurn, 1, CallerTurn, 3);
    BeforeSnoc(schedule, turn, EventTurn, 2, CallerTurn, 1);
    match turn
    case EventTurn => EventTurnFollows(s, calls, e, c, first, stored);
    case CallerTurn => CallerTurnFollows(s, calls, e, c, first, stored);
  }

  /** What a completed invitation with a listener has sent, from its arguments, the callbacks
      and the schedule alone: the failure when no callback reached the gate in time, the first
      callback's code and message, the id, or nothing. */
  lemma InviteSendsAnswer(inviteId: string, calls: seq<Attempt>, schedule: seq<Turn>)
    requires |calls| + 1 < WRAP
    requires Complete(Run(Start(true, inviteId, calls), schedule))
    ensures Answers(Run(Start(true, inviteId, calls), schedule).sent, inviteId, calls,
                    EventComesFirst(schedule), StoredInTime(schedule))
  {
    SendsAnswer(inviteId, calls, schedule);
    InviteJsonHasId(inviteId);
  }

  /** The results of an invitation, field by field. */
  ghost predicate Answers(sent: seq<Result>, inviteId: string, calls: seq<Attempt>, first: bool, stored: bool) {
    if calls == [] || !first then |sent| == 1 && Fails(sent[0], ERR_SDK_INTERNAL_ERROR, NO_TERMINAL)
    else if calls[0].OnError? then |sent| == 1 && Fails(sent[0], calls[0].code, calls[0].message)
    else if inviteId != "" && stored then |sent| == 1 && ReportsId(sent[0], inviteId)
    else sent == []
  }

  lemma SendsAnswer(inviteId: string, calls: seq<Attempt>, schedule: seq<Turn>)
    requires |calls| + 1 < WRAP
    requires Complete(Run(Start(true, inviteId, calls), schedule))
    ensures Run(Start(true, inviteId, calls), schedule).sent == Answer(inviteId, calls, schedule)
  {
    RunKeepsInv(true, inviteId, calls, schedule);
    RunFollows(inviteId, calls, schedule);
  }

  /** Without a listener nothing is ever sent. */
  lemma UnheardSendsNothing(inviteId: string, calls: seq<Attempt>, schedule: seq<Turn>)
    requires |calls| + 1 < WRAP
    ensures Run(Start(false, inviteId, calls), schedule).sent == []
  {
    RunKeepsInv(false, inviteId, calls, schedule);
  }

  /** The first callback is a success that reaches the gate in time, and either its flag is
      stored after the caller looked or there is no id to report. */
  predicate SuccessLost(inviteId: string, calls: seq<Attempt>, schedule: seq<Turn>) {
    && calls != [] && calls[0].OnSuccess?
    && EventComesFirst(schedule)
    && (inviteId == "" || !StoredInTime(schedule))
  }

  /** A completed invitation sends exactly one result, unless a success is lost; then it
      sends none. */
  lemma OneResultIff(inviteId: string, calls: seq<Attempt>, schedule: seq<Turn>)
    requires |calls| + 1 < WRAP
    requires Complete(Run(Start(true, inviteId, calls), schedule))
    ensures |Run(Start(true, inviteId, calls), schedule).sent| == 1 <==> !SuccessLost(inviteId, calls, schedule)
    ensures Run(Start(true, inviteId, calls), schedule).sent == [] <==> SuccessLost(inviteId, calls, schedule)
  {
    SendsAnswer(inviteId, calls, schedule);
  }

  /** A manager that called back after returning could have its success lost: the caller
      looks, then the event thread succeeds. */
  lemma LateSuccessIsLost(inviteId: string)
    ensures exists schedule: seq<Turn> ::
      var s := Run(Start(true, inviteId, [OnSuccess("")]), schedule); Complete(s) && s.sent == []
  {
    var t := [CallerTurn, EventTurn, EventTurn, CallerTurn];
    var s0 := Start(true, inviteId, [OnSuccess("")]);
    assert t[..3][..2] == t[..2] && t[..2][..1] == t[..1] && t[..1][..0] == [];
    var s1 := CallerStep(s0);
    assert Run(s0, t[..1]) == s1;
    var s2 := EventStep(s1);
    assert Run(s0, t[..2]) == s2;
    var s3 := EventStep(s2);
    assert Run(s0, t[..3]) == s3;
    assert Run(s0, t) == CallerStep(s3);
  }

  /** So could that of a manager that succeeded without an id, even before returning. */
  lemma SuccessWithoutIdIsLost()
    ensures exists schedule: seq<Turn> ::
      var s := Run(Start(true, "", [OnSuccess("")]), schedule); Complete(s) && s.sent == []
  {
    var t := [EventTurn, EventTurn, CallerTurn, CallerTurn];
    var s0 := Start(true, "", [OnSuccess("")]);
    assert t[..3][..2] == t[..2] && t[..2][..1] == t[..1] && t[..1][..0] == [];
    var s1 := EventStep(s0);
    assert Run(s0, t[..1]) == s1;
    var s2 := EventStep(s1);
    assert Run(s0, t[..2]) == s2;
    var s3 := CallerStep(s2);
    assert Run(s0, t[..3]) == s3;
    assert Run(s0, t) == CallerStep(s3);
  }

  // ---------- callbacks that finish before the call returns ----------

  /** The first `k` steps of a schedule belong to the event thread. */
  predicate EventFirst(schedule: seq<Turn>, k: nat) {
    k <= |schedule| && forall i :: 0 <= i < k ==> schedule[i] == EventTurn
  }

  lemma {:induction false} EventFirstKeepsCaller(s: State, schedule: seq<Turn>)
    requires forall i :: 0 <= i < |schedule| ==> schedule[i] == EventTurn
    ensures Run(s, schedule).caller == s.caller
  {
    if schedule != [] { EventFirstKeepsCaller(s, schedule[..|schedule| - 1]); }
  }

  lemma BeforeLater(schedule: seq<Turn>, k: nat, a: Turn, n: nat, b: Turn, m: nat)
    requires k <= |schedule| && Before(schedule[..k], a, n, b, m)
    ensures Before(schedule, a, n, b, m)
  {
    var j :| 0 <= j <= k && ReachedFirst(schedule[..k][..j], a, n, b, m);
    assert schedule[..k][..j] == schedule[..j];
  }

  /** The event thread is done before the calling thread looks. */
  lemma DoneFirst(inviteId: string, calls: seq<Attempt>, schedule: seq<Turn>)
    requires |calls| + 1 < WRAP && calls != [] && EventFirst(schedule, |schedule|)
    requires var s := Run(Start(true, inviteId, calls), schedule); s.calls == [] && s.event == Idle
    ensures EventComesFirst(schedule) && (calls[0].OnSuccess? ==> StoredInTime(schedule))
  {
    RunKeepsInv(true, inviteId, calls, schedule);
    RunFollows(inviteId, calls, schedule);
    EventFirstKeepsCaller(Start(true, inviteId, calls), schedule);
  }

  /** When every callback ran before the invite call returned, a completed invitation sends
      the first callback's result, or the failure when there was no callback; only a success
      without an id goes unreported. */
  lemma SynchronousInviteSends(inviteId: string, calls: seq<Attempt>, schedule: seq<Turn>, k: nat)
    requires |calls| + 1 < WRAP && EventFirst(schedule, k)
    requires var s := Run(Start(true, inviteId, calls), schedule[..k]); s.calls == [] && s.event == Idle
    requires Complete(Run(Start(true, inviteId, calls), schedule))
    ensures Answers(Run(Start(true, inviteId, calls), schedule).sent, inviteId, calls, true, true)
  {
    InviteSendsAnswer(inviteId, calls, schedule);
    if calls != [] {
      DoneFirst(inviteId, calls, schedule[..k]);
      BeforeLater(schedule, k, EventTurn, 1, CallerTurn, 3);
      if calls[0].OnSuccess? { BeforeLater(schedule, k, EventTurn, 2, CallerTurn, 1); }
    }
  }
}
