/** The contract on terminal callbacks: an atomic counter decides which of several
    attempts to finish an operation is reported to Dart. */
module TerminalContract {
  import opened Text
  import opened JsonText

  /** The counter is an unsigned 32-bit integer: it wraps around. */
  const WRAP: nat := 0x1_0000_0000

  const ERR_SDK_INTERNAL_ERROR: int := 7012
  const NO_TERMINAL := "Signaling operation returned without terminal callback"

  /** One call of a terminal callback. */
  datatype Attempt = OnSuccess(data: string) | OnError(code: int, message: string)

  /** One result sent to Dart. */
  datatype Result = Result(code: int, desc: string, data: string)

  function Report(a: Attempt): Result {
    match a
    case OnSuccess(data) => Result(0, "", data)
    case OnError(code, message) => Result(code, message, "")
  }

  const FAILURE := Result(ERR_SDK_INTERNAL_ERROR, NO_TERMINAL, "")

  const ID_OPEN := "{\"invite_id\":\""
  const ID_CLOSE := "\"}"

  /** The data that a successful invitation reports. */
  function InviteJson(inviteId: string): string {
    ID_OPEN + Escape(inviteId) + ID_CLOSE
  }

  // ---------- what a result says, field by field ----------

  /** A success, with the given data. */
  predicate Succeeds(r: Result, data: string) {
    r.code == 0 && r.desc == "" && r.data == data
  }

  /** An error, with the given code and message. */
  predicate Fails(r: Result, code: int, message: string) {
    r.code == code && r.desc == message && r.data == ""
  }

  /** A success whose data is an object that has the invite id as its only member: a JSON
      reader (RFC 8259, section 7) finds the id in it. */
  ghost predicate ReportsId(r: Result, inviteId: string) {
    r.code == 0 && r.desc == "" && exists body :: HasId(r.data, body, inviteId)
  }

  predicate HasId(data: string, body: string, inviteId: string) {
    data == ID_OPEN + body + ID_CLOSE && Unescape(body) == Some(inviteId)
  }

  lemma InviteJsonHasId(inviteId: string)
    ensures HasId(InviteJson(inviteId), Escape(inviteId), inviteId)
  {
    EscapeRoundTrip(inviteId);
  }

  /** One result reports one id only. */
  lemma ReportedIdUnique(r: Result, a: string, b: string)
    requires ReportsId(r, a) && ReportsId(r, b)
    ensures a == b
  {
    var x :| HasId(r.data, x, a);
    var y :| HasId(r.data, y, b);
    SameBody(ID_OPEN, x, y, ID_CLOSE);
  }

  lemma SameBody(open: string, x: string, y: string, close: string)
    requires open + x + close == open + y + close
    ensures x == y
  {
    var t := open + x + close;
    assert |x| == |y|;
    assert x == t[|open|..|open| + |x|] == y;
  }

  /** What one attempt reports. */
  predicate ReportsAttempt(r: Result, a: Attempt) {
    match a
    case OnSuccess(data) => Succeeds(r, data)
    case OnError(code, message) => Fails(r, code, message)
  }

  class TerminalCallbackGate {
    var attemptCount: nat

    ghost predicate Valid()
      reads this
    {
      attemptCount < WRAP
    }

    constructor ()
      ensures Valid() && attemptCount == 0
    {
      attemptCount := 0;
    }

    /** `fetch_add`: true for the attempt that finds the counter at zero. */
    method TryComplete() returns (first: bool)
      requires Valid()
      modifies this
      ensures Valid() && first == (old(attemptCount) == 0)
      ensures attemptCount == (old(attemptCount) + 1) % WRAP
    {
      first := attemptCount == 0;
      attemptCount := (attemptCount + 1) % WRAP;
    }
  }

  // ---------- operations that report at once ----------

  /** The attempts that win, starting from a counter value. */
  function Winning(calls: seq<Attempt>, count: nat): seq<Attempt> {
    if calls == [] then []
    else (if count == 0 then [calls[0]] else []) + Winning(calls[1..], (count + 1) % WRAP)
  }

  function Reports(attempts: seq<Attempt>): (r: seq<Result>)
    ensures |r| == |attempts| && forall i :: 0 <= i < |r| ==> r[i] == Report(attempts[i])
  {
    if attempts == [] then [] else [Report(attempts[0])] + Reports(attempts[1..])
  }

  /** A callback object that forwards success and error (send message, cancel, accept,
      reject, modify, get info).  Nothing is sent without a non-empty user data string. */
  class ForwardingCallback {
    const listening: bool
    const gate: TerminalCallbackGate
    var sent: seq<Result>

    constructor (listening: bool)
      ensures fresh(gate) && gate.Valid() && gate.attemptCount == 0 && sent == []
      ensures this.listening == listening
    {
      this.listening := listening;
      gate := new TerminalCallbackGate();
      sent := [];
    }

    method Attempted(a: Attempt)
      requires gate.Valid()
      modifies gate, `sent
      ensures gate.Valid() && gate.attemptCount == (old(gate.attemptCount) + 1) % WRAP
      ensures sent == if listening && old(gate.attemptCount) == 0 then old(sent) + [Report(a)] else old(sent)
    {
      var first := gate.TryComplete();
      if first { SendApiCallbackResult(Report(a)); }
    }

    method SendApiCallbackResult(r: Result)
      modifies `sent
      ensures sent == if listening then old(sent) + [r] else old(sent)
    {
      if listening { sent := sent + [r]; }
    }
  }

  function ForwardedResults(listening: bool, calls: seq<Attempt>): seq<Result> {
    if !listening then []
    else Reports(Winning(calls, 0)) + if |calls| % WRAP == 0 then [FAILURE] else []
  }

  /** A synchronous operation: the manager makes some callback attempts, then the counter
      is checked. */
  method RunForwarding(listening: bool, calls: seq<Attempt>) returns (sent: seq<Result>, code: int)
    ensures sent == ForwardedResults(listening, calls)
    ensures code == if |calls| % WRAP == 0 then ERR_SDK_INTERNAL_ERROR else 0
  {
    var callback := new ForwardingCallback(listening);
    var i := 0;
    while i < |calls|
      invariant 0 <= i <= |calls|
      invariant callback.gate.Valid() && callback.gate.attemptCount == i % WRAP
      invariant callback.listening == listening && fresh(callback) && fresh(callback.gate)
      invariant Forward(listening, [], 0, calls) == Forward(listening, callback.sent, i % WRAP, calls[i..])
    {
      assert calls[i..][0] == calls[i] && calls[i..][1..] == calls[i + 1..];
      callback.Attempted(calls[i]);
      NextCount(i);
      i := i + 1;
    }
    assert calls[i..] == [];
    ForwardIsReports(listening, [], 0, calls);
    code := 0;
    if callback.gate.attemptCount == 0 {
      callback.SendApiCallbackResult(FAILURE);
      code := ERR_SDK_INTERNAL_ERROR;
    }
    sent := callback.sent;
  }

  /** What a callback object has sent after some attempts. */
  function Forward(listening: bool, sent: seq<Result>, count: nat, calls: seq<Attempt>): seq<Result>
    decreases |calls|
  {
    if calls == [] then sent
    else
      Forward(listening, if listening && count == 0 then sent + [Report(calls[0])] else sent,
              (count + 1) % WRAP, calls[1..])
  }

  lemma {:induction false} ForwardIsReports(listening: bool, sent: seq<Result>, count: nat, calls: seq<Attempt>)
    ensures Forward(listening, sent, count, calls) ==
      if listening then sent + Reports(Winning(calls, count)) else sent
    decreases |calls|
  {
    if calls == [] {
      assert sent + [] == sent;
    } else {
      var next := (count + 1) % WRAP;
      var tail := Winning(calls[1..], next);
      if count == 0 {
        assert Winning(calls, count) == [calls[0]] + tail && ([calls[0]] + tail)[1..] == tail;
        ForwardIsReports(listening, if listening then sent + [Report(calls[0])] else sent, next, calls[1..]);
        Assoc(sent, [Report(calls[0])], Reports(tail));
      } else {
        assert [] + tail == tail;
        ForwardIsReports(listening, sent, next, calls[1..]);
      }
    }
  }

  lemma NextCount(i: nat)
    ensures (i % WRAP + 1) % WRAP == (i + 1) % WRAP
  {
  }

  /** How many of the numbers count, count + 1, ..., count + n - 1 are multiples of WRAP. */
  lemma {:induction false} WinningCount(calls: seq<Attempt>, count: nat)
    requires count < WRAP
    ensures |Winning(calls, count)| ==
      if count == 0 then (|calls| + WRAP - 1) / WRAP else (|calls| + count - 1) / WRAP
  {
    if calls != [] {
      WinningCount(calls[1..], (count + 1) % WRAP);
    }
  }

  /** The next attempt that finds the counter at zero. */
  function WinnerIndex(count: nat, k: nat): nat
    requires count < WRAP
  {
    if count == 0 then k * WRAP else k * WRAP + (WRAP - count)
  }

  /** The winners are the attempts 0, 2^32, 2 * 2^32 and so on. */
  lemma {:induction false} WinnerAt(calls: seq<Attempt>, count: nat, k: nat)
    requires count < WRAP && k < |Winning(calls, count)|
    ensures WinnerIndex(count, k) < |calls| && Winning(calls, count)[k] == calls[WinnerIndex(count, k)]
    decreases |calls|
  {
    var rest, next := calls[1..], (count + 1) % WRAP;
    WinningCons(calls, count);
    if count != 0 || k > 0 {
      var later := if count == 0 then k - 1 else k;
      WinnerAt(rest, next, later);
      WinnerIndexStep(count, k);
      assert rest[WinnerIndex(next, later)] == calls[WinnerIndex(next, later) + 1];
    }
  }

  lemma WinningCons(calls: seq<Attempt>, count: nat)
    requires calls != []
    ensures var tail := Winning(calls[1..], (count + 1) % WRAP);
      Winning(calls, count) == if count == 0 then [calls[0]] + tail else tail
  {
    assert [] + Winning(calls[1..], (count + 1) % WRAP) == Winning(calls[1..], (count + 1) % WRAP);
  }

  lemma WinnerIndexStep(count: nat, k: nat)
    requires count < WRAP && (count != 0 || k > 0)
    ensures WinnerIndex((count + 1) % WRAP, if count == 0 then k - 1 else k) + 1 == WinnerIndex(count, k)
  {
    if count == WRAP - 1 { assert (count + 1) % WRAP == 0; }
  }

  /** While the counter has not wrapped, the first attempt is the only winner. */
  lemma {:induction false} FirstWins(calls: seq<Attempt>)
    requires 0 < |calls|
    ensures Winning(calls, 0) != [] && Winning(calls, 0)[0] == calls[0]
    ensures |calls| <= WRAP ==> Winning(calls, 0) == [calls[0]]
  {
    WinningCount(calls, 0);
    assert |calls| <= WRAP ==> (|calls| + WRAP - 1) / WRAP == 1;
  }

  /** For every sequence of attempts, including none and duplicates, a forwarding operation
      sends exactly one result, unless the counter wrapped; and that result says what the
      first attempt said, or the failure when there was none.  Nobody listening, nothing
      is sent. */
  lemma ForwardingSendsOneIff(calls: seq<Attempt>)
    ensures |ForwardedResults(true, calls)| == 1 <==> |calls| < WRAP
    ensures |ForwardedResults(true, calls)| >= 1
    ensures calls == [] ==> Fails(ForwardedResults(true, calls)[0], ERR_SDK_INTERNAL_ERROR, NO_TERMINAL)
    ensures calls != [] ==> ReportsAttempt(ForwardedResults(true, calls)[0], calls[0])
    ensures ForwardedResults(false, calls) == []
  {
    WinningCount(calls, 0);
    if calls != [] { FirstWins(calls); }
    if 0 < |calls| < WRAP {
      assert Reports([calls[0]]) == [Report(calls[0])];
    }
    if |calls| == WRAP {
      assert |Winning(calls, 0)| == 1;
    } else if |calls| > WRAP {
      assert |Winning(calls, 0)| >= 2;
    }
  }

  // ---------- group invitations: success is reported by the caller ----------

  function WinningErrors(attempts: seq<Attempt>): seq<Attempt> {
    if attempts == [] then []
    else (if attempts[0].OnError? then [attempts[0]] else []) + WinningErrors(attempts[1..])
  }

  predicate AnySuccess(attempts: seq<Attempt>) {
    exists i :: 0 <= i < |attempts| && attempts[i].OnSuccess?
  }

  function DeferredResults(listening: bool, calls: seq<Attempt>, inviteId: string): seq<Result> {
    var winners := Winning(calls, 0);
    if !listening then []
    else
      Reports(WinningErrors(winners))
      + (if AnySuccess(winners) then [Result(0, "", InviteJson(inviteId))] else [])
      + (if |calls| % WRAP == 0 then [FAILURE] else [])
  }

  class InviteInGroupCallback {
    const listening: bool
    const gate: TerminalCallbackGate
    var success: bool
    var sent: seq<Result>

    constructor (listening: bool)
      ensures fresh(gate) && gate.Valid() && gate.attemptCount == 0 && sent == [] && !success
      ensures this.listening == listening
    {
      this.listening := listening;
      gate := new TerminalCallbackGate();
      success, sent := false, [];
    }

    method Attempted(a: Attempt)
      requires gate.Valid()
      modifies gate, `sent, `success
      ensures gate.Valid() && gate.attemptCount == (old(gate.attemptCount) + 1) % WRAP
      ensures success == (old(success) || (old(gate.attemptCount) == 0 && a.OnSuccess?))
      ensures sent ==
        if listening && old(gate.attemptCount) == 0 && a.OnError? then old(sent) + [Report(a)] else old(sent)
    {
      var first := gate.TryComplete();
      if first {
        if a.OnSuccess? { success := true; } else { SendApiCallbackResult(Report(a)); }
      }
    }

    method SendApiCallbackResult(r: Result)
      modifies `sent
      ensures sent == if listening then old(sent) + [r] else old(sent)
    {
      if listening { sent := sent + [r]; }
    }
  }

  method RunInviteInGroup(listening: bool, calls: seq<Attempt>, inviteId: string) returns (sent: seq<Result>)
    ensures sent == DeferredResults(listening, calls, inviteId)
  {
    var callback := new InviteInGroupCallback(listening);
    var i := 0;
    while i < |calls|
      invariant 0 <= i <= |calls|
      invariant callback.gate.Valid() && callback.gate.attemptCount == i % WRAP
      invariant callback.listening == listening && fresh(callback) && fresh(callback.gate)
      invariant Defer(listening, [], false, 0, calls)
             == Defer(listening, callback.sent, callback.success, i % WRAP, calls[i..])
    {
      assert calls[i..][0] == calls[i] && calls[i..][1..] == calls[i + 1..];
      callback.Attempted(calls[i]);
      NextCount(i);
      i := i + 1;
    }
    assert calls[i..] == [];
    DeferredIs(listening, calls, inviteId);
    if callback.success { callback.SendApiCallbackResult(Result(0, "", InviteJson(inviteId))); }
    if callback.gate.attemptCount == 0 { callback.SendApiCallbackResult(FAILURE); }
    sent := callback.sent;
  }

  /** What an invitation's callback object has sent, and whether it noted a success. */
  function Defer(listening: bool, sent: seq<Result>, success: bool, count: nat, calls: seq<Attempt>)
    : (seq<Result>, bool)
    decreases |calls|
  {
    if calls == [] then (sent, success)
    else
      Defer(listening,
            if listening && count == 0 && calls[0].OnError? then sent + [Report(calls[0])] else sent,
            success || (count == 0 && calls[0].OnSuccess?), (count + 1) % WRAP, calls[1..])
  }

  lemma {:induction false} DeferIsReports(listening: bool, sent: seq<Result>, success: bool, count: nat,
                                          calls: seq<Attempt>)
    ensures var winners := Winning(calls, count);
      Defer(listening, sent, success, count, calls) ==
        (if listening then sent + Reports(WinningErrors(winners)) else sent, success || AnySuccess(winners))
    decreases |calls|
  {
    if calls == [] {
      assert sent + [] == sent;
    } else {
      var a, next := calls[0], (count + 1) % WRAP;
      var tail := Winning(calls[1..], next);
      if count == 0 {
        OneMoreWinner(a, tail);
        assert Winning(calls, count) == [a] + tail;
        DeferIsReports(listening, if listening && a.OnError? then sent + [Report(a)] else sent,
                       success || a.OnSuccess?, next, calls[1..]);
        Assoc(sent, [Report(a)], Reports(WinningErrors(tail)));
      } else {
        assert [] + tail == tail;
        DeferIsReports(listening, sent, success, next, calls[1..]);
      }
    }
  }

  /** The results in terms of what the callback object has sent and noted. */
  lemma DeferredIs(listening: bool, calls: seq<Attempt>, inviteId: string)
    ensures var d := Defer(listening, [], false, 0, calls);
      DeferredResults(listening, calls, inviteId) == d.0
        + (if listening && d.1 then [Result(0, "", InviteJson(inviteId))] else [])
        + (if listening && |calls| % WRAP == 0 then [FAILURE] else [])
  {
    DeferIsReports(listening, [], false, 0, calls);
  }

  lemma OneMoreWinner(a: Attempt, tail: seq<Attempt>)
    ensures AnySuccess([a] + tail) <==> AnySuccess(tail) || a.OnSuccess?
    ensures Reports(WinningErrors([a] + tail)) ==
      if a.OnError? then [Report(a)] + Reports(WinningErrors(tail)) else Reports(WinningErrors(tail))
  {
    var all := [a] + tail;
    assert all[0] == a && all[1..] == tail;
    if AnySuccess(tail) {
      var i :| 0 <= i < |tail| && tail[i].OnSuccess?;
      assert all[i + 1].OnSuccess?;
    }
    var errors := WinningErrors(tail);
    if a.OnError? {
      assert WinningErrors(all) == [a] + errors && ([a] + errors)[1..] == errors;
    } else {
      assert WinningErrors(all) == [] + errors == errors;
    }
  }

  lemma {:induction false} ErrorsAndSuccesses(attempts: seq<Attempt>)
    ensures |WinningErrors(attempts)| <= |attempts|
    ensures |WinningErrors(attempts)| == |attempts| <==> !AnySuccess(attempts)
    ensures WinningErrors(attempts) == [] <==> forall i :: 0 <= i < |attempts| ==> attempts[i].OnSuccess?
  {
    if attempts != [] {
      ErrorsAndSuccesses(attempts[1..]);
      assert forall i :: 0 < i < |attempts| ==> attempts[i] == attempts[1..][i - 1];
      assert AnySuccess(attempts[1..]) ==> AnySuccess(attempts) by {
        if AnySuccess(attempts[1..]) {
          var i :| 0 <= i < |attempts[1..]| && attempts[1..][i].OnSuccess?;
          assert attempts[i + 1].OnSuccess?;
        }
      }
    }
  }

  /** A group invitation sends exactly one result for every synchronous sequence of
      attempts; past the wrap-around only when every winner was a success. */
  lemma InviteInGroupSendsOneIff(calls: seq<Attempt>, inviteId: string)
    ensures |calls| < WRAP ==> OneGroupResult(DeferredResults(true, calls, inviteId), calls, inviteId)
    ensures DeferredResults(false, calls, inviteId) == []
    ensures |DeferredResults(true, calls, inviteId)| == 1 <==>
      |calls| < WRAP || (WinningErrors(Winning(calls, 0)) == [] && |calls| % WRAP != 0)
    ensures |DeferredResults(true, calls, inviteId)| >= 1
  {
    WinnersUpToWrap(calls);
    ErrorsAndSuccesses(Winning(calls, 0));
    DeferredCount(calls, inviteId);
    SmallRemainder(|calls|);
    if |calls| < WRAP { GroupResultIs(calls, inviteId); }
  }

  /** One result: the id for a first success, even an empty one; the first error; or the
      failure. */
  ghost predicate OneGroupResult(sent: seq<Result>, calls: seq<Attempt>, inviteId: string) {
    && |sent| == 1
    && if calls == [] then Fails(sent[0], ERR_SDK_INTERNAL_ERROR, NO_TERMINAL)
       else if calls[0].OnSuccess? then ReportsId(sent[0], inviteId)
       else Fails(sent[0], calls[0].code, calls[0].message)
  }

  lemma GroupResultIs(calls: seq<Attempt>, inviteId: string)
    requires |calls| < WRAP
    ensures OneGroupResult(DeferredResults(true, calls, inviteId), calls, inviteId)
  {
    InviteJsonHasId(inviteId);
    SmallRemainder(|calls|);
    if calls != [] {
      FirstWins(calls);
      OnlyWinner(calls[0]);
    }
  }

  lemma OnlyWinner(a: Attempt)
    ensures AnySuccess([a]) <==> a.OnSuccess?
    ensures Reports(WinningErrors([a])) == if a.OnError? then [Report(a)] else []
  {
    assert [a][0] == a && [a][1..] == [];
    assert WinningErrors([]) == [];
    assert WinningErrors([a]) == if a.OnError? then [a] else [];
    if a.OnError? { assert Reports([a])[0] == Report(a); }
  }

  lemma DeferredCount(calls: seq<Attempt>, inviteId: string)
    ensures var winners := Winning(calls, 0);
      |DeferredResults(true, calls, inviteId)| == |WinningErrors(winners)|
        + (if AnySuccess(winners) then 1 else 0) + (if |calls| % WRAP == 0 then 1 else 0)
  {
  }

  lemma SmallRemainder(n: nat)
    ensures n < WRAP ==> n % WRAP == n
  {
  }

  lemma WinnersUpToWrap(calls: seq<Attempt>)
    ensures |calls| == 0 ==> |Winning(calls, 0)| == 0
    ensures 0 < |calls| <= WRAP ==> |Winning(calls, 0)| == 1
    ensures |calls| > WRAP ==> |Winning(calls, 0)| >= 2
    ensures |calls| == WRAP ==> |calls| % WRAP == 0
  {
    WinningCount(calls, 0);
  }
}
