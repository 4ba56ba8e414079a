/** The signaling manager's own `Invite` under `DartInvite`: it calls back at most once, before
    it returns, and succeeds only together with an id, so every invitation is answered. */
module SignalingInvite {
  import opened Text
  import opened JsonText
  import opened TerminalContract
  import opened InviteInterleaving

  const ERR_USER_OFFLINE: int := 10001

  /** What looking for the Tox object finds. */
  datatype ToxLookup = NoManager | NoTox | Available

  /** Everything `Invite` asks of its surroundings.  `outerStarted` and `innerStarted` say
      whether the event loop got round to the queued task, of `DartInvite` and of `Invite`,
      before the wait for it ran out; a task that has started is always waited for. */
  datatype Surroundings = Surroundings(
    outerStarted: bool, attached: bool, innerStarted: bool, friendKnown: bool,
    onlineUserOnly: bool, presence: ToxLookup, friendOnline: bool, sending: ToxLookup)

  /** The id that is returned and the callbacks made before. */
  datatype Outcome = Outcome(inviteId: string, calls: seq<Attempt>)

  /** `GenerateUniqueID` at a given time. */
  function UniqueId(time: int, counter: nat): string {
    "inv_" + Decimal(time) + "_" + Decimal(counter)
  }

  function Offline(message: string): seq<Attempt> {
    [OnError(ERR_USER_OFFLINE, message)]
  }

  function LookupError(t: ToxLookup): string
    requires t != Available
  {
    if t == NoManager then "ToxManager not initialized" else "Tox instance not available"
  }

  function Invite(w: Surroundings, uniqueId: string): Outcome {
    if !w.outerStarted then Outcome("", [])
    else if !w.attached then Outcome("", Offline("Manager not initialized"))
    else if !w.innerStarted then Outcome("", [])
    else if !w.friendKnown then Outcome("", Offline("Invitee not in friend list (GetFriendNumber failed)"))
    else if w.onlineUserOnly && w.presence != Available then Outcome("", Offline(LookupError(w.presence)))
    else if w.onlineUserOnly && !w.friendOnline then Outcome(uniqueId, Offline("User is offline"))
    else if w.sending != Available then Outcome("", Offline(LookupError(w.sending)))
    else Outcome(uniqueId, [OnSuccess("")])
  }

  /** The conditions under which the packet is sent. */
  predicate Sends(w: Surroundings) {
    && w.outerStarted && w.attached && w.innerStarted && w.friendKnown && w.sending == Available
    && (w.onlineUserOnly ==> w.presence == Available && w.friendOnline)
  }

  /** The event loop never got round to a queued task. */
  predicate NeverStarted(w: Surroundings) {
    !w.outerStarted || (w.attached && !w.innerStarted)
  }

  /** For all surroundings and every schedule in which the callbacks come before the return,
      a completed invitation sends exactly one result.  It reports the id when the packet was
      sent; otherwise it reports that the user is offline, or, when the event loop did not
      answer, the internal error. */
  lemma EveryInvitationIsAnswered(w: Surroundings, time: int, counter: nat, schedule: seq<Turn>, k: nat)
    requires EventFirst(schedule, k)
    requires var o := Invite(w, UniqueId(time, counter));
      var s := Run(Start(true, o.inviteId, o.calls), schedule[..k]); s.calls == [] && s.event == Idle
    requires var o := Invite(w, UniqueId(time, counter)); Complete(Run(Start(true, o.inviteId, o.calls), schedule))
    ensures var id := UniqueId(time, counter); var o := Invite(w, id);
      var sent := Run(Start(true, o.inviteId, o.calls), schedule).sent;
      |sent| == 1 && ReportsOutcome(sent[0], w, id)
  {
    var o := Invite(w, UniqueId(time, counter));
    SynchronousInviteSends(o.inviteId, o.calls, schedule, k);
  }

  ghost predicate ReportsOutcome(r: Result, w: Surroundings, id: string) {
    if Sends(w) then ReportsId(r, id)
    else r.data == "" && r.code == if NeverStarted(w) then ERR_SDK_INTERNAL_ERROR else ERR_USER_OFFLINE
  }
}
