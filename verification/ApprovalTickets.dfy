/** Approval tickets: an intercepted request waits as a ticket, is claimed by an approver and
    executed once, or ends rejected or cancelled.

    Each API call, task or resumed execution's final write is one atomic step, as the row locks
    and single bulk updates of the source make it. */
module ApprovalTickets {
  import opened Options
  import Roles

  type TicketId = nat
  type PolicyId = nat

  datatype Status = Pending | Approved | Rejected | Canceled | Finished | Failed

  datatype Expiry = Never | At(time: int)

  /** `policy` is absent when the policy row was deleted. */
  datatype Ticket = Ticket(fingerprint: string, status: Status, expiresAt: Expiry, policy: Option<PolicyId>)

  /** The role tables and each policy's approver roles at one moment; they may differ from step to step. */
  datatype Tables = Tables(db: Roles.Db, approverRoles: map<PolicyId, set<Roles.RoleId>>)

  function PolicyOf(tables: Tables, t: Ticket): Roles.Policy {
    if t.policy.Some? && t.policy.value in tables.approverRoles
    then Roles.Policy.Policy(tables.approverRoles[t.policy.value]) else Roles.NoPolicy
  }

  ghost predicate MayDecide(tables: Tables, user: Roles.UserId, t: Ticket) {
    Roles.Matches(tables.db, user, PolicyOf(tables, t))
  }

  /** The policy is gone or names no role, or the user is a superuser or inherits one of its roles. */
  ghost predicate Cleared(tables: Tables, user: Roles.UserId, t: Ticket) {
    || user in tables.db.superusers
    || t.policy.None? || t.policy.value !in tables.approverRoles || tables.approverRoles[t.policy.value] == {}
    || exists q :: q in tables.approverRoles[t.policy.value] && Roles.Inherits(tables.db, user, q)
  }

  lemma DecidesIffCleared(tables: Tables, user: Roles.UserId, t: Ticket)
    ensures MayDecide(tables, user, t) <==> Cleared(tables, user, t)
  {
  }

  /** Another ticket of the same non-empty fingerprint waits or executes. */
  ghost predicate Taken(tickets: map<TicketId, Ticket>, id: TicketId)
    requires id in tickets
  {
    && tickets[id].fingerprint != ""
    && exists j ::
         && j in tickets && j != id && tickets[j].fingerprint == tickets[id].fingerprint
         && (tickets[j].status == Pending || tickets[j].status == Approved)
  }

  /** Tickets other than `id` are as before, and `id` has only changed its status. */
  ghost predicate OnlyStatus(before: map<TicketId, Ticket>, after: map<TicketId, Ticket>, id: TicketId,
                             status: Status)
  {
    && after.Keys == before.Keys
    && forall j :: j in before ==> after[j] == if j == id then before[j].(status := status) else before[j]
  }

  /** How the replayed request ended: with a response, or with an exception before or after it took effect. */
  datatype Outcome = Responded(statusCode: int) | Raised(late: bool)

  predicate TookEffect(o: Outcome) {
    match o
    case Responded(statusCode) => statusCode < 400
    case Raised(late) => late
  }

  predicate Recorded(o: Outcome) {
    o.Responded? && o.statusCode < 400
  }

  /** An execution was started for `ticket` at time `at` by `user` under `tables`. */
  datatype Claim = Claim(ticket: TicketId, at: int, user: Roles.UserId, tables: Tables)

  /** `running` holds the tickets whose execution is under way; `claims` records the executions that were
      started, `successes` those recorded as successful and `effects` those that took effect. */
  datatype State = State(
    tickets: map<TicketId, Ticket>,
    running: set<TicketId>,
    clock: int,
    claims: seq<Claim>,
    successes: multiset<TicketId>,
    effects: multiset<TicketId>)

  predicate Expired(t: Ticket, now: int) {
    t.expiresAt.At? && t.expiresAt.time <= now
  }

  predicate Active(t: Ticket) {
    t.status in {Pending, Approved}
  }

  /** The request's active ticket other than `id`. */
  predicate Rival(tickets: map<TicketId, Ticket>, fingerprint: string, id: TicketId) {
    exists j :: j in tickets && j != id && tickets[j].fingerprint == fingerprint && Active(tickets[j])
  }

  predicate HasStatus(tickets: map<TicketId, Ticket>, fingerprint: string, status: Status) {
    exists j :: j in tickets && tickets[j].fingerprint == fingerprint && tickets[j].status == status
  }

  function SetStatus(tickets: map<TicketId, Ticket>, id: TicketId, status: Status): map<TicketId, Ticket>
    requires id in tickets
  {
    tickets[id := tickets[id].(status := status)]
  }

  /** The bulk update that cancels expired pending tickets, of one request or of all. */
  function CancelExpired(tickets: map<TicketId, Ticket>, only: set<string>, all: bool, now: int)
    : map<TicketId, Ticket>
  {
    map i | i in tickets ::
      if tickets[i].status == Pending && Expired(tickets[i], now) && (all || tickets[i].fingerprint in only)
      then tickets[i].(status := Canceled) else tickets[i]
  }

  datatype Step =
    | Intercept(fingerprint: string, now: int, timeout: int, policy: PolicyId)
    | Approve(id: TicketId, now: int, user: Roles.UserId, tables: Tables)
    | Resume(id: TicketId, outcome: Outcome)
    | Crash(id: TicketId, late: bool)
    | Reject(id: TicketId, user: Roles.UserId, tables: Tables)
    | ExpireAll(now: int)

  datatype Decision = BadStatus | TimedOut | WrongRole | Duplicate | Accepted

  /** The guards of `approve`, in order. */
  ghost function ApproveGuard(tickets: map<TicketId, Ticket>, id: TicketId, now: int,
                              user: Roles.UserId, tables: Tables): Decision
    requires id in tickets
  {
    var t := tickets[id];
    if t.status !in {Pending, Failed} then BadStatus
    else if Expired(t, now) then TimedOut
    else if !MayDecide(tables, user, t) then WrongRole
    else if t.fingerprint != "" && Rival(tickets, t.fingerprint, id) then Duplicate
    else Accepted
  }

  /** A request finds its pending ticket, or the approved one that makes the insert violate the
      uniqueness constraint, or gets a new ticket. */
  ghost predicate Intercepted(before: map<TicketId, Ticket>, fingerprint: string, now: int, timeout: int,
                              policy: PolicyId, after: map<TicketId, Ticket>, id: TicketId, created: bool)
  {
    var tickets := CancelExpired(before, {fingerprint}, false, now);
    if HasStatus(tickets, fingerprint, Pending) then
      !created && after == tickets && IsTicketOf(tickets, id, fingerprint, Pending)
    else if HasStatus(tickets, fingerprint, Approved) then
      !created && after == tickets && IsTicketOf(tickets, id, fingerprint, Approved)
    else
      created && id !in before && after == tickets[id := Ticket(fingerprint, Pending, At(now + timeout), Some(policy))]
  }

  lemma InterceptMeans(before: map<TicketId, Ticket>, fingerprint: string, now: int, timeout: int,
                       policy: PolicyId, after: map<TicketId, Ticket>, id: TicketId, created: bool)
    requires Intercepted(before, fingerprint, now, timeout, policy, after, id, created)
    ensures created <==> id !in before
    ensures created <==> forall j :: j in before && before[j].fingerprint == fingerprint ==>
      before[j].status != Approved && (before[j].status == Pending ==>
      before[j].expiresAt.At? && before[j].expiresAt.time <= now)
    ensures after.Keys == before.Keys + {id} && after[id].fingerprint == fingerprint
    ensures if created then after[id] == Ticket(fingerprint, Pending, At(now + timeout), Some(policy))
      else after[id].status == Approved || after[id].status == Pending
    ensures forall j :: j in before ==> after[j] == before[j].(status :=
      if before[j].fingerprint == fingerprint && before[j].status == Pending
        && before[j].expiresAt.At? && before[j].expiresAt.time <= now
      then Canceled else before[j].status)
  {
    var tickets := CancelExpired(before, {fingerprint}, false, now);
    if j :| j in before && tickets[j].fingerprint == fingerprint && tickets[j].status == Pending {
      assert HasStatus(tickets, fingerprint, Pending);
    }
    if j :| j in before && tickets[j].fingerprint == fingerprint && tickets[j].status == Approved {
      assert HasStatus(tickets, fingerprint, Approved);
    }
  }

  predicate IsTicketOf(tickets: map<TicketId, Ticket>, id: TicketId, fingerprint: string, status: Status) {
    id in tickets && tickets[id].fingerprint == fingerprint && tickets[id].status == status
  }

  ghost predicate Next(s: State, step: Step, t: State) {
    match step
    case Intercept(fp, now, timeout, policy) =>
      && fp != "" && s.clock <= now
      && (exists id, created :: Intercepted(s.tickets, fp, now, timeout, policy, t.tickets, id, created))
      && t == s.(tickets := t.tickets, clock := now)
    case Approve(id, now, user, tables) =>
      && id in s.tickets && s.clock <= now
      && (match ApproveGuard(s.tickets, id, now, user, tables)
          case TimedOut => t == s.(tickets := SetStatus(s.tickets, id, Canceled), clock := now)
          case Accepted =>
            t == s.(tickets := SetStatus(s.tickets, id, Approved), clock := now, running := s.running + {id},
                    claims := s.claims + [Claim(id, now, user, tables)])
          case _ => t == s.(clock := now))
    case Resume(id, outcome) =>
      && id in s.running && id in s.tickets
      && t == s.(tickets := SetStatus(s.tickets, id, if Recorded(outcome) then Finished else Failed),
                 running := s.running - {id},
                 successes := if Recorded(outcome) then s.successes + multiset{id} else s.successes,
                 effects := if TookEffect(outcome) then s.effects + multiset{id} else s.effects)
    case Crash(id, late) =>
      && id in s.running
      && t == s.(running := s.running - {id}, effects := if late then s.effects + multiset{id} else s.effects)
    case Reject(id, user, tables) =>
      && id in s.tickets
      && t == if s.tickets[id].status == Pending && MayDecide(tables, user, s.tickets[id])
              then s.(tickets := SetStatus(s.tickets, id, Rejected)) else s
    case ExpireAll(now) =>
      && s.clock <= now && t == s.(tickets := CancelExpired(s.tickets, {}, true, now), clock := now)
  }

  /******* The rows in place *******/

  class TicketTable {
    var tickets: map<TicketId, Ticket>
    var nextId: TicketId

    ghost predicate Valid()
      reads this
    {
      forall i :: i in tickets ==> i < nextId
    }

    constructor ()
      ensures Valid() && tickets == map[]
    {
      tickets, nextId := map[], 0;
    }

    method InterceptIfNeeded(fingerprint: string, now: int, timeout: int, policy: PolicyId)
      returns (id: TicketId, created: bool)
      requires Valid()
      modifies this
      ensures Valid() && Intercepted(old(tickets), fingerprint, now, timeout, policy, tickets, id, created)
    {
      tickets := CancelExpired(tickets, {fingerprint}, false, now);
      if HasStatus(tickets, fingerprint, Pending) {
        id :| id in tickets && IsTicketOf(tickets, id, fingerprint, Pending);
        return id, false;
      }
      if HasStatus(tickets, fingerprint, Approved) {
        id :| id in tickets && IsTicketOf(tickets, id, fingerprint, Approved);
        return id, false;
      }
      id, created := nextId, true;
      tickets := tickets[id := Ticket(fingerprint, Pending, At(now + timeout), Some(policy))];
      nextId := nextId + 1;
    }

    /** Claims the ticket for execution when every guard passes. */
    method ApproveTicket(id: TicketId, now: int, user: Roles.UserId, tables: Tables) returns (d: Decision)
      requires Valid() && id in tickets
      modifies this
      ensures Valid() && d == ApproveGuard(old(tickets), id, now, user, tables)
      ensures tickets ==
        if d == TimedOut then SetStatus(old(tickets), id, Canceled)
        else if d == Accepted then SetStatus(old(tickets), id, Approved)
        else old(tickets)
      ensures d == BadStatus <==> old(tickets[id].status) != Pending && old(tickets[id].status) != Failed
      ensures d == TimedOut <==> d != BadStatus && old(tickets[id].expiresAt.At? && tickets[id].expiresAt.time <= now)
      ensures d == WrongRole <==> d !in {BadStatus, TimedOut} && !Cleared(tables, user, old(tickets[id]))
      ensures d == Duplicate <==> d !in {BadStatus, TimedOut, WrongRole} && Taken(old(tickets), id)
      ensures OnlyStatus(old(tickets), tickets, id,
        match d case Accepted => Approved case TimedOut => Canceled case _ => old(tickets[id].status))
    {
      DecidesIffCleared(tables, user, tickets[id]);
      if tickets[id].status !in {Pending, Failed} {
        return BadStatus;
      }
      if Expired(tickets[id], now) {
        tickets := SetStatus(tickets, id, Canceled);
        return TimedOut;
      }
      var matches := Roles.UserMatchesApproverRoles(tables.db, user, PolicyOf(tables, tickets[id]));
      if !matches {
        return WrongRole;
      }
      if tickets[id].fingerprint != "" && Rival(tickets, tickets[id].fingerprint, id) {
        return Duplicate;
      }
      tickets := SetStatus(tickets, id, Approved);
      return Accepted;
    }

    /** The resumer's final write, after a response or in the handler of an exception. */
    method FinishExecution(id: TicketId, outcome: Outcome)
      requires Valid() && id in tickets
      modifies this
      ensures Valid() && tickets == SetStatus(old(tickets), id, if Recorded(outcome) then Finished else Failed)
      ensures OnlyStatus(old(tickets), tickets, id,
        if outcome.Responded? && outcome.statusCode < 400 then Finished else Failed)
    {
      var ticket := tickets[id];
      match outcome {
        case Responded(statusCode) =>
          if statusCode >= 400 {
            ticket := ticket.(status := Failed);
          } else {
            ticket := ticket.(status := Finished);
          }
        case Raised(_) =>
          ticket := ticket.(status := Failed);
      }
      tickets := tickets[id := ticket];
    }

    method RejectTicket(id: TicketId, user: Roles.UserId, tables: Tables) returns (accepted: bool)
      requires Valid() && id in tickets
      modifies this
      ensures Valid()
      ensures accepted <==> old(tickets[id]).status == Pending && MayDecide(tables, user, old(tickets[id]))
      ensures tickets == if accepted then SetStatus(old(tickets), id, Rejected) else old(tickets)
      ensures accepted <==> old(tickets[id].status) == Pending && Cleared(tables, user, old(tickets[id]))
      ensures OnlyStatus(old(tickets), tickets, id, if accepted then Rejected else old(tickets[id].status))
    {
      DecidesIffCleared(tables, user, tickets[id]);
      if tickets[id].status != Pending {
        return false;
      }
      var matches := Roles.UserMatchesApproverRoles(tables.db, user, PolicyOf(tables, tickets[id]));
      if !matches {
        return false;
      }
      tickets := SetStatus(tickets, id, Rejected);
      return true;
    }

    /** One bulk update: afterwards nothing pending has expired, and only such tickets changed. */
    method ExpireApprovalTickets(now: int)
      requires Valid()
      modifies this
      ensures Valid() && tickets == CancelExpired(old(tickets), {}, true, now)
      ensures forall i :: i in tickets && tickets[i].status == Pending ==> !Expired(tickets[i], now)
      ensures tickets.Keys == old(tickets).Keys
      ensures forall j :: j in tickets ==> tickets[j] == old(tickets)[j].(status :=
        if old(tickets)[j].status == Pending && old(tickets)[j].expiresAt.At? && old(tickets)[j].expiresAt.time <= now
        then Canceled else old(tickets)[j].status)
    {
      tickets := CancelExpired(tickets, {}, true, now);
    }
  }

  /******* Invariants *******/

  /** At most one pending or approved ticket per non-empty fingerprint. */
  ghost predicate UniqueActive(tickets: map<TicketId, Ticket>) {
    forall i, j :: i in tickets && j in tickets && i != j && Active(tickets[i]) && Active(tickets[j]) ==>
      tickets[i].fingerprint == "" || tickets[i].fingerprint != tickets[j].fingerprint
  }

  ghost predicate RunnersApproved(tickets: map<TicketId, Ticket>, running: set<TicketId>) {
    forall i :: i in running ==> i in tickets && tickets[i].status == Approved
  }

  ghost predicate SuccessesMatch(tickets: map<TicketId, Ticket>, successes: multiset<TicketId>) {
    forall i :: successes[i] == if i in tickets && tickets[i].status == Finished then 1 else 0
  }

  ghost predicate ClaimFits(tickets: map<TicketId, Ticket>, clock: int, c: Claim) {
    c.at <= clock && c.ticket in tickets && !Expired(tickets[c.ticket], c.at) &&
    MayDecide(c.tables, c.user, tickets[c.ticket])
  }

  ghost predicate Inv(s: State) {
    && UniqueActive(s.tickets)
    && RunnersApproved(s.tickets, s.running)
    && SuccessesMatch(s.tickets, s.successes)
    && forall c :: c in s.claims ==> ClaimFits(s.tickets, s.clock, c)
  }

  /** The tickets of `before` are still there and ask for the same. */
  ghost predicate SameRequests(before: map<TicketId, Ticket>, after: map<TicketId, Ticket>) {
    forall i :: i in before ==>
      i in after && after[i] == before[i].(status := after[i].status)
  }

  lemma ClaimsStay(s: State, t: State)
    requires Inv(s) && SameRequests(s.tickets, t.tickets) && s.clock <= t.clock
    ensures forall c :: c in s.claims ==> ClaimFits(t.tickets, t.clock, c)
  {
    forall c | c in s.claims ensures ClaimFits(t.tickets, t.clock, c) { assert ClaimFits(s.tickets, s.clock, c); }
  }

  lemma CancelKeepsInv(s: State, only: set<string>, all: bool, now: int)
    requires Inv(s) && s.clock <= now
    ensures Inv(s.(tickets := CancelExpired(s.tickets, only, all, now), clock := now))
  {
    var t := s.(tickets := CancelExpired(s.tickets, only, all, now), clock := now);
    ClaimsStay(s, t);
    assert forall i :: i in t.tickets ==> (Active(t.tickets[i]) ==> Active(s.tickets[i]));
  }

  lemma InsertInv(s: State, id: TicketId, ticket: Ticket)
    requires Inv(s) && id !in s.tickets && ticket.status == Pending
    requires !HasStatus(s.tickets, ticket.fingerprint, Pending) && !HasStatus(s.tickets, ticket.fingerprint, Approved)
    ensures Inv(s.(tickets := s.tickets[id := ticket]))
  {
    ClaimsStay(s, s.(tickets := s.tickets[id := ticket]));
  }

  lemma SettledUnique(tickets: map<TicketId, Ticket>, id: TicketId, status: Status)
    requires UniqueActive(tickets) && id in tickets && status !in {Pending, Approved}
    ensures UniqueActive(SetStatus(tickets, id, status))
  {
  }

  /** A ticket that was neither finished nor running takes a status that is not `Finished`. */
  lemma MoveInv(s: State, id: TicketId, status: Status)
    requires Inv(s) && id in s.tickets && id !in s.running && s.tickets[id].status != Finished && status != Finished
    requires status in {Pending, Approved} ==>
      s.tickets[id].fingerprint != "" ==> !Rival(s.tickets, s.tickets[id].fingerprint, id)
    ensures Inv(s.(tickets := SetStatus(s.tickets, id, status)))
  {
    ClaimsStay(s, s.(tickets := SetStatus(s.tickets, id, status)));
  }

  lemma ClaimInv(s: State, c: Claim)
    requires Inv(s) && s.clock <= c.at && c.ticket in s.tickets && s.tickets[c.ticket].status == Approved
    requires !Expired(s.tickets[c.ticket], c.at) && MayDecide(c.tables, c.user, s.tickets[c.ticket])
    ensures Inv(s.(clock := c.at, running := s.running + {c.ticket}, claims := s.claims + [c]))
  {
    ClaimsStay(s, s.(clock := c.at));
  }

  lemma ResumeInv(s: State, id: TicketId, ok: bool, effects: multiset<TicketId>)
    requires Inv(s) && id in s.running
    ensures Inv(s.(tickets := SetStatus(s.tickets, id, if ok then Finished else Failed), running := s.running - {id},
                   successes := if ok then s.successes + multiset{id} else s.successes, effects := effects))
  {
    var after := SetStatus(s.tickets, id, if ok then Finished else Failed);
    SettledUnique(s.tickets, id, if ok then Finished else Failed);
    ClaimsStay(s, s.(tickets := after));
    assert RunnersApproved(after, s.running - {id});
    assert SuccessesMatch(after, if ok then s.successes + multiset{id} else s.successes);
  }

  lemma ApproveInv(s: State, step: Step, t: State)
    requires Inv(s) && step.Approve? && Next(s, step, t)
    ensures Inv(t)
  {
    var id := step.id;
    match ApproveGuard(s.tickets, id, step.now, step.user, step.tables) {
      case TimedOut =>
        MoveInv(s, id, Canceled);
        ClaimsStay(s, t);
      case Accepted =>
        MoveInv(s, id, Approved);
        ClaimInv(s.(tickets := SetStatus(s.tickets, id, Approved)), Claim(id, step.now, step.user, step.tables));
      case _ =>
        ClaimsStay(s, t);
    }
  }

  lemma InterceptInv(s: State, step: Step, t: State)
    requires Inv(s) && step.Intercept? && Next(s, step, t)
    ensures Inv(t)
  {
    CancelKeepsInv(s, {step.fingerprint}, false, step.now);
    var c, id, ticket, created := InterceptShape(s, step, t);
    if created { InsertInv(c, id, ticket); }
  }

  /** Interception cancels the request's expired tickets, and then adds a new one or none. */
  lemma InterceptShape(s: State, step: Step, t: State) returns (c: State, id: TicketId, ticket: Ticket, created: bool)
    requires step.Intercept? && Next(s, step, t)
    ensures c == s.(tickets := CancelExpired(s.tickets, {step.fingerprint}, false, step.now), clock := step.now)
    ensures s.clock <= step.now && ticket.status == Pending
    ensures created ==>
      id !in c.tickets && t == c.(tickets := c.tickets[id := ticket]) &&
      !HasStatus(c.tickets, ticket.fingerprint, Pending) && !HasStatus(c.tickets, ticket.fingerprint, Approved)
    ensures !created ==> t == c
  {
    c := s.(tickets := CancelExpired(s.tickets, {step.fingerprint}, false, step.now), clock := step.now);
    ticket := Ticket(step.fingerprint, Pending, At(step.now + step.timeout), Some(step.policy));
    id, created :|
      Intercepted(s.tickets, step.fingerprint, step.now, step.timeout, step.policy, t.tickets, id, created);
  }

  lemma StepInv(s: State, step: Step, t: State)
    requires Inv(s) && Next(s, step, t)
    ensures Inv(t)
  {
    match step
    case Intercept(_, _, _, _) => InterceptInv(s, step, t);
    case ExpireAll(now) => CancelKeepsInv(s, {}, true, now);
    case Approve(_, _, _, _) => ApproveInv(s, step, t);
    case Resume(id, outcome) => ResumeInv(s, id, Recorded(outcome), t.effects);
    case Crash(id, _) =>
    case Reject(id, _, _) => if t != s { MoveInv(s, id, Rejected); }
  }

  /******* Runs *******/

  ghost predicate Runs(s: State, steps: seq<Step>, t: State)
    decreases |steps|
  {
    if steps == [] then s == t
    else exists m :: Next(s, steps[0], m) && Runs(m, steps[1..], t)
  }

  lemma {:induction false} RunsInv(s: State, steps: seq<Step>, t: State)
    requires Inv(s) && Runs(s, steps, t)
    ensures Inv(t)
    decreases |steps|
  {
    if steps == [] {
    } else {
      var m :| Next(s, steps[0], m) && Runs(m, steps[1..], t);
      StepInv(s, steps[0], m);
      RunsInv(m, steps[1..], t);
    }
  }

  ghost predicate Start(s: State) {
    UniqueActive(s.tickets) && s.running == {} && s.claims == [] && s.successes == s.effects == multiset{} &&
    forall i :: i in s.tickets ==> s.tickets[i].status != Finished
  }

  /** Over every run: one active ticket per request, no execution that was started by somebody the policy
      does not allow at that time or for a ticket that had expired by then, and at most one execution
      per ticket that is recorded as successful, retries included. */
  lemma TicketSafety(s: State, steps: seq<Step>, t: State)
    requires Start(s) && Runs(s, steps, t)
    ensures UniqueActive(t.tickets)
    ensures forall c :: c in t.claims ==>
      && c.ticket in t.tickets && Cleared(c.tables, c.user, t.tickets[c.ticket])
      && (t.tickets[c.ticket].expiresAt.At? ==> c.at < t.tickets[c.ticket].expiresAt.time)
    ensures forall i :: t.successes[i] <= 1
    ensures forall i :: t.successes[i] == 1 <==> i in t.tickets && t.tickets[i].status == Finished
  {
    RunsInv(s, steps, t);
    forall c | c in t.claims ensures c.ticket in t.tickets && Cleared(c.tables, c.user, t.tickets[c.ticket]) {
      DecidesIffCleared(c.tables, c.user, t.tickets[c.ticket]);
    }
  }

  /** The same for a policy that names roles: whoever started the execution is a superuser or inherits one. */
  lemma ClaimsCleared(s: State, steps: seq<Step>, t: State, c: Claim, p: PolicyId)
    requires Start(s) && Runs(s, steps, t) && c in t.claims
    ensures c.ticket in t.tickets
    ensures t.tickets[c.ticket].policy == Some(p) && p in c.tables.approverRoles && c.tables.approverRoles[p] != {} ==>
      c.user in c.tables.db.superusers ||
      exists q :: q in c.tables.approverRoles[p] && Roles.Inherits(c.tables.db, c.user, q)
  {
    TicketSafety(s, steps, t);
    assert Cleared(c.tables, c.user, t.tickets[c.ticket]);
  }

  /******* Executions that took effect *******/

  /** An execution took effect, but an exception afterwards records it as failed. */
  predicate LosesEffect(step: Step) {
    step.Resume? && TookEffect(step.outcome) && !Recorded(step.outcome)
  }

  /** A ticket whose execution took effect is finished, or approved without a resumer. */
  ghost predicate EffectsOnce(s: State) {
    forall i :: s.effects[i] <= 1 && (s.effects[i] == 1 ==>
      i in s.tickets && (s.tickets[i].status == Finished || (s.tickets[i].status == Approved && i !in s.running)))
  }

  lemma EffectsStep(s: State, step: Step, t: State)
    requires Inv(s) && EffectsOnce(s) && Next(s, step, t) && !LosesEffect(step)
    ensures EffectsOnce(t)
  {
    forall i | t.effects[i] > 0
      ensures t.effects[i] == 1 && i in t.tickets
      ensures t.tickets[i].status == Finished || (t.tickets[i].status == Approved && i !in t.running)
    {
      if s.effects[i] > 0 { StepKeeps(s, step, t, i); }
    }
  }

  /** As long as no effect is lost, each ticket's request takes effect at most once, retries included. */
  lemma {:induction false} AtMostOneEffect(s: State, steps: seq<Step>, t: State)
    requires Inv(s) && EffectsOnce(s) && Runs(s, steps, t) && forall k :: 0 <= k < |steps| ==> !LosesEffect(steps[k])
    ensures EffectsOnce(t)
    decreases |steps|
  {
    if steps == [] {
    } else {
      var m :| Next(s, steps[0], m) && Runs(m, steps[1..], t);
      EffectsStep(s, steps[0], m);
      StepInv(s, steps[0], m);
      AtMostOneEffect(m, steps[1..], t);
    }
  }

  /** The same request's approved ticket without a resumer, which nothing moves any more. */
  ghost predicate Blocked(s: State, i: TicketId)
    requires i in s.tickets
  {
    s.tickets[i].fingerprint != "" &&
    exists j :: j != i && Orphan(s, j) && s.tickets[j].fingerprint == s.tickets[i].fingerprint
  }

  ghost predicate Orphan(s: State, j: TicketId) {
    j in s.tickets && s.tickets[j].status == Approved && j !in s.running
  }

  /** The ticket is executing, or it is pending or failed, has not expired, and is not blocked. */
  ghost predicate Open(s: State, i: TicketId)
    requires i in s.tickets
  {
    i in s.running ||
    (s.tickets[i].status in {Pending, Failed} && !Expired(s.tickets[i], s.clock) && !Blocked(s, i))
  }

  lemma BlockedStays(s: State, step: Step, t: State, i: TicketId)
    requires Inv(s) && Next(s, step, t) && i in s.tickets && i in t.tickets && Blocked(s, i)
    requires t.tickets[i].fingerprint == s.tickets[i].fingerprint
    ensures Blocked(t, i)
  {
    var j :| j != i && Orphan(s, j) && s.tickets[j].fingerprint == s.tickets[i].fingerprint;
    StepKeeps(s, step, t, j);
    assert Orphan(t, j);
  }

  lemma SameTicket(s: State, step: Step, t: State, i: TicketId)
    requires Inv(s) && Next(s, step, t) && i in s.tickets
    ensures i in t.tickets && t.tickets[i].fingerprint == s.tickets[i].fingerprint
    ensures t.tickets[i].expiresAt == s.tickets[i].expiresAt && s.clock <= t.clock
    ensures t.tickets[i].status in {Pending, Failed} && i !in s.running ==> s.tickets[i].status == t.tickets[i].status
  {
  }

  lemma ClosedStep(s: State, step: Step, t: State, i: TicketId)
    requires Inv(s) && Next(s, step, t) && i in s.tickets && !Open(s, i)
    ensures i in t.tickets && !Open(t, i) && t.effects[i] == s.effects[i]
  {
    SameTicket(s, step, t, i);
    if Blocked(s, i) { BlockedStays(s, step, t, i); }
    if step.Approve? && step.id == i && Blocked(s, i) {
      var j :| j != i && Orphan(s, j) && s.tickets[j].fingerprint == s.tickets[i].fingerprint;
      assert Rival(s.tickets, s.tickets[i].fingerprint, i);
    }
  }

  lemma {:induction false} ClosedForever(s: State, steps: seq<Step>, t: State, i: TicketId)
    requires Inv(s) && Runs(s, steps, t) && i in s.tickets && !Open(s, i)
    ensures t.effects[i] == s.effects[i]
    decreases |steps|
  {
    if steps == [] {
    } else {
      var m :| Next(s, steps[0], m) && Runs(m, steps[1..], t);
      ClosedStep(s, steps[0], m, i);
      StepInv(s, steps[0], m);
      ClosedForever(m, steps[1..], t, i);
    }
  }

  /** Tables under which user 0 may decide anything. */
  const OPEN_TABLES: Tables := Tables(Roles.Db({}, {}, {}, map[], {}, {0}, {0}), map[])

  /** Whatever the ticket's request did before, it can take effect once more exactly while the ticket is
      open. So a lost effect can be repeated until its ticket expires or is blocked. */
  lemma {:induction false} RunsAgain(s: State, i: TicketId)
    requires Inv(s) && i in s.tickets
    ensures (exists steps, t :: Runs(s, steps, t) && t.effects[i] > s.effects[i]) <==> Open(s, i)
  {
    if Open(s, i) {
      var steps, t := RunOnce(s, i);
      assert Runs(s, steps, t) && t.effects[i] > s.effects[i];
    } else {
      forall steps, t | Runs(s, steps, t) ensures t.effects[i] == s.effects[i] { ClosedForever(s, steps, t, i); }
    }
  }

  lemma RunOnce(s: State, i: TicketId) returns (steps: seq<Step>, t: State)
    requires Inv(s) && i in s.tickets && Open(s, i)
    ensures Runs(s, steps, t) && t.effects[i] > s.effects[i]
  {
    if i in s.running {
      steps, t := FinishIt(s, i);
    } else if s.tickets[i].fingerprint != "" && Rival(s.tickets, s.tickets[i].fingerprint, i) {
      var step, m := RemoveRival(s, i);
      var rest;
      rest, t := ApproveIt(m, i);
      steps := [step] + rest;
      assert steps[1..] == rest;
    } else {
      steps, t := ApproveIt(s, i);
    }
  }

  lemma FinishIt(s: State, i: TicketId) returns (steps: seq<Step>, t: State)
    requires i in s.running && i in s.tickets
    ensures Runs(s, steps, t) && t.effects[i] > s.effects[i]
  {
    var step := Resume(i, Responded(200));
    t := s.(tickets := SetStatus(s.tickets, i, Finished), running := s.running - {i},
            successes := s.successes + multiset{i}, effects := s.effects + multiset{i});
    steps := [step];
    assert Next(s, step, t) && Runs(t, steps[1..], t);
  }

  lemma ApproveIt(s: State, i: TicketId) returns (steps: seq<Step>, t: State)
    requires i in s.tickets && s.tickets[i].status in {Pending, Failed} && !Expired(s.tickets[i], s.clock)
    requires s.tickets[i].fingerprint == "" || !Rival(s.tickets, s.tickets[i].fingerprint, i)
    ensures Runs(s, steps, t) && t.effects[i] > s.effects[i]
  {
    var step := Approve(i, s.clock, 0, OPEN_TABLES);
    var m := s.(tickets := SetStatus(s.tickets, i, Approved), running := s.running + {i},
                claims := s.claims + [Claim(i, s.clock, 0, OPEN_TABLES)]);
    assert ApproveGuard(s.tickets, i, s.clock, 0, OPEN_TABLES) == Accepted;
    var rest;
    rest, t := FinishIt(m, i);
    steps := [step] + rest;
    assert Next(s, step, m) && Runs(m, steps[1..], t) by { assert steps[1..] == rest; }
  }

  /** No tickets yet. */
  const EMPTY: State := State(map[], {}, 0, [], multiset{}, multiset{})

  const REQUEST: Ticket := Ticket("f", Pending, At(10), Some(0))

  /** One request, waiting and then executing. */
  const WAITING: State := EMPTY.(tickets := map[0 := REQUEST])
  const EXECUTING: State :=
    State(map[0 := REQUEST.(status := Approved)], {0}, 0, [Claim(0, 0, 0, OPEN_TABLES)], multiset{}, multiset{})

  const REQUESTING: seq<Step> := [Intercept("f", 0, 10, 0), Approve(0, 0, 0, OPEN_TABLES)]

  lemma StepThen(s: State, step: Step, m: State, rest: seq<Step>, t: State)
    requires Next(s, step, m) && Runs(m, rest, t)
    ensures Runs(s, [step] + rest, t)
  {
    assert ([step] + rest)[1..] == rest;
  }

  /** Whatever follows an executing request can happen from the empty table. */
  lemma RequestThen(rest: seq<Step>, t: State)
    requires Runs(EXECUTING, rest, t)
    ensures Start(EMPTY) && Runs(EMPTY, REQUESTING + rest, t)
  {
    assert Intercepted(EMPTY.tickets, "f", 0, 10, 0, WAITING.tickets, 0, true);
    assert ApproveGuard(WAITING.tickets, 0, 0, 0, OPEN_TABLES) == Accepted;
    StepThen(WAITING, REQUESTING[1], EXECUTING, rest, t);
    StepThen(EMPTY, REQUESTING[0], WAITING, [REQUESTING[1]] + rest, t);
    assert [REQUESTING[0]] + ([REQUESTING[1]] + rest) == REQUESTING + rest;
  }

  /** From an empty table: the request takes effect, an exception records a failure, it is approved again
      and takes effect a second time. */
  lemma EffectTwice() returns (steps: seq<Step>, t: State)
    ensures Start(EMPTY) && Runs(EMPTY, steps, t) && t.effects[0] > 1
  {
    var lost := Resume(0, Raised(true));
    var failed := EXECUTING.(tickets := SetStatus(EXECUTING.tickets, 0, Failed), running := {}, effects := multiset{0});
    var again;
    again, t := ApproveIt(failed, 0);
    StepThen(EXECUTING, lost, failed, again, t);
    RequestThen([lost] + again, t);
    steps := REQUESTING + ([lost] + again);
  }

  /** From an empty table: the resumer of an approved request dies. */
  lemma OrphanReached() returns (steps: seq<Step>, t: State)
    ensures Start(EMPTY) && Runs(EMPTY, steps, t) && Orphan(t, 0)
  {
    t := EXECUTING.(running := {});
    StepThen(EXECUTING, Crash(0, false), t, [], t);
    RequestThen([Crash(0, false)] + [], t);
    steps := REQUESTING + ([Crash(0, false)] + []);
  }

  /** A rival is pending and can be rejected, or executing and can fail. */
  lemma RemoveRival(s: State, i: TicketId) returns (step: Step, m: State)
    requires Inv(s) && i in s.tickets && i !in s.running && Open(s, i)
    requires s.tickets[i].fingerprint != "" && Rival(s.tickets, s.tickets[i].fingerprint, i)
    ensures Next(s, step, m) && m.effects == s.effects && m.clock == s.clock
    ensures i in m.tickets && m.tickets[i] == s.tickets[i]
    ensures !Rival(m.tickets, m.tickets[i].fingerprint, i)
  {
    var j :| j in s.tickets && j != i && s.tickets[j].fingerprint == s.tickets[i].fingerprint && Active(s.tickets[j]);
    if s.tickets[j].status == Pending {
      step, m := Reject(j, 0, OPEN_TABLES), s.(tickets := SetStatus(s.tickets, j, Rejected));
    } else {
      assert !Orphan(s, j);
      step := Resume(j, Responded(500));
      m := s.(tickets := SetStatus(s.tickets, j, Failed), running := s.running - {j});
    }
  }

  /******* What is final *******/

  lemma StepKeeps(s: State, step: Step, t: State, i: TicketId)
    requires Inv(s) && Next(s, step, t) && i in s.tickets
    requires s.tickets[i].status in {Finished, Rejected, Canceled} ||
      (s.tickets[i].status == Approved && !(step.Resume? && step.id == i))
    ensures i in t.tickets && t.tickets[i] == s.tickets[i]
  {
  }

  /** Only its resumer changes an approved ticket, whatever else the run does. */
  lemma {:induction false} ApprovedUntilResumed(s: State, steps: seq<Step>, t: State, i: TicketId)
    requires Inv(s) && Runs(s, steps, t) && i in s.tickets && s.tickets[i].status == Approved
    requires forall k :: 0 <= k < |steps| ==> !(steps[k].Resume? && steps[k].id == i)
    ensures i in t.tickets && t.tickets[i] == s.tickets[i]
    decreases |steps|
  {
    if steps == [] {
    } else {
      var m :| Next(s, steps[0], m) && Runs(m, steps[1..], t);
      StepInv(s, steps[0], m);
      StepKeeps(s, steps[0], m, i);
      ApprovedUntilResumed(m, steps[1..], t, i);
    }
  }

  /** Finished, rejected and canceled are final. */
  lemma {:induction false} SettledForever(s: State, steps: seq<Step>, t: State, i: TicketId)
    requires Inv(s) && Runs(s, steps, t) && i in s.tickets && s.tickets[i].status in {Finished, Rejected, Canceled}
    ensures i in t.tickets && t.tickets[i] == s.tickets[i]
    decreases |steps|
  {
    if steps == [] {
    } else {
      var m :| Next(s, steps[0], m) && Runs(m, steps[1..], t);
      StepInv(s, steps[0], m);
      StepKeeps(s, steps[0], m, i);
      SettledForever(m, steps[1..], t, i);
    }
  }

  /** Once a ticket has expired, no later approval starts its execution. */
  lemma {:induction false} ExpiredNeverClaimed(s: State, steps: seq<Step>, t: State, i: TicketId)
    requires Inv(s) && Runs(s, steps, t) && i in s.tickets && Expired(s.tickets[i], s.clock)
    ensures s.claims <= t.claims && forall k :: |s.claims| <= k < |t.claims| ==> t.claims[k].ticket != i
    decreases |steps|
  {
    if steps == [] {
    } else {
      var m :| Next(s, steps[0], m) && Runs(m, steps[1..], t);
      StepInv(s, steps[0], m);
      StillExpired(s, steps[0], m, i);
      ExpiredNeverClaimed(m, steps[1..], t, i);
    }
  }

  lemma StillExpired(s: State, step: Step, t: State, i: TicketId)
    requires Inv(s) && Next(s, step, t) && i in s.tickets && Expired(s.tickets[i], s.clock)
    ensures i in t.tickets && Expired(t.tickets[i], t.clock)
    ensures t.claims == s.claims ||
      (|t.claims| == |s.claims| + 1 && s.claims <= t.claims && t.claims[|s.claims|].ticket != i)
  {
  }

  /** The expiry task is final: afterwards nothing pending has expired, and what it cancelled stays
      cancelled and is never executed again; everything else is as before. */
  lemma {:induction false} SweepIsFinal(s: State, now: int, m: State, steps: seq<Step>, t: State, i: TicketId)
    requires Inv(s) && Next(s, ExpireAll(now), m) && Runs(m, steps, t) && i in s.tickets
    ensures i in m.tickets && !(m.tickets[i].status == Pending && Expired(m.tickets[i], now))
    ensures if s.tickets[i].status == Pending && Expired(s.tickets[i], now)
      then i in t.tickets && t.tickets[i].status == Canceled && m.claims <= t.claims &&
           forall k :: |m.claims| <= k < |t.claims| ==> t.claims[k].ticket != i
      else m.tickets[i] == s.tickets[i]
  {
    StepInv(s, ExpireAll(now), m);
    if s.tickets[i].status == Pending && Expired(s.tickets[i], now) {
      SettledForever(m, steps, t, i);
      ExpiredNeverClaimed(m, steps, t, i);
    }
  }

  /** An approved ticket whose resumer died is stuck: it stays approved for good, and every later
      identical request is answered with it instead of a new ticket. */
  lemma {:induction false} OrphanForever(s: State, steps: seq<Step>, t: State, i: TicketId)
    requires Inv(s) && Runs(s, steps, t) && Orphan(s, i)
    ensures Orphan(t, i) && t.tickets[i] == s.tickets[i]
    ensures s.tickets[i].fingerprint != "" ==> forall now, timeout, policy, after, id, created ::
      Intercepted(t.tickets, s.tickets[i].fingerprint, now, timeout, policy, after, id, created) ==> !created && id == i
    decreases |steps|
  {
    if steps == [] {
      forall now, timeout, policy, after, id, created | s.tickets[i].fingerprint != "" &&
        Intercepted(t.tickets, s.tickets[i].fingerprint, now, timeout, policy, after, id, created)
        ensures !created && id == i
      {
        var tickets := CancelExpired(t.tickets, {s.tickets[i].fingerprint}, false, now);
        assert tickets[i] == t.tickets[i];
        assert Active(tickets[id]) ==> Active(t.tickets[id]);
      }
    } else {
      var m :| Next(s, steps[0], m) && Runs(m, steps[1..], t);
      StepInv(s, steps[0], m);
      StepKeeps(s, steps[0], m, i);
      OrphanForever(m, steps[1..], t, i);
    }
  }

  /** So an approved ticket can ever leave that status exactly while its resumer lives. */
  lemma {:induction false} ApprovedMoves(s: State, i: TicketId)
    requires Inv(s) && i in s.tickets && s.tickets[i].status == Approved
    ensures (exists steps, t :: Runs(s, steps, t) && !(i in t.tickets && t.tickets[i].status == Approved)) <==>
      i in s.running
  {
    if i in s.running {
      var t := s.(tickets := SetStatus(s.tickets, i, Failed), running := s.running - {i});
      StepThen(s, Resume(i, Raised(false)), t, [], t);
      assert t.tickets[i].status == Failed && Runs(s, [Resume(i, Raised(false))] + [], t);
    } else {
      forall steps, t | Runs(s, steps, t) ensures i in t.tickets && t.tickets[i].status == Approved {
        OrphanForever(s, steps, t, i);
      }
    }
  }

  /** The approve guard alone protects uniqueness there, but not on insert: beside an approved ticket
      a new pending one would be a second active ticket, which only the constraint stops. */
  lemma InsertNeedsConstraint(tickets: map<TicketId, Ticket>, id: TicketId, ticket: Ticket)
    requires UniqueActive(tickets) && ticket.status == Pending && ticket.fingerprint != "" && id !in tickets
    requires !HasStatus(tickets, ticket.fingerprint, Pending)
    ensures UniqueActive(tickets[id := ticket]) <==> !HasStatus(tickets, ticket.fingerprint, Approved)
  {
    var after := tickets[id := ticket];
    if j :| j in tickets && tickets[j].fingerprint == ticket.fingerprint && tickets[j].status == Approved {
      assert Active(after[j]) && Active(after[id]);
    }
  }
}
