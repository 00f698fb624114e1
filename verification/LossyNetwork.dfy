/**
 * One client call against the user store through a network that loses requests and
 * answers, while other clients' operations run in between: what the call can do to
 * the store under every schedule.
 */
module LossyNetwork {
  import opened Wrappers
  import opened OrderedDict
  import opened PartialUpdate
  import opened UserModel
  import opened UserDirectory
  import opened UserHistory
  import opened UserSteps
  import RC = RetryClient

  type ServerError = s: nat | s >= 500 witness 503

  /** What the client sees when the store's answer does not reach it. */
  datatype Failure = Timeout | Broken | Gateway(status: ServerError)

  /** A lost request is not executed while the client waits for it; it may still be executed later. */
  datatype Fate = RequestLost(seen: Failure) | AnswerLost(seen: Failure) | Delivered

  /** What the store runs next to the attempts: another client's operation, or a lost request of ours that arrives late. */
  datatype Event = Other(op: Op) | Late(uuid: string, now: int)

  /** One attempt: what happens first, what the store would read for it, and what becomes of it. */
  datatype Turn = Turn(before: seq<Event>, uuid: string, now: int, fate: Fate)

  /** The operations of the store, marked by whose they are. */
  datatype Happening = Theirs(op: Op) | Ours(op: Op)

  function Instance(request: Request, uuid: string, now: int): Op {
    match request
    case CreateUser(payload) => Create(payload, uuid, now)
    case UpdateUser(id, patch) => Patch(id, patch, now)
    case DeleteUser(id) => Delete(id)
    case GetUser(id) => Get(id)
    case GetUserByUsername(name) => ByUsername(name)
    case ListUsers => List
  }

  function MethodOf(request: Request): RC.Method {
    match request
    case CreateUser(_) => RC.POST
    case UpdateUser(_, _) => RC.PATCH
    case DeleteUser(_) => RC.DELETE
    case _ => RC.GET
  }

  function ModelOf(request: Request): RC.Model {
    if request.DeleteUser? then RC.NoContent else RC.Required
  }

  function Happens(request: Request, events: seq<Event>): seq<Happening> {
    seq(|events|, i requires 0 <= i < |events| =>
      match events[i]
      case Other(op) => Theirs(op)
      case Late(uuid, now) => Ours(Instance(request, uuid, now)))
  }

  /** The events happen one by one: others' operations as they are, a late request as a run of this call's request. */
  lemma EventsHappenInOrder(request: Request, events: seq<Event>)
    ensures |Happens(request, events)| == |events|
    ensures forall i :: 0 <= i < |events| ==>
              match events[i]
              case Other(op) => Happens(request, events)[i] == Theirs(op)
              case Late(uuid, now) =>
                var h := Happens(request, events)[i];
                && h.Ours? && RequestOf(h.op) == request
                && (h.op.Create? ==> h.op.uuid == uuid && h.op.now == now) && (h.op.Patch? ==> h.op.now == now)
  {
  }

  function OpsOf(trace: seq<Happening>): seq<Op> {
    seq(|trace|, i requires 0 <= i < |trace| => trace[i].op)
  }

  /** The attempt itself, if the store executes it while the client waits. */
  function OwnPart(request: Request, turn: Turn): seq<Happening> {
    if turn.fate.RequestLost? then [] else [Ours(Instance(request, turn.uuid, turn.now))]
  }

  /** Everything the store runs up to the end of attempt `n`. */
  function Trace(request: Request, turns: nat -> Turn, n: nat): seq<Happening> {
    if n == 0 then []
    else Trace(request, turns, n - 1) + Happens(request, turns(n - 1).before) + OwnPart(request, turns(n - 1))
  }

  /** Likewise up to the moment the store meets this client's request in turn `n`. */
  function TraceBefore(request: Request, turns: nat -> Turn, n: nat): seq<Happening> {
    Trace(request, turns, n) + Happens(request, turns(n).before)
  }

  /** The trace of a call of `n` attempts, and of what happens after it has returned. */
  function FullTrace(request: Request, turns: nat -> Turn, n: nat, tail: seq<Event>): seq<Happening> {
    Trace(request, turns, n) + Happens(request, tail)
  }

  /** The store as this client's request finds it in turn `n`. */
  function Meets(w: World, request: Request, turns: nat -> Turn, n: nat): World {
    After(w, OpsOf(TraceBefore(request, turns, n)))
  }

  function Answer(reply: Reply): RC.Attempt<Reply> {
    RC.Answered(StatusCode(reply), if reply.Deleted? then RC.Empty else RC.Readable(reply))
  }

  function Seen(failure: Failure): RC.Attempt<Reply> {
    match failure
    case Timeout => RC.TimedOut
    case Broken => RC.Unreachable
    case Gateway(status) => RC.Answered(status, RC.Unreadable)
  }

  function AttemptAt(w: World, request: Request, turns: nat -> Turn, n: nat): RC.Attempt<Reply> {
    match turns(n).fate
    case RequestLost(seen) => Seen(seen)
    case AnswerLost(seen) => Seen(seen)
    case Delivered => Answer(Apply(Meets(w, request, turns, n), Instance(request, turns(n).uuid, turns(n).now)).1)
  }

  /** How many attempts the retrying client makes. */
  function Calls(w: World, request: Request, turns: nat -> Turn, maxRetries: int): (n: nat)
    ensures n >= 1
  {
    RC.Attempts(n => AttemptAt(w, request, turns, n), ModelOf(request), 0, RC.Budget(MethodOf(request), maxRetries))
  }

  function Outcome(w: World, request: Request, turns: nat -> Turn, maxRetries: int): Result<RC.Value<Reply>, RC.Error> {
    RC.Once(AttemptAt(w, request, turns, Calls(w, request, turns, maxRetries) - 1), ModelOf(request))
  }

  // ----- traces -----

  /** A run of the store up to and including one more operation. */
  lemma TraceStep(w: World, trace: seq<Happening>)
    requires trace != []
    ensures var head, op := trace[..|trace| - 1], trace[|trace| - 1].op;
      && After(w, OpsOf(trace)) == Apply(After(w, OpsOf(head)), op).0
      && (Admissible(w, OpsOf(trace)) <==> Admissible(w, OpsOf(head)) && Enabled(After(w, OpsOf(head)), op))
  {
    hide Apply, Enabled;
    var head, op := trace[..|trace| - 1], trace[|trace| - 1].op;
    assert OpsOf(trace) == OpsOf(head) + [op];
    RunsConcatenate(w, OpsOf(head), [op]);
    assert [op][1..] == [];
  }

  /** What the others did. */
  function TheirOps(trace: seq<Happening>): seq<Op>
    decreases |trace|
  {
    if trace == [] then []
    else
      var last := trace[|trace| - 1];
      TheirOps(trace[..|trace| - 1]) + (if last.Theirs? then [last.op] else [])
  }

  function OurCount(trace: seq<Happening>): nat
    decreases |trace|
  {
    if trace == [] then 0 else OurCount(trace[..|trace| - 1]) + Bit(trace[|trace| - 1].Ours?)
  }

  lemma {:induction false} OurCountConcat(a: seq<Happening>, b: seq<Happening>)
    ensures OurCount(a + b) == OurCount(a) + OurCount(b)
    decreases |b|
  {
    if b == [] {
      assert a + b == a;
    } else {
      OurCountConcat(a, b[..|b| - 1]);
      assert (a + b)[..|a + b| - 1] == a + b[..|b| - 1];
    }
  }

  /** The operations of other clients among the events, and in the turns of a call. */
  function OthersIn(events: seq<Event>): seq<Op>
    decreases |events|
  {
    if events == [] then []
    else
      var last := events[|events| - 1];
      OthersIn(events[..|events| - 1]) + (if last.Other? then [last.op] else [])
  }

  function OthersUpTo(turns: nat -> Turn, n: nat): seq<Op> {
    if n == 0 then [] else OthersUpTo(turns, n - 1) + OthersIn(turns(n - 1).before)
  }

  lemma {:induction false} TheirOpsConcat(a: seq<Happening>, b: seq<Happening>)
    ensures TheirOps(a + b) == TheirOps(a) + TheirOps(b)
    decreases |b|
  {
    if b == [] {
      assert a + b == a;
    } else {
      TheirOpsConcat(a, b[..|b| - 1]);
      assert (a + b)[..|a + b| - 1] == a + b[..|b| - 1];
    }
  }

  lemma {:induction false} EventsOfOthers(request: Request, events: seq<Event>)
    ensures TheirOps(Happens(request, events)) == OthersIn(events)
    decreases |events|
  {
    if events != [] {
      var head := events[..|events| - 1];
      EventsOfOthers(request, head);
      assert Happens(request, events)[..|events| - 1] == Happens(request, head);
    }
  }

  lemma {:induction false} TurnsOfOthers(request: Request, turns: nat -> Turn, n: nat)
    ensures TheirOps(Trace(request, turns, n)) == OthersUpTo(turns, n)
  {
    if n > 0 {
      var before, own := Happens(request, turns(n - 1).before), OwnPart(request, turns(n - 1));
      TurnsOfOthers(request, turns, n - 1);
      TheirOpsConcat(Trace(request, turns, n - 1) + before, own);
      TheirOpsConcat(Trace(request, turns, n - 1), before);
      EventsOfOthers(request, turns(n - 1).before);
      assert TheirOps(own) == [] by {
        assert own != [] ==> own[..|own| - 1] == [];
      }
    }
  }

  /** A call neither drops nor reorders what the others do. */
  lemma OthersAreKept(request: Request, turns: nat -> Turn, n: nat, tail: seq<Event>)
    ensures TheirOps(FullTrace(request, turns, n, tail)) == OthersUpTo(turns, n) + OthersIn(tail)
  {
    TurnsOfOthers(request, turns, n);
    EventsOfOthers(request, tail);
    TheirOpsConcat(Trace(request, turns, n), Happens(request, tail));
  }

  // ----- at most one execution per attempt -----

  function LateCount(events: seq<Event>): nat
    decreases |events|
  {
    if events == [] then 0 else LateCount(events[..|events| - 1]) + Bit(events[|events| - 1].Late?)
  }

  /** Late arrivals, and lost requests, among the first `n` attempts. */
  function Arrived(turns: nat -> Turn, n: nat): nat {
    if n == 0 then 0 else Arrived(turns, n - 1) + LateCount(turns(n - 1).before)
  }

  function Lost(turns: nat -> Turn, n: nat): nat {
    if n == 0 then 0 else Lost(turns, n - 1) + Bit(turns(n - 1).fate.RequestLost?)
  }

  /** The network delivers late only what it lost, and each lost request at most once. */
  ghost predicate OnlyTheLostArriveLate(turns: nat -> Turn, n: nat, tail: seq<Event>) {
    && (forall k :: 0 <= k < n ==> Arrived(turns, k) + LateCount(turns(k).before) <= Lost(turns, k))
    && Arrived(turns, n) + LateCount(tail) <= Lost(turns, n)
  }

  lemma {:induction false} LateAreOurs(request: Request, events: seq<Event>)
    ensures OurCount(Happens(request, events)) == LateCount(events)
    decreases |events|
  {
    if events != [] {
      var head := events[..|events| - 1];
      LateAreOurs(request, head);
      assert Happens(request, events)[..|events| - 1] == Happens(request, head);
    }
  }

  lemma {:induction false} ExecutionsOfTurns(request: Request, turns: nat -> Turn, n: nat)
    ensures OurCount(Trace(request, turns, n)) + Lost(turns, n) == n + Arrived(turns, n)
  {
    if n > 0 {
      var before, own := Happens(request, turns(n - 1).before), OwnPart(request, turns(n - 1));
      ExecutionsOfTurns(request, turns, n - 1);
      OurCountConcat(Trace(request, turns, n - 1) + before, own);
      OurCountConcat(Trace(request, turns, n - 1), before);
      LateAreOurs(request, turns(n - 1).before);
      assert OurCount(own) == Bit(!turns(n - 1).fate.RequestLost?) by {
        assert own != [] ==> own[..|own| - 1] == [];
      }
    }
  }

  /** The store executes the request at most once per attempt, late arrivals included. */
  lemma AtMostOneExecutionPerAttempt(request: Request, turns: nat -> Turn, n: nat, tail: seq<Event>)
    requires OnlyTheLostArriveLate(turns, n, tail)
    ensures OurCount(FullTrace(request, turns, n, tail)) <= n
  {
    ExecutionsOfTurns(request, turns, n);
    OurCountConcat(Trace(request, turns, n), Happens(request, tail));
    LateAreOurs(request, tail);
  }

  // ----- POST and PATCH -----

  lemma CallsOnce(w: World, request: Request, turns: nat -> Turn, maxRetries: int)
    requires request.CreateUser? || request.UpdateUser?
    ensures Calls(w, request, turns, maxRetries) == 1
  {
    hide AttemptAt, RC.Retriable;
  }

  lemma OneTurn(request: Request, turns: nat -> Turn, tail: seq<Event>)
    requires OnlyTheLostArriveLate(turns, 1, tail)
    ensures OurCount(FullTrace(request, turns, 1, tail)) <= 1
    ensures !turns(0).fate.RequestLost? ==>
              OurCount(FullTrace(request, turns, 1, tail)) == OurCount(Trace(request, turns, 1)) == 1
  {
    hide Trace, Happens, OurCount, LateCount;
    AtMostOneExecutionPerAttempt(request, turns, 1, tail);
    ExecutionsOfTurns(request, turns, 1);
    OurCountConcat(Trace(request, turns, 1), Happens(request, tail));
    LateAreOurs(request, tail);
    assert Lost(turns, 1) == Bit(turns(0).fate.RequestLost?) + Lost(turns, 0);
    assert Arrived(turns, 1) == LateCount(turns(0).before) + Arrived(turns, 0);
    assert Arrived(turns, 0) + LateCount(turns(0).before) <= Lost(turns, 0);
  }

  /** A create or an update runs at most once on the store, whatever is lost or late and whatever the retry setting. */
  lemma PostAndPatchRunAtMostOnce(w: World, request: Request, turns: nat -> Turn, maxRetries: int, tail: seq<Event>)
    requires request.CreateUser? || request.UpdateUser?
    requires OnlyTheLostArriveLate(turns, Calls(w, request, turns, maxRetries), tail)
    ensures Calls(w, request, turns, maxRetries) == 1
    ensures OursAre(request, FullTrace(request, turns, 1, tail)) && OurCount(FullTrace(request, turns, 1, tail)) <= 1
    ensures !turns(0).fate.RequestLost? ==>
              OurCount(FullTrace(request, turns, 1, tail)) == OurCount(Trace(request, turns, 1)) == 1
  {
    hide Calls, OurCount;
    CallTraceIsOurs(request, turns, 1);
    CallsOnce(w, request, turns, maxRetries);
    OneTurn(request, turns, tail);
  }

  lemma AnsweredOnce(w: World, request: Request, turns: nat -> Turn, maxRetries: int)
    requires (request.CreateUser? || request.UpdateUser?) && turns(0).fate.Delivered?
    ensures Outcome(w, request, turns, maxRetries) ==
            RC.Once(Answer(Apply(Meets(w, request, turns, 0), Instance(request, turns(0).uuid, turns(0).now)).1), RC.Required)
  {
    hide Calls, Apply, Meets, Answer;
    CallsOnce(w, request, turns, maxRetries);
  }

  lemma CreateReply(w: World, payload: UserCreate, uuid: string, now: int)
    requires Inv(w)
    ensures Apply(w, Create(payload, uuid, now)).1
         == if Taken(w, payload.username) then Conflict else Created(NewRow(MintId(uuid), payload, now))
  {
    hide Inv, Taken, Owner, NewRow, MintId;
    OwnedIffTaken(w, payload.username);
  }

  /** A create that is answered: the new user, or the 409 as a bad-request error when the name is held. */
  lemma CreateOutcome(w: World, payload: UserCreate, turns: nat -> Turn, maxRetries: int)
    requires turns(0).fate.Delivered? && Inv(Meets(w, CreateUser(payload), turns, 0))
    ensures Outcome(w, CreateUser(payload), turns, maxRetries)
         == if Taken(Meets(w, CreateUser(payload), turns, 0), payload.username) then Err(RC.ServiceBadRequest(409))
            else Ok(RC.Parsed(Created(NewRow(MintId(turns(0).uuid), payload, turns(0).now))))
  {
    hide Inv, Meets, Taken, Owner, NewRow, Outcome, MintId, Apply;
    AnsweredOnce(w, CreateUser(payload), turns, maxRetries);
    CreateReply(Meets(w, CreateUser(payload), turns, 0), payload, turns(0).uuid, turns(0).now);
  }

  /** A PATCH that is answered: the record it left, 404 for a missing user, 409 when another user holds the name. */
  lemma UpdateOutcome(w: World, id: string, patch: UserUpdate, turns: nat -> Turn, maxRetries: int)
    requires turns(0).fate.Delivered?
    ensures var met := Meets(w, UpdateUser(id, patch), turns, 0);
      Outcome(w, UpdateUser(id, patch), turns, maxRetries)
      == if !Live(met, id) then Err(RC.ServiceNotFound)
         else if Renames(met.users.rows[id], patch) && HeldByOther(met.users, id, NewName(patch))
         then Err(RC.ServiceBadRequest(409))
         else Ok(RC.Parsed(Reply.Found(ModelCopy(met.users.rows[id], Update(patch, turns(0).now)))))
  {
    AnsweredOnce(w, UpdateUser(id, patch), turns, maxRetries);
    hide Meets, Renames, HeldByOther, ModelCopy, Update, Outcome;
  }

  // ----- GET -----

  predicate IsRead(request: Request) {
    request.GetUser? || request.GetUserByUsername? || request.ListUsers?
  }

  /** All of our operations in the trace are runs of this request. */
  ghost predicate OursAre(request: Request, trace: seq<Happening>) {
    forall k :: 0 <= k < |trace| && trace[k].Ours? ==> RequestOf(trace[k].op) == request
  }

  lemma TurnIsOurs(request: Request, turn: Turn)
    ensures OursAre(request, Happens(request, turn.before)) && OursAre(request, OwnPart(request, turn))
  {
  }

  lemma {:induction false} CallTraceIsOurs(request: Request, turns: nat -> Turn, n: nat)
    ensures OursAre(request, Trace(request, turns, n))
  {
    if n > 0 {
      CallTraceIsOurs(request, turns, n - 1);
      TurnIsOurs(request, turns(n - 1));
      hide Happens, OwnPart, RequestOf;
    }
  }

  lemma {:induction false} ReadsChangeNothing(w: World, request: Request, trace: seq<Happening>)
    requires IsRead(request) && OursAre(request, trace)
    ensures After(w, OpsOf(trace)) == After(w, TheirOps(trace))
    decreases |trace|
  {
    hide After, OpsOf;
    if trace == [] {
      assert OpsOf(trace) == TheirOps(trace) by { NoOps(); }
    } else {
      var head, last := trace[..|trace| - 1], trace[|trace| - 1];
      ReadsChangeNothing(w, request, head);
      TraceStep(w, trace);
      AppendTheirs(w, trace);
    }
  }

  lemma NoOps()
    ensures OpsOf([]) == []
  {
  }

  lemma AppendTheirs(w: World, trace: seq<Happening>)
    requires trace != []
    ensures var head, last := trace[..|trace| - 1], trace[|trace| - 1];
      After(w, TheirOps(trace)) ==
      if last.Theirs? then Apply(After(w, TheirOps(head)), last.op).0 else After(w, TheirOps(head))
  {
    hide Apply;
    var head, last := trace[..|trace| - 1], trace[|trace| - 1];
    assert TheirOps(head) + [] == TheirOps(head);
    RunsConcatenate(w, TheirOps(head), [last.op]);
    assert [last.op][1..] == [];
  }

  /** However often a read is retried, and however late, the store is as if only the others had run. */
  lemma ReadsLeaveNoTrace(w: World, request: Request, turns: nat -> Turn, n: nat, tail: seq<Event>)
    requires IsRead(request)
    ensures After(w, OpsOf(FullTrace(request, turns, n, tail))) == After(w, OthersUpTo(turns, n) + OthersIn(tail))
  {
    OthersAreKept(request, turns, n, tail);
    CallTraceIsOurs(request, turns, n);
    ReadsChangeNothing(w, request, FullTrace(request, turns, n, tail));
  }

  /** What the store answers to a read. */
  lemma ReadReply(w: World, request: Request, uuid: string, now: int)
    requires IsRead(request) && Inv(w)
    ensures var reply := Apply(w, Instance(request, uuid, now)).1;
      match request
      case GetUser(id) => reply == (if Live(w, id) then Found(w.users.rows[id]) else NotFound)
      case GetUserByUsername(name) =>
        if Taken(w, name) then reply.Found? && exists id :: Holds(w.users, id, Str(name)) && reply.row == w.users.rows[id]
        else reply == NotFound
      case _ => reply == Listing(w.users.Values())
  {
    if request.GetUserByUsername? {
      OwnedIffTaken(w, request.name);
    }
  }

  /**
   * What a read tells the client: an answered call returns the record the store holds when
   * met, or 404; it had gone on through lost attempts only, and an unanswered call has used
   * up the retries.
   */
  lemma ReadOutcome(w: World, request: Request, turns: nat -> Turn, maxRetries: int)
    requires IsRead(request)
    ensures var n := Calls(w, request, turns, maxRetries);
      var met := Meets(w, request, turns, n - 1);
      var reply := Apply(met, Instance(request, turns(n - 1).uuid, turns(n - 1).now)).1;
      && (forall k :: 0 <= k < n - 1 ==> !turns(k).fate.Delivered?)
      && n <= (if maxRetries > 0 then maxRetries else 1)
      && if turns(n - 1).fate.Delivered?
         then Outcome(w, request, turns, maxRetries)
              == (if reply == NotFound then Err(RC.ServiceNotFound) else Ok(RC.Parsed(reply)))
         else n == (if maxRetries > 0 then maxRetries else 1)
              && Outcome(w, request, turns, maxRetries)
                 == Err(if turns(n - 1).fate.seen == Timeout then RC.ServiceTimeout else RC.ServiceUnavailable)
  {
    var n := Calls(w, request, turns, maxRetries);
    hide Calls, Apply, Meets;
    CallsByFate(w, request, turns, maxRetries);
    if turns(n - 1).fate.Delivered? {
      ReadsAreFoundOrNot(Meets(w, request, turns, n - 1), Instance(request, turns(n - 1).uuid, turns(n - 1).now));
    } else {
      LostIsRetriable(w, request, turns, n - 1);
    }
  }

  lemma ReadsAreFoundOrNot(w: World, op: Op)
    requires op.Get? || op.ByUsername? || op.List?
    ensures var reply := Apply(w, op).1; reply == NotFound || reply.Found? || reply.Listing?
  {
    hide Owner;
  }

  /** How the attempts of a read, or a delete, follow from the fates of its turns. */
  lemma CallsByFate(w: World, request: Request, turns: nat -> Turn, maxRetries: int)
    requires IsRead(request) || request.DeleteUser?
    ensures var n := Calls(w, request, turns, maxRetries);
      && (forall k :: 0 <= k < n - 1 ==> !turns(k).fate.Delivered?)
      && n <= (if maxRetries > 0 then maxRetries else 1)
      && (!turns(n - 1).fate.Delivered? ==> n == if maxRetries > 0 then maxRetries else 1)
  {
    hide Meets, Apply;
    var script := n => AttemptAt(w, request, turns, n);
    RC.WhoIsRetried(MethodOf(request), script, ModelOf(request), maxRetries);
    forall k: nat ensures RC.Outage(script(k)) <==> !turns(k).fate.Delivered? {
      AnswersAreNoOutage(w, request, turns, k);
    }
  }

  lemma AnswersAreNoOutage(w: World, request: Request, turns: nat -> Turn, k: nat)
    requires IsRead(request) || request.DeleteUser?
    ensures RC.Outage(AttemptAt(w, request, turns, k)) <==> !turns(k).fate.Delivered?
  {
    hide Meets, Owner;
  }

  // ----- DELETE -----

  predicate DeletesAt(w: World, trace: seq<Happening>, id: string, k: nat)
    requires k < |trace|
  {
    trace[k].Ours? && Live(After(w, OpsOf(trace[..k])), id)
  }

  /** The position of the first of our operations that finds the user, if any. */
  function EffectiveAt(w: World, trace: seq<Happening>, id: string): (r: Option<nat>)
    ensures r.Some? ==> r.value < |trace| && DeletesAt(w, trace, id, r.value)
    ensures r.Some? ==> forall k :: 0 <= k < r.value ==> !DeletesAt(w, trace, id, k)
    ensures r.None? ==> forall k :: 0 <= k < |trace| ==> !DeletesAt(w, trace, id, k)
    decreases |trace|
  {
    if trace == [] then None else
    var n := |trace| - 1;
    var before := EffectiveAt(w, trace[..n], id);
    assert forall k :: 0 <= k < n ==> trace[..n][..k] == trace[..k];
    assert forall k :: 0 <= k < n ==> (DeletesAt(w, trace[..n], id, k) <==> DeletesAt(w, trace, id, k));
    if before.Some? then before
    else if DeletesAt(w, trace, id, n) then Some(n)
    else None
  }

  /** The others' operations with the effective delete, if any, as one atomic operation among them. */
  function Merged(w: World, trace: seq<Happening>, id: string): seq<Op> {
    match EffectiveAt(w, trace, id)
    case None => TheirOps(trace)
    case Some(k) => TheirOps(trace[..k]) + [Delete(id)] + TheirOps(trace[k + 1..])
  }

  predicate GoneForGood(w: World, id: string) {
    id in w.issued && !Live(w, id)
  }

  /** How `Merged` grows with the trace. */
  lemma MergedStep(w: World, trace: seq<Happening>, id: string)
    requires trace != []
    ensures var head, last := trace[..|trace| - 1], trace[|trace| - 1];
      Merged(w, trace, id) == Merged(w, head, id) +
      if last.Theirs? then [last.op]
      else if EffectiveAt(w, head, id).None? && DeletesAt(w, trace, id, |trace| - 1) then [Delete(id)]
      else []
  {
    hide Live, After, OpsOf;
    var n := |trace| - 1;
    var head := trace[..n];
    match EffectiveAt(w, head, id)
    case Some(k) =>
      assert trace[..k] == head[..k] && trace[k + 1..][..n - k - 1] == head[k + 1..];
    case None =>
      assert trace[n + 1..] == [] && TheirOps([]) == [];
      assert TheirOps(head) + [Delete(id)] + [] == TheirOps(head) + [Delete(id)];
      assert TheirOps(head) + [] == TheirOps(head);
      assert EffectiveAt(w, trace, id) == if DeletesAt(w, trace, id, n) then Some(n) else None;
  }

  lemma AppendMerged(w: World, trace: seq<Happening>, id: string, op: Op)
    ensures After(w, Merged(w, trace, id) + [op]) == Apply(After(w, Merged(w, trace, id)), op).0
    ensures Merged(w, trace, id) + [] == Merged(w, trace, id)
  {
    hide Apply, Merged;
    RunsConcatenate(w, Merged(w, trace, id), [op]);
    assert [op][1..] == [];
  }

  lemma {:induction false} OneDeleteOfTrace(w: World, trace: seq<Happening>, id: string)
    requires Inv(w) && Admissible(w, OpsOf(trace)) && OursAre(DeleteUser(id), trace)
    ensures After(w, OpsOf(trace)) == After(w, Merged(w, trace, id))
    ensures EffectiveAt(w, trace, id).Some? ==> GoneForGood(After(w, OpsOf(trace)), id)
    ensures Inv(After(w, OpsOf(trace)))
    decreases |trace|
  {
    hide Inv, Apply, Enabled, Merged, Live, After, Admissible, OpsOf;
    if trace == [] {
      assert OpsOf(trace) == Merged(w, trace, id) == [] by { NothingMerged(w, id); }
      RunKeepsInv(w, OpsOf(trace));
    } else {
      var head, last := trace[..|trace| - 1], trace[|trace| - 1];
      TraceStep(w, trace);
      OneDeleteOfTrace(w, head, id);
      MergedStep(w, trace, id);
      AppendMerged(w, head, id, last.op);
      var met := After(w, OpsOf(head));
      ApplyKeepsInv(met, last.op);
      if last.Ours? {
        assert last.op == Delete(id);
        DeleteOfEither(met, id);
      } else if EffectiveAt(w, head, id).Some? {
        GoneStaysGone(met, last.op, id);
      }
    }
  }

  lemma NothingMerged(w: World, id: string)
    ensures OpsOf([]) == Merged(w, [], id) == []
  {
  }

  lemma DeleteOfMissing(w: World, id: string)
    ensures !Live(w, id) ==> Apply(w, Delete(id)) == (w, NotFound)
  {
  }

  /** The one effective delete removes exactly that user: every other row, and the order of the rest, stay. */
  lemma DeleteOfLive(w: World, id: string)
    requires Inv(w) && Live(w, id)
    ensures Apply(w, Delete(id)) == (w.(users := w.users.Pop(id)), Deleted)
    ensures GoneForGood(Apply(w, Delete(id)).0, id)
  {
  }

  lemma DeleteOfEither(w: World, id: string)
    requires Inv(w)
    ensures Live(w, id) ==> GoneForGood(Apply(w, Delete(id)).0, id)
    ensures !Live(w, id) ==> Apply(w, Delete(id)).0 == w
  {
    hide Inv, Apply;
    DeleteOfMissing(w, id);
    if Live(w, id) {
      DeleteOfLive(w, id);
    }
  }

  /**
   * A retried delete is at most one delete: under every schedule of losses, retries, late
   * arrivals (also after the call has returned) and interference the store ends as if the
   * others had run with a single `Delete(id)` among them, where one of our requests first
   * found the user, or none at all.
   */
  lemma RetriedDeleteIsOneDelete(w: World, id: string, turns: nat -> Turn, n: nat, tail: seq<Event>)
    requires Inv(w) && Admissible(w, OpsOf(FullTrace(DeleteUser(id), turns, n, tail)))
    ensures var trace := FullTrace(DeleteUser(id), turns, n, tail);
      && After(w, OpsOf(trace)) == After(w, Merged(w, trace, id))
      && (EffectiveAt(w, trace, id).Some? ==> GoneForGood(After(w, OpsOf(trace)), id))
  {
    hide Inv, Admissible, After, Merged, EffectiveAt, OpsOf;
    CallTraceIsOurs(DeleteUser(id), turns, n);
    OneDeleteOfTrace(w, FullTrace(DeleteUser(id), turns, n, tail), id);
  }

  /** None of our requests touches another user, whatever name they have taken since. */
  lemma LaterUsersAreSafe(w: World, id: string, turns: nat -> Turn, n: nat, tail: seq<Event>, k: nat, other: string)
    requires k < |FullTrace(DeleteUser(id), turns, n, tail)| && FullTrace(DeleteUser(id), turns, n, tail)[k].Ours?
    requires other != id
    ensures var trace := FullTrace(DeleteUser(id), turns, n, tail);
      var before, after := After(w, OpsOf(trace[..k])), After(w, OpsOf(trace[..k + 1]));
      && (Live(before, other) <==> Live(after, other))
      && (Live(before, other) ==> after.users.rows[other] == before.users.rows[other])
  {
    hide Admissible, After;
    CallTraceIsOurs(DeleteUser(id), turns, n);
    var trace := FullTrace(DeleteUser(id), turns, n, tail);
    TraceStep(w, trace[..k + 1]);
    assert trace[..k + 1][..k] == trace[..k];
    assert trace[k].op == Delete(id);
  }

  /** The attempt of the last turn, if it is executed, ends the trace. */
  lemma LastTurn(w: World, request: Request, turns: nat -> Turn, n: nat)
    requires n > 0 && !turns(n - 1).fate.RequestLost?
    ensures var trace := Trace(request, turns, n);
      && trace != [] && trace[|trace| - 1] == Ours(Instance(request, turns(n - 1).uuid, turns(n - 1).now))
      && trace[..|trace| - 1] == TraceBefore(request, turns, n - 1)
  {
  }

  /** The last attempt did the deletion iff it found the user. */
  lemma EffectiveIffLive(w: World, id: string, turns: nat -> Turn, n: nat)
    requires n > 0 && Inv(w) && Admissible(w, OpsOf(Trace(DeleteUser(id), turns, n))) && !turns(n - 1).fate.RequestLost?
    ensures var trace := Trace(DeleteUser(id), turns, n);
      EffectiveAt(w, trace, id) == Some(|trace| - 1) <==> Live(Meets(w, DeleteUser(id), turns, n - 1), id)
  {
    hide Inv, Admissible, After, Live, OpsOf, Trace, TraceBefore;
    LastTurn(w, DeleteUser(id), turns, n);
    CallTraceIsOurs(DeleteUser(id), turns, n);
    var trace := Trace(DeleteUser(id), turns, n);
    TraceStep(w, trace);
    OneDeleteOfTrace(w, trace[..|trace| - 1], id);
  }

  /** An attempt whose request or answer is lost is always retried while the budget lasts. */
  lemma LostIsRetriable(w: World, request: Request, turns: nat -> Turn, n: nat)
    ensures !turns(n).fate.Delivered? ==>
              Retriable(w, request, turns, n)
              && RC.Once(AttemptAt(w, request, turns, n), ModelOf(request))
                 == Err(if turns(n).fate.seen == Timeout then RC.ServiceTimeout else RC.ServiceUnavailable)
  {
    hide Meets;
  }

  predicate Retriable(w: World, request: Request, turns: nat -> Turn, n: nat) {
    RC.Retriable(AttemptAt(w, request, turns, n), ModelOf(request))
  }

  lemma DeliveredOutcome(w: World, id: string, turns: nat -> Turn, n: nat)
    requires turns(n).fate.Delivered?
    ensures RC.Once(AttemptAt(w, DeleteUser(id), turns, n), RC.NoContent)
         == if Live(Meets(w, DeleteUser(id), turns, n), id) then Ok(RC.NoneValue) else Err(RC.ServiceNotFound)
  {
    hide Meets;
  }

  /** What the client learns when the last attempt is answered: 204 iff that very attempt did the deletion. */
  lemma DeleteOutcome(w: World, id: string, turns: nat -> Turn, maxRetries: int)
    requires Inv(w) && Admissible(w, OpsOf(Trace(DeleteUser(id), turns, Calls(w, DeleteUser(id), turns, maxRetries))))
    ensures var n := Calls(w, DeleteUser(id), turns, maxRetries);
      var trace := Trace(DeleteUser(id), turns, n);
      match turns(n - 1).fate
      case Delivered =>
        Outcome(w, DeleteUser(id), turns, maxRetries)
          == (if EffectiveAt(w, trace, id) == Some(|trace| - 1) then Ok(RC.NoneValue) else Err(RC.ServiceNotFound))
      case _ =>
        n == (if maxRetries > 0 then maxRetries else 1)
        && Outcome(w, DeleteUser(id), turns, maxRetries)
           == Err(if turns(n - 1).fate.seen == Timeout then RC.ServiceTimeout else RC.ServiceUnavailable)
  {
    hide Calls, Inv, Admissible, EffectiveAt, Meets, After, AttemptAt, RC.Once, RC.Budget, Retriable, Trace;
    var n := Calls(w, DeleteUser(id), turns, maxRetries);
    if turns(n - 1).fate.Delivered? {
      EffectiveIffLive(w, id, turns, n);
      DeliveredOutcome(w, id, turns, n - 1);
    } else {
      LostIsRetriable(w, DeleteUser(id), turns, n - 1);
      CallsByFate(w, DeleteUser(id), turns, maxRetries);
    }
  }

  /** The first answer is lost, the second attempt is answered. */
  function LostThenAnswered(): nat -> Turn {
    k => Turn([], "", 0, if k == 0 then AnswerLost(Timeout) else Delivered)
  }

  lemma LostThenAnsweredTraces(w: World, id: string)
    ensures Trace(DeleteUser(id), LostThenAnswered(), 1) == [Ours(Delete(id))]
    ensures Trace(DeleteUser(id), LostThenAnswered(), 2) == [Ours(Delete(id)), Ours(Delete(id))]
    ensures Meets(w, DeleteUser(id), LostThenAnswered(), 0) == w
    ensures Meets(w, DeleteUser(id), LostThenAnswered(), 1) == Apply(w, Delete(id)).0
  {
    hide Apply;
    var turns := LostThenAnswered();
    assert Happens(DeleteUser(id), []) == [];
    assert TraceBefore(DeleteUser(id), turns, 0) == [];
    assert TraceBefore(DeleteUser(id), turns, 1) == [Ours(Delete(id))];
    assert OpsOf([]) == [] && OpsOf([Ours(Delete(id))]) == [Delete(id)];
    assert [Delete(id)][1..] == [];
    assert After(w, [Delete(id)]) == After(Apply(w, Delete(id)).0, []);
  }

  /** A delete can succeed and still be reported as 404: the 204 was lost and the retry found nothing. */
  lemma SuccessReportedAsNotFound(w: World, id: string)
    requires Inv(w) && Live(w, id)
    ensures exists turns: nat -> Turn ::
              && Outcome(w, DeleteUser(id), turns, 3) == Err(RC.ServiceNotFound)
              && Calls(w, DeleteUser(id), turns, 3) == 2
              && EffectiveAt(w, Trace(DeleteUser(id), turns, 2), id) == Some(0)
  {
    hide Apply, Inv, Meets, Live, Trace;
    var turns := LostThenAnswered();
    LostThenAnsweredTraces(w, id);
    DeleteOfLive(w, id);
    DeleteOfMissing(Apply(w, Delete(id)).0, id);
    assert AttemptAt(w, DeleteUser(id), turns, 0) == RC.TimedOut;
    assert AttemptAt(w, DeleteUser(id), turns, 1) == Answer(NotFound);
    assert Calls(w, DeleteUser(id), turns, 3) == 2;
    FirstIsEffective(w, Trace(DeleteUser(id), turns, 2), id);
  }

  lemma FirstIsEffective(w: World, trace: seq<Happening>, id: string)
    requires trace != [] && trace[0].Ours? && Live(w, id)
    ensures EffectiveAt(w, trace, id) == Some(0)
  {
    assert OpsOf(trace[..0]) == [];
    assert DeletesAt(w, trace, id, 0);
  }
}
