/**
 * The Flow handlers on a threadpool. Every dictionary access, clock reading and uuid is
 * a step of its own; a create reads the clock and draws its id before it asks for the lock.
 */
module FlowSteps {
  import opened OrderedDict
  import opened Wrappers
  import opened PartialUpdate
  import opened FlowModel
  import opened FlowStore

  datatype Request =
    | CreateFlow(payload: FlowCreate)
    | UpdateFlow(id: string, patch: FlowUpdate)
    | DeleteFlow(id: string)
    | GetFlow(id: string)
    | ListFlows

  function RequestOf(op: Op): Request {
    match op
    case Create(payload, _, _) => CreateFlow(payload)
    case Patch(id, patch, _) => UpdateFlow(id, patch)
    case Delete(id) => DeleteFlow(id)
    case Get(id) => GetFlow(id)
    case List => ListFlows
  }

  /** Where a thread is: the name of the step it is about to take; `next` is its first step inside the lock. */
  datatype Pc =
    | Idle
    | CreateClock(payload: FlowCreate)
    | CreateMint(payload: FlowCreate, at: int)
    | Waiting(next: Pc)
    | CreateWrite(payload: FlowCreate, uuid: string, at: int)
    | UpdateCheck(id: string, patch: FlowUpdate)
    | UpdateRead(id: string, patch: FlowUpdate)
    | UpdateClock(id: string, patch: FlowUpdate, existing: Row)
    | UpdateWrite(id: string, patch: FlowUpdate, existing: Row, now: int)
    | DeleteCheck(id: string)
    | DeletePop(id: string)
    | GetCheck(id: string)
    | GetRead(id: string)
    | ListRead
    | Releasing(op: Op, reply: Reply)

  predicate Critical(pc: Pc) {
    !pc.Idle? && !pc.CreateClock? && !pc.CreateMint? && !pc.Waiting?
  }

  /** The first step inside the lock of some request. */
  predicate EntersLock(pc: Pc) {
    pc.CreateWrite? || pc.UpdateCheck? || pc.DeleteCheck? || pc.GetCheck? || pc.ListRead?
  }

  function Arrive(request: Request): Pc {
    match request
    case CreateFlow(payload) => CreateClock(payload)
    case UpdateFlow(id, patch) => Waiting(UpdateCheck(id, patch))
    case DeleteFlow(id) => Waiting(DeleteCheck(id))
    case GetFlow(id) => Waiting(GetCheck(id))
    case ListFlows => Waiting(ListRead)
  }

  /** The request a point belongs to. */
  function Serving(pc: Pc): Option<Request> {
    match pc
    case Idle => None
    case CreateClock(payload) => Some(CreateFlow(payload))
    case CreateMint(payload, _) => Some(CreateFlow(payload))
    case Waiting(next) => Serving(next)
    case CreateWrite(payload, _, _) => Some(CreateFlow(payload))
    case UpdateCheck(id, patch) => Some(UpdateFlow(id, patch))
    case UpdateRead(id, patch) => Some(UpdateFlow(id, patch))
    case UpdateClock(id, patch, _) => Some(UpdateFlow(id, patch))
    case UpdateWrite(id, patch, _, _) => Some(UpdateFlow(id, patch))
    case DeleteCheck(id) => Some(DeleteFlow(id))
    case DeletePop(id) => Some(DeleteFlow(id))
    case GetCheck(id) => Some(GetFlow(id))
    case GetRead(id) => Some(GetFlow(id))
    case ListRead => Some(ListFlows)
    case Releasing(op, _) => Some(RequestOf(op))
  }

  /** The id a create has drawn and not committed yet. */
  function Drawn(pc: Pc): Option<string> {
    match pc
    case Waiting(next) => Drawn(next)
    case CreateWrite(_, uuid, _) => Some(MintId(uuid))
    case Releasing(Create(_, uuid, _), _) => Some(MintId(uuid))
    case _ => None
  }

  /** The time a create has read and not committed yet. */
  function ReadAt(pc: Pc): Option<int> {
    match pc
    case CreateMint(_, at) => Some(at)
    case Waiting(next) => ReadAt(next)
    case CreateWrite(_, _, at) => Some(at)
    case Releasing(Create(_, _, at), _) => Some(at)
    case _ => None
  }

  /** What the threads share: the dictionary, the wall clock, and the ids drawn so far. */
  datatype Shared = Shared(flows: Dict<string, Row>, clock: int, drawn: set<string>)

  predicate Working(pc: Pc) {
    !pc.Idle? && !pc.Waiting? && !pc.Releasing?
  }

  /** One step of a handler. `uuid` and `tick` are what the supply and the clock deliver now. */
  function Work(sh: Shared, pc: Pc, uuid: string, tick: nat): (Shared, Pc)
    requires Working(pc)
  {
    match pc
    case CreateClock(payload) =>
      (sh.(clock := sh.clock + tick), CreateMint(payload, sh.clock + tick))
    case CreateMint(payload, at) =>
      if MintId(uuid) in sh.drawn then (sh, pc)
      else (sh.(drawn := sh.drawn + {MintId(uuid)}), Waiting(CreateWrite(payload, uuid, at)))
    case CreateWrite(payload, uuid, at) =>
      var row := NewRow(MintId(uuid), payload, at);
      (sh.(flows := sh.flows.Put(MintId(uuid), row)), Releasing(Create(payload, uuid, at), Created(row)))
    case UpdateCheck(id, patch) =>
      (sh, if id !in sh.flows.rows then Releasing(Patch(id, patch, sh.clock), NotFound) else UpdateRead(id, patch))
    case UpdateRead(id, patch) =>
      (sh, if id !in sh.flows.rows then Releasing(Patch(id, patch, sh.clock), Crash)
           else UpdateClock(id, patch, sh.flows.rows[id]))
    case UpdateClock(id, patch, existing) =>
      (sh.(clock := sh.clock + tick), UpdateWrite(id, patch, existing, sh.clock + tick))
    case UpdateWrite(id, patch, existing, now) =>
      var updated := ModelCopy(existing, Update(patch, now));
      (sh.(flows := sh.flows.Put(id, updated)), Releasing(Patch(id, patch, now), Found(updated)))
    case DeleteCheck(id) =>
      (sh, if id !in sh.flows.rows then Releasing(Delete(id), NotFound) else DeletePop(id))
    case DeletePop(id) =>
      if id !in sh.flows.rows then (sh, Releasing(Delete(id), Crash))
      else (sh.(flows := sh.flows.Pop(id)), Releasing(Delete(id), Deleted))
    case GetCheck(id) =>
      (sh, if id !in sh.flows.rows then Releasing(Get(id), NotFound) else GetRead(id))
    case GetRead(id) =>
      (sh, Releasing(Get(id), if id in sh.flows.rows then Found(sh.flows.rows[id]) else Crash))
    case ListRead =>
      (sh, Releasing(List, Listing(sh.flows.Values())))
  }

  lemma ArrivesUnburdened(request: Request)
    ensures var pc := Arrive(request);
      && !Critical(pc) && !pc.Idle? && Serving(pc) == Some(request) && (pc.Waiting? ==> EntersLock(pc.next))
      && Drawn(pc).None? && ReadAt(pc).None?
  {
  }

  // ----- what each point knows, relative to the abstract store `w` of the completed operations -----

  /** What a thread has read from the clock is past, and what it has drawn is nobody's id yet. */
  ghost predicate PendingOk(pc: Pc, sh: Shared, w: World) {
    && (ReadAt(pc).Some? ==> ReadAt(pc).value <= sh.clock)
    && (Drawn(pc).Some? ==> Drawn(pc).value in sh.drawn && Drawn(pc).value !in w.issued)
  }

  /** The operation is complete: its abstract counterpart explains the dictionary and the reply. */
  ghost predicate Complete(op: Op, reply: Reply, sh: Shared, w: World) {
    && Enabled(w, op)
    && Apply(w, op).1 == reply
    && Apply(w, op).0.flows == sh.flows
    && Apply(w, op).0.clock <= sh.clock
    && Apply(w, op).0.issued <= sh.drawn
  }

  ghost predicate Known(pc: Pc, sh: Shared, w: World) {
    && sh.flows == w.flows
    && (pc.UpdateRead? || pc.UpdateClock? || pc.UpdateWrite? || pc.DeletePop? || pc.GetRead? ==> pc.id in w.flows.rows)
    && (pc.UpdateClock? || pc.UpdateWrite? ==> pc.existing == w.flows.rows[pc.id])
    && (pc.UpdateWrite? ==> w.clock <= pc.now <= sh.clock)
  }

  ghost predicate Fits(sh: Shared, w: World) {
    Inv(w) && w.issued <= sh.drawn && w.clock <= sh.clock
  }

  ghost predicate Inside(pc: Pc, sh: Shared, w: World)
    requires Critical(pc)
  {
    Fits(sh, w) && if pc.Releasing? then Complete(pc.op, pc.reply, sh, w) else Known(pc, sh, w)
  }

  /** The id and the time a create carries are settled before it takes the lock. */
  predicate SameBurden(pc: Pc, pc': Pc) {
    Drawn(pc') == Drawn(pc) && ReadAt(pc') == ReadAt(pc) && Serving(pc') == Serving(pc)
  }

  ghost predicate KeepsInside(w: World, sh: Shared, pc: Pc, uuid: string, tick: nat)
    requires Working(pc)
  {
    var (sh', pc') := Work(sh, pc, uuid, tick);
    && Critical(pc') && Inside(pc', sh', w) && SameBurden(pc, pc')
    && sh'.drawn == sh.drawn && sh.clock <= sh'.clock
  }

  lemma WriteKeepsInside(w: World, sh: Shared, pc: Pc, uuid: string, tick: nat)
    requires pc.CreateWrite? && Inside(pc, sh, w) && PendingOk(pc, sh, w)
    ensures KeepsInside(w, sh, pc, uuid, tick)
  {
    hide Inv, NewRow, MintId;
  }

  lemma UpdateKeepsInside(w: World, sh: Shared, pc: Pc, uuid: string, tick: nat)
    requires (pc.UpdateCheck? || pc.UpdateRead? || pc.UpdateClock? || pc.UpdateWrite?) && Inside(pc, sh, w)
    ensures KeepsInside(w, sh, pc, uuid, tick)
  {
    hide Inv, ModelCopy, Update;
  }

  lemma DeleteKeepsInside(w: World, sh: Shared, pc: Pc, uuid: string, tick: nat)
    requires (pc.DeleteCheck? || pc.DeletePop?) && Inside(pc, sh, w)
    ensures KeepsInside(w, sh, pc, uuid, tick)
  {
    hide Inv;
  }

  lemma ReadKeepsInside(w: World, sh: Shared, pc: Pc, uuid: string, tick: nat)
    requires (pc.GetCheck? || pc.GetRead? || pc.ListRead?) && Inside(pc, sh, w)
    ensures KeepsInside(w, sh, pc, uuid, tick)
  {
    hide Inv;
  }

  /** Every step inside the lock keeps what the next point relies on, up to the completed operation. */
  lemma WorkKeepsInside(w: World, sh: Shared, pc: Pc, uuid: string, tick: nat)
    requires Critical(pc) && Working(pc) && Inside(pc, sh, w) && PendingOk(pc, sh, w)
    ensures KeepsInside(w, sh, pc, uuid, tick)
  {
    hide Inside, PendingOk, KeepsInside;
    if pc.CreateWrite? {
      WriteKeepsInside(w, sh, pc, uuid, tick);
    } else if pc.UpdateCheck? || pc.UpdateRead? || pc.UpdateClock? || pc.UpdateWrite? {
      UpdateKeepsInside(w, sh, pc, uuid, tick);
    } else if pc.DeleteCheck? || pc.DeletePop? {
      DeleteKeepsInside(w, sh, pc, uuid, tick);
    } else {
      ReadKeepsInside(w, sh, pc, uuid, tick);
    }
  }

  /** So does a step of another thread before its lock, which only moves the clock on or draws an id. */
  lemma InsideSurvivesDraws(pc: Pc, sh: Shared, sh': Shared, w: World)
    requires Critical(pc) && Inside(pc, sh, w)
    requires sh'.flows == sh.flows && sh.clock <= sh'.clock && sh.drawn <= sh'.drawn
    ensures Inside(pc, sh', w)
  {
    hide Inv, Apply, Enabled;
  }

  /** The two steps of a create before it asks for the lock. */
  lemma WorkBeforeLock(sh: Shared, pc: Pc, uuid: string, tick: nat)
    requires pc.CreateClock? || pc.CreateMint?
    ensures var (sh', pc') := Work(sh, pc, uuid, tick);
      && sh'.flows == sh.flows && sh.clock <= sh'.clock && sh.drawn <= sh'.drawn
      && !Critical(pc') && Serving(pc') == Serving(pc) && (pc'.Waiting? ==> EntersLock(pc'.next))
      && (ReadAt(pc').Some? && (ReadAt(pc).Some? || ReadAt(pc').value == sh'.clock))
      && (ReadAt(pc).Some? ==> ReadAt(pc') == ReadAt(pc))
      && (Drawn(pc').Some? ==> Drawn(pc').value !in sh.drawn && Drawn(pc').value in sh'.drawn)
  {
  }
}

/** The Flow service: threads, the lock, the shared dictionary, and the completed operations in lock order. */
module FlowThreads {
  import opened Wrappers
  import opened OrderedDict
  import opened PartialUpdate
  import opened FlowModel
  import opened FlowStore
  import opened FlowSteps

  /** One critical section: which thread made which request, what was done, and the reply it returns. */
  datatype Commit = Commit(thread: nat, request: Request, op: Op, reply: Reply)

  datatype Thread = Thread(pc: Pc, request: Request)

  datatype System = System(threads: seq<Thread>, holder: Option<nat>, shared: Shared, log: seq<Commit>)

  /** The scheduler's next move: which thread runs, and what it would be given to do or read. */
  datatype Choice = Choice(thread: nat, request: Request, uuid: string, tick: nat)

  function Initial(n: nat): System {
    System(seq(n, _ => Thread(Idle, ListFlows)), None, Shared(Dict([], map[]), 0, {}), [])
  }

  function Goto(s: System, t: nat, pc: Pc): seq<Thread>
    requires t < |s.threads|
  {
    s.threads[t := s.threads[t].(pc := pc)]
  }

  /** One step of thread `c.thread`; without `locked`, acquiring does not wait. A blocked thread stutters. */
  function Next(s: System, c: Choice, locked: bool): System {
    if c.thread >= |s.threads| then s else
    match s.threads[c.thread].pc
    case Idle => s.(threads := s.threads[c.thread := Thread(Arrive(c.request), c.request)])
    case Waiting(next) =>
      if locked && s.holder.Some? then s else s.(threads := Goto(s, c.thread, next), holder := Some(c.thread))
    case Releasing(op, reply) =>
      s.(threads := Goto(s, c.thread, Idle), holder := None,
         log := s.log + [Commit(c.thread, s.threads[c.thread].request, op, reply)])
    case pc =>
      var (shared, pc') := Work(s.shared, pc, c.uuid, c.tick);
      s.(threads := Goto(s, c.thread, pc'), shared := shared)
  }

  function Exec(s: System, choices: seq<Choice>, locked: bool): System
    decreases |choices|
  {
    if choices == [] then s else Next(Exec(s, choices[..|choices| - 1], locked), choices[|choices| - 1], locked)
  }

  function Ops(log: seq<Commit>): seq<Op> {
    seq(|log|, i requires 0 <= i < |log| => log[i].op)
  }

  function LogReplies(log: seq<Commit>): seq<Reply> {
    seq(|log|, i requires 0 <= i < |log| => log[i].reply)
  }

  /** The operations of the log as atomic ones, run one after the other. */
  function Abstract(log: seq<Commit>): World {
    After(EMPTY, Ops(log))
  }

  // ----- the invariant -----

  /** The log is a legal atomic run with exactly these replies, each to the request its thread made. */
  ghost predicate LogIsAtomicRun(log: seq<Commit>) {
    && Admissible(EMPTY, Ops(log)) && Replies(EMPTY, Ops(log)) == LogReplies(log)
    && forall k :: 0 <= k < |log| ==> RequestOf(log[k].op) == log[k].request
  }

  ghost predicate ThreadFits(s: System, t: nat)
    requires t < |s.threads|
  {
    var pc := s.threads[t].pc;
    && (Critical(pc) <==> s.holder == Some(t))
    && (pc.Waiting? ==> EntersLock(pc.next))
    && (!pc.Idle? ==> Serving(pc) == Some(s.threads[t].request))
    && PendingOk(pc, s.shared, Abstract(s.log))
  }

  ghost predicate ThreadsFit(s: System) {
    forall t :: 0 <= t < |s.threads| ==> ThreadFits(s, t)
  }

  /** No two creates have drawn the same id. */
  ghost predicate DrawsDiffer(threads: seq<Thread>) {
    forall t, u :: 0 <= t < u < |threads| && Drawn(threads[t].pc).Some? ==> Drawn(threads[t].pc) != Drawn(threads[u].pc)
  }

  ghost predicate SharedFits(s: System) {
    match s.holder
    case None => Fits(s.shared, Abstract(s.log)) && s.shared.flows == Abstract(s.log).flows
    case Some(h) => h < |s.threads| && Critical(s.threads[h].pc) && Inside(s.threads[h].pc, s.shared, Abstract(s.log))
  }

  ghost predicate StateInv(s: System) {
    LogIsAtomicRun(s.log) && ThreadsFit(s) && DrawsDiffer(s.threads) && SharedFits(s)
  }

  lemma AlwaysFits(s: System)
    requires SharedFits(s)
    ensures Fits(s.shared, Abstract(s.log))
  {
    hide Abstract;
  }

  lemma CallKeepsStateInv(s: System, c: Choice)
    requires StateInv(s) && c.thread < |s.threads| && s.threads[c.thread].pc.Idle?
    ensures StateInv(Next(s, c, true))
  {
    hide LogIsAtomicRun, Abstract, Inside, Fits;
    ArrivesUnburdened(c.request);
    hide Arrive, Serving, Drawn, ReadAt;
    var s' := Next(s, c, true);
    forall t | 0 <= t < |s.threads| ensures ThreadFits(s', t) {
      assert ThreadFits(s, t);
    }
  }

  lemma AcquireKeepsStateInv(s: System, c: Choice)
    requires StateInv(s) && c.thread < |s.threads| && s.threads[c.thread].pc.Waiting?
    ensures StateInv(Next(s, c, true))
  {
    hide LogIsAtomicRun, Abstract, Fits, Complete;
    var s' := Next(s, c, true);
    assert ThreadFits(s, c.thread);
    forall t | 0 <= t < |s.threads| ensures ThreadFits(s', t) {
      assert ThreadFits(s, t);
    }
  }

  lemma WorkInsideKeepsStateInv(s: System, c: Choice)
    requires StateInv(s) && c.thread < |s.threads|
    requires Working(s.threads[c.thread].pc) && Critical(s.threads[c.thread].pc)
    ensures StateInv(Next(s, c, true))
  {
    hide LogIsAtomicRun, Abstract, Inside, Fits, Work;
    var s' := Next(s, c, true);
    assert ThreadFits(s, c.thread);
    WorkKeepsInside(Abstract(s.log), s.shared, s.threads[c.thread].pc, c.uuid, c.tick);
    forall t | 0 <= t < |s.threads| ensures ThreadFits(s', t) {
      assert ThreadFits(s, t);
    }
  }

  lemma WorkOutsideKeepsStateInv(s: System, c: Choice)
    requires StateInv(s) && c.thread < |s.threads|
    requires s.threads[c.thread].pc.CreateClock? || s.threads[c.thread].pc.CreateMint?
    ensures StateInv(Next(s, c, true))
  {
    hide LogIsAtomicRun, Abstract, Inside, Work;
    var s', w := Next(s, c, true), Abstract(s.log);
    assert ThreadFits(s, c.thread);
    AlwaysFits(s);
    WorkBeforeLock(s.shared, s.threads[c.thread].pc, c.uuid, c.tick);
    hide Drawn, ReadAt, Serving;
    forall t | 0 <= t < |s.threads| && Drawn(s.threads[t].pc).Some?
      ensures Drawn(s.threads[t].pc).value in s.shared.drawn
    {
      assert ThreadFits(s, t);
    }
    forall t | 0 <= t < |s.threads| ensures ThreadFits(s', t) {
      assert ThreadFits(s, t);
    }
    if s.holder.Some? {
      InsideSurvivesDraws(s.threads[s.holder.value].pc, s.shared, s'.shared, w);
    }
  }

  lemma CommitExtendsRun(log: seq<Commit>, c: Commit)
    requires LogIsAtomicRun(log) && RequestOf(c.op) == c.request
    requires Enabled(Abstract(log), c.op) && Apply(Abstract(log), c.op).1 == c.reply
    ensures LogIsAtomicRun(log + [c]) && Abstract(log + [c]) == Apply(Abstract(log), c.op).0
  {
    hide Apply, Enabled;
    var ops := Ops(log + [c]);
    assert ops[..|ops| - 1] == Ops(log);
    assert LogReplies(log + [c]) == LogReplies(log) + [c.reply];
  }

  /** A release issues at most the id its own thread had drawn. */
  lemma ReleaseIssues(w: World, op: Op)
    ensures Apply(w, op).0.issued <= w.issued + if op.Create? then {MintId(op.uuid)} else {}
  {
  }

  lemma ReleaseKeepsStateInv(s: System, c: Choice)
    requires StateInv(s) && c.thread < |s.threads| && s.threads[c.thread].pc.Releasing?
    ensures StateInv(Next(s, c, true))
  {
    hide LogIsAtomicRun, Abstract, Apply, Enabled, Inv;
    var s', w, me := Next(s, c, true), Abstract(s.log), s.threads[c.thread];
    assert ThreadFits(s, c.thread);
    CommitExtendsRun(s.log, Commit(c.thread, me.request, me.pc.op, me.pc.reply));
    ReleaseIssues(w, me.pc.op);
    ApplyKeepsInv(w, me.pc.op);
    forall t | 0 <= t < |s.threads| ensures ThreadFits(s', t) {
      assert ThreadFits(s, t);
      if Drawn(s.threads[t].pc).Some? && t != c.thread {
        assert t < c.thread || c.thread < t;
      }
    }
  }

  lemma NextKeepsStateInv(s: System, c: Choice)
    requires StateInv(s)
    ensures StateInv(Next(s, c, true))
  {
    hide StateInv, Work;
    if c.thread < |s.threads| {
      var pc := s.threads[c.thread].pc;
      if pc.Idle? {
        CallKeepsStateInv(s, c);
      } else if pc.Waiting? {
        AcquireKeepsStateInv(s, c);
      } else if pc.Releasing? {
        ReleaseKeepsStateInv(s, c);
      } else if Critical(pc) {
        WorkInsideKeepsStateInv(s, c);
      } else {
        WorkOutsideKeepsStateInv(s, c);
      }
    }
  }

  lemma InitialIsOk(n: nat)
    ensures StateInv(Initial(n))
  {
    var s := Initial(n);
    assert Ops(s.log) == [] && LogReplies(s.log) == [];
    assert forall t :: 0 <= t < n ==> ThreadFits(s, t);
  }

  lemma {:induction false} ExecKeepsStateInv(n: nat, choices: seq<Choice>)
    ensures StateInv(Exec(Initial(n), choices, true))
    decreases |choices|
  {
    hide StateInv, Next;
    if choices == [] {
      InitialIsOk(n);
    } else {
      ExecKeepsStateInv(n, choices[..|choices| - 1]);
      NextKeepsStateInv(Exec(Initial(n), choices[..|choices| - 1], true), choices[|choices| - 1]);
    }
  }

  // ----- the theorems -----

  lemma RunFacts(s: System)
    requires StateInv(s)
    ensures Admissible(EMPTY, Ops(s.log)) && Replies(EMPTY, Ops(s.log)) == LogReplies(s.log)
    ensures forall k :: 0 <= k < |s.log| ==> RequestOf(s.log[k].op) == s.log[k].request
    ensures s.holder.None? ==> s.shared.flows == Abstract(s.log).flows
  {
    hide Abstract;
  }

  /**
   * For any number of threads and every interleaving of single steps, the log is an atomic
   * run in lock order with the replies given, each to the request made; no reply is a
   * missing key; and whenever the lock is free the dictionary is that of the atomic run.
   */
  lemma Atomic(n: nat, choices: seq<Choice>)
    ensures var s := Exec(Initial(n), choices, true);
      && Admissible(EMPTY, Ops(s.log))
      && Replies(EMPTY, Ops(s.log)) == LogReplies(s.log)
      && (forall k :: 0 <= k < |s.log| ==> RequestOf(s.log[k].op) == s.log[k].request && s.log[k].reply != Crash)
      && (s.holder.None? ==> s.shared.flows == Abstract(s.log).flows)
  {
    hide StateInv, Exec, Abstract, Inv, Admissible, Replies;
    ExecKeepsStateInv(n, choices);
    var s := Exec(Initial(n), choices, true);
    RunFacts(s);
    EmptyIsInv();
    RunKeepsInv(EMPTY, Ops(s.log));
    forall k | 0 <= k < |s.log| ensures s.log[k].reply != Crash {
      assert LogReplies(s.log)[k] == s.log[k].reply;
    }
  }

  /** Every flow in the dictionary is valid at every moment, inside the lock as well. */
  lemma ReachableFlowsAreValid(n: nat, choices: seq<Choice>)
    ensures var flows := Exec(Initial(n), choices, true).shared.flows;
      forall id :: id in flows.rows ==> ValidRow(id, flows.rows[id])
  {
    hide StateInv, Exec;
    ExecKeepsStateInv(n, choices);
    ValidNow(Exec(Initial(n), choices, true));
  }

  lemma ValidNow(s: System)
    requires StateInv(s)
    ensures forall id :: id in s.shared.flows.rows ==> ValidRow(id, s.shared.flows.rows[id])
  {
    hide LogIsAtomicRun, Abstract, Apply, ValidRow, Enabled, ThreadsFit, DrawsDiffer;
    if s.holder.Some? && s.threads[s.holder.value].pc.Releasing? {
      ApplyKeepsInv(Abstract(s.log), s.threads[s.holder.value].pc.op);
    }
  }

  /**
   * Racing deletes on any number of threads: of the deletes of a created flow exactly one
   * is answered 204, if there is any, and all the others 404.
   */
  lemma RacingDeletesOneWinner(n: nat, choices: seq<Choice>, i: nat, id: string)
    requires var log := Exec(Initial(n), choices, true).log;
      i < |log| && IsCreateOf(log[i].op, id)
    ensures var log := Exec(Initial(n), choices, true).log;
      && DeletedCount(Ops(log), LogReplies(log), id) == (if DeletedAfter(Ops(log), i, id) then 1 else 0)
      && (forall k :: i < k < |log| && log[k].op == Delete(id) ==> log[k].reply in {Deleted, NotFound})
  {
    hide Exec, Admissible, Replies, Inv, After, IsCreateOf, DeletedCount;
    Atomic(n, choices);
    EmptyIsInv();
    var log := Exec(Initial(n), choices, true).log;
    assert Ops(log)[i] == log[i].op;
    RacingDeletes(EMPTY, Ops(log), i, id);
    forall k | i < k < |log| && log[k].op == Delete(id) ensures log[k].reply in {Deleted, NotFound} {
      assert Ops(log)[k] == log[k].op && LogReplies(log)[k] == log[k].reply;
    }
  }

  lemma {:induction false} LogOnlyGrows(s: System, choices: seq<Choice>, locked: bool)
    ensures |s.log| <= |Exec(s, choices, locked).log| && Exec(s, choices, locked).log[..|s.log|] == s.log
    decreases |choices|
  {
    if choices != [] {
      hide Work;
      LogOnlyGrows(s, choices[..|choices| - 1], locked);
    }
  }

  lemma {:induction false} ExecConcatenates(s: System, a: seq<Choice>, b: seq<Choice>, locked: bool)
    ensures Exec(s, a + b, locked) == Exec(Exec(s, a, locked), b, locked)
    decreases |b|
  {
    hide Next;
    if b == [] {
      assert a + b == a;
    } else {
      ExecConcatenates(s, a, b[..|b| - 1], locked);
      assert (a + b)[..|a + b| - 1] == a + b[..|b| - 1];
    }
  }

  /**
   * Once a delete has been answered 204 the flow is not in the dictionary at any later
   * moment, whatever runs on: an update that raced the delete cannot bring it back, and
   * every request for it that gets the lock later is answered 404.
   */
  lemma DeletedStaysDeleted(n: nat, choices: seq<Choice>, more: seq<Choice>, i: nat, id: string)
    requires var log := Exec(Initial(n), choices, true).log;
      i < |log| && log[i].op == Delete(id) && log[i].reply == Deleted
    ensures var s := Exec(Initial(n), choices + more, true);
      && id !in s.shared.flows.rows
      && i < |s.log| && s.log[i].reply == Deleted
      && forall j :: i < j < |s.log| && Targets(s.log[j].op, id) ==> s.log[j].reply == NotFound
  {
    hide Exec, StateInv, Targets;
    ExecConcatenates(Initial(n), choices, more, true);
    LogOnlyGrows(Exec(Initial(n), choices, true), more, true);
    var s := Exec(Initial(n), choices + more, true);
    assert s.log[i] == Exec(Initial(n), choices, true).log[i] by {
      assert s.log[..|Exec(Initial(n), choices, true).log|][i] == s.log[i];
    }
    ExecKeepsStateInv(n, choices + more);
    DeletedNow(s, i, id);
  }

  lemma DeletedNow(s: System, i: nat, id: string)
    requires StateInv(s) && i < |s.log| && s.log[i].op == Delete(id) && s.log[i].reply == Deleted
    ensures id !in s.shared.flows.rows
    ensures forall j :: i < j < |s.log| && Targets(s.log[j].op, id) ==> s.log[j].reply == NotFound
  {
    hide ThreadsFit, DrawsDiffer, Admissible, Replies, Inv, Apply, Enabled, Targets, After;
    var ops, w := Ops(s.log), Abstract(s.log);
    EmptyIsInv();
    assert LogReplies(s.log)[i] == Deleted;
    DeletedMeansGone(EMPTY, ops, i, id);
    RunKeepsInv(EMPTY, ops);
    if s.holder.Some? && s.threads[s.holder.value].pc.Releasing? {
      GoneStaysGone(w, s.threads[s.holder.value].pc.op, id);
    }
    forall j | i < j < |s.log| && Targets(s.log[j].op, id) ensures s.log[j].reply == NotFound {
      assert ops[j] == s.log[j].op && LogReplies(s.log)[j] == s.log[j].reply;
    }
  }

  // ----- what the schedule asks for is what gets done -----

  /** Some choice of the schedule had this thread make this request. */
  ghost predicate Called(choices: seq<Choice>, thread: nat, request: Request) {
    exists i :: 0 <= i < |choices| && choices[i].thread == thread && choices[i].request == request
  }

  ghost predicate OnlyCalled(s: System, choices: seq<Choice>) {
    && (forall t :: 0 <= t < |s.threads| && !s.threads[t].pc.Idle? ==> Called(choices, t, s.threads[t].request))
    && (forall k :: 0 <= k < |s.log| ==> Called(choices, s.log[k].thread, s.log[k].request))
  }

  lemma CalledLater(choices: seq<Choice>, c: Choice)
    ensures forall t, r :: Called(choices, t, r) ==> Called(choices + [c], t, r)
    ensures Called(choices + [c], c.thread, c.request)
  {
    var more := choices + [c];
    forall t, r | Called(choices, t, r) ensures Called(more, t, r) {
      var i :| 0 <= i < |choices| && choices[i].thread == t && choices[i].request == r;
      assert more[i] == choices[i];
    }
    assert more[|choices|] == c;
  }

  lemma NextKeepsOnlyCalled(s: System, c: Choice, choices: seq<Choice>)
    requires OnlyCalled(s, choices)
    ensures OnlyCalled(Next(s, c, true), choices + [c])
  {
    CalledLater(choices, c);
    hide Called, Work, Arrive;
  }

  lemma {:induction false} ExecKeepsOnlyCalled(n: nat, choices: seq<Choice>)
    ensures OnlyCalled(Exec(Initial(n), choices, true), choices)
    decreases |choices|
  {
    hide OnlyCalled, Next;
    if choices == [] {
      NobodyCalledYet(n);
    } else {
      var head, c := choices[..|choices| - 1], choices[|choices| - 1];
      ExecKeepsOnlyCalled(n, head);
      NextKeepsOnlyCalled(Exec(Initial(n), head, true), c, head);
      assert choices == head + [c];
    }
  }

  lemma NobodyCalledYet(n: nat)
    ensures OnlyCalled(Initial(n), [])
  {
  }

  /** Every commit is a request that the schedule had the same thread make. */
  lemma CommitsWereCalled(n: nat, choices: seq<Choice>)
    ensures var log := Exec(Initial(n), choices, true).log;
      forall k :: 0 <= k < |log| ==> Called(choices, log[k].thread, log[k].request)
  {
    hide Exec, Called;
    ExecKeepsOnlyCalled(n, choices);
  }

  // ----- calls finish -----

  /** The operation is a run of this request. */
  predicate Runs(op: Op, request: Request) {
    match request
    case CreateFlow(payload) => op.Create? && op.payload == payload
    case UpdateFlow(id, patch) => op.Patch? && op.id == id && op.patch == patch
    case DeleteFlow(id) => op == Delete(id)
    case GetFlow(id) => op == Get(id)
    case ListFlows => op == List
  }

  /** `log'` has one entry more: this call of thread `t`, replying what the atomic operation replies. */
  ghost predicate Served(log: seq<Commit>, log': seq<Commit>, t: nat, request: Request) {
    && |log'| == |log| + 1 && log'[..|log|] == log
    && var e := log'[|log|];
       && e.thread == t && e.request == request && RequestOf(e.op) == request && Runs(e.op, request)
       && e.reply == Apply(Abstract(log), e.op).1
  }

  /** A new flow bears this uuid, and a new or changed flow this time. */
  predicate Stamped(e: Commit, uuid: string, now: int) {
    && (e.op.Create? ==> e.op.uuid == uuid && e.op.at == now)
    && (e.op.Patch? && e.reply.Found? ==> e.op.now == now)
  }

  /** What is needed at each point for the operation to come out so stamped. */
  predicate WillStamp(pc: Pc, clock: int, uuid: string, tick: nat, now: int) {
    match pc
    case CreateClock(_) => now == clock + tick
    case CreateMint(_, at) => now == at
    case Waiting(next) => WillStamp(next, clock, uuid, tick, now)
    case CreateWrite(_, u, at) => now == at && uuid == u
    case UpdateCheck(_, _) => now == clock + tick
    case UpdateRead(_, _) => now == clock + tick
    case UpdateClock(_, _, _) => now == clock + tick
    case UpdateWrite(_, _, _, at) => now == at
    case Releasing(op, reply) => Stamped(Commit(0, RequestOf(op), op, reply), uuid, now)
    case _ => true
  }

  /** The schedule that runs thread `t` alone; `request`, `uuid` and `tick` are what it would be given. */
  function Alone(t: nat, request: Request, uuid: string, tick: nat, steps: nat): seq<Choice> {
    seq(steps, _ => Choice(t, request, uuid, tick))
  }

  lemma AloneStep(s: System, t: nat, request: Request, uuid: string, tick: nat, steps: nat)
    ensures Exec(s, Alone(t, request, uuid, tick, 1), true) == Next(s, Choice(t, request, uuid, tick), true)
    ensures Exec(s, Alone(t, request, uuid, tick, steps + 1), true)
         == Exec(Next(s, Choice(t, request, uuid, tick), true), Alone(t, request, uuid, tick, steps), true)
  {
    hide Next;
    var one := Alone(t, request, uuid, tick, 1);
    assert one[..0] == [];
    assert Exec(s, one, true) == Next(Exec(s, one[..0], true), one[0], true);
    assert Alone(t, request, uuid, tick, steps + 1) == one + Alone(t, request, uuid, tick, steps);
    ExecConcatenates(s, one, Alone(t, request, uuid, tick, steps), true);
  }

  /** How many steps are left before the release, when no other thread is in the way. */
  function StepsLeft(pc: Pc): nat {
    match pc
    case CreateClock(_) => 4
    case CreateMint(_, _) => 3
    case Waiting(next) => StepsLeft(next) + 1
    case CreateWrite(_, _, _) => 1
    case UpdateCheck(_, _) => 4
    case UpdateRead(_, _) => 3
    case UpdateClock(_, _, _) => 2
    case UpdateWrite(_, _, _, _) => 1
    case DeleteCheck(_) => 2
    case DeletePop(_) => 1
    case GetCheck(_) => 2
    case GetRead(_) => 1
    case ListRead => 1
    case _ => 0
  }

  predicate NeedsId(pc: Pc) {
    pc.CreateClock? || pc.CreateMint?
  }

  /** With a fresh uuid at hand every step of a handler comes closer to the release. */
  lemma WorkGetsCloser(sh: Shared, pc: Pc, uuid: string, tick: nat)
    requires Working(pc) && (NeedsId(pc) ==> MintId(uuid) !in sh.drawn)
    ensures var (sh', pc') := Work(sh, pc, uuid, tick);
      && !pc'.Idle? && StepsLeft(pc') < StepsLeft(pc)
      && (NeedsId(pc') ==> MintId(uuid) !in sh'.drawn)
  {
    hide MintId, NewRow, ModelCopy, Update;
  }

  lemma WaitsOrHolds(s: System, t: nat)
    requires StateInv(s) && t < |s.threads|
    ensures Critical(s.threads[t].pc) <==> s.holder == Some(t)
    ensures s.threads[t].pc.Waiting? ==> EntersLock(s.threads[t].pc.next)
    ensures !s.threads[t].pc.Idle? ==> Serving(s.threads[t].pc) == Some(s.threads[t].request)
  {
    assert ThreadFits(s, t);
  }

  lemma InsideNow(s: System, t: nat)
    requires StateInv(s) && t < |s.threads| && Critical(s.threads[t].pc)
    ensures Inside(s.threads[t].pc, s.shared, Abstract(s.log))
  {
    hide LogIsAtomicRun, Abstract, Inside, Fits;
    WaitsOrHolds(s, t);
  }

  lemma CompleteRuns(pc: Pc, sh: Shared, w: World, request: Request)
    requires pc.Releasing? && Inside(pc, sh, w) && Serving(pc) == Some(request)
    ensures RequestOf(pc.op) == request && Runs(pc.op, request) && pc.reply == Apply(w, pc.op).1
  {
    hide Apply, Enabled, Inv;
  }

  /** The operation about to be logged runs the thread's request, with the reply of the atomic operation. */
  lemma ReleasesWhatWasAsked(s: System, t: nat)
    requires StateInv(s) && t < |s.threads| && s.threads[t].pc.Releasing?
    ensures var me := s.threads[t];
      && RequestOf(me.pc.op) == me.request && Runs(me.pc.op, me.request)
      && me.pc.reply == Apply(Abstract(s.log), me.pc.op).1
  {
    hide StateInv, Abstract, Inside, Apply, Serving, Runs, RequestOf;
    WaitsOrHolds(s, t);
    InsideNow(s, t);
    CompleteRuns(s.threads[t].pc, s.shared, Abstract(s.log), s.threads[t].request);
  }

  /** One step of the thread with the lock free or its own: it goes on, or it is served. */
  lemma StepAlone(s: System, c: Choice)
    requires StateInv(s) && c.thread < |s.threads| && !s.threads[c.thread].pc.Idle?
    requires s.holder.None? || s.holder == Some(c.thread)
    requires NeedsId(s.threads[c.thread].pc) ==> MintId(c.uuid) !in s.shared.drawn
    ensures var s', pc := Next(s, c, true), s.threads[c.thread].pc;
      && s'.threads == Goto(s, c.thread, s'.threads[c.thread].pc)
      && (s'.holder.None? || s'.holder == Some(c.thread))
      && if pc.Releasing? then s'.threads[c.thread].pc.Idle? && s'.holder.None?
         else && !s'.threads[c.thread].pc.Idle? && s'.log == s.log && StepsLeft(s'.threads[c.thread].pc) < StepsLeft(pc)
              && (NeedsId(s'.threads[c.thread].pc) ==> MintId(c.uuid) !in s'.shared.drawn)
  {
    WaitsOrHolds(s, c.thread);
    if Working(s.threads[c.thread].pc) {
      WorkGetsCloser(s.shared, s.threads[c.thread].pc, c.uuid, c.tick);
    }
    hide StateInv, Work, MintId, Serving;
  }

  lemma ReleaseServes(s: System, c: Choice)
    requires StateInv(s) && c.thread < |s.threads| && s.threads[c.thread].pc.Releasing?
    ensures Served(s.log, Next(s, c, true).log, c.thread, s.threads[c.thread].request)
  {
    ReleasesWhatWasAsked(s, c.thread);
    ReleaseLogs(s, c);
    hide StateInv, Abstract, Apply, Runs, RequestOf, Next;
  }

  lemma ReleaseLogs(s: System, c: Choice)
    requires c.thread < |s.threads| && s.threads[c.thread].pc.Releasing?
    ensures var me := s.threads[c.thread];
      Next(s, c, true).log == s.log + [Commit(c.thread, me.request, me.pc.op, me.pc.reply)]
  {
  }

  lemma WorkKeepsStamp(sh: Shared, pc: Pc, uuid: string, tick: nat, now: int)
    requires Working(pc) && WillStamp(pc, sh.clock, uuid, tick, now)
    ensures var (sh', pc') := Work(sh, pc, uuid, tick); WillStamp(pc', sh'.clock, uuid, tick, now)
  {
    hide MintId, NewRow, ModelCopy, Update, RequestOf;
  }

  lemma StepKeepsStamp(s: System, c: Choice, now: int)
    requires StateInv(s) && c.thread < |s.threads|
    requires !s.threads[c.thread].pc.Idle? && !s.threads[c.thread].pc.Releasing?
    requires WillStamp(s.threads[c.thread].pc, s.shared.clock, c.uuid, c.tick, now)
    ensures var s' := Next(s, c, true); WillStamp(s'.threads[c.thread].pc, s'.shared.clock, c.uuid, c.tick, now)
  {
    hide StateInv, Work;
    if Working(s.threads[c.thread].pc) {
      WorkKeepsStamp(s.shared, s.threads[c.thread].pc, c.uuid, c.tick, now);
    }
  }

  lemma StampOfRelease(pc: Pc, clock: int, e: Commit, uuid: string, tick: nat, now: int)
    requires pc.Releasing? && e.op == pc.op && e.reply == pc.reply
    ensures WillStamp(pc, clock, uuid, tick, now) <==> Stamped(e, uuid, now)
  {
  }

  /** From any point of a call, with no other thread in the lock, its thread run alone completes it. */
  lemma {:induction false} CallFinishes(s: System, t: nat, request: Request, uuid: string, tick: nat, now: int)
    returns (steps: nat)
    requires StateInv(s) && t < |s.threads| && !s.threads[t].pc.Idle? && (s.holder.None? || s.holder == Some(t))
    requires NeedsId(s.threads[t].pc) ==> MintId(uuid) !in s.shared.drawn
    ensures steps <= StepsLeft(s.threads[t].pc) + 1
    ensures var s' := Exec(s, Alone(t, request, uuid, tick, steps), true);
      && s'.threads == Goto(s, t, Idle) && s'.holder.None?
      && Served(s.log, s'.log, t, s.threads[t].request)
      && (WillStamp(s.threads[t].pc, s.shared.clock, uuid, tick, now) ==> Stamped(s'.log[|s.log|], uuid, now))
    decreases StepsLeft(s.threads[t].pc)
  {
    hide StateInv, NeedsId, StepsLeft, Served, Next, Exec, Alone, MintId, WillStamp, Stamped;
    var c := Choice(t, request, uuid, tick);
    StepAlone(s, c);
    if s.threads[t].pc.Releasing? {
      steps := 1;
      ReleaseServes(s, c);
      ReleaseLogs(s, c);
      StampOfRelease(s.threads[t].pc, s.shared.clock, Next(s, c, true).log[|s.log|], uuid, tick, now);
      AloneStep(s, t, request, uuid, tick, 0);
    } else {
      NextKeepsStateInv(s, c);
      if WillStamp(s.threads[t].pc, s.shared.clock, uuid, tick, now) {
        StepKeepsStamp(s, c, now);
      }
      var rest := CallFinishes(Next(s, c, true), t, request, uuid, tick, now);
      steps := rest + 1;
      AloneStep(s, t, request, uuid, tick, rest);
    }
  }

  lemma Arrival(s: System, t: nat, request: Request, uuid: string, tick: nat)
    requires t < |s.threads| && s.threads[t].pc.Idle?
    ensures var s' := Exec(s, Alone(t, request, uuid, tick, 1), true);
      && s' == s.(threads := s.threads[t := Thread(Arrive(request), request)])
      && !Arrive(request).Idle? && StepsLeft(Arrive(request)) <= 5
      && WillStamp(Arrive(request), s.shared.clock, uuid, tick, s.shared.clock + tick)
  {
    AloneStep(s, t, request, uuid, tick, 0);
    ArrivesUnburdened(request);
    ShortWay(request, s.shared.clock, uuid, tick);
    hide Arrive, StepsLeft, Exec, Alone, WillStamp;
  }

  lemma ShortWay(request: Request, clock: int, uuid: string, tick: nat)
    ensures StepsLeft(Arrive(request)) <= 5 && WillStamp(Arrive(request), clock, uuid, tick, clock + tick)
  {
  }

  /**
   * Every call gets served: whenever the lock is free, any idle thread that makes any
   * request and is given an unused uuid is idle again after at most seven steps of its
   * own, and the log has exactly this call, with the reply of the atomic operation, a new
   * flow with that uuid and new or changed records with the clock's next reading.
   */
  lemma EveryCallIsServed(n: nat, choices: seq<Choice>, t: nat, request: Request, uuid: string, tick: nat)
    returns (steps: nat)
    requires var s := Exec(Initial(n), choices, true);
      s.holder.None? && t < |s.threads| && s.threads[t].pc.Idle? && MintId(uuid) !in s.shared.drawn
    ensures steps <= 7
    ensures var s := Exec(Initial(n), choices, true);
      var s' := Exec(Initial(n), choices + Alone(t, request, uuid, tick, steps), true);
      && t < |s'.threads| && s'.threads[t].pc.Idle? && s'.holder.None?
      && (forall o :: 0 <= o < |s.threads| && o != t ==> o < |s'.threads| && s'.threads[o] == s.threads[o])
      && Served(s.log, s'.log, t, request) && Stamped(s'.log[|s.log|], uuid, s.shared.clock + tick)
  {
    hide StateInv, Exec, Served, Alone, Arrive, MintId, NeedsId, StepsLeft, WillStamp, Stamped;
    var s := Exec(Initial(n), choices, true);
    Arrival(s, t, request, uuid, tick);
    ExecConcatenates(Initial(n), choices, Alone(t, request, uuid, tick, 1), true);
    ExecKeepsStateInv(n, choices + Alone(t, request, uuid, tick, 1));
    var called := Exec(s, Alone(t, request, uuid, tick, 1), true);
    var rest := CallFinishes(called, t, request, uuid, tick, s.shared.clock + tick);
    steps := 1 + rest;
    AloneConcatenates(t, request, uuid, tick, 1, rest);
    ExecConcatenates(s, Alone(t, request, uuid, tick, 1), Alone(t, request, uuid, tick, rest), true);
    ExecConcatenates(Initial(n), choices, Alone(t, request, uuid, tick, steps), true);
  }

  lemma AloneConcatenates(t: nat, request: Request, uuid: string, tick: nat, a: nat, b: nat)
    ensures Alone(t, request, uuid, tick, a) + Alone(t, request, uuid, tick, b) == Alone(t, request, uuid, tick, a + b)
  {
  }

  /** The lock is never stuck: whoever holds it, run alone, gives it up after at most five steps, its call served. */
  lemma LockIsReleased(n: nat, choices: seq<Choice>) returns (steps: nat)
    requires Exec(Initial(n), choices, true).holder.Some?
    ensures steps <= 5
    ensures var s := Exec(Initial(n), choices, true);
      var t := s.holder.value;
      var s' := Exec(Initial(n), choices + Alone(t, ListFlows, "", 0, steps), true);
      && s'.holder.None? && t < |s.threads| && Served(s.log, s'.log, t, s.threads[t].request)
  {
    hide StateInv, Exec, Served, Alone;
    ExecKeepsStateInv(n, choices);
    var s := Exec(Initial(n), choices, true);
    HolderIsInside(s);
    steps := CallFinishes(s, s.holder.value, ListFlows, "", 0, 0);
    ExecConcatenates(Initial(n), choices, Alone(s.holder.value, ListFlows, "", 0, steps), true);
  }

  lemma HolderIsInside(s: System)
    requires StateInv(s) && s.holder.Some?
    ensures s.holder.value < |s.threads|
    ensures var pc := s.threads[s.holder.value].pc; Critical(pc) && !NeedsId(pc) && StepsLeft(pc) <= 4
  {
    hide LogIsAtomicRun, ThreadsFit, Inside, Abstract;
  }

  // ----- the listing -----

  /** `list_flows` is the order in which creates got the lock, restricted to the survivors. */
  lemma ListingIsCommitOrder(n: nat, choices: seq<Choice>)
    ensures var s := Exec(Initial(n), choices, true);
      s.holder.None? ==> s.shared.flows.order == Only(CreatedIds(Ops(s.log)), s.shared.flows.rows.Keys)
  {
    hide Exec, Admissible, Replies, After;
    Atomic(n, choices);
    OrderIsCommitOrder(Ops(Exec(Initial(n), choices, true).log));
  }

  /**
   * The listing after the operations of the log is sorted by creation time iff of any two
   * creates in it whose flows are live at the end, the one that got the lock first also
   * read the clock first.
   */
  lemma ListingSortedIff(n: nat, choices: seq<Choice>)
    ensures var log := Exec(Initial(n), choices, true).log;
      var flows := Abstract(log).flows;
      SortedByCreation(flows.Values()) <==>
      forall i, j :: 0 <= i < j < |log| && CreatedLive(log[i].op, flows.rows.Keys) && CreatedLive(log[j].op, flows.rows.Keys)
                     ==> log[i].op.at <= log[j].op.at
  {
    hide Exec, Admissible, Replies, After, SortedByCreation;
    Atomic(n, choices);
    var log := Exec(Initial(n), choices, true).log;
    SortedIffClockOrder(Ops(log));
    assert forall i :: 0 <= i < |log| ==> Ops(log)[i] == log[i].op;
  }

  // ----- creates that do not overlap -----

  /** From its clock reading to its lock release a create is in flight. */
  predicate InFlight(pc: Pc) {
    ReadAt(pc).Some?
  }

  ghost predicate AtMostOneInFlight(s: System) {
    forall t, u :: 0 <= t < |s.threads| && 0 <= u < |s.threads| && InFlight(s.threads[t].pc) && InFlight(s.threads[u].pc)
                   ==> t == u
  }

  /** At no moment of the schedule are two creates in flight. */
  ghost predicate NeverOverlap(n: nat, choices: seq<Choice>) {
    forall k :: 0 <= k <= |choices| ==> AtMostOneInFlight(Exec(Initial(n), choices[..k], true))
  }

  /** Committed creates are in clock order, and none is later than one in flight or than the clock. */
  ghost predicate StampsOrdered(s: System) {
    && (forall i, j :: 0 <= i < j < |s.log| && s.log[i].op.Create? && s.log[j].op.Create? ==> s.log[i].op.at <= s.log[j].op.at)
    && (forall i :: 0 <= i < |s.log| && s.log[i].op.Create? ==> s.log[i].op.at <= s.shared.clock)
    && (forall i, t :: 0 <= i < |s.log| && s.log[i].op.Create? && 0 <= t < |s.threads| && InFlight(s.threads[t].pc)
                       ==> s.log[i].op.at <= ReadAt(s.threads[t].pc).value)
  }

  /** What a step of a handler does to the time a create carries. */
  lemma WorkAndTime(sh: Shared, pc: Pc, uuid: string, tick: nat)
    requires Working(pc)
    ensures var (sh', pc') := Work(sh, pc, uuid, tick);
      && sh.clock <= sh'.clock
      && ReadAt(pc') == (if pc.CreateClock? then Some(sh'.clock) else ReadAt(pc))
  {
  }

  lemma ReleaseKeepsStampsOrdered(s: System, c: Choice)
    requires StampsOrdered(s) && AtMostOneInFlight(s) && c.thread < |s.threads| && s.threads[c.thread].pc.Releasing?
    requires InFlight(s.threads[c.thread].pc) ==> ReadAt(s.threads[c.thread].pc).value <= s.shared.clock
    ensures StampsOrdered(Next(s, c, true))
  {
  }

  lemma WorkKeepsStampsOrdered(s: System, c: Choice)
    requires StampsOrdered(s) && c.thread < |s.threads| && Working(s.threads[c.thread].pc)
    ensures StampsOrdered(Next(s, c, true))
  {
    WorkAndTime(s.shared, s.threads[c.thread].pc, c.uuid, c.tick);
    hide Work, ReadAt;
  }

  lemma CallOrAcquireKeepsStampsOrdered(s: System, c: Choice)
    requires StampsOrdered(s) && c.thread < |s.threads|
    requires s.threads[c.thread].pc.Idle? || s.threads[c.thread].pc.Waiting?
    ensures StampsOrdered(Next(s, c, true))
  {
    ArrivesUnburdened(c.request);
    hide Arrive;
  }

  lemma NextKeepsStampsOrdered(s: System, c: Choice)
    requires StateInv(s) && StampsOrdered(s) && AtMostOneInFlight(s)
    ensures StampsOrdered(Next(s, c, true))
  {
    hide StateInv, Work, StampsOrdered, AtMostOneInFlight;
    if c.thread < |s.threads| {
      var pc := s.threads[c.thread].pc;
      CarriedTimesArePast(s, c.thread);
      if Working(pc) {
        WorkKeepsStampsOrdered(s, c);
      } else if pc.Releasing? {
        ReleaseKeepsStampsOrdered(s, c);
      } else {
        CallOrAcquireKeepsStampsOrdered(s, c);
      }
    }
  }

  lemma CarriedTimesArePast(s: System, t: nat)
    requires StateInv(s) && t < |s.threads|
    ensures InFlight(s.threads[t].pc) ==> ReadAt(s.threads[t].pc).value <= s.shared.clock
  {
    assert ThreadFits(s, t);
  }

  lemma {:induction false} ExecKeepsStampsOrdered(n: nat, choices: seq<Choice>)
    requires NeverOverlap(n, choices)
    ensures StampsOrdered(Exec(Initial(n), choices, true))
    decreases |choices|
  {
    hide StateInv, StampsOrdered, Next, AtMostOneInFlight;
    if choices == [] {
      assert StampsOrdered(Initial(n)) by { InitialStamps(n); }
    } else {
      var head := choices[..|choices| - 1];
      forall k | 0 <= k <= |head| ensures AtMostOneInFlight(Exec(Initial(n), head[..k], true)) {
        assert head[..k] == choices[..k];
      }
      assert head[..|head|] == head;
      ExecKeepsStampsOrdered(n, head);
      ExecKeepsStateInv(n, head);
      NextKeepsStampsOrdered(Exec(Initial(n), head, true), choices[|choices| - 1]);
    }
  }

  lemma InitialStamps(n: nat)
    ensures StampsOrdered(Initial(n))
  {
  }

  /** If no two creates overlap, the listing is sorted by creation time. */
  lemma SequentialCreatesAreSorted(n: nat, choices: seq<Choice>)
    requires NeverOverlap(n, choices)
    ensures SortedByCreation(Abstract(Exec(Initial(n), choices, true).log).flows.Values())
  {
    hide Exec, NeverOverlap, SortedByCreation, Abstract;
    ExecKeepsStampsOrdered(n, choices);
    ListingSortedIff(n, choices);
  }

  // ----- schedules -----

  /** Some schedule of `n` threads leads to `s`. */
  ghost predicate Reachable(n: nat, s: System, locked: bool) {
    exists choices :: Exec(Initial(n), choices, locked) == s
  }

  lemma ReachNext(n: nat, s: System, c: Choice, locked: bool)
    requires Reachable(n, s, locked)
    ensures Reachable(n, Next(s, c, locked), locked)
  {
    hide Next;
    var choices :| Exec(Initial(n), choices, locked) == s;
    assert (choices + [c])[..|choices + [c]| - 1] == choices;
    assert Exec(Initial(n), choices + [c], locked) == Next(s, c, locked);
  }

  lemma ReachInitial(n: nat, locked: bool)
    ensures Reachable(n, Initial(n), locked)
  {
    assert Exec(Initial(n), [], locked) == Initial(n);
  }

  /** A step of a handler, spelled out. */
  lemma WorkStep(n: nat, s: System, c: Choice, locked: bool) returns (s': System)
    requires Reachable(n, s, locked) && c.thread < |s.threads| && Working(s.threads[c.thread].pc)
    ensures Reachable(n, s', locked)
    ensures var (shared, pc) := Work(s.shared, s.threads[c.thread].pc, c.uuid, c.tick);
      s' == s.(threads := Goto(s, c.thread, pc), shared := shared)
  {
    hide Work;
    ReachNext(n, s, c, locked);
    s' := Next(s, c, locked);
  }

  /** Call a create, read the clock one tick later, and draw an id. */
  lemma DrawFlow(n: nat, s: System, t: nat, payload: FlowCreate, uuid: string, locked: bool) returns (s': System)
    requires Reachable(n, s, locked) && t < |s.threads| && s.threads[t].pc.Idle? && MintId(uuid) !in s.shared.drawn
    ensures Reachable(n, s', locked)
    ensures s'.threads == s.threads[t := Thread(Waiting(CreateWrite(payload, uuid, s.shared.clock + 1)), CreateFlow(payload))]
    ensures s'.shared == Shared(s.shared.flows, s.shared.clock + 1, s.shared.drawn + {MintId(uuid)})
    ensures s'.log == s.log && s'.holder == s.holder
  {
    hide Reachable, MintId;
    var c := Choice(t, CreateFlow(payload), uuid, 1);
    ReachNext(n, s, c, locked);
    s' := Next(s, c, locked);
    s' := WorkStep(n, s', c, locked);
    s' := WorkStep(n, s', c, locked);
  }

  /** Take the free lock. */
  lemma Acquire(n: nat, s: System, t: nat, locked: bool) returns (s': System)
    requires Reachable(n, s, locked) && t < |s.threads| && s.threads[t].pc.Waiting? && (locked ==> s.holder.None?)
    ensures Reachable(n, s', locked)
    ensures s' == s.(threads := Goto(s, t, s.threads[t].pc.next), holder := Some(t))
  {
    var c := Choice(t, ListFlows, "", 0);
    ReachNext(n, s, c, locked);
    s' := Next(s, c, locked);
  }

  /** Release the lock and return. */
  lemma Release(n: nat, s: System, t: nat, locked: bool) returns (s': System)
    requires Reachable(n, s, locked) && t < |s.threads| && s.threads[t].pc.Releasing?
    ensures Reachable(n, s', locked)
    ensures s' == s.(threads := Goto(s, t, Idle), holder := None,
                     log := s.log + [Commit(t, s.threads[t].request, s.threads[t].pc.op, s.threads[t].pc.reply)])
  {
    var c := Choice(t, ListFlows, "", 0);
    ReachNext(n, s, c, locked);
    s' := Next(s, c, locked);
  }

  /** Insert the flow under the lock. */
  lemma CommitFlow(n: nat, s: System, t: nat, locked: bool) returns (s': System)
    requires Reachable(n, s, locked) && t < |s.threads| && (locked ==> s.holder.None?)
    requires s.threads[t].pc.Waiting? && s.threads[t].pc.next.CreateWrite?
    ensures Reachable(n, s', locked)
    ensures var pc := s.threads[t].pc.next;
      var row := NewRow(MintId(pc.uuid), pc.payload, pc.at);
      && s'.threads == Goto(s, t, Idle)
      && s'.shared == s.shared.(flows := s.shared.flows.Put(MintId(pc.uuid), row))
      && s'.log == s.log + [Commit(t, s.threads[t].request, Create(pc.payload, pc.uuid, pc.at), Created(row))]
      && s'.holder == None
  {
    hide Reachable, MintId, NewRow;
    s' := Acquire(n, s, t, locked);
    s' := WorkStep(n, s', Choice(t, ListFlows, "", 0), locked);
    s' := Release(n, s', t, locked);
  }

  /** The listing need not be sorted: a thread can read the clock first and get the lock second. */
  lemma ListingCanBeUnsorted(payload: FlowCreate, a: string, b: string)
    requires MintId(a) != MintId(b)
    ensures exists s :: Reachable(2, s, true) && s.holder.None? && !SortedByCreation(s.shared.flows.Values())
  {
    hide Reachable, SortedByCreation, NewRow, MintId, ValuesIn;
    ReachInitial(2, true);
    var s := DrawFlow(2, Initial(2), 0, payload, a, true);
    s := DrawFlow(2, s, 1, payload, b, true);
    s := CommitFlow(2, s, 1, true);
    s := CommitFlow(2, s, 0, true);
    var first, second := NewRow(MintId(b), payload, 2), NewRow(MintId(a), payload, 1);
    assert s.shared.flows == Dict([], map[]).Put(MintId(b), first).Put(MintId(a), second);
    NewRowIsValid(MintId(b), payload, 2);
    NewRowIsValid(MintId(a), payload, 1);
    LaterFirst(s.shared.flows.order, s.shared.flows.rows);
  }

  lemma LaterFirst(order: seq<string>, rows: map<string, Row>)
    requires |order| == 2 && order[0] in rows && order[1] in rows
    requires Stamp(rows[order[0]], CreatedAt) > Stamp(rows[order[1]], CreatedAt)
    ensures !SortedByCreation(ValuesIn(order, rows))
  {
    ValuesFollowOrder(order, rows);
    var rows' := ValuesIn(order, rows);
    assert Stamp(rows'[0], CreatedAt) > Stamp(rows'[1], CreatedAt);
  }

  /** Call a request and, with no lock in the way, pass its membership test. */
  lemma PassCheck(n: nat, s: System, t: nat, request: Request) returns (s': System)
    requires Reachable(n, s, false) && t < |s.threads| && s.threads[t].pc.Idle?
    requires (request.UpdateFlow? || request.DeleteFlow?) && request.id in s.shared.flows.rows
    ensures Reachable(n, s', false)
    ensures var pc := if request.UpdateFlow? then UpdateRead(request.id, request.patch) else DeletePop(request.id);
      s'.threads == s.threads[t := Thread(pc, request)] && s'.shared == s.shared && s'.log == s.log
  {
    hide Reachable;
    var c := Choice(t, request, "", 0);
    ReachNext(n, s, c, false);
    s' := Next(s, c, false);
    s' := Acquire(n, s', t, false);
    s' := WorkStep(n, s', c, false);
  }

  /** Create a flow on thread 0, from nothing. */
  lemma OneFlow(payload: FlowCreate, uuid: string) returns (s: System)
    ensures Reachable(2, s, false)
    ensures |s.threads| == 2 && s.threads[0].pc.Idle? && s.threads[1].pc.Idle?
    ensures MintId(uuid) in s.shared.flows.rows && |s.log| == 1
  {
    hide Reachable, MintId, NewRow;
    ReachInitial(2, false);
    s := DrawFlow(2, Initial(2), 0, payload, uuid, false);
    s := CommitFlow(2, s, 0, false);
  }

  /** Without the lock an update racing a delete brings the deleted flow back, after the 204. */
  lemma WithoutLockDeletedFlowRevives(payload: FlowCreate, uuid: string, patch: FlowUpdate)
    ensures exists s :: Reachable(2, s, false) && |s.log| == 3
              && s.log[1].op == Delete(MintId(uuid)) && s.log[1].reply == Deleted
              && s.log[2].reply.Found? && MintId(uuid) in s.shared.flows.rows
  {
    hide Reachable, MintId, ModelCopy, Update;
    var id, c0, c1 := MintId(uuid), Choice(0, ListFlows, "", 0), Choice(1, ListFlows, "", 0);
    var s := OneFlow(payload, uuid);
    s := PassCheck(2, s, 0, UpdateFlow(id, patch));
    s := WorkStep(2, s, c0, false);
    s := WorkStep(2, s, c0, false);
    s := PassCheck(2, s, 1, DeleteFlow(id));
    s := WorkStep(2, s, c1, false);
    s := Release(2, s, 1, false);
    s := WorkStep(2, s, c0, false);
    s := Release(2, s, 0, false);
  }

  /** Without the lock the second of two racing deletes can fail on the missing key. */
  lemma WithoutLockDeletesCrash(payload: FlowCreate, uuid: string)
    ensures exists s :: Reachable(2, s, false) && |s.log| == 3
              && s.log[1].op == s.log[2].op == Delete(MintId(uuid)) && s.log[1].reply == Deleted && s.log[2].reply == Crash
  {
    hide Reachable, MintId;
    var id, c0, c1 := MintId(uuid), Choice(0, ListFlows, "", 0), Choice(1, ListFlows, "", 0);
    var s := OneFlow(payload, uuid);
    s := PassCheck(2, s, 0, DeleteFlow(id));
    s := PassCheck(2, s, 1, DeleteFlow(id));
    s := WorkStep(2, s, c1, false);
    s := Release(2, s, 1, false);
    s := WorkStep(2, s, c0, false);
    s := Release(2, s, 0, false);
  }
}
