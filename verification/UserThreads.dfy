/**
 * The handlers on a threadpool: any number of threads, each with its own program
 * counter, where taking the lock, every dictionary read or write, the clock and the
 * uuid supply are separate steps. Inside the lock the two dictionaries disagree for
 * a while; the theorems say that no caller can tell.
 */
module UserSteps {
  import opened Wrappers
  import opened OrderedDict
  import opened PartialUpdate
  import opened UserModel
  import opened UserDirectory
  import opened UserIndex

  datatype Request =
    | CreateUser(payload: UserCreate)
    | UpdateUser(id: string, patch: UserUpdate)
    | DeleteUser(id: string)
    | GetUser(id: string)
    | GetUserByUsername(name: string)
    | ListUsers

  function RequestOf(op: Op): Request {
    match op
    case Create(payload, _, _) => CreateUser(payload)
    case Patch(id, patch, _) => UpdateUser(id, patch)
    case Delete(id) => DeleteUser(id)
    case Get(id) => GetUser(id)
    case ByUsername(name) => GetUserByUsername(name)
    case List => ListUsers
  }

  /** Where a thread is; each critical point names the step it is about to take. */
  datatype Pc =
    | Idle
    | Waiting(request: Request)
    | CreateCheck(payload: UserCreate)
    | CreateClock(payload: UserCreate)
    | CreateMint(payload: UserCreate, now: int)
    | CreateWriteUser(payload: UserCreate, uuid: string, now: int)
    | CreateWriteIndex(payload: UserCreate, uuid: string, now: int)
    | UpdateCheck(id: string, patch: UserUpdate)
    | UpdateRead(id: string, patch: UserUpdate)
    | UpdateOwner(id: string, patch: UserUpdate, existing: Row)
    | UpdateClock(id: string, patch: UserUpdate, existing: Row)
    | UpdateWriteUser(id: string, patch: UserUpdate, existing: Row, now: int)
    | UpdatePopIndex(id: string, patch: UserUpdate, existing: Row, now: int)
    | UpdateWriteIndex(id: string, patch: UserUpdate, existing: Row, now: int)
    | DeleteCheck(id: string)
    | DeletePopUser(id: string)
    | DeletePopIndex(id: string, user: Row)
    | GetCheck(id: string)
    | GetRead(id: string)
    | NameLookup(name: string)
    | NameGuard(name: string, id: string)
    | NameRead(name: string, id: string)
    | ListRead
    | Releasing(op: Op, reply: Reply)
    | Answering(reply: Reply, entry: nat)

  predicate Critical(pc: Pc) {
    !pc.Idle? && !pc.Waiting? && !pc.Answering?
  }

  /** The request a critical point works on. */
  function Serving(pc: Pc): Request
    requires Critical(pc)
  {
    if pc.Releasing? then RequestOf(pc.op)
    else if pc.CreateCheck? || pc.CreateClock? || pc.CreateMint? || pc.CreateWriteUser? || pc.CreateWriteIndex?
    then CreateUser(pc.payload)
    else if pc.DeleteCheck? || pc.DeletePopUser? || pc.DeletePopIndex? then DeleteUser(pc.id)
    else if pc.GetCheck? || pc.GetRead? then GetUser(pc.id)
    else if pc.NameLookup? || pc.NameGuard? || pc.NameRead? then GetUserByUsername(pc.name)
    else if pc.ListRead? then ListUsers
    else UpdateUser(pc.id, pc.patch)
  }

  function Entry(request: Request): Pc {
    match request
    case CreateUser(payload) => CreateCheck(payload)
    case UpdateUser(id, patch) => UpdateCheck(id, patch)
    case DeleteUser(id) => DeleteCheck(id)
    case GetUser(id) => GetCheck(id)
    case GetUserByUsername(name) => NameLookup(name)
    case ListUsers => ListRead
  }

  /** What the threads share: the two dictionaries, the wall clock, and the ids drawn so far. */
  datatype Shared = Shared(users: Dict<string, Row>, index: Index, clock: int, minted: set<string>)

  /** One step inside the lock. `uuid` and `tick` are what the supply and the clock deliver now. */
  function Work(sh: Shared, pc: Pc, uuid: string, tick: nat): (Shared, Pc)
    requires Critical(pc)
  {
    match pc
    case CreateCheck(payload) =>
      (sh, if Str(payload.username) in sh.index then Releasing(Create(payload, "", sh.clock), Conflict)
           else CreateClock(payload))
    case CreateClock(payload) =>
      (sh.(clock := sh.clock + tick), CreateMint(payload, sh.clock + tick))
    case CreateMint(payload, now) =>
      if MintId(uuid) in sh.minted then (sh, pc)
      else (sh.(minted := sh.minted + {MintId(uuid)}), CreateWriteUser(payload, uuid, now))
    case CreateWriteUser(payload, uuid, now) =>
      (sh.(users := sh.users.Put(MintId(uuid), NewRow(MintId(uuid), payload, now))), CreateWriteIndex(payload, uuid, now))
    case CreateWriteIndex(payload, uuid, now) =>
      (sh.(index := sh.index[Str(payload.username) := MintId(uuid)]),
       Releasing(Create(payload, uuid, now), Created(NewRow(MintId(uuid), payload, now))))
    case UpdateCheck(id, patch) =>
      (sh, if id !in sh.users.rows then Releasing(Patch(id, patch, sh.clock), NotFound) else UpdateRead(id, patch))
    case UpdateRead(id, patch) =>
      (sh, if id !in sh.users.rows then Releasing(Patch(id, patch, sh.clock), Crash)
           else if Renames(sh.users.rows[id], patch) then UpdateOwner(id, patch, sh.users.rows[id])
           else UpdateClock(id, patch, sh.users.rows[id]))
    case UpdateOwner(id, patch, existing) =>
      var owner := Lookup(sh.index, NewName(patch));
      (sh, if owner.Some? && owner.value != id then Releasing(Patch(id, patch, sh.clock), Conflict)
           else UpdateClock(id, patch, existing))
    case UpdateClock(id, patch, existing) =>
      (sh.(clock := sh.clock + tick), UpdateWriteUser(id, patch, existing, sh.clock + tick))
    case UpdateWriteUser(id, patch, existing, now) =>
      var updated := ModelCopy(existing, Update(patch, now));
      (sh.(users := sh.users.Put(id, updated)),
       if Renames(existing, patch) then UpdatePopIndex(id, patch, existing, now)
       else Releasing(Patch(id, patch, now), Found(updated)))
    case UpdatePopIndex(id, patch, existing, now) =>
      (sh.(index := sh.index - {NameOf(existing)}), UpdateWriteIndex(id, patch, existing, now))
    case UpdateWriteIndex(id, patch, existing, now) =>
      (sh.(index := sh.index[NewName(patch) := id]),
       Releasing(Patch(id, patch, now), Found(ModelCopy(existing, Update(patch, now)))))
    case DeleteCheck(id) =>
      (sh, if id !in sh.users.rows then Releasing(Delete(id), NotFound) else DeletePopUser(id))
    case DeletePopUser(id) =>
      if id !in sh.users.rows then (sh, Releasing(Delete(id), Crash))
      else (sh.(users := sh.users.Pop(id)), DeletePopIndex(id, sh.users.rows[id]))
    case DeletePopIndex(id, user) =>
      (sh.(index := sh.index - {NameOf(user)}), Releasing(Delete(id), Deleted))
    case GetCheck(id) =>
      (sh, if id !in sh.users.rows then Releasing(Get(id), NotFound) else GetRead(id))
    case GetRead(id) =>
      (sh, Releasing(Get(id), if id in sh.users.rows then Found(sh.users.rows[id]) else Crash))
    case NameLookup(name) =>
      (sh, match Lookup(sh.index, Str(name))
           case None => Releasing(ByUsername(name), NotFound)
           case Some(id) => NameGuard(name, id))
    case NameGuard(name, id) =>
      (sh, if id !in sh.users.rows then Releasing(ByUsername(name), NotFound) else NameRead(name, id))
    case NameRead(name, id) =>
      (sh, Releasing(ByUsername(name), if id in sh.users.rows then Found(sh.users.rows[id]) else Crash))
    case ListRead =>
      (sh, Releasing(List, Listing(sh.users.Values())))
    case Releasing(_, _) => (sh, pc)
  }

  // ----- what each point inside the lock knows, relative to the abstract store `w` at acquisition -----

  ghost predicate Agrees(sh: Shared, w: World) {
    sh.users == w.users && Inverse(w.users.rows, sh.index)
  }

  ghost predicate InsideCreate(pc: Pc, sh: Shared, w: World)
    requires pc.CreateCheck? || pc.CreateClock? || pc.CreateMint? || pc.CreateWriteUser? || pc.CreateWriteIndex?
  {
    && Inverse(w.users.rows, sh.index)
    && (!pc.CreateCheck? ==> Str(pc.payload.username) !in sh.index)
    && (pc.CreateMint? || pc.CreateWriteUser? || pc.CreateWriteIndex? ==> w.clock <= pc.now <= sh.clock)
    && (pc.CreateWriteUser? || pc.CreateWriteIndex? ==> MintId(pc.uuid) in sh.minted && MintId(pc.uuid) !in w.issued)
    && sh.users == (if pc.CreateWriteIndex?
                    then w.users.Put(MintId(pc.uuid), NewRow(MintId(pc.uuid), pc.payload, pc.now))
                    else w.users)
  }

  ghost predicate InsideUpdate(pc: Pc, sh: Shared, w: World)
    requires pc.UpdateCheck? || pc.UpdateRead? || pc.UpdateOwner? || pc.UpdateClock? || pc.UpdateWriteUser?
             || pc.UpdatePopIndex? || pc.UpdateWriteIndex?
  {
    && (!pc.UpdateCheck? ==> pc.id in w.users.rows)
    && (!pc.UpdateCheck? && !pc.UpdateRead? ==> pc.existing == w.users.rows[pc.id])
    && (pc.UpdateOwner? || pc.UpdatePopIndex? || pc.UpdateWriteIndex? ==> Renames(pc.existing, pc.patch))
    && (pc.UpdateClock? || pc.UpdateWriteUser? || pc.UpdatePopIndex? || pc.UpdateWriteIndex? ==>
          !(Renames(pc.existing, pc.patch) && HeldByOther(w.users, pc.id, NewName(pc.patch))))
    && (pc.UpdateWriteUser? || pc.UpdatePopIndex? || pc.UpdateWriteIndex? ==> w.clock <= pc.now <= sh.clock)
    && sh.users == (if pc.UpdatePopIndex? || pc.UpdateWriteIndex?
                    then w.users.Put(pc.id, ModelCopy(pc.existing, Update(pc.patch, pc.now)))
                    else w.users)
    && Inverse(if pc.UpdateWriteIndex? then w.users.rows - {pc.id} else w.users.rows, sh.index)
  }

  ghost predicate InsideDelete(pc: Pc, sh: Shared, w: World)
    requires pc.DeleteCheck? || pc.DeletePopUser? || pc.DeletePopIndex?
  {
    && Inverse(w.users.rows, sh.index)
    && (!pc.DeleteCheck? ==> pc.id in w.users.rows)
    && (pc.DeletePopIndex? ==> pc.user == w.users.rows[pc.id])
    && sh.users == (if pc.DeletePopIndex? then w.users.Pop(pc.id) else w.users)
  }

  ghost predicate InsideRead(pc: Pc, sh: Shared, w: World)
    requires pc.GetCheck? || pc.GetRead? || pc.NameLookup? || pc.NameGuard? || pc.NameRead? || pc.ListRead?
  {
    && Agrees(sh, w)
    && (pc.GetRead? ==> pc.id in w.users.rows)
    && (pc.NameGuard? || pc.NameRead? ==> Lookup(sh.index, Str(pc.name)) == Some(pc.id))
  }

  /** The operation is complete: its abstract counterpart explains the dictionaries and the reply. */
  ghost predicate Complete(op: Op, reply: Reply, sh: Shared, w: World) {
    && Enabled(w, op)
    && Apply(w, op).1 == reply
    && Agrees(sh, Apply(w, op).0)
    && Apply(w, op).0.issued <= sh.minted
    && Apply(w, op).0.clock <= sh.clock
  }

  ghost predicate Known(pc: Pc, sh: Shared, w: World)
    requires Critical(pc) && !pc.Releasing?
  {
    match Serving(pc)
    case CreateUser(_) => InsideCreate(pc, sh, w)
    case UpdateUser(_, _) => InsideUpdate(pc, sh, w)
    case DeleteUser(_) => InsideDelete(pc, sh, w)
    case _ => InsideRead(pc, sh, w)
  }

  ghost predicate Inside(pc: Pc, sh: Shared, w: World)
    requires Critical(pc)
  {
    && Inv(w) && w.issued <= sh.minted && w.clock <= sh.clock
    && if pc.Releasing? then Complete(pc.op, pc.reply, sh, w) else Known(pc, sh, w)
  }

  ghost predicate KeepsInside(pc: Pc, sh: Shared, w: World, uuid: string, tick: nat)
    requires Critical(pc)
  {
    var (sh', pc') := Work(sh, pc, uuid, tick);
    Critical(pc') && Serving(pc') == Serving(pc) && Inside(pc', sh', w)
  }

  // ----- facts about the abstract store -----

  lemma OwnerAgrees(w: World, index: Index, name: Value)
    requires Inv(w) && Inverse(w.users.rows, index)
    ensures Lookup(index, name) == Owner(w.users, name)
  {
  }

  lemma RenameTargetIsFree(w: World, id: string, patch: UserUpdate, index: Index)
    requires Inv(w) && id in w.users.rows && Renames(w.users.rows[id], patch)
    requires !HeldByOther(w.users, id, NewName(patch)) && Inverse(w.users.rows - {id}, index)
    ensures NewName(patch) !in index
  {
  }

  lemma InverseAfterWriteBack(rows: map<string, Row>, index: Index, id: string, row: Row)
    requires Inverse(rows - {id}, index) && NameOf(row) !in index
    ensures Inverse(rows[id := row], index[NameOf(row) := id])
  {
    InverseAfterCreate(rows - {id}, index, id, row);
    assert (rows - {id})[id := row] == rows[id := row];
  }

  lemma ConflictIsDecidedByOwner(w: World, index: Index, id: string, name: Value)
    requires Inv(w) && Inverse(w.users.rows, index)
    ensures HeldByOther(w.users, id, name) <==> Lookup(index, name).Some? && Lookup(index, name).value != id
  {
  }

  // ----- each way out of the lock completes the abstract operation -----

  lemma CreateConflicts(w: World, sh: Shared, payload: UserCreate)
    requires Inside(CreateCheck(payload), sh, w) && Str(payload.username) in sh.index
    ensures Complete(Create(payload, "", sh.clock), Conflict, sh, w)
  {
  }

  lemma CreateFinishes(w: World, sh: Shared, payload: UserCreate, uuid: string, now: int)
    requires Inside(CreateWriteIndex(payload, uuid, now), sh, w)
    ensures Complete(Create(payload, uuid, now), Created(NewRow(MintId(uuid), payload, now)),
                     sh.(index := sh.index[Str(payload.username) := MintId(uuid)]), w)
  {
    hide Inv, Inverse, NewRow, Lookup;
    var id := MintId(uuid);
    OwnerAgrees(w, sh.index, Str(payload.username));
    LookupNone(sh.index, Str(payload.username));
    NewRowIsValid(id, payload, now);
    MintedIsNew(w, id);
    InverseAfterCreate(w.users.rows, sh.index, id, NewRow(id, payload, now));
  }

  lemma LookupNone(index: Index, name: Value)
    ensures Lookup(index, name).None? <==> name !in index
  {
  }

  lemma UpdateMisses(w: World, sh: Shared, id: string, patch: UserUpdate)
    requires Inside(UpdateCheck(id, patch), sh, w) && id !in sh.users.rows
    ensures Complete(Patch(id, patch, sh.clock), NotFound, sh, w)
  {
    hide Inv, Inverse;
  }

  lemma UpdateConflicts(w: World, sh: Shared, id: string, patch: UserUpdate, existing: Row)
    requires Inside(UpdateOwner(id, patch, existing), sh, w)
    requires Lookup(sh.index, NewName(patch)).Some? && Lookup(sh.index, NewName(patch)).value != id
    ensures Complete(Patch(id, patch, sh.clock), Conflict, sh, w)
  {
    hide Inv, Inverse, Update, ModelCopy, NewName, HeldByOther, Lookup;
    ConflictIsDecidedByOwner(w, sh.index, id, NewName(patch));
  }

  lemma UpdateFinishes(w: World, sh: Shared, id: string, patch: UserUpdate, existing: Row, now: int)
    requires Inside(UpdateWriteUser(id, patch, existing, now), sh, w) && !Renames(existing, patch)
    ensures var updated := ModelCopy(existing, Update(patch, now));
      Complete(Patch(id, patch, now), Found(updated), sh.(users := sh.users.Put(id, updated)), w)
  {
    hide Inv, Inverse, Update, ModelCopy, NewName, HeldByOther;
    PatchedName(w, id, patch, now);
    InverseAfterUpdate(w.users.rows, sh.index, id, ModelCopy(existing, Update(patch, now)));
  }

  lemma RenameFinishes(w: World, sh: Shared, id: string, patch: UserUpdate, existing: Row, now: int)
    requires Inside(UpdateWriteIndex(id, patch, existing, now), sh, w)
    ensures Complete(Patch(id, patch, now), Found(ModelCopy(existing, Update(patch, now))),
                     sh.(index := sh.index[NewName(patch) := id]), w)
  {
    hide Inv, Inverse, Update, ModelCopy, NewName, HeldByOther;
    PatchedName(w, id, patch, now);
    RenameTargetIsFree(w, id, patch, sh.index);
    InverseAfterWriteBack(w.users.rows, sh.index, id, ModelCopy(existing, Update(patch, now)));
  }

  lemma DeleteFinishes(w: World, sh: Shared, id: string, user: Row)
    requires Inside(DeletePopIndex(id, user), sh, w)
    ensures Complete(Delete(id), Deleted, sh.(index := sh.index - {NameOf(user)}), w)
  {
    hide Inv, Inverse, Only;
    InverseAfterDelete(w.users.rows, sh.index, id);
  }

  lemma LookupFinishes(w: World, sh: Shared, name: string)
    requires Inv(w) && Agrees(sh, w) && w.issued <= sh.minted && w.clock <= sh.clock
    ensures match Lookup(sh.index, Str(name))
      case None => Complete(ByUsername(name), NotFound, sh, w)
      case Some(id) => id in w.users.rows && Complete(ByUsername(name), Found(w.users.rows[id]), sh, w)
  {
    OwnerAgrees(w, sh.index, Str(name));
  }

  // ----- one step -----

  lemma WorkOnCreateCheck(w: World, sh: Shared, pc: Pc, uuid: string, tick: nat)
    requires pc.CreateCheck? && Inside(pc, sh, w)
    ensures KeepsInside(pc, sh, w, uuid, tick)
  {
    hide Inv, Inverse, Complete, NewRow;
    if Str(pc.payload.username) in sh.index {
      CreateConflicts(w, sh, pc.payload);
    }
  }

  lemma WorkOnCreateDraws(w: World, sh: Shared, pc: Pc, uuid: string, tick: nat)
    requires (pc.CreateClock? || pc.CreateMint?) && Inside(pc, sh, w)
    ensures KeepsInside(pc, sh, w, uuid, tick)
  {
    hide Inv, Inverse, Complete, NewRow, MintId;
  }

  lemma WorkOnCreateWrites(w: World, sh: Shared, pc: Pc, uuid: string, tick: nat)
    requires (pc.CreateWriteUser? || pc.CreateWriteIndex?) && Inside(pc, sh, w)
    ensures KeepsInside(pc, sh, w, uuid, tick)
  {
    hide Inv, Inverse, Complete, NewRow, MintId;
    if pc.CreateWriteIndex? {
      CreateFinishes(w, sh, pc.payload, pc.uuid, pc.now);
    }
  }

  lemma WorkOnUpdateOwner(w: World, sh: Shared, pc: Pc, uuid: string, tick: nat)
    requires pc.UpdateOwner? && Inside(pc, sh, w)
    ensures KeepsInside(pc, sh, w, uuid, tick)
  {
    hide Inv, Inverse, HeldByOther, Renames, Update, ModelCopy, NewName, Complete, Lookup;
    ConflictIsDecidedByOwner(w, sh.index, pc.id, NewName(pc.patch));
    if Lookup(sh.index, NewName(pc.patch)).Some? && Lookup(sh.index, NewName(pc.patch)).value != pc.id {
      UpdateConflicts(w, sh, pc.id, pc.patch, pc.existing);
    }
  }

  lemma WorkOnUpdateCheck(w: World, sh: Shared, pc: Pc, uuid: string, tick: nat)
    requires pc.UpdateCheck? && Inside(pc, sh, w)
    ensures KeepsInside(pc, sh, w, uuid, tick)
  {
    hide Inv, Inverse, HeldByOther, Renames, Update, ModelCopy, NewName, Complete, Lookup;
    if pc.id !in sh.users.rows {
      UpdateMisses(w, sh, pc.id, pc.patch);
    }
  }

  lemma WorkOnUpdateRead(w: World, sh: Shared, pc: Pc, uuid: string, tick: nat)
    requires pc.UpdateRead? && Inside(pc, sh, w)
    ensures KeepsInside(pc, sh, w, uuid, tick)
  {
    hide Inv, Inverse, HeldByOther, Renames, Update, ModelCopy, NewName, Complete, Lookup;
  }

  lemma WorkOnUpdateClock(w: World, sh: Shared, pc: Pc, uuid: string, tick: nat)
    requires pc.UpdateClock? && Inside(pc, sh, w)
    ensures KeepsInside(pc, sh, w, uuid, tick)
  {
    hide Inv, Inverse, HeldByOther, Renames, Update, ModelCopy, NewName, Complete, Lookup;
  }

  lemma WorkOnUpdateWriteUser(w: World, sh: Shared, pc: Pc, uuid: string, tick: nat)
    requires pc.UpdateWriteUser? && Inside(pc, sh, w)
    ensures KeepsInside(pc, sh, w, uuid, tick)
  {
    hide Inv, Inverse, HeldByOther, Renames, Update, ModelCopy, NewName, Complete, Lookup;
    if !Renames(pc.existing, pc.patch) {
      UpdateFinishes(w, sh, pc.id, pc.patch, pc.existing, pc.now);
    }
  }

  lemma WorkOnUpdatePopIndex(w: World, sh: Shared, pc: Pc, uuid: string, tick: nat)
    requires pc.UpdatePopIndex? && Inside(pc, sh, w)
    ensures KeepsInside(pc, sh, w, uuid, tick)
  {
    hide Inv, Inverse, HeldByOther, Renames, Update, ModelCopy, NewName, Complete, Lookup;
    InverseAfterDelete(w.users.rows, sh.index, pc.id);
  }

  lemma WorkOnUpdateWriteIndex(w: World, sh: Shared, pc: Pc, uuid: string, tick: nat)
    requires pc.UpdateWriteIndex? && Inside(pc, sh, w)
    ensures KeepsInside(pc, sh, w, uuid, tick)
  {
    hide Inv, Inverse, HeldByOther, Renames, Update, ModelCopy, NewName, Complete, Lookup;
    RenameFinishes(w, sh, pc.id, pc.patch, pc.existing, pc.now);
  }

  lemma WorkOnDelete(w: World, sh: Shared, pc: Pc, uuid: string, tick: nat)
    requires Critical(pc) && !pc.Releasing? && Serving(pc).DeleteUser? && Inside(pc, sh, w)
    ensures KeepsInside(pc, sh, w, uuid, tick)
  {
    hide Inv, Inverse, Only;
    if pc.DeletePopIndex? {
      DeleteFinishes(w, sh, pc.id, pc.user);
    }
  }

  lemma WorkOnGet(w: World, sh: Shared, pc: Pc, uuid: string, tick: nat)
    requires (pc.GetCheck? || pc.GetRead? || pc.ListRead?) && Inside(pc, sh, w)
    ensures KeepsInside(pc, sh, w, uuid, tick)
  {
    hide Inv, Inverse;
  }

  lemma WorkOnNameLookup(w: World, sh: Shared, pc: Pc, uuid: string, tick: nat)
    requires pc.NameLookup? && Inside(pc, sh, w)
    ensures KeepsInside(pc, sh, w, uuid, tick)
  {
    hide Inv, Inverse, Lookup, Complete;
    LookupFinishes(w, sh, pc.name);
  }

  lemma WorkOnNameRead(w: World, sh: Shared, pc: Pc, uuid: string, tick: nat)
    requires (pc.NameGuard? || pc.NameRead?) && Inside(pc, sh, w)
    ensures KeepsInside(pc, sh, w, uuid, tick)
  {
    hide Inv, Inverse, Lookup, Complete;
    LookupFinishes(w, sh, pc.name);
  }

  /** Every step inside the lock keeps what the next point relies on, up to the completed operation. */
  lemma WorkKeepsInside(w: World, sh: Shared, pc: Pc, uuid: string, tick: nat)
    requires Critical(pc) && !pc.Releasing? && Inside(pc, sh, w)
    ensures KeepsInside(pc, sh, w, uuid, tick)
  {
    hide Inside, KeepsInside;
    match pc
    case CreateCheck(_) => WorkOnCreateCheck(w, sh, pc, uuid, tick);
    case CreateClock(_) => WorkOnCreateDraws(w, sh, pc, uuid, tick);
    case CreateMint(_, _) => WorkOnCreateDraws(w, sh, pc, uuid, tick);
    case CreateWriteUser(_, _, _) => WorkOnCreateWrites(w, sh, pc, uuid, tick);
    case CreateWriteIndex(_, _, _) => WorkOnCreateWrites(w, sh, pc, uuid, tick);
    case UpdateCheck(_, _) => WorkOnUpdateCheck(w, sh, pc, uuid, tick);
    case UpdateRead(_, _) => WorkOnUpdateRead(w, sh, pc, uuid, tick);
    case UpdateOwner(_, _, _) => WorkOnUpdateOwner(w, sh, pc, uuid, tick);
    case UpdateClock(_, _, _) => WorkOnUpdateClock(w, sh, pc, uuid, tick);
    case UpdateWriteUser(_, _, _, _) => WorkOnUpdateWriteUser(w, sh, pc, uuid, tick);
    case UpdatePopIndex(_, _, _, _) => WorkOnUpdatePopIndex(w, sh, pc, uuid, tick);
    case UpdateWriteIndex(_, _, _, _) => WorkOnUpdateWriteIndex(w, sh, pc, uuid, tick);
    case NameLookup(_) => WorkOnNameLookup(w, sh, pc, uuid, tick);
    case NameGuard(_, _) => WorkOnNameRead(w, sh, pc, uuid, tick);
    case NameRead(_, _) => WorkOnNameRead(w, sh, pc, uuid, tick);
    case DeleteCheck(_) => WorkOnDelete(w, sh, pc, uuid, tick);
    case DeletePopUser(_) => WorkOnDelete(w, sh, pc, uuid, tick);
    case DeletePopIndex(_, _) => WorkOnDelete(w, sh, pc, uuid, tick);
    case _ => WorkOnGet(w, sh, pc, uuid, tick);
  }
}

/** The whole system: threads, the lock, the shared dictionaries, and a log of completed operations in lock order. */
module UserThreads {
  import opened Wrappers
  import opened OrderedDict
  import opened PartialUpdate
  import opened UserModel
  import opened UserDirectory
  import opened UserHistory
  import opened UserIndex
  import opened UserSteps

  datatype Answer = Answer(reply: Reply, at: nat)

  /** One critical section: who called what and when, when the lock was released, and the answer if it is out. */
  datatype Commit = Commit(thread: nat, request: Request, op: Op, reply: Reply, calledAt: nat, at: nat,
                           answer: Option<Answer>)

  datatype Thread = Thread(pc: Pc, request: Request, calledAt: nat)

  datatype System = System(threads: seq<Thread>, holder: Option<nat>, shared: Shared, log: seq<Commit>, time: nat)

  /** The scheduler's next move: which thread runs, and what it would be given to do or read. */
  datatype Choice = Choice(thread: nat, request: Request, uuid: string, tick: nat)

  function Initial(n: nat): System {
    System(seq(n, _ => Thread(Idle, ListUsers, 0)), None, Shared(Dict([], map[]), map[], 0, {}), [], 0)
  }

  /** One step of thread `c.thread`; without `locked`, acquiring does not wait. A blocked thread stutters. */
  function Next(s: System, c: Choice, locked: bool): System {
    if c.thread >= |s.threads| then s else
    var t, now := s.threads[c.thread], s.time;
    match t.pc
    case Idle =>
      s.(threads := s.threads[c.thread := Thread(Waiting(c.request), c.request, now)], time := now + 1)
    case Waiting(request) =>
      if locked && s.holder.Some? then s
      else s.(threads := s.threads[c.thread := t.(pc := Entry(request))], holder := Some(c.thread), time := now + 1)
    case Releasing(op, reply) =>
      s.(threads := s.threads[c.thread := t.(pc := Answering(reply, |s.log|))],
         holder := None,
         log := s.log + [Commit(c.thread, t.request, op, reply, t.calledAt, now, None)],
         time := now + 1)
    case Answering(reply, k) =>
      s.(threads := s.threads[c.thread := t.(pc := Idle)],
         log := if k < |s.log| then s.log[k := s.log[k].(answer := Some(Answer(reply, now)))] else s.log,
         time := now + 1)
    case _ =>
      var (shared, pc) := Work(s.shared, t.pc, c.uuid, c.tick);
      s.(threads := s.threads[c.thread := t.(pc := pc)], shared := shared, time := now + 1)
  }

  function Exec(s: System, choices: seq<Choice>, locked: bool): System
    decreases |choices|
  {
    if choices == [] then s else Exec(Next(s, choices[0], locked), choices[1..], locked)
  }

  function Ops(log: seq<Commit>): seq<Op> {
    seq(|log|, i requires 0 <= i < |log| => log[i].op)
  }

  function LogReplies(log: seq<Commit>): seq<Reply> {
    seq(|log|, i requires 0 <= i < |log| => log[i].reply)
  }

  /** The atomic operations of the log, run one after the other. */
  function Abstract(log: seq<Commit>): World {
    After(EMPTY, Ops(log))
  }

  // ----- the state invariant -----

  /** The log is a legal atomic run with exactly these replies. */
  ghost predicate LogIsAtomicRun(log: seq<Commit>) {
    Admissible(EMPTY, Ops(log)) && Replies(EMPTY, Ops(log)) == LogReplies(log)
  }

  ghost predicate ThreadsFit(threads: seq<Thread>, holder: Option<nat>) {
    && (holder.Some? ==> holder.value < |threads|)
    && (forall t :: 0 <= t < |threads| ==>
          && (Critical(threads[t].pc) <==> holder == Some(t))
          && (threads[t].pc.Waiting? ==> threads[t].pc.request == threads[t].request)
          && (Critical(threads[t].pc) ==> Serving(threads[t].pc) == threads[t].request))
  }

  ghost predicate SharedFits(s: System, w: World)
    requires ThreadsFit(s.threads, s.holder)
  {
    match s.holder
    case None => Inv(w) && w.issued <= s.shared.minted && w.clock <= s.shared.clock && Agrees(s.shared, w)
    case Some(h) => Inside(s.threads[h].pc, s.shared, w)
  }

  ghost predicate StateInv(s: System) {
    && LogIsAtomicRun(s.log)
    && ThreadsFit(s.threads, s.holder)
    && SharedFits(s, Abstract(s.log))
  }

  lemma CommitExtendsRun(log: seq<Commit>, c: Commit)
    requires LogIsAtomicRun(log) && Enabled(Abstract(log), c.op) && Apply(Abstract(log), c.op).1 == c.reply
    ensures LogIsAtomicRun(log + [c]) && Abstract(log + [c]) == Apply(Abstract(log), c.op).0
  {
    hide Apply, Enabled;
    RunsConcatenate(EMPTY, Ops(log), [c.op]);
    assert Ops(log + [c]) == Ops(log) + [c.op];
    assert LogReplies(log + [c]) == LogReplies(log) + [c.reply];
    SingleStep(Abstract(log), c.op);
  }

  lemma SingleStep(w: World, op: Op)
    ensures After(w, [op]) == Apply(w, op).0 && Replies(w, [op]) == [Apply(w, op).1]
    ensures Admissible(w, [op]) <==> Enabled(w, op)
  {
  }

  lemma AnswerKeepsRun(log: seq<Commit>, k: nat, a: Option<Answer>)
    requires k < |log|
    ensures Ops(log[k := log[k].(answer := a)]) == Ops(log)
    ensures LogReplies(log[k := log[k].(answer := a)]) == LogReplies(log)
  {
  }

  lemma ReleaseKeepsStateInv(s: System, c: Choice)
    requires StateInv(s) && c.thread < |s.threads| && s.threads[c.thread].pc.Releasing?
    ensures StateInv(Next(s, c, true))
  {
    hide Apply, Enabled, Inv, Inverse, LogIsAtomicRun, Abstract;
    var t := s.threads[c.thread];
    var w := Abstract(s.log);
    CommitExtendsRun(s.log, Commit(c.thread, t.request, t.pc.op, t.pc.reply, t.calledAt, s.time, None));
    ApplyKeepsInv(w, t.pc.op);
  }

  lemma AcquireKeepsStateInv(s: System, c: Choice)
    requires StateInv(s) && c.thread < |s.threads| && s.threads[c.thread].pc.Waiting?
    ensures StateInv(Next(s, c, true))
  {
    hide Inv, Inverse, LogIsAtomicRun, Abstract;
  }

  lemma WorkKeepsStateInv(s: System, c: Choice)
    requires StateInv(s) && c.thread < |s.threads|
    requires Critical(s.threads[c.thread].pc) && !s.threads[c.thread].pc.Releasing?
    ensures StateInv(Next(s, c, true))
  {
    hide Inside, LogIsAtomicRun, Abstract, Work;
    WorkKeepsInside(Abstract(s.log), s.shared, s.threads[c.thread].pc, c.uuid, c.tick);
  }

  lemma CallKeepsStateInv(s: System, c: Choice)
    requires StateInv(s) && c.thread < |s.threads| && s.threads[c.thread].pc.Idle?
    ensures StateInv(Next(s, c, true))
  {
    hide Inside, Inv, Agrees, LogIsAtomicRun, Abstract;
  }

  lemma AnswerKeepsStateInv(s: System, c: Choice)
    requires StateInv(s) && c.thread < |s.threads| && s.threads[c.thread].pc.Answering?
    ensures StateInv(Next(s, c, true))
  {
    hide Inside, Inv, Agrees, Ops, LogReplies, Admissible, Replies, After;
    var pc := s.threads[c.thread].pc;
    if pc.entry < |s.log| {
      AnswerKeepsRun(s.log, pc.entry, Some(Answer(pc.reply, s.time)));
    }
  }

  lemma NextKeepsStateInv(s: System, c: Choice)
    requires StateInv(s)
    ensures StateInv(Next(s, c, true))
  {
    hide StateInv, Work;
    if c.thread < |s.threads| {
      var pc := s.threads[c.thread].pc;
      if pc.Releasing? {
        ReleaseKeepsStateInv(s, c);
      } else if pc.Waiting? {
        AcquireKeepsStateInv(s, c);
      } else if Critical(pc) {
        WorkKeepsStateInv(s, c);
      } else if pc.Idle? {
        CallKeepsStateInv(s, c);
      } else {
        AnswerKeepsStateInv(s, c);
      }
    }
  }

  // ----- the history invariant: when things happened -----

  ghost predicate EntryOk(s: System, k: nat)
    requires k < |s.log|
  {
    var e := s.log[k];
    && e.thread < |s.threads|
    && RequestOf(e.op) == e.request
    && e.calledAt < e.at < s.time
    && (e.answer.Some? ==> e.answer.value.reply == e.reply && e.at < e.answer.value.at < s.time)
    && (e.answer.None? ==> s.threads[e.thread].pc == Answering(e.reply, k))
    && (e.answer.Some? && !s.threads[e.thread].pc.Idle? ==> e.answer.value.at < s.threads[e.thread].calledAt)
  }

  /** The answer a thread is about to give is the logged reply to the very call it is serving. */
  ghost predicate AnswersEntry(s: System, t: nat)
    requires t < |s.threads| && s.threads[t].pc.Answering?
  {
    var k := s.threads[t].pc.entry;
    && k < |s.log| && s.log[k].thread == t && s.log[k].answer.None?
    && s.log[k].reply == s.threads[t].pc.reply
    && s.log[k].request == s.threads[t].request && s.log[k].calledAt == s.threads[t].calledAt
  }

  ghost predicate ThreadOk(s: System, t: nat)
    requires t < |s.threads|
  {
    var pc := s.threads[t].pc;
    && (!pc.Idle? ==> s.threads[t].calledAt < s.time)
    && (pc.Answering? ==> AnswersEntry(s, t))
  }

  /** Lock order is the order of release times, and one thread's calls do not overlap. */
  ghost predicate Ordered(log: seq<Commit>, i: nat, j: nat)
    requires i < j < |log|
  {
    && log[i].at < log[j].at
    && (log[i].thread == log[j].thread ==> log[i].answer.Some? && log[i].answer.value.at < log[j].calledAt)
  }

  ghost predicate HistoryInv(s: System) {
    && (forall k :: 0 <= k < |s.log| ==> EntryOk(s, k))
    && (forall t :: 0 <= t < |s.threads| ==> ThreadOk(s, t))
    && (forall i, j :: 0 <= i < j < |s.log| ==> Ordered(s.log, i, j))
  }

  lemma BusyStepShape(s: System, c: Choice)
    requires StateInv(s) && c.thread < |s.threads|
    requires s.threads[c.thread].pc.Waiting? || (Critical(s.threads[c.thread].pc) && !s.threads[c.thread].pc.Releasing?)
    ensures var s', t := Next(s, c, true), s.threads[c.thread];
      && s'.log == s.log && s'.time >= s.time && |s'.threads| == |s.threads|
      && s'.threads == s.threads[c.thread := t.(pc := s'.threads[c.thread].pc)]
      && !s'.threads[c.thread].pc.Idle? && !s'.threads[c.thread].pc.Answering?
  {
    NextKeepsStateInv(s, c);
    hide LogIsAtomicRun, SharedFits, Abstract, Work;
  }

  /** Acquiring, working and blocking leave the log alone and the thread busy. */
  lemma BusyStepKeepsHistoryInv(s: System, c: Choice)
    requires StateInv(s) && HistoryInv(s) && c.thread < |s.threads|
    requires s.threads[c.thread].pc.Waiting? || (Critical(s.threads[c.thread].pc) && !s.threads[c.thread].pc.Releasing?)
    ensures HistoryInv(Next(s, c, true))
  {
    hide StateInv, Next, Ordered;
    BusyStepShape(s, c);
    var s' := Next(s, c, true);
    forall k | 0 <= k < |s.log| ensures EntryOk(s', k) {
      assert EntryOk(s, k);
    }
    forall t | 0 <= t < |s.threads| ensures ThreadOk(s', t) {
      assert ThreadOk(s, t);
    }
  }

  lemma ReleaseKeepsHistoryInv(s: System, c: Choice)
    requires StateInv(s) && HistoryInv(s) && c.thread < |s.threads| && s.threads[c.thread].pc.Releasing?
    ensures HistoryInv(Next(s, c, true))
  {
    hide LogIsAtomicRun, SharedFits, Abstract;
    var s' := Next(s, c, true);
    assert ThreadOk(s, c.thread);
    forall k | 0 <= k < |s'.log| ensures EntryOk(s', k) {
      if k < |s.log| {
        assert EntryOk(s, k);
      }
    }
    forall t | 0 <= t < |s.threads| ensures ThreadOk(s', t) {
      assert ThreadOk(s, t);
    }
    forall i, j | 0 <= i < j < |s'.log| ensures Ordered(s'.log, i, j) {
      assert EntryOk(s, i);
      if j < |s.log| {
        assert Ordered(s.log, i, j);
      }
    }
  }

  lemma CallKeepsHistoryInv(s: System, c: Choice)
    requires HistoryInv(s) && c.thread < |s.threads| && s.threads[c.thread].pc.Idle?
    ensures HistoryInv(Next(s, c, true))
  {
    hide Ordered;
    var s' := Next(s, c, true);
    forall k | 0 <= k < |s.log| ensures EntryOk(s', k) {
      assert EntryOk(s, k);
    }
    forall t | 0 <= t < |s.threads| ensures ThreadOk(s', t) {
      assert ThreadOk(s, t);
    }
  }

  lemma AnswerKeepsHistoryInv(s: System, c: Choice)
    requires HistoryInv(s) && c.thread < |s.threads| && s.threads[c.thread].pc.Answering?
    ensures HistoryInv(Next(s, c, true))
  {
    var s' := Next(s, c, true);
    assert ThreadOk(s, c.thread);
    forall k | 0 <= k < |s.log| ensures EntryOk(s', k) {
      assert EntryOk(s, k);
    }
    forall t | 0 <= t < |s.threads| ensures ThreadOk(s', t) {
      assert ThreadOk(s, t);
    }
    forall i, j | 0 <= i < j < |s.log| ensures Ordered(s'.log, i, j) {
      assert Ordered(s.log, i, j);
    }
  }

  lemma NextKeepsHistoryInv(s: System, c: Choice)
    requires StateInv(s) && HistoryInv(s)
    ensures HistoryInv(Next(s, c, true))
  {
    hide HistoryInv, StateInv, Work;
    if c.thread < |s.threads| {
      var pc := s.threads[c.thread].pc;
      if pc.Releasing? {
        ReleaseKeepsHistoryInv(s, c);
      } else if pc.Idle? {
        CallKeepsHistoryInv(s, c);
      } else if pc.Answering? {
        AnswerKeepsHistoryInv(s, c);
      } else {
        BusyStepKeepsHistoryInv(s, c);
      }
    }
  }

  // ----- the theorems -----

  lemma {:induction false} ExecKeepsInvariants(s: System, choices: seq<Choice>)
    requires StateInv(s) && HistoryInv(s)
    ensures StateInv(Exec(s, choices, true)) && HistoryInv(Exec(s, choices, true))
    decreases |choices|
  {
    hide StateInv, HistoryInv, Next;
    if choices != [] {
      NextKeepsStateInv(s, choices[0]);
      NextKeepsHistoryInv(s, choices[0]);
      ExecKeepsInvariants(Next(s, choices[0], true), choices[1..]);
    }
  }

  lemma InitialInvariants(n: nat)
    ensures StateInv(Initial(n)) && HistoryInv(Initial(n))
  {
  }

  /** The answer to call `i` was out before call `j` was made. */
  predicate Precedes(log: seq<Commit>, i: nat, j: nat)
    requires i < |log| && j < |log|
  {
    log[i].answer.Some? && log[i].answer.value.at < log[j].calledAt
  }

  lemma StateFacts(s: System)
    requires StateInv(s)
    ensures Admissible(EMPTY, Ops(s.log)) && Replies(EMPTY, Ops(s.log)) == LogReplies(s.log)
    ensures s.holder.None? ==> s.shared.users == Abstract(s.log).users && Inverse(s.shared.users.rows, s.shared.index)
  {
  }

  lemma HistoryFacts(s: System)
    requires HistoryInv(s)
    ensures forall k :: 0 <= k < |s.log| ==>
              && RequestOf(s.log[k].op) == s.log[k].request
              && (s.log[k].answer.Some? ==> s.log[k].answer.value.reply == s.log[k].reply)
    ensures forall t :: 0 <= t < |s.threads| && s.threads[t].pc.Answering? ==> AnswersEntry(s, t)
    ensures forall i, j :: 0 <= i < |s.log| && 0 <= j < |s.log| && Precedes(s.log, i, j) ==> i < j
    ensures forall i, j :: 0 <= i < j < |s.log| && s.log[i].thread == s.log[j].thread ==> Precedes(s.log, i, j)
  {
    forall k | 0 <= k < |s.log|
      ensures RequestOf(s.log[k].op) == s.log[k].request
      ensures s.log[k].answer.Some? ==> s.log[k].answer.value.reply == s.log[k].reply
    {
      assert EntryOk(s, k);
    }
    forall t | 0 <= t < |s.threads| && s.threads[t].pc.Answering? ensures AnswersEntry(s, t) {
      assert ThreadOk(s, t);
    }
    forall i, j | 0 <= i < j < |s.log| ensures s.log[i].at < s.log[j].at {
      assert Ordered(s.log, i, j);
    }
    forall i, j | 0 <= i < |s.log| && 0 <= j < |s.log| && Precedes(s.log, i, j) ensures i < j {
      assert EntryOk(s, i) && EntryOk(s, j);
    }
    forall i, j | 0 <= i < j < |s.log| && s.log[i].thread == s.log[j].thread ensures Precedes(s.log, i, j) {
      assert Ordered(s.log, i, j);
    }
  }

  /**
   * Linearizability, for any number of threads and every interleaving of single steps:
   * the log is an atomic run in lock order whose replies are the answers given, each to
   * the request that was made; it respects the order of non-overlapping calls; and
   * whenever the lock is free the two dictionaries are those of the atomic run.
   */
  lemma Linearizable(n: nat, choices: seq<Choice>)
    ensures var s := Exec(Initial(n), choices, true);
      && Admissible(EMPTY, Ops(s.log))
      && Replies(EMPTY, Ops(s.log)) == LogReplies(s.log)
      && (forall k :: 0 <= k < |s.log| ==>
            && RequestOf(s.log[k].op) == s.log[k].request
            && (s.log[k].answer.Some? ==> s.log[k].answer.value.reply == s.log[k].reply))
      && (forall t :: 0 <= t < |s.threads| && s.threads[t].pc.Answering? ==> AnswersEntry(s, t))
      && (forall i, j :: 0 <= i < |s.log| && 0 <= j < |s.log| && Precedes(s.log, i, j) ==> i < j)
      && (forall i, j :: 0 <= i < j < |s.log| && s.log[i].thread == s.log[j].thread ==> Precedes(s.log, i, j))
      && (s.holder.None? ==> s.shared.users == Abstract(s.log).users && Inverse(s.shared.users.rows, s.shared.index))
  {
    hide StateInv, HistoryInv, Exec, Inverse, Abstract;
    InitialInvariants(n);
    ExecKeepsInvariants(Initial(n), choices);
    StateFacts(Exec(Initial(n), choices, true));
    HistoryFacts(Exec(Initial(n), choices, true));
  }

  /** No interleaving makes a handler fail on a missing key. */
  lemma NoCallCrashes(n: nat, choices: seq<Choice>)
    ensures var s := Exec(Initial(n), choices, true);
      forall k :: 0 <= k < |s.log| ==> s.log[k].reply != Crash
  {
    Linearizable(n, choices);
    EmptyIsInv();
    hide Exec, Inv, Replies, Admissible;
    var log := Exec(Initial(n), choices, true).log;
    RunKeepsInv(EMPTY, Ops(log));
    forall k | 0 <= k < |log| ensures log[k].reply != Crash {
      assert LogReplies(log)[k] == log[k].reply;
    }
  }

  /**
   * Two tests in the handlers that no interleaving can make fail: an id the index gives
   * for a name is in the user dictionary, and the owner found for a rename's new name is
   * never the renamed user.
   */
  lemma GuardsNeverFire(n: nat, choices: seq<Choice>, t: nat)
    requires t < |Exec(Initial(n), choices, true).threads|
    ensures var s := Exec(Initial(n), choices, true);
      var pc := s.threads[t].pc;
      && (pc.NameGuard? ==> pc.id in s.shared.users.rows)
      && (pc.UpdateOwner? ==> Lookup(s.shared.index, NewName(pc.patch)) != Some(pc.id))
  {
    hide StateInv, HistoryInv, Exec;
    InitialInvariants(n);
    ExecKeepsInvariants(Initial(n), choices);
    GuardsInState(Exec(Initial(n), choices, true), t);
  }

  lemma GuardsInState(s: System, t: nat)
    requires StateInv(s) && t < |s.threads|
    ensures s.threads[t].pc.NameGuard? ==> s.threads[t].pc.id in s.shared.users.rows
    ensures s.threads[t].pc.UpdateOwner? ==>
              Lookup(s.shared.index, NewName(s.threads[t].pc.patch)) != Some(s.threads[t].pc.id)
  {
    hide LogIsAtomicRun, Abstract, Inv, Inverse, Lookup, Renames, NewName;
    var pc, rows := s.threads[t].pc, s.shared.users.rows;
    if pc.NameGuard? {
      IndexHitIsLive(rows, s.shared.index, Str(pc.name), pc.id);
    }
    if pc.UpdateOwner? {
      OwnerConjunctIsRedundant(rows, s.shared.index, pc.id, pc.patch);
    }
  }

  lemma IndexHitIsLive(rows: map<string, Row>, index: Index, name: Value, id: string)
    requires Inverse(rows, index) && Lookup(index, name) == Some(id)
    ensures id in rows
  {
  }

  /** Whatever the interleaving, one id is deleted with 204 at most once; later requests for it get 404. */
  lemma DeletedOnce(n: nat, choices: seq<Choice>, i: nat, j: nat, id: string)
    requires var log := Exec(Initial(n), choices, true).log;
      i < j < |log| && log[i].op == Delete(id) && log[i].reply == Deleted && Target(log[j].op) == Some(id)
    ensures Exec(Initial(n), choices, true).log[j].reply == NotFound
  {
    hide Exec, Inv, Inverse, Admissible, Replies, Target;
    Linearizable(n, choices);
    EmptyIsInv();
    var log := Exec(Initial(n), choices, true).log;
    assert LogReplies(log)[i] == Deleted;
    DeletedMeansGone(EMPTY, Ops(log), i, j, id);
    assert LogReplies(log)[j] == log[j].reply;
  }

  /**
   * Racing creates of one name on any number of threads: if nobody gives the name up,
   * exactly one request obtains it; if nobody is renamed to it either, exactly one of the
   * k creates is answered 201 and the other k-1 are answered 409.
   */
  lemma RacingCreatesOneWinner(n: nat, choices: seq<Choice>, name: string)
    requires var log := Exec(Initial(n), choices, true).log;
      ReleaseCount(EMPTY, Ops(log), name) == 0
      && exists k :: 0 <= k < |log| && IsCreateOf(log[k].op, name)
    ensures var log := Exec(Initial(n), choices, true).log;
      && CreatesAnswered(Ops(log), LogReplies(log), name, 201) + RenamesTo(EMPTY, Ops(log), name) == 1
      && (RenamesTo(EMPTY, Ops(log), name) == 0 ==>
            CreatesAnswered(Ops(log), LogReplies(log), name, 201) == 1
            && CreatesAnswered(Ops(log), LogReplies(log), name, 409) == CreateCalls(Ops(log), name) - 1)
  {
    hide Exec, Inv, Inverse, Admissible, Replies, ReleaseCount, CreatesAnswered, CreateCalls, RenamesTo, IsCreateOf;
    Linearizable(n, choices);
    EmptyIsInv();
    var log := Exec(Initial(n), choices, true).log;
    var k :| 0 <= k < |log| && IsCreateOf(log[k].op, name);
    assert IsCreateOf(Ops(log)[k], name);
    RacingCreates(EMPTY, Ops(log), name);
  }

  // ----- what the schedule asks for is what gets done -----

  /** Some choice of the schedule had this thread make this request. */
  ghost predicate Called(choices: seq<Choice>, thread: nat, request: Request) {
    exists i :: 0 <= i < |choices| && choices[i].thread == thread && choices[i].request == request
  }

  ghost predicate OnlyCalled(s: System, choices: seq<Choice>) {
    && (forall t :: 0 <= t < |s.threads| && !s.threads[t].pc.Idle? ==> Called(choices, t, s.threads[t].request))
    && (forall k :: 0 <= k < |s.log| ==> Called(choices, s.log[k].thread, s.log[k].request))
  }

  lemma CalledLater(choices: seq<Choice>, c: Choice)
    ensures forall t, r :: Called(choices, t, r) ==> Called(choices + [c], t, r)
    ensures Called(choices + [c], c.thread, c.request)
  {
    var more := choices + [c];
    forall t, r | Called(choices, t, r) ensures Called(more, t, r) {
      var i :| 0 <= i < |choices| && choices[i].thread == t && choices[i].request == r;
      assert more[i] == choices[i];
    }
    assert more[|choices|] == c;
  }

  lemma NextKeepsOnlyCalled(s: System, c: Choice, choices: seq<Choice>)
    requires OnlyCalled(s, choices)
    ensures OnlyCalled(Next(s, c, true), choices + [c])
  {
    CalledLater(choices, c);
    hide Called, Work, Entry;
  }

  lemma {:induction false} ExecKeepsOnlyCalled(s: System, past: seq<Choice>, choices: seq<Choice>)
    requires OnlyCalled(s, past)
    ensures OnlyCalled(Exec(s, choices, true), past + choices)
    decreases |choices|
  {
    hide OnlyCalled, Next;
    if choices == [] {
      assert past + choices == past;
    } else {
      NextKeepsOnlyCalled(s, choices[0], past);
      ExecKeepsOnlyCalled(Next(s, choices[0], true), past + [choices[0]], choices[1..]);
      assert past + [choices[0]] + choices[1..] == past + choices;
    }
  }

  /** Every commit is a request that the schedule had the same thread make. */
  lemma CommitsWereCalled(n: nat, choices: seq<Choice>)
    ensures var log := Exec(Initial(n), choices, true).log;
      forall k :: 0 <= k < |log| ==> Called(choices, log[k].thread, log[k].request)
  {
    hide Exec, Called;
    ExecKeepsOnlyCalled(Initial(n), [], choices);
    assert [] + choices == choices;
  }

  // ----- calls finish -----

  lemma {:induction false} ExecConcatenates(s: System, a: seq<Choice>, b: seq<Choice>, locked: bool)
    ensures Exec(s, a + b, locked) == Exec(Exec(s, a, locked), b, locked)
    decreases |a|
  {
    hide Next;
    if a == [] {
      assert a + b == b;
    } else {
      ExecConcatenates(Next(s, a[0], locked), a[1..], b, locked);
      assert (a + b)[1..] == a[1..] + b;
    }
  }

  /** One step of a handler inside its critical section. */
  lemma WorkStep(s: System, c: Choice, locked: bool)
    requires c.thread < |s.threads| && Critical(s.threads[c.thread].pc) && !s.threads[c.thread].pc.Releasing?
    ensures var (shared, pc) := Work(s.shared, s.threads[c.thread].pc, c.uuid, c.tick);
      Next(s, c, locked)
      == s.(threads := s.threads[c.thread := s.threads[c.thread].(pc := pc)], shared := shared, time := s.time + 1)
  {
    hide Work;
  }

  /** The operation is a run of this request. */
  predicate Runs(op: Op, request: Request) {
    match request
    case CreateUser(payload) => op.Create? && op.payload == payload
    case UpdateUser(id, patch) => op.Patch? && op.id == id && op.patch == patch
    case DeleteUser(id) => op == Delete(id)
    case GetUser(id) => op == Get(id)
    case GetUserByUsername(name) => op == ByUsername(name)
    case ListUsers => op == List
  }

  /** `log'` has one entry more: this call of thread `t`, answered with what the atomic operation answers. */
  ghost predicate Served(log: seq<Commit>, log': seq<Commit>, t: nat, request: Request) {
    && |log'| == |log| + 1 && log'[..|log|] == log
    && var e := log'[|log|];
       && e.thread == t && e.request == request && RequestOf(e.op) == request && Runs(e.op, request)
       && e.reply == Apply(Abstract(log), e.op).1
       && e.answer.Some? && e.answer.value.reply == e.reply
  }

  /** A new user bears this uuid, and a new or changed user this time. */
  predicate Stamped(e: Commit, uuid: string, now: int) {
    && (e.op.Create? && e.reply.Created? ==> e.op.uuid == uuid && e.op.now == now)
    && (e.op.Patch? && e.reply.Found? ==> e.op.now == now)
  }

  /** What is needed at each point for the operation to come out so stamped. */
  predicate WillStamp(pc: Pc, clock: int, uuid: string, tick: nat, now: int) {
    match pc
    case CreateCheck(_) => now == clock + tick
    case CreateClock(_) => now == clock + tick
    case CreateMint(_, at) => now == at
    case CreateWriteUser(_, u, at) => now == at && uuid == u
    case CreateWriteIndex(_, u, at) => now == at && uuid == u
    case UpdateCheck(_, _) => now == clock + tick
    case UpdateRead(_, _) => now == clock + tick
    case UpdateOwner(_, _, _) => now == clock + tick
    case UpdateClock(_, _, _) => now == clock + tick
    case UpdateWriteUser(_, _, _, at) => now == at
    case UpdatePopIndex(_, _, _, at) => now == at
    case UpdateWriteIndex(_, _, _, at) => now == at
    case Releasing(op, reply) => Stamped(Commit(0, RequestOf(op), op, reply, 0, 0, None), uuid, now)
    case _ => true
  }

  /** The schedule that runs thread `t` alone; `request`, `uuid` and `tick` are what it would be given. */
  function Alone(t: nat, request: Request, uuid: string, tick: nat, steps: nat): seq<Choice> {
    seq(steps, _ => Choice(t, request, uuid, tick))
  }

  lemma AloneStep(s: System, t: nat, request: Request, uuid: string, tick: nat, steps: nat)
    ensures Exec(s, Alone(t, request, uuid, tick, 0), true) == s
    ensures Exec(s, Alone(t, request, uuid, tick, steps + 1), true)
         == Exec(Next(s, Choice(t, request, uuid, tick), true), Alone(t, request, uuid, tick, steps), true)
  {
    hide Next;
    assert Alone(t, request, uuid, tick, steps + 1)[1..] == Alone(t, request, uuid, tick, steps);
  }

  /** How many steps inside the lock are left, at most. */
  function StepsLeft(pc: Pc): nat {
    match pc
    case CreateCheck(_) => 5
    case CreateClock(_) => 4
    case CreateMint(_, _) => 3
    case CreateWriteUser(_, _, _) => 2
    case CreateWriteIndex(_, _, _) => 1
    case UpdateCheck(_, _) => 7
    case UpdateRead(_, _) => 6
    case UpdateOwner(_, _, _) => 5
    case UpdateClock(_, _, _) => 4
    case UpdateWriteUser(_, _, _, _) => 3
    case UpdatePopIndex(_, _, _, _) => 2
    case UpdateWriteIndex(_, _, _, _) => 1
    case DeleteCheck(_) => 3
    case DeletePopUser(_) => 2
    case DeletePopIndex(_, _) => 1
    case GetCheck(_) => 2
    case GetRead(_) => 1
    case NameLookup(_) => 3
    case NameGuard(_, _) => 2
    case NameRead(_, _) => 1
    case ListRead => 1
    case _ => 0
  }

  predicate NeedsId(pc: Pc) {
    pc.CreateCheck? || pc.CreateClock? || pc.CreateMint?
  }

  ghost predicate GetsCloser(sh: Shared, pc: Pc, uuid: string, tick: nat)
    requires Critical(pc)
  {
    var (sh', pc') := Work(sh, pc, uuid, tick);
    && Critical(pc') && StepsLeft(pc') < StepsLeft(pc)
    && (NeedsId(pc') ==> MintId(uuid) !in sh'.minted)
  }

  lemma CreateGetsCloser(sh: Shared, pc: Pc, uuid: string, tick: nat)
    requires pc.CreateCheck? || pc.CreateClock? || pc.CreateMint? || pc.CreateWriteUser? || pc.CreateWriteIndex?
    requires NeedsId(pc) ==> MintId(uuid) !in sh.minted
    ensures GetsCloser(sh, pc, uuid, tick)
  {
    hide MintId, NewRow, Serving;
  }

  lemma UpdateCheckGetsCloser(sh: Shared, pc: Pc, uuid: string, tick: nat)
    requires pc.UpdateCheck? || pc.UpdateRead? || pc.UpdateOwner? || pc.UpdateClock?
    ensures GetsCloser(sh, pc, uuid, tick)
  {
    hide MintId, ModelCopy, Update, Renames, Lookup, NewName, Serving;
  }

  lemma UpdateWriteGetsCloser(sh: Shared, pc: Pc, uuid: string, tick: nat)
    requires pc.UpdateWriteUser? || pc.UpdatePopIndex? || pc.UpdateWriteIndex?
    ensures GetsCloser(sh, pc, uuid, tick)
  {
    hide MintId, ModelCopy, Update, Renames, Lookup, NewName, Serving;
  }

  lemma DeleteGetsCloser(sh: Shared, pc: Pc, uuid: string, tick: nat)
    requires pc.DeleteCheck? || pc.DeletePopUser? || pc.DeletePopIndex?
    ensures GetsCloser(sh, pc, uuid, tick)
  {
    hide MintId, Serving;
  }

  lemma ReadGetsCloser(sh: Shared, pc: Pc, uuid: string, tick: nat)
    requires pc.GetCheck? || pc.GetRead? || pc.ListRead? || pc.NameLookup? || pc.NameGuard? || pc.NameRead?
    ensures GetsCloser(sh, pc, uuid, tick)
  {
    hide MintId, Lookup, Serving;
  }

  /** With a fresh uuid at hand every step inside the lock comes closer to the release. */
  lemma WorkGetsCloser(sh: Shared, pc: Pc, uuid: string, tick: nat)
    requires Critical(pc) && !pc.Releasing? && (NeedsId(pc) ==> MintId(uuid) !in sh.minted)
    ensures GetsCloser(sh, pc, uuid, tick)
  {
    hide NeedsId, GetsCloser, MintId;
    if Serving(pc).CreateUser? {
      CreateGetsCloser(sh, pc, uuid, tick);
    } else if pc.UpdateCheck? || pc.UpdateRead? || pc.UpdateOwner? || pc.UpdateClock? {
      UpdateCheckGetsCloser(sh, pc, uuid, tick);
    } else if Serving(pc).UpdateUser? {
      UpdateWriteGetsCloser(sh, pc, uuid, tick);
    } else if Serving(pc).DeleteUser? {
      DeleteGetsCloser(sh, pc, uuid, tick);
    } else {
      ReadGetsCloser(sh, pc, uuid, tick);
    }
  }

  lemma WorkKeepsStamp(sh: Shared, pc: Pc, uuid: string, tick: nat, now: int)
    requires Critical(pc) && !pc.Releasing? && WillStamp(pc, sh.clock, uuid, tick, now)
    ensures var (sh', pc') := Work(sh, pc, uuid, tick); WillStamp(pc', sh'.clock, uuid, tick, now)
  {
    hide MintId, NewRow, ModelCopy, Update, Renames, Lookup, NewName, RequestOf;
  }

  lemma WorkKeepsRequest(s: System, c: Choice)
    requires StateInv(s) && c.thread < |s.threads| && Critical(s.threads[c.thread].pc)
    ensures s.holder == Some(c.thread) && Serving(s.threads[c.thread].pc) == s.threads[c.thread].request
  {
    hide LogIsAtomicRun, SharedFits, Abstract;
  }

  /** The operation about to be logged runs the thread's request, with the reply of the atomic operation. */
  lemma ReleasesWhatWasAsked(s: System, t: nat)
    requires StateInv(s) && t < |s.threads| && s.holder == Some(t) && s.threads[t].pc.Releasing?
    ensures var me := s.threads[t];
      && RequestOf(me.pc.op) == me.request && Runs(me.pc.op, me.request)
      && me.pc.reply == Apply(Abstract(s.log), me.pc.op).1
  {
    hide LogIsAtomicRun, Abstract, Enabled, Apply, Inv, Agrees;
  }

  lemma ReleaseStep(s: System, c: Choice, locked: bool)
    requires c.thread < |s.threads| && s.threads[c.thread].pc.Releasing?
    ensures var me := s.threads[c.thread];
      Next(s, c, locked)
      == s.(threads := s.threads[c.thread := me.(pc := Answering(me.pc.reply, |s.log|))], holder := None,
            log := s.log + [Commit(c.thread, me.request, me.pc.op, me.pc.reply, me.calledAt, s.time, None)],
            time := s.time + 1)
  {
  }

  lemma AnswerStep(s: System, c: Choice, locked: bool)
    requires c.thread < |s.threads| && s.threads[c.thread].pc.Answering? && s.threads[c.thread].pc.entry < |s.log|
    ensures var me := s.threads[c.thread];
      Next(s, c, locked)
      == s.(threads := s.threads[c.thread := me.(pc := Idle)],
            log := s.log[me.pc.entry := s.log[me.pc.entry].(answer := Some(Answer(me.pc.reply, s.time)))],
            time := s.time + 1)
  {
  }

  /** The last two steps: release and answer. */
  lemma ReleaseAndAnswer(s: System, t: nat, request: Request, uuid: string, tick: nat)
    requires StateInv(s) && t < |s.threads| && s.holder == Some(t) && s.threads[t].pc.Releasing?
    ensures var s', me := Exec(s, Alone(t, request, uuid, tick, 2), true), s.threads[t];
      && s'.threads == s.threads[t := me.(pc := Idle)] && s'.holder.None? && s'.shared == s.shared
      && Served(s.log, s'.log, t, me.request)
      && |s'.log| == |s.log| + 1 && s'.log[|s.log|].op == me.pc.op && s'.log[|s.log|].reply == me.pc.reply
  {
    ReleasesWhatWasAsked(s, t);
    hide StateInv, Abstract, Apply, Runs, RequestOf, Next, Alone, Exec;
    var c, me := Choice(t, request, uuid, tick), s.threads[t];
    AloneStep(s, t, request, uuid, tick, 1);
    ReleaseStep(s, c, true);
    var s1 := Next(s, c, true);
    AloneStep(s1, t, request, uuid, tick, 0);
    AnswerStep(s1, c, true);
    assert Next(s1, c, true).threads == s.threads[t := me.(pc := Idle)];
  }

  lemma StampOfRelease(pc: Pc, clock: int, log: seq<Commit>, k: nat, uuid: string, tick: nat, now: int)
    requires pc.Releasing? && k < |log| && log[k].op == pc.op && log[k].reply == pc.reply
    ensures WillStamp(pc, clock, uuid, tick, now) <==> Stamped(log[k], uuid, now)
  {
  }

  /** From any point inside the lock its holder, run alone, completes the operation, releases the lock and answers. */
  lemma {:induction false} HolderFinishes(s: System, t: nat, request: Request, uuid: string, tick: nat, now: int)
    returns (steps: nat)
    requires StateInv(s) && t < |s.threads| && Critical(s.threads[t].pc)
    requires NeedsId(s.threads[t].pc) ==> MintId(uuid) !in s.shared.minted
    ensures steps <= StepsLeft(s.threads[t].pc) + 2
    ensures var s', me := Exec(s, Alone(t, request, uuid, tick, steps), true), s.threads[t];
      && s'.threads == s.threads[t := me.(pc := Idle)] && s'.holder.None?
      && Served(s.log, s'.log, t, me.request)
      && (WillStamp(me.pc, s.shared.clock, uuid, tick, now) ==> Stamped(s'.log[|s.log|], uuid, now))
    decreases StepsLeft(s.threads[t].pc)
  {
    hide StateInv, NeedsId, StepsLeft, Work, Served, Next, Exec, Alone, MintId, WillStamp, Stamped;
    var c := Choice(t, request, uuid, tick);
    WorkKeepsRequest(s, c);
    if s.threads[t].pc.Releasing? {
      steps := 2;
      ReleaseAndAnswer(s, t, request, uuid, tick);
      var log := Exec(s, Alone(t, request, uuid, tick, 2), true).log;
      StampOfRelease(s.threads[t].pc, s.shared.clock, log, |s.log|, uuid, tick, now);
    } else {
      var next := Next(s, c, true);
      NextKeepsStateInv(s, c);
      WorkGetsCloser(s.shared, s.threads[t].pc, uuid, tick);
      if WillStamp(s.threads[t].pc, s.shared.clock, uuid, tick, now) {
        WorkKeepsStamp(s.shared, s.threads[t].pc, uuid, tick, now);
      }
      WorkStep(s, c, true);
      var rest := HolderFinishes(next, t, request, uuid, tick, now);
      steps := rest + 1;
      AloneStep(s, t, request, uuid, tick, rest);
    }
  }

  /** Call and acquire, with the lock free. */
  lemma CallAndAcquire(s: System, t: nat, request: Request, uuid: string, tick: nat)
    requires t < |s.threads| && s.threads[t].pc.Idle? && s.holder.None?
    ensures var s' := Exec(s, Alone(t, request, uuid, tick, 2), true);
      && s'.threads == s.threads[t := Thread(Entry(request), request, s.time)]
      && s'.log == s.log && s'.shared == s.shared && s'.holder == Some(t)
  {
    hide Entry;
    var c := Choice(t, request, uuid, tick);
    AloneStep(s, t, request, uuid, tick, 1);
    AloneStep(Next(s, c, true), t, request, uuid, tick, 0);
  }

  lemma EntersLock(request: Request, clock: int, uuid: string, tick: nat)
    ensures Critical(Entry(request)) && StepsLeft(Entry(request)) <= 7
    ensures WillStamp(Entry(request), clock, uuid, tick, clock + tick)
  {
  }

  lemma AloneConcatenates(t: nat, request: Request, uuid: string, tick: nat, a: nat, b: nat)
    ensures Alone(t, request, uuid, tick, a) + Alone(t, request, uuid, tick, b) == Alone(t, request, uuid, tick, a + b)
  {
  }

  /**
   * Every call gets served: whenever the lock is free, any idle thread that makes any
   * request and is given an unused uuid is idle again after at most eleven steps of its
   * own, and the log has exactly this call, answered as the atomic operation would, a new
   * user with that uuid and new or changed records with the clock's next reading.
   */
  lemma EveryCallIsServed(n: nat, choices: seq<Choice>, t: nat, request: Request, uuid: string, tick: nat)
    returns (steps: nat)
    requires var s := Exec(Initial(n), choices, true);
      s.holder.None? && t < |s.threads| && s.threads[t].pc.Idle? && MintId(uuid) !in s.shared.minted
    ensures steps <= 11
    ensures var s := Exec(Initial(n), choices, true);
      var s' := Exec(Initial(n), choices + Alone(t, request, uuid, tick, steps), true);
      && t < |s'.threads| && s'.threads[t].pc.Idle? && s'.holder.None?
      && (forall o :: 0 <= o < |s.threads| && o != t ==> o < |s'.threads| && s'.threads[o] == s.threads[o])
      && Served(s.log, s'.log, t, request) && Stamped(s'.log[|s.log|], uuid, s.shared.clock + tick)
  {
    hide WillStamp, Stamped, StateInv, HistoryInv, Exec, Served, Alone, Entry, MintId;
    InitialInvariants(n);
    ExecKeepsInvariants(Initial(n), choices);
    var s := Exec(Initial(n), choices, true);
    CallAndAcquire(s, t, request, uuid, tick);
    ExecKeepsInvariants(s, Alone(t, request, uuid, tick, 2));
    EntersLock(request, s.shared.clock, uuid, tick);
    var inside := Exec(s, Alone(t, request, uuid, tick, 2), true);
    var rest := HolderFinishes(inside, t, request, uuid, tick, s.shared.clock + tick);
    steps := 2 + rest;
    AloneConcatenates(t, request, uuid, tick, 2, rest);
    ExecConcatenates(s, Alone(t, request, uuid, tick, 2), Alone(t, request, uuid, tick, rest), true);
    ExecConcatenates(Initial(n), choices, Alone(t, request, uuid, tick, steps), true);
  }

  /** The lock is never stuck: whoever holds it, run alone with an unused uuid, gives it up after at most nine steps. */
  lemma LockIsReleased(n: nat, choices: seq<Choice>, uuid: string) returns (steps: nat)
    requires var s := Exec(Initial(n), choices, true);
      s.holder.Some? && MintId(uuid) !in s.shared.minted
    ensures steps <= 9
    ensures var s := Exec(Initial(n), choices, true);
      var t := s.holder.value;
      var s' := Exec(Initial(n), choices + Alone(t, ListUsers, uuid, 0, steps), true);
      && s'.holder.None? && t < |s.threads| && Served(s.log, s'.log, t, s.threads[t].request)
  {
    hide StateInv, HistoryInv, Exec, Served, Alone, MintId;
    InitialInvariants(n);
    ExecKeepsInvariants(Initial(n), choices);
    var s := Exec(Initial(n), choices, true);
    HolderIsInside(s);
    steps := HolderFinishes(s, s.holder.value, ListUsers, uuid, 0, 0);
    ExecConcatenates(Initial(n), choices, Alone(s.holder.value, ListUsers, uuid, 0, steps), true);
  }

  lemma HolderIsInside(s: System)
    requires StateInv(s) && s.holder.Some?
    ensures s.holder.value < |s.threads| && Critical(s.threads[s.holder.value].pc)
    ensures StepsLeft(s.threads[s.holder.value].pc) <= 7
  {
    hide LogIsAtomicRun, SharedFits, Abstract;
  }

  // ----- why the lock is needed -----

  /** Thread `t` takes one step after another; `uuid` is what the supply would give it. */
  function Burst(t: nat, payload: UserCreate, uuid: string, steps: nat): seq<Choice>
    decreases steps
  {
    if steps == 0 then [] else [Choice(t, CreateUser(payload), uuid, 0)] + Burst(t, payload, uuid, steps - 1)
  }

  lemma BurstStep(s: System, t: nat, payload: UserCreate, uuid: string, steps: nat)
    requires steps > 0
    ensures Exec(s, Burst(t, payload, uuid, steps), false)
         == Exec(Next(s, Choice(t, CreateUser(payload), uuid, 0), false), Burst(t, payload, uuid, steps - 1), false)
  {
  }

  /** Call, walk past the lock, pass the uniqueness check. */
  lemma PassCheck(s: System, t: nat, payload: UserCreate, uuid: string)
    requires t < |s.threads| && s.threads[t].pc.Idle? && Str(payload.username) !in s.shared.index
    ensures var s' := Exec(s, Burst(t, payload, uuid, 3), false);
      && s'.log == s.log && s'.shared == s.shared && |s'.threads| == |s.threads|
      && s'.threads[t].pc == CreateClock(payload)
      && forall o :: 0 <= o < |s.threads| && o != t ==> s'.threads[o] == s.threads[o]
  {
    var c := Choice(t, CreateUser(payload), uuid, 0);
    BurstStep(s, t, payload, uuid, 3);
    var s1 := Next(s, c, false);
    BurstStep(s1, t, payload, uuid, 2);
    var s2 := Next(s1, c, false);
    assert s2.threads[t].pc == CreateCheck(payload);
    BurstStep(s2, t, payload, uuid, 1);
  }

  /** Read the clock and draw an id. */
  lemma DrawId(s: System, t: nat, payload: UserCreate, uuid: string)
    requires t < |s.threads| && s.threads[t].pc == CreateClock(payload) && MintId(uuid) !in s.shared.minted
    ensures var s' := Exec(s, Burst(t, payload, uuid, 2), false);
      && s'.log == s.log && |s'.threads| == |s.threads|
      && s'.threads[t].pc == CreateWriteUser(payload, uuid, s.shared.clock)
      && (forall o :: 0 <= o < |s.threads| && o != t ==> s'.threads[o] == s.threads[o])
      && s'.shared == s.shared.(minted := s.shared.minted + {MintId(uuid)})
  {
    hide Next;
    var c := Choice(t, CreateUser(payload), uuid, 0);
    BurstStep(s, t, payload, uuid, 2);
    WorkStep(s, c, false);
    var s1 := Next(s, c, false);
    assert s1.threads[t].pc == CreateMint(payload, s.shared.clock);
    BurstStep(s1, t, payload, uuid, 1);
    WorkStep(s1, c, false);
  }

  /** Write both dictionaries and release. */
  lemma WriteAndRelease(s: System, t: nat, payload: UserCreate, uuid: string, now: int)
    requires t < |s.threads| && s.threads[t].pc == CreateWriteUser(payload, uuid, now)
    ensures var s' := Exec(s, Burst(t, payload, uuid, 3), false);
      var row := NewRow(MintId(uuid), payload, now);
      && |s'.log| == |s.log| + 1 && s'.log[..|s.log|] == s.log && s'.log[|s.log|].reply == Created(row)
      && |s'.threads| == |s.threads|
      && (forall o :: 0 <= o < |s.threads| && o != t ==> s'.threads[o] == s.threads[o])
      && s'.shared.users == s.shared.users.Put(MintId(uuid), row)
      && s'.shared.minted == s.shared.minted
  {
    hide NewRow, MintId, Next;
    var c := Choice(t, CreateUser(payload), uuid, 0);
    BurstStep(s, t, payload, uuid, 3);
    WorkStep(s, c, false);
    var s1 := Next(s, c, false);
    assert s1.threads[t].pc == CreateWriteIndex(payload, uuid, now);
    BurstStep(s1, t, payload, uuid, 2);
    WorkStep(s1, c, false);
    var s2 := Next(s1, c, false);
    assert s2.threads[t].pc == Releasing(Create(payload, uuid, now), Created(NewRow(MintId(uuid), payload, now)));
    BurstStep(s2, t, payload, uuid, 1);
    ReleaseStep(s2, c, false);
  }

  lemma FinishCreate(s: System, t: nat, payload: UserCreate, uuid: string)
    requires t < |s.threads| && s.threads[t].pc == CreateClock(payload) && MintId(uuid) !in s.shared.minted
    ensures var s' := Exec(s, Burst(t, payload, uuid, 2) + Burst(t, payload, uuid, 3), false);
      && |s'.log| == |s.log| + 1 && s'.log[..|s.log|] == s.log && s'.log[|s.log|].reply.Created?
      && |s'.threads| == |s.threads|
      && (forall o :: 0 <= o < |s.threads| && o != t ==> s'.threads[o] == s.threads[o])
      && Holds(s'.shared.users, MintId(uuid), Str(payload.username))
      && s'.shared.minted == s.shared.minted + {MintId(uuid)}
      && forall id :: id != MintId(uuid) && Holds(s.shared.users, id, Str(payload.username)) ==>
           Holds(s'.shared.users, id, Str(payload.username))
  {
    hide Exec, Burst;
    ExecConcatenates(s, Burst(t, payload, uuid, 2), Burst(t, payload, uuid, 3), false);
    DrawId(s, t, payload, uuid);
    WriteAndRelease(Exec(s, Burst(t, payload, uuid, 2), false), t, payload, uuid, s.shared.clock);
    NewRowIsValid(MintId(uuid), payload, s.shared.clock);
  }

  /** Without the lock two racing creates both get 201, and two live users hold one name. */
  lemma WithoutLockNamesCollide(payload: UserCreate, a: string, b: string)
    requires MintId(a) != MintId(b)
    ensures exists choices :: var s := Exec(Initial(2), choices, false);
      && |s.log| == 2 && s.log[0].reply.Created? && s.log[1].reply.Created?
      && Holds(s.shared.users, MintId(a), Str(payload.username))
      && Holds(s.shared.users, MintId(b), Str(payload.username))
  {
    hide Next, Burst, Holds, Exec, MintId;
    var s0 := Initial(2);
    var c1, c2 := Burst(0, payload, a, 3), Burst(1, payload, b, 3);
    var c3 := Burst(0, payload, a, 2) + Burst(0, payload, a, 3);
    var c4 := Burst(1, payload, b, 2) + Burst(1, payload, b, 3);
    PassCheck(s0, 0, payload, a);
    var s1 := Exec(s0, c1, false);
    PassCheck(s1, 1, payload, b);
    var s2 := Exec(s1, c2, false);
    FinishCreate(s2, 0, payload, a);
    var s3 := Exec(s2, c3, false);
    FinishCreate(s3, 1, payload, b);
    var s4 := Exec(s3, c4, false);
    ExecConcatenates(s0, c1, c2, false);
    ExecConcatenates(s0, c1 + c2, c3, false);
    ExecConcatenates(s0, c1 + c2 + c3, c4, false);
    assert s4 == Exec(s0, c1 + c2 + c3 + c4, false);
    assert s4.log[0] == s4.log[..1][0];
  }
}
