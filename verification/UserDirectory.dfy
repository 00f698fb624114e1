/**
 * The specification of the user store: one ordered map from id to user, searched
 * linearly by username. Operations are atomic; the class and the thread machine
 * in UserCenter.dfy and UserThreads.dfy are proved to refine it.
 */
module UserDirectory {
  import opened Wrappers
  import opened OrderedDict
  import opened PartialUpdate
  import opened UserModel

  /** `issued` holds every id ever handed out, `clock` is the last time read. */
  datatype World = World(users: Dict<string, Row>, issued: set<string>, clock: int)

  /** A request together with the uuid and the time its handler reads. */
  datatype Op =
    | Create(payload: UserCreate, uuid: string, now: int)
    | Patch(id: string, patch: UserUpdate, now: int)
    | Delete(id: string)
    | Get(id: string)
    | ByUsername(name: string)
    | List

  datatype Reply =
    | Created(row: Row)
    | Found(row: Row)
    | Deleted
    | Listing(rows: seq<Row>)
    | NotFound
    | Conflict
    | Crash  // an unhandled KeyError

  function StatusCode(r: Reply): int {
    match r
    case Created(_) => 201
    case Found(_) => 200
    case Deleted => 204
    case Listing(_) => 200
    case NotFound => 404
    case Conflict => 409
    case Crash => 500
  }

  function MintId(uuid: string): string {
    "user_" + uuid
  }

  predicate Holds(users: Dict<string, Row>, id: string, name: Value) {
    id in users.rows && NameOf(users.rows[id]) == name
  }

  /** Linear search: the first id in `order` whose user has this name. */
  function Search(users: Dict<string, Row>, order: seq<string>, name: Value): (r: Option<string>)
    ensures r.Some? ==> r.value in order && Holds(users, r.value, name)
    ensures r.None? ==> forall id :: id in order ==> !Holds(users, id, name)
  {
    if order == [] then None
    else if Holds(users, order[0], name) then Some(order[0])
    else Search(users, order[1..], name)
  }

  function Owner(users: Dict<string, Row>, name: Value): Option<string> {
    Search(users, users.order, name)
  }

  predicate HeldByOther(users: Dict<string, Row>, id: string, name: Value) {
    exists other :: other in users.rows && other != id && Holds(users, other, name)
  }

  function Apply(w: World, op: Op): (World, Reply) {
    match op
    case Create(payload, uuid, now) =>
      if Owner(w.users, Str(payload.username)).Some? then (w, Conflict) else
      var row := NewRow(MintId(uuid), payload, now);
      (World(w.users.Put(MintId(uuid), row), w.issued + {MintId(uuid)}, now), Created(row))
    case Patch(id, patch, now) =>
      if id !in w.users.rows then (w, NotFound) else
      var row := w.users.rows[id];
      if Renames(row, patch) && HeldByOther(w.users, id, NewName(patch)) then (w, Conflict) else
      var row' := ModelCopy(row, Update(patch, now));
      (w.(users := w.users.Put(id, row'), clock := now), Found(row'))
    case Delete(id) =>
      if id !in w.users.rows then (w, NotFound) else (w.(users := w.users.Pop(id)), Deleted)
    case Get(id) =>
      (w, if id in w.users.rows then Found(w.users.rows[id]) else NotFound)
    case ByUsername(name) =>
      (w, match Owner(w.users, Str(name))
          case Some(id) => if id in w.users.rows then Found(w.users.rows[id]) else NotFound
          case None => NotFound)
    case List =>
      (w, Listing(w.users.Values()))
  }

  /** What the environment promises: a uuid that is used is new, the clock never goes back. */
  ghost predicate Enabled(w: World, op: Op) {
    match op
    case Create(payload, uuid, now) =>
      w.clock <= now && (Owner(w.users, Str(payload.username)).None? ==> MintId(uuid) !in w.issued)
    case Patch(_, _, now) => w.clock <= now
    case _ => true
  }

  ghost predicate UniqueNames(users: Dict<string, Row>) {
    forall i, j :: i in users.rows && j in users.rows && NameOf(users.rows[i]) == NameOf(users.rows[j]) ==> i == j
  }

  ghost predicate CreatedInOrder(users: Dict<string, Row>) {
    forall i, j :: 0 <= i < j < |users.order| ==> CreatedBefore(users.rows, users.order[i], users.order[j])
  }

  predicate CreatedBefore(rows: map<string, Row>, a: string, b: string) {
    a in rows && b in rows && Stamp(rows[a], CreatedAt) <= Stamp(rows[b], CreatedAt)
  }

  ghost predicate RowsValid(w: World) {
    forall id :: id in w.users.rows ==>
      && id in w.issued
      && ValidRow(id, w.users.rows[id])
      && Stamp(w.users.rows[id], CreatedAt) <= Stamp(w.users.rows[id], UpdatedAt) <= w.clock
  }

  /** What holds of the store in every reachable state. */
  ghost predicate Inv(w: World) {
    && w.users.WellFormed()
    && RowsValid(w)
    && UniqueNames(w.users)
    && CreatedInOrder(w.users)
  }

  lemma PutKeepsUniqueNames(users: Dict<string, Row>, id: string, row: Row)
    requires UniqueNames(users)
    requires forall j :: j in users.rows && j != id ==> NameOf(users.rows[j]) != NameOf(row)
    ensures UniqueNames(users.Put(id, row))
  {
  }

  lemma PutNewKeepsCreatedInOrder(users: Dict<string, Row>, id: string, row: Row)
    requires users.WellFormed() && CreatedInOrder(users) && id !in users.rows
    requires forall j :: j in users.rows ==> Stamp(users.rows[j], CreatedAt) <= Stamp(row, CreatedAt)
    ensures CreatedInOrder(users.Put(id, row))
  {
  }

  lemma PutSameKeepsCreatedInOrder(users: Dict<string, Row>, id: string, row: Row)
    requires CreatedInOrder(users) && id in users.rows
    requires Stamp(users.rows[id], CreatedAt) == Stamp(row, CreatedAt)
    ensures CreatedInOrder(users.Put(id, row))
  {
  }

  lemma CreateKeepsInv(w: World, payload: UserCreate, uuid: string, now: int)
    requires Inv(w) && Enabled(w, Create(payload, uuid, now))
    ensures Inv(Apply(w, Create(payload, uuid, now)).0)
  {
    if Owner(w.users, Str(payload.username)).None? {
      var id := MintId(uuid);
      var row := NewRow(id, payload, now);
      NewRowIsValid(id, payload, now);
      PutWellFormed(w.users, id, row);
      forall j | j in w.users.rows ensures NameOf(w.users.rows[j]) != NameOf(row) {
        assert j in w.users.order && !Holds(w.users, j, Str(payload.username));
      }
      PutKeepsUniqueNames(w.users, id, row);
      PutNewKeepsCreatedInOrder(w.users, id, row);
    }
  }

  /** A patched user's name is its own: nobody else has it. */
  lemma PatchedNameIsUnique(w: World, id: string, patch: UserUpdate, now: int)
    requires Inv(w) && id in w.users.rows && w.clock <= now && Apply(w, Patch(id, patch, now)).1 != Conflict
    ensures forall j :: j in w.users.rows && j != id ==>
              NameOf(w.users.rows[j]) != NameOf(ModelCopy(w.users.rows[id], Update(patch, now)))
  {
    PatchedName(w, id, patch, now);
    hide ModelCopy, Update, CreatedInOrder, RowsValid, NewName;
    forall j | j in w.users.rows && j != id
      ensures NameOf(w.users.rows[j]) != NameOf(ModelCopy(w.users.rows[id], Update(patch, now)))
    {
      assert HeldByOther(w.users, id, NewName(patch)) || !Holds(w.users, j, NewName(patch));
    }
  }

  lemma PatchKeepsRowsValid(w: World, id: string, patch: UserUpdate, now: int)
    requires RowsValid(w) && id in w.users.rows && w.clock <= now
    ensures var row' := ModelCopy(w.users.rows[id], Update(patch, now));
      && RowsValid(World(w.users.Put(id, row'), w.issued, now))
      && Stamp(row', CreatedAt) == Stamp(w.users.rows[id], CreatedAt)
  {
    UpdateKeepsRowValid(id, w.users.rows[id], patch, now);
    hide ModelCopy, Update, ValidRow;
  }

  lemma PatchKeepsInv(w: World, id: string, patch: UserUpdate, now: int)
    requires Inv(w) && Enabled(w, Patch(id, patch, now))
    ensures Inv(Apply(w, Patch(id, patch, now)).0)
  {
    hide ModelCopy, Update, Renames, HeldByOther, RowsValid, UniqueNames, CreatedInOrder;
    if id in w.users.rows && Apply(w, Patch(id, patch, now)).1 != Conflict {
      var row' := ModelCopy(w.users.rows[id], Update(patch, now));
      PatchKeepsRowsValid(w, id, patch, now);
      PatchedNameIsUnique(w, id, patch, now);
      PutWellFormed(w.users, id, row');
      PutKeepsUniqueNames(w.users, id, row');
      PutSameKeepsCreatedInOrder(w.users, id, row');
    }
  }

  lemma DeleteKeepsInv(w: World, id: string)
    requires Inv(w)
    ensures Inv(Apply(w, Delete(id)).0)
  {
    if id in w.users.rows {
      var users := w.users.Pop(id);
      PopWellFormed(w.users, id);
      OnlyKeepsPairs(w.users.order, w.users.rows.Keys - {id}, (a, b) => CreatedBefore(w.users.rows, a, b));
      forall i, j | 0 <= i < j < |users.order| ensures CreatedBefore(users.rows, users.order[i], users.order[j]) {
        assert users.order[i] in users.order && users.order[j] in users.order;
        assert CreatedBefore(w.users.rows, users.order[i], users.order[j]);
      }
    }
  }

  /** Every operation keeps the invariant; only a successful one changes the store. */
  lemma ApplyKeepsInv(w: World, op: Op)
    requires Inv(w) && Enabled(w, op)
    ensures Inv(Apply(w, op).0)
    ensures w.issued <= Apply(w, op).0.issued && w.clock <= Apply(w, op).0.clock
    ensures StatusCode(Apply(w, op).1) >= 400 ==> Apply(w, op).0 == w
    ensures Apply(w, op).1 != Crash
  {
    match op
    case Create(payload, uuid, now) => CreateKeepsInv(w, payload, uuid, now);
    case Patch(id, patch, now) => PatchKeepsInv(w, id, patch, now);
    case Delete(id) => DeleteKeepsInv(w, id);
    case _ =>
  }

  /** The name a patched record ends up with. */
  lemma PatchedName(w: World, id: string, patch: UserUpdate, now: int)
    requires Inv(w) && id in w.users.rows && w.clock <= now
    ensures NameOf(ModelCopy(w.users.rows[id], Update(patch, now))) ==
            (if Renames(w.users.rows[id], patch) then NewName(patch) else NameOf(w.users.rows[id]))
  {
  }

  lemma UsersWellFormed(w: World)
    requires Inv(w)
    ensures w.users.WellFormed()
  {
  }

  lemma MintedIsNew(w: World, id: string)
    requires Inv(w) && id !in w.issued
    ensures id !in w.users.rows
  {
  }
}
