/** Theorems over whole runs of the user store, from any state that satisfies the invariant. */
module UserHistory {
  import opened Wrappers
  import opened OrderedDict
  import opened PartialUpdate
  import opened UserModel
  import opened UserDirectory

  function After(w: World, ops: seq<Op>): World
    decreases |ops|
  {
    if ops == [] then w else After(Apply(w, ops[0]).0, ops[1..])
  }

  function Replies(w: World, ops: seq<Op>): (r: seq<Reply>)
    ensures |r| == |ops|
    decreases |ops|
  {
    if ops == [] then [] else [Apply(w, ops[0]).1] + Replies(Apply(w, ops[0]).0, ops[1..])
  }

  /** The environment keeps its promises throughout the run. */
  ghost predicate Admissible(w: World, ops: seq<Op>)
    decreases |ops|
  {
    ops != [] ==> Enabled(w, ops[0]) && Admissible(Apply(w, ops[0]).0, ops[1..])
  }

  lemma {:induction false} RunsConcatenate(w: World, a: seq<Op>, b: seq<Op>)
    ensures After(w, a + b) == After(After(w, a), b)
    ensures Replies(w, a + b) == Replies(w, a) + Replies(After(w, a), b)
    ensures Admissible(w, a + b) <==> Admissible(w, a) && Admissible(After(w, a), b)
    decreases |a|
  {
    hide Apply;
    if a == [] {
      assert a + b == b;
    } else {
      RunsConcatenate(Apply(w, a[0]).0, a[1..], b);
      assert (a + b)[1..] == a[1..] + b;
    }
  }

  const EMPTY: World := World(Dict([], map[]), {}, 0)

  lemma EmptyIsInv()
    ensures Inv(EMPTY)
  {
  }

  /** Every reachable state satisfies the invariant: valid records, unique names, creation order, no crash. */
  lemma {:induction false} RunKeepsInv(w: World, ops: seq<Op>)
    requires Inv(w) && Admissible(w, ops)
    ensures Inv(After(w, ops)) && w.issued <= After(w, ops).issued && w.clock <= After(w, ops).clock
    ensures Crash !in Replies(w, ops)
    decreases |ops|
  {
    hide Apply;
    if ops != [] {
      ApplyKeepsInv(w, ops[0]);
      RunKeepsInv(Apply(w, ops[0]).0, ops[1..]);
    }
  }

  // ----- identities -----

  function Target(op: Op): Option<string> {
    match op
    case Patch(id, _, _) => Some(id)
    case Delete(id) => Some(id)
    case Get(id) => Some(id)
    case _ => None
  }

  function Bit(b: bool): nat {
    if b then 1 else 0
  }

  predicate Live(w: World, id: string) {
    id in w.users.rows
  }

  predicate Creates(w: World, op: Op, id: string) {
    op.Create? && Apply(w, op).1.Created? && MintId(op.uuid) == id
  }

  predicate Deletes(w: World, op: Op, id: string) {
    op == Delete(id) && Apply(w, op).1 == Deleted
  }

  function Creations(w: World, ops: seq<Op>, id: string): nat
    decreases |ops|
  {
    if ops == [] then 0
    else Bit(Creates(w, ops[0], id)) + Creations(Apply(w, ops[0]).0, ops[1..], id)
  }

  function Deletions(w: World, ops: seq<Op>, id: string): nat
    decreases |ops|
  {
    if ops == [] then 0
    else Bit(Deletes(w, ops[0], id)) + Deletions(Apply(w, ops[0]).0, ops[1..], id)
  }

  lemma GoneStaysGone(w: World, op: Op, id: string)
    requires Inv(w) && Enabled(w, op) && id in w.issued && !Live(w, id)
    ensures id in Apply(w, op).0.issued && !Live(Apply(w, op).0, id)
    ensures Target(op) == Some(id) ==> Apply(w, op).1 == NotFound
    ensures !Creates(w, op, id) && !Deletes(w, op, id)
  {
    hide RowsValid, UniqueNames, CreatedInOrder;
  }

  /** An id that was handed out and is gone never comes back, and every request for it is answered 404. */
  lemma {:induction false} NoResurrection(w: World, ops: seq<Op>, id: string)
    requires Inv(w) && Admissible(w, ops) && id in w.issued && !Live(w, id)
    ensures !Live(After(w, ops), id)
    ensures forall i :: 0 <= i < |ops| && Target(ops[i]) == Some(id) ==> Replies(w, ops)[i] == NotFound
    ensures Creations(w, ops, id) == Deletions(w, ops, id) == 0
    decreases |ops|
  {
    hide Apply, Inv, Enabled, Live, Target, Creates, Deletes;
    if ops == [] {
      assert After(w, ops) == w;
    } else {
      var w' := Apply(w, ops[0]).0;
      ApplyKeepsInv(w, ops[0]);
      GoneStaysGone(w, ops[0], id);
      NoResurrection(w', ops[1..], id);
      forall i | 0 <= i < |ops| && Target(ops[i]) == Some(id) ensures Replies(w, ops)[i] == NotFound {
        if i > 0 {
          assert ops[i] == ops[1..][i - 1];
        }
      }
    }
  }

  lemma IdsBalanceInOneStep(w: World, op: Op, id: string)
    requires Inv(w) && Enabled(w, op)
    ensures Bit(Live(w, id)) + Bit(Creates(w, op, id)) == Bit(Live(Apply(w, op).0, id)) + Bit(Deletes(w, op, id))
    ensures Bit(id in w.issued) + Bit(Creates(w, op, id)) == Bit(id in Apply(w, op).0.issued)
  {
    hide UniqueNames, CreatedInOrder;
  }

  /** Ids are conserved: live before plus created is live after plus deleted, and nothing is created twice. */
  lemma {:induction false} IdsAreConserved(w: World, ops: seq<Op>, id: string)
    requires Inv(w) && Admissible(w, ops)
    ensures Bit(Live(w, id)) + Creations(w, ops, id) == Bit(Live(After(w, ops), id)) + Deletions(w, ops, id)
    ensures Bit(id in w.issued) + Creations(w, ops, id) <= 1
    decreases |ops|
  {
    hide Apply, Inv, Enabled, Live, Creates, Deletes;
    if ops == [] {
      assert After(w, ops) == w;
    } else {
      ApplyKeepsInv(w, ops[0]);
      IdsBalanceInOneStep(w, ops[0], id);
      IdsAreConserved(Apply(w, ops[0]).0, ops[1..], id);
    }
  }

  lemma LiveUntilDeleted(w: World, op: Op, id: string)
    requires Inv(w) && Enabled(w, op) && Live(w, id)
    ensures Live(Apply(w, op).0, id) <==> op != Delete(id)
    ensures op == Delete(id) ==> Apply(w, op).1 == Deleted && id in Apply(w, op).0.issued
  {
    hide UniqueNames, CreatedInOrder;
  }

  /** Racing deletes of one live id: exactly one is answered 204, whatever else runs in between. */
  lemma {:induction false} RacingDeletes(w: World, ops: seq<Op>, id: string)
    requires Inv(w) && Admissible(w, ops) && Live(w, id)
    ensures Deletions(w, ops, id) == Bit(Delete(id) in ops)
    ensures forall i :: 0 <= i < |ops| && ops[i] == Delete(id) ==> Replies(w, ops)[i] in {Deleted, NotFound}
    ensures Live(After(w, ops), id) <==> Delete(id) !in ops
    decreases |ops|
  {
    hide Apply, Inv, Enabled, Live;
    if ops == [] {
      assert After(w, ops) == w;
    } else {
      var w' := Apply(w, ops[0]).0;
      ApplyKeepsInv(w, ops[0]);
      LiveUntilDeleted(w, ops[0], id);
      if ops[0] == Delete(id) {
        NoResurrection(w', ops[1..], id);
      } else {
        RacingDeletes(w', ops[1..], id);
      }
      assert Delete(id) in ops <==> ops[0] == Delete(id) || Delete(id) in ops[1..];
      forall i | 0 <= i < |ops| && ops[i] == Delete(id) ensures Replies(w, ops)[i] in {Deleted, NotFound} {
        if i > 0 {
          assert ops[i] == ops[1..][i - 1];
        }
      }
    }
  }

  lemma DeletedIsGone(w: World, id: string)
    requires Inv(w)
    ensures Apply(w, Delete(id)).1 == Deleted ==> id in Apply(w, Delete(id)).0.issued && !Live(Apply(w, Delete(id)).0, id)
  {
  }

  /** After a 204 for an id, every later request for it in the run is answered 404. */
  lemma {:induction false} DeletedMeansGone(w: World, ops: seq<Op>, i: nat, j: nat, id: string)
    requires Inv(w) && Admissible(w, ops) && i < j < |ops|
    requires ops[i] == Delete(id) && Replies(w, ops)[i] == Deleted && Target(ops[j]) == Some(id)
    ensures Replies(w, ops)[j] == NotFound
    decreases i
  {
    hide Apply, Inv, Enabled, Live, Target;
    var w' := Apply(w, ops[0]).0;
    ApplyKeepsInv(w, ops[0]);
    if i == 0 {
      DeletedIsGone(w, id);
      NoResurrection(w', ops[1..], id);
    } else {
      DeletedMeansGone(w', ops[1..], i - 1, j - 1, id);
    }
  }

  // ----- what a successful request leaves behind -----

  /** Different uuids give different ids. */
  lemma MintIsInjective(a: string, b: string)
    ensures MintId(a) == "user_" + a
    ensures MintId(a) == MintId(b) <==> a == b
  {
    assert MintId(a)[5..] == a && MintId(b)[5..] == b;
  }

  /** A created user is found, with the payload's own values, by its new id and by its name. */
  lemma CreateThenRead(w: World, op: Op)
    requires Inv(w) && Enabled(w, op) && op.Create? && Apply(w, op).1.Created?
    ensures var w', row := Apply(w, op).0, Apply(w, op).1.row;
      && Apply(w', Get(MintId(op.uuid))).1 == Found(row)
      && Apply(w', ByUsername(op.payload.username)).1 == Found(row)
      && row[Id] == Str("user_" + op.uuid) && row[Username] == Str(op.payload.username)
      && row[Email] == Str(op.payload.email) && row[Status] == Str("active")
      && row[CreatedAt] == row[UpdatedAt] == Time(op.now)
  {
    hide Inv;
    var id, w' := MintId(op.uuid), Apply(w, op).0;
    ApplyKeepsInv(w, op);
    NewRowIsValid(id, op.payload, op.now);
    assert w'.users.rows[id] == NewRow(id, op.payload, op.now);
    hide Apply;
    HolderIsFound(w', id, op.payload.username);
  }

  lemma HolderIsFound(w: World, id: string, name: string)
    requires Inv(w) && Holds(w.users, id, Str(name))
    ensures Apply(w, ByUsername(name)).1 == Apply(w, Get(id)).1 == Found(w.users.rows[id])
  {
  }

  /** After a successful PATCH each field is the one given, unless it was omitted, null or not patchable. */
  lemma PatchThenRead(w: World, op: Op, f: Field)
    requires Inv(w) && Enabled(w, op) && op.Patch? && Apply(w, op).1.Found?
    ensures Apply(Apply(w, op).0, Get(op.id)).1 == Apply(w, op).1
    ensures f in w.users.rows[op.id] && f in Apply(w, op).1.row
    ensures Apply(w, op).1.row[f] ==
            if f == UpdatedAt then Time(op.now)
            else if f in op.patch.isSet && op.patch.values[f] != Null then op.patch.values[f]
            else w.users.rows[op.id][f]
  {
    hide UniqueNames, CreatedInOrder, ModelCopy, Update, HeldByOther, Renames;
    assert ValidRow(op.id, w.users.rows[op.id]);
    PatchedField(w.users.rows[op.id], op.patch, op.now, f);
  }

  /** A deleted user is gone by id and by name, and the name is free again. */
  lemma DeleteThenRead(w: World, id: string)
    requires Inv(w) && Live(w, id)
    ensures var w', name := Apply(w, Delete(id)).0, NameOf(w.users.rows[id]);
      Apply(w', Get(id)).1 == NotFound && Owner(w'.users, name).None?
  {
  }

  /** No request changes a user other than the one it names. */
  lemma OtherRowsUntouched(w: World, op: Op, other: string)
    requires Inv(w) && Enabled(w, op) && Target(op) != Some(other) && Live(w, other)
    ensures Live(Apply(w, op).0, other) && Apply(w, op).0.users.rows[other] == w.users.rows[other]
  {
    hide UniqueNames, CreatedInOrder, NewRow, ModelCopy, Update, HeldByOther, Renames, Owner, ValidRow, Only;
  }

  // ----- usernames -----

  predicate Taken(w: World, name: string) {
    exists id :: id in w.users.rows && Holds(w.users, id, Str(name))
  }

  /** `op` gives the name to a user who did not have it. */
  predicate Claims(w: World, op: Op, name: string) {
    match op
    case Create(payload, _, _) => Apply(w, op).1.Created? && payload.username == name
    case Patch(id, patch, _) =>
      Apply(w, op).1.Found? && id in w.users.rows
      && Renames(w.users.rows[id], patch) && NewName(patch) == Str(name)
    case _ => false
  }

  /** `op` takes the name away from the user who had it. */
  predicate Releases(w: World, op: Op, name: string) {
    match op
    case Patch(id, patch, _) =>
      Apply(w, op).1.Found? && Holds(w.users, id, Str(name)) && Renames(w.users.rows[id], patch)
    case Delete(id) => Holds(w.users, id, Str(name))
    case _ => false
  }

  function ClaimCount(w: World, ops: seq<Op>, name: string): nat
    decreases |ops|
  {
    if ops == [] then 0
    else Bit(Claims(w, ops[0], name)) + ClaimCount(Apply(w, ops[0]).0, ops[1..], name)
  }

  function ReleaseCount(w: World, ops: seq<Op>, name: string): nat
    decreases |ops|
  {
    if ops == [] then 0
    else Bit(Releases(w, ops[0], name)) + ReleaseCount(Apply(w, ops[0]).0, ops[1..], name)
  }

  lemma CreateBalance(w: World, op: Op, name: string)
    requires Inv(w) && Enabled(w, op) && op.Create?
    ensures Bit(Taken(Apply(w, op).0, name)) == Bit(Taken(w, name)) + Bit(Claims(w, op, name))
  {
    hide UniqueNames, CreatedInOrder;
    var users, id := Apply(w, op).0.users, MintId(op.uuid);
    if Apply(w, op).1.Created? {
      assert Holds(users, id, Str(op.payload.username));
      assert forall j :: j != id ==> (Holds(users, j, Str(name)) <==> Holds(w.users, j, Str(name)));
      assert id !in w.users.rows;
    }
  }

  lemma OneHolder(w: World, name: string)
    requires Inv(w)
    ensures forall i, j :: Holds(w.users, i, Str(name)) && Holds(w.users, j, Str(name)) ==> i == j
  {
  }

  /** Who has the name after a successful PATCH. */
  lemma HoldersAfterPatch(w: World, op: Op, name: string)
    requires Inv(w) && Enabled(w, op) && op.Patch? && Apply(w, op).1.Found?
    ensures op.id in w.users.rows
    ensures var users, renames := Apply(w, op).0.users, Renames(w.users.rows[op.id], op.patch);
      && (forall j :: j != op.id ==> (Holds(users, j, Str(name)) <==> Holds(w.users, j, Str(name))))
      && (Holds(users, op.id, Str(name)) <==>
          if renames then NewName(op.patch) == Str(name) else Holds(w.users, op.id, Str(name)))
      && (renames && NewName(op.patch) == Str(name) ==> forall j :: !Holds(w.users, j, Str(name)))
  {
    var id := op.id;
    PatchedName(w, id, op.patch, op.now);
    hide Inv, ModelCopy, Update, NewName;
    if Renames(w.users.rows[id], op.patch) && NewName(op.patch) == Str(name) {
      assert forall j :: j != id && Holds(w.users, j, Str(name)) ==> HeldByOther(w.users, id, Str(name));
    }
  }

  lemma PatchBalance(w: World, op: Op, name: string)
    requires Inv(w) && Enabled(w, op) && op.Patch?
    ensures Bit(Taken(Apply(w, op).0, name)) + Bit(Releases(w, op, name)) == Bit(Taken(w, name)) + Bit(Claims(w, op, name))
  {
    OneHolder(w, name);
    if Apply(w, op).1.Found? {
      HoldersAfterPatch(w, op, name);
      hide Inv, Apply, Enabled, ModelCopy, Update, NewName, HeldByOther, Renames, Holds;
      TakenIffHeld(w, name);
      TakenIffHeld(Apply(w, op).0, name);
    }
  }

  lemma TakenIffHeld(w: World, name: string)
    ensures Taken(w, name) <==> exists id :: Holds(w.users, id, Str(name))
  {
  }

  lemma DeleteBalance(w: World, op: Op, name: string)
    requires Inv(w) && op.Delete?
    ensures Bit(Taken(Apply(w, op).0, name)) + Bit(Releases(w, op, name)) == Bit(Taken(w, name))
  {
    var users := Apply(w, op).0.users;
    assert forall j :: j != op.id ==> (Holds(users, j, Str(name)) <==> Holds(w.users, j, Str(name)));
    if Taken(w, name) && !Holds(w.users, op.id, Str(name)) {
      var j :| Holds(w.users, j, Str(name));
      assert Holds(users, j, Str(name));
    }
  }

  lemma NamesBalanceInOneStep(w: World, op: Op, name: string)
    requires Inv(w) && Enabled(w, op)
    ensures Bit(Taken(Apply(w, op).0, name)) + Bit(Releases(w, op, name)) == Bit(Taken(w, name)) + Bit(Claims(w, op, name))
  {
    match op
    case Create(_, _, _) => CreateBalance(w, op, name);
    case Patch(_, _, _) => PatchBalance(w, op, name);
    case Delete(_) => DeleteBalance(w, op, name);
    case _ =>
  }

  /** Claims and releases of a name alternate: their difference is always 0 or 1, and says whether it is taken. */
  lemma {:induction false} ClaimsAndReleasesAlternate(w: World, ops: seq<Op>, name: string)
    requires Inv(w) && Admissible(w, ops)
    ensures Bit(Taken(After(w, ops), name)) + ReleaseCount(w, ops, name) == Bit(Taken(w, name)) + ClaimCount(w, ops, name)
    decreases |ops|
  {
    hide Apply;
    if ops != [] {
      NamesBalanceInOneStep(w, ops[0], name);
      ApplyKeepsInv(w, ops[0]);
      ClaimsAndReleasesAlternate(Apply(w, ops[0]).0, ops[1..], name);
    }
  }

  predicate IsCreateOf(op: Op, name: string) {
    op.Create? && op.payload.username == name
  }

  /** How many creates of the name were made, and how many were answered with `code`. */
  function CreateCalls(ops: seq<Op>, name: string): nat {
    if ops == [] then 0 else Bit(IsCreateOf(ops[0], name)) + CreateCalls(ops[1..], name)
  }

  function CreatesAnswered(ops: seq<Op>, replies: seq<Reply>, name: string, code: int): nat
    requires |ops| == |replies|
  {
    if ops == [] then 0
    else Bit(IsCreateOf(ops[0], name) && StatusCode(replies[0]) == code) + CreatesAnswered(ops[1..], replies[1..], name, code)
  }

  /** How many users were renamed to the name. */
  function RenamesTo(w: World, ops: seq<Op>, name: string): nat
    decreases |ops|
  {
    if ops == [] then 0
    else Bit(ops[0].Patch? && Claims(w, ops[0], name)) + RenamesTo(Apply(w, ops[0]).0, ops[1..], name)
  }

  lemma ClaimIsCreateOrRename(w: World, op: Op, name: string)
    ensures Bit(Claims(w, op, name)) == Bit(IsCreateOf(op, name) && StatusCode(Apply(w, op).1) == 201)
                                        + Bit(op.Patch? && Claims(w, op, name))
    ensures Bit(IsCreateOf(op, name)) == Bit(IsCreateOf(op, name) && StatusCode(Apply(w, op).1) == 201)
                                         + Bit(IsCreateOf(op, name) && StatusCode(Apply(w, op).1) == 409)
  {
  }

  /** Every create is answered 201 or 409, and the names claimed are the 201s and the renames. */
  lemma {:induction false} CreatesAreAnswered(w: World, ops: seq<Op>, name: string)
    ensures CreatesAnswered(ops, Replies(w, ops), name, 201) + CreatesAnswered(ops, Replies(w, ops), name, 409)
         == CreateCalls(ops, name)
    ensures ClaimCount(w, ops, name) == CreatesAnswered(ops, Replies(w, ops), name, 201) + RenamesTo(w, ops, name)
    decreases |ops|
  {
    hide Apply, Claims, IsCreateOf, StatusCode;
    if ops != [] {
      ClaimIsCreateOrRename(w, ops[0], name);
      CreatesAreAnswered(Apply(w, ops[0]).0, ops[1..], name);
    }
  }

  /**
   * Racing creates of one name, with anything running in between that never gives the name
   * up: a free name goes to exactly one request. When nobody is renamed to it, exactly one
   * of the k creates is answered 201 and the other k-1 are answered 409.
   */
  lemma {:induction false} RacingCreates(w: World, ops: seq<Op>, name: string)
    requires Inv(w) && Admissible(w, ops) && ReleaseCount(w, ops, name) == 0
    requires exists i :: 0 <= i < |ops| && IsCreateOf(ops[i], name)
    ensures CreatesAnswered(ops, Replies(w, ops), name, 201) + RenamesTo(w, ops, name) == Bit(!Taken(w, name))
    ensures CreatesAnswered(ops, Replies(w, ops), name, 201) + CreatesAnswered(ops, Replies(w, ops), name, 409)
         == CreateCalls(ops, name)
    ensures !Taken(w, name) && RenamesTo(w, ops, name) == 0 ==>
              CreatesAnswered(ops, Replies(w, ops), name, 201) == 1
              && CreatesAnswered(ops, Replies(w, ops), name, 409) == CreateCalls(ops, name) - 1
    ensures Taken(After(w, ops), name)
  {
    hide Taken, Apply, Inv, Admissible;
    ClaimsAndReleasesAlternate(w, ops, name);
    CreateLeavesNameTaken(w, ops, name);
    CreatesAreAnswered(w, ops, name);
  }

  lemma {:induction false} CreateLeavesNameTaken(w: World, ops: seq<Op>, name: string)
    requires Inv(w) && Admissible(w, ops) && ReleaseCount(w, ops, name) == 0
    ensures Taken(w, name) || (exists i :: 0 <= i < |ops| && IsCreateOf(ops[i], name)) ==> Taken(After(w, ops), name)
    decreases |ops|
  {
    if ops != [] {
      NamesBalanceInOneStep(w, ops[0], name);
      ApplyKeepsInv(w, ops[0]);
      CreateLeavesNameTaken(Apply(w, ops[0]).0, ops[1..], name);
      assert forall i :: 0 < i < |ops| ==> ops[i] == ops[1..][i - 1];
    }
  }

  /** A rename is refused exactly when a different live user holds the name. */
  lemma RenameConflictIff(w: World, id: string, patch: UserUpdate, now: int)
    requires Inv(w)
    ensures Apply(w, Patch(id, patch, now)).1 == Conflict
       <==> Live(w, id) && NewName(patch) != Null
            && exists other :: other in w.users.rows && other != id && Holds(w.users, other, NewName(patch))
    ensures Apply(w, Patch(id, patch, now)).1 == NotFound <==> !Live(w, id)
  {
  }

  /** The status code of each operation, by what the store holds. */
  lemma CodesOfOperations(w: World, op: Op)
    requires Inv(w) && Enabled(w, op)
    ensures StatusCode(Apply(w, op).1) ==
            match op
            case Create(payload, _, _) => if Taken(w, payload.username) then 409 else 201
            case Patch(id, patch, _) =>
              if !Live(w, id) then 404
              else if NewName(patch) != Null && HeldByOther(w.users, id, NewName(patch)) then 409 else 200
            case Delete(id) => if Live(w, id) then 204 else 404
            case Get(id) => if Live(w, id) then 200 else 404
            case ByUsername(name) => if Taken(w, name) then 200 else 404
            case List => 200
  {
    hide Inv, Enabled, NewRow, ModelCopy, Update, NewName, Taken, HeldByOther;
    match op
    case Create(payload, _, _) => OwnedIffTaken(w, payload.username);
    case ByUsername(name) => FoundIffTaken(w, name);
    case Patch(id, patch, now) =>
      if Live(w, id) {
        ConflictIffHeld(w, id, patch, now);
      }
    case _ =>
  }

  lemma FoundIffTaken(w: World, name: string)
    requires Inv(w)
    ensures Apply(w, ByUsername(name)).1.Found? <==> Taken(w, name)
    ensures !Taken(w, name) ==> Apply(w, ByUsername(name)).1 == NotFound
  {
    OwnedIffTaken(w, name);
    hide UniqueNames, CreatedInOrder, RowsValid;
  }

  lemma ConflictIffHeld(w: World, id: string, patch: UserUpdate, now: int)
    requires Inv(w) && Live(w, id)
    ensures Apply(w, Patch(id, patch, now)).1 == Conflict <==> NewName(patch) != Null && HeldByOther(w.users, id, NewName(patch))
  {
    hide Inv, ModelCopy, Update, NewName, Apply;
    RenameConflictIff(w, id, patch, now);
  }

  lemma OwnedIffTaken(w: World, name: string)
    requires Inv(w)
    ensures Owner(w.users, Str(name)).Some? <==> Taken(w, name)
  {
  }

  // ----- histories of one record -----

  /** The update that `op` makes to `id`, if it takes effect. */
  function WriteOf(w: World, op: Op, id: string): seq<map<Field, Value>> {
    if op.Patch? && op.id == id && Apply(w, op).1.Found? then [Update(op.patch, op.now)] else []
  }

  /** The updates that took effect on `id` during the run. */
  function Writes(w: World, ops: seq<Op>, id: string): seq<map<Field, Value>>
    decreases |ops|
  {
    if ops == [] then [] else WriteOf(w, ops[0], id) + Writes(Apply(w, ops[0]).0, ops[1..], id)
  }

  lemma StepOfOneRecord(w: World, op: Op, id: string)
    requires Live(w, id) && Live(Apply(w, op).0, id)
    requires op.Create? && Apply(w, op).1.Created? ==> MintId(op.uuid) != id
    ensures Apply(w, op).0.users.rows[id] == OverlayAll(w.users.rows[id], WriteOf(w, op, id))
  {
  }

  lemma LiveIdIsNotReissued(w: World, op: Op, id: string)
    requires Inv(w) && Enabled(w, op) && Live(w, id)
    ensures op.Create? && Apply(w, op).1.Created? ==> MintId(op.uuid) != id
    ensures id in Apply(w, op).0.issued
  {
  }

  /** A record is its starting value overlaid with the writes that took effect on it, in order. */
  lemma {:induction false} RecordIsItsHistory(w: World, ops: seq<Op>, id: string)
    requires Inv(w) && Admissible(w, ops) && Live(w, id) && Live(After(w, ops), id)
    ensures After(w, ops).users.rows[id] == OverlayAll(w.users.rows[id], Writes(w, ops, id))
    decreases |ops|
  {
    hide Apply, Inv, OverlayAll, WriteOf, Enabled;
    if ops == [] {
      RecordWithoutHistory(w.users.rows[id]);
    } else {
      var op, w' := ops[0], Apply(w, ops[0]).0;
      ApplyKeepsInv(w, op);
      LiveIdIsNotReissued(w, op, id);
      if !Live(w', id) {
        NoResurrection(w', ops[1..], id);
      } else {
        RecordIsItsHistory(w', ops[1..], id);
        StepOfOneRecord(w, op, id);
        PatchesCompose(w.users.rows[id], WriteOf(w, op, id), Writes(w', ops[1..], id));
      }
    }
  }

  lemma RecordWithoutHistory(row: Row)
    ensures OverlayAll(row, []) == row
  {
  }

  lemma {:induction false} WritesAreEffective(w: World, ops: seq<Op>, id: string)
    ensures forall i :: 0 <= i < |Writes(w, ops, id)| ==> Writes(w, ops, id)[i].Keys <= {Username, Email, Status, UpdatedAt}
    decreases |ops|
  {
    if ops != [] {
      WritesAreEffective(Apply(w, ops[0]).0, ops[1..], id);
      if ops[0].Patch? {
        var e := Effective(ops[0].patch, NULLABLE);
        assert forall k :: k in e ==> k in PATCHABLE;
      }
    }
  }

  /** Last writer wins per field over any history of a live user; `id` and `created_at` never change. */
  lemma LastWriterWinsPerField(w: World, ops: seq<Op>, id: string, f: Field)
    requires Inv(w) && Admissible(w, ops) && Live(w, id) && Live(After(w, ops), id)
    requires f in w.users.rows[id]
    ensures f in After(w, ops).users.rows[id]
    ensures After(w, ops).users.rows[id][f] ==
            match LastWrite(Writes(w, ops, id), f) case Some(v) => v case None => w.users.rows[id][f]
    ensures f in {Id, CreatedAt} ==> After(w, ops).users.rows[id][f] == w.users.rows[id][f]
  {
    hide Writes, After, OverlayAll, LastWrite, Inv, Admissible;
    RecordIsItsHistory(w, ops, id);
    LastWriterWins(w.users.rows[id], Writes(w, ops, id), f);
    WritesAreEffective(w, ops, id);
  }

  // ----- listing order -----

  function CreatedBy(w: World, op: Op): seq<string> {
    if op.Create? && Apply(w, op).1.Created? then [MintId(op.uuid)] else []
  }

  /** The ids created during the run, in the order of their creation. */
  function CreatedIds(w: World, ops: seq<Op>): seq<string>
    decreases |ops|
  {
    if ops == [] then [] else CreatedBy(w, ops[0]) + CreatedIds(Apply(w, ops[0]).0, ops[1..])
  }

  lemma StepOrder(w: World, op: Op)
    requires Inv(w) && Enabled(w, op)
    ensures Apply(w, op).0.users.order == Only(w.users.order + CreatedBy(w, op), Apply(w, op).0.users.rows.Keys)
  {
    var users := Apply(w, op).0.users;
    assert w.users.order + [] == w.users.order;
    match op
    case Delete(id) =>
      if !Live(w, id) {
        OnlyAll(users.order, users.rows.Keys);
      }
    case Patch(_, _, _) =>
      assert users.order == w.users.order;
      OnlyAll(users.order, users.rows.Keys);
    case _ =>
      assert users.order == w.users.order + CreatedBy(w, op);
      OnlyAll(users.order, users.rows.Keys);
  }

  lemma OrderIsLive(w: World)
    requires Inv(w)
    ensures w.users.order == Only(w.users.order, w.users.rows.Keys)
  {
    OnlyAll(w.users.order, w.users.rows.Keys);
  }

  lemma StepIssues(w: World, op: Op)
    requires Inv(w) && Enabled(w, op)
    ensures forall id :: id in w.users.order + CreatedBy(w, op) ==> id in Apply(w, op).0.issued
  {
  }

  /** `list_users` is the order of successful creates restricted to the survivors, untouched by updates. */
  lemma {:induction false} ListingIsCreationOrder(w: World, ops: seq<Op>)
    requires Inv(w) && Admissible(w, ops)
    ensures After(w, ops).users.order == Only(w.users.order + CreatedIds(w, ops), After(w, ops).users.rows.Keys)
    decreases |ops|
  {
    hide Apply, Inv, Only, CreatedBy, Enabled;
    if ops == [] {
      assert w.users.order + [] == w.users.order;
      OrderIsLive(w);
    } else {
      var op, w' := ops[0], Apply(w, ops[0]).0;
      var before, rest, live := w.users.order + CreatedBy(w, op), CreatedIds(w', ops[1..]), After(w, ops).users.rows.Keys;
      ApplyKeepsInv(w, op);
      StepOrder(w, op);
      StepIssues(w, op);
      ListingIsCreationOrder(w', ops[1..]);
      forall id | id in before && id in live ensures Live(w', id) {
        if !Live(w', id) {
          NoResurrection(w', ops[1..], id);
        }
      }
      OnlyPrefix(before, rest, w'.users.rows.Keys, live);
      assert w.users.order + CreatedIds(w, ops) == before + rest;
    }
  }

  /** The listing a reader gets is sorted by creation time, because the clock is read inside the lock. */
  lemma ListingIsSorted(w: World, ops: seq<Op>)
    requires Inv(w) && Admissible(w, ops)
    ensures var rows := After(w, ops).users.Values();
      Apply(After(w, ops), List).1 == Listing(rows)
      && forall i, j :: 0 <= i < j < |rows| ==> Stamp(rows[i], CreatedAt) <= Stamp(rows[j], CreatedAt)
  {
    RunKeepsInv(w, ops);
    var users := After(w, ops).users;
    ValuesFollowOrder(users.order, users.rows);
    forall i, j | 0 <= i < j < |users.order|
      ensures Stamp(users.Values()[i], CreatedAt) <= Stamp(users.Values()[j], CreatedAt)
    {
      assert CreatedBefore(users.rows, users.order[i], users.order[j]);
    }
  }
}
