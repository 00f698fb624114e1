/** The Flow service's models: `description` is the one nullable stored field. */
module FlowModel {
  import opened PartialUpdate

  datatype Field = Id | Name | Description | Status | CreatedAt | UpdatedAt

  type Row = map<Field, Value>

  datatype CreateFields = CreateFields(name: string, description: Value)

  predicate ValidDescription(v: Value) {
    v == Null || (v.Str? && |v.text| <= 500)
  }

  type FlowCreate = c: CreateFields | 1 <= |c.name| <= 100 && ValidDescription(c.description)
    witness CreateFields("a", Null)

  const PATCHABLE: set<Field> := {Name, Description, Status}

  const NULLABLE: set<Field> := {Description}

  predicate ValidPatch(p: Payload<Field>) {
    && p.values.Keys == PATCHABLE
    && p.isSet <= PATCHABLE
    && (forall k :: k in PATCHABLE && k !in p.isSet ==> p.values[k] == Null)
    && (p.values[Name] == Null || (p.values[Name].Str? && 1 <= |p.values[Name].text| <= 100))
    && ValidDescription(p.values[Description])
    && (p.values[Status] == Null || p.values[Status].Str?)
  }

  type FlowUpdate = p: Payload<Field> | ValidPatch(p)
    witness Payload(map[Name := Null, Description := Null, Status := Null], {})

  /** What the fields of a PATCH are when its body omits them. */
  const DEFAULTS: map<Field, Value> := map[Name := Null, Description := Null, Status := Null]

  /** Which JSON bodies are accepted as a PATCH: undeclared fields are ignored, nulls and omissions allowed. */
  lemma PatchAcceptedIff(json: map<Field, Value>)
    ensures ValidPatch(Parse(json, DEFAULTS)) <==>
            && (Name in json && json[Name] != Null ==> json[Name].Str? && 1 <= |json[Name].text| <= 100)
            && (Description in json && json[Description] != Null ==>
                  json[Description].Str? && |json[Description].text| <= 500)
            && (Status in json && json[Status] != Null ==> json[Status].Str?)
    ensures Parse(json, DEFAULTS).isSet == set f | f in json && f in {Name, Description, Status}
  {
    var p := Parse(json, DEFAULTS);
    assert p.values.Keys == DEFAULTS.Keys == PATCHABLE;
    assert forall f :: f in DEFAULTS <==> f == Name || f == Description || f == Status;
  }

  ghost predicate ValidRow(id: string, row: Row) {
    && row.Keys == {Id, Name, Description, Status, CreatedAt, UpdatedAt}
    && row[Id] == Str(id)
    && row[Name].Str? && 1 <= |row[Name].text| <= 100
    && ValidDescription(row[Description])
    && row[Status].Str?
    && row[CreatedAt].Time? && row[UpdatedAt].Time?
    && Stamp(row, CreatedAt) <= Stamp(row, UpdatedAt)
  }

  function NewRow(id: string, c: FlowCreate, at: int): Row {
    map[Id := Str(id), Name := Str(c.name), Description := c.description, Status := Str("created"),
        CreatedAt := Time(at), UpdatedAt := Time(at)]
  }

  function Update(p: FlowUpdate, now: int): map<Field, Value> {
    Effective(p, NULLABLE)[UpdatedAt := Time(now)]
  }

  lemma NewRowIsValid(id: string, c: FlowCreate, at: int)
    ensures ValidRow(id, NewRow(id, c, at))
    ensures Stamp(NewRow(id, c, at), CreatedAt) == Stamp(NewRow(id, c, at), UpdatedAt) == at
  {
  }

  /** The unvalidated overlay gives a valid record; a null clears the description and nothing else. */
  lemma UpdateKeepsRowValid(id: string, row: Row, p: FlowUpdate, now: int)
    requires ValidRow(id, row) && Stamp(row, UpdatedAt) <= now
    ensures var row' := ModelCopy(row, Update(p, now));
      && ValidRow(id, row') && row'[CreatedAt] == row[CreatedAt] && Stamp(row', UpdatedAt) == now
      && row'[Description] == (if Description in p.isSet then p.values[Description] else row[Description])
      && (Name in p.isSet && p.values[Name] == Null ==> row'[Name] == row[Name])
  {
  }

  /** A PATCH gives a field a value if it names it, unless with a null for a required field; `updated_at` always. */
  predicate Gives(p: FlowUpdate, f: Field) {
    f == UpdatedAt || (f in p.isSet && (p.values[f] != Null || f == Description))
  }

  function Given(p: FlowUpdate, now: int, f: Field): Value
    requires Gives(p, f)
  {
    if f == UpdatedAt then Time(now) else p.values[f]
  }

  /** Field by field: what a PATCH leaves in a record. */
  lemma PatchedField(row: Row, p: FlowUpdate, now: int, f: Field)
    requires f in row
    ensures var row' := ModelCopy(row, Update(p, now));
      f in row' && row'[f] == (if Gives(p, f) then Given(p, now, f) else row[f])
  {
  }

  /** A rename sent as a full dump, the way PUT sends it, would clear a stored description. */
  lemma FullDumpClearsDescription(row: Row, p: FlowUpdate)
    requires Description in row && row[Description] != Null && Description !in p.isSet
    ensures Patched(row, p, NULLABLE)[Description] == row[Description]
    ensures Patched(row, Parse(Dump(p, false), p.values), NULLABLE)[Description] == Null
    ensures Patched(row, Parse(Dump(p, true), p.values), NULLABLE) == Patched(row, p, NULLABLE)
  {
    WireEqualsLocal(row, p, p.values, NULLABLE);
    FullDumpEqualsLocalIff(row, p, p.values, NULLABLE);
  }
}

/** The Flow store: one dictionary, whose creates read their id and clock before taking the lock. */
module FlowStore {
  import opened Wrappers
  import opened OrderedDict
  import opened PartialUpdate
  import opened FlowModel

  datatype World = World(flows: Dict<string, Row>, issued: set<string>, clock: int)

  datatype Op =
    | Create(payload: FlowCreate, uuid: string, at: int)
    | Patch(id: string, patch: FlowUpdate, now: int)
    | Delete(id: string)
    | Get(id: string)
    | List

  datatype Reply =
    | Created(row: Row)
    | Found(row: Row)
    | Deleted
    | Listing(rows: seq<Row>)
    | NotFound
    | Crash  // an unhandled KeyError

  function MintId(uuid: string): string {
    "flow_" + uuid
  }

  function Later(a: int, b: int): int {
    if a < b then b else a
  }

  /** One critical section. */
  function Apply(w: World, op: Op): (World, Reply) {
    match op
    case Create(payload, uuid, at) =>
      var row := NewRow(MintId(uuid), payload, at);
      (World(w.flows.Put(MintId(uuid), row), w.issued + {MintId(uuid)}, Later(w.clock, at)), Created(row))
    case Patch(id, patch, now) =>
      if id !in w.flows.rows then (w, NotFound) else
      var row := ModelCopy(w.flows.rows[id], Update(patch, now));
      (w.(flows := w.flows.Put(id, row), clock := now), Found(row))
    case Delete(id) =>
      if id !in w.flows.rows then (w, NotFound) else (w.(flows := w.flows.Pop(id)), Deleted)
    case Get(id) => (w, if id in w.flows.rows then Found(w.flows.rows[id]) else NotFound)
    case List => (w, Listing(w.flows.Values()))
  }

  /** Ids do not repeat and the clock read inside the lock is not behind; a create's own clock may be. */
  ghost predicate Enabled(w: World, op: Op) {
    match op
    case Create(_, uuid, _) => MintId(uuid) !in w.issued
    case Patch(_, _, now) => w.clock <= now
    case _ => true
  }

  predicate Live(w: World, id: string) {
    id in w.flows.rows
  }

  ghost predicate Inv(w: World) {
    && w.flows.WellFormed()
    && forall id :: id in w.flows.rows ==>
         id in w.issued && ValidRow(id, w.flows.rows[id]) && Stamp(w.flows.rows[id], UpdatedAt) <= w.clock
  }

  lemma CreateKeepsInv(w: World, payload: FlowCreate, uuid: string, at: int)
    requires Inv(w)
    ensures Inv(Apply(w, Create(payload, uuid, at)).0)
  {
    NewRowIsValid(MintId(uuid), payload, at);
    PutWellFormed(w.flows, MintId(uuid), NewRow(MintId(uuid), payload, at));
    hide NewRow, ValidRow;
  }

  lemma PatchKeepsInv(w: World, id: string, patch: FlowUpdate, now: int)
    requires Inv(w) && w.clock <= now
    ensures Inv(Apply(w, Patch(id, patch, now)).0)
  {
    hide ModelCopy, Update, ValidRow;
    if Live(w, id) {
      UpdateKeepsRowValid(id, w.flows.rows[id], patch, now);
      PutWellFormed(w.flows, id, ModelCopy(w.flows.rows[id], Update(patch, now)));
    }
  }

  /** Every operation keeps the invariant; a 404 changes nothing. */
  lemma ApplyKeepsInv(w: World, op: Op)
    requires Inv(w) && Enabled(w, op)
    ensures Inv(Apply(w, op).0) && w.issued <= Apply(w, op).0.issued
    ensures Apply(w, op).1 == NotFound ==> Apply(w, op).0 == w
    ensures Apply(w, op).1 != Crash
  {
    hide Update, ModelCopy, NewRow, ValidRow;
    match op
    case Create(payload, uuid, at) => CreateKeepsInv(w, payload, uuid, at);
    case Patch(id, patch, now) => PatchKeepsInv(w, id, patch, now);
    case Delete(id) =>
      PopWellFormed(w.flows, id);
    case _ =>
  }

  const EMPTY: World := World(Dict([], map[]), {}, 0)

  class Store {
    var flows: Dict<string, Row>
    ghost var issued: set<string>
    ghost var clock: int

    ghost function View(): World
      reads this
    {
      World(flows, issued, clock)
    }

    constructor ()
      ensures View() == EMPTY && Inv(View())
    {
      flows, issued, clock := Dict([], map[]), {}, 0;
    }

    /** `uuid` and `at` were read before the lock was taken. */
    method CreateFlow(payload: FlowCreate, uuid: string, at: int) returns (reply: Reply)
      requires Inv(View()) && Enabled(View(), Create(payload, uuid, at))
      modifies this
      ensures Inv(View()) && (View(), reply) == Apply(old(View()), Create(payload, uuid, at))
    {
      hide Inv;
      ApplyKeepsInv(View(), Create(payload, uuid, at));
      var row := NewRow(MintId(uuid), payload, at);
      flows := flows.Put(MintId(uuid), row);
      issued, clock := issued + {MintId(uuid)}, Later(clock, at);
      return Created(row);
    }

    method UpdateFlow(id: string, patch: FlowUpdate, now: int) returns (reply: Reply)
      requires Inv(View()) && Enabled(View(), Patch(id, patch, now))
      modifies this
      ensures Inv(View()) && (View(), reply) == Apply(old(View()), Patch(id, patch, now))
    {
      hide Inv;
      ApplyKeepsInv(View(), Patch(id, patch, now));
      if id !in flows.rows {
        return NotFound;
      }
      var updated := ModelCopy(flows.rows[id], Update(patch, now));
      flows, clock := flows.Put(id, updated), now;
      return Found(updated);
    }

    method GetFlow(id: string) returns (reply: Reply)
      requires Inv(View())
      ensures reply == Apply(View(), Get(id)).1
      ensures reply.Found? <==> id in flows.rows
      ensures reply.Found? ==> reply.row == flows.rows[id] && ValidRow(id, reply.row)
      ensures reply == NotFound <==> id !in flows.rows
    {
      if id !in flows.rows {
        return NotFound;
      }
      return Found(flows.rows[id]);
    }

    method ListFlows() returns (reply: Reply)
      requires Inv(View())
      ensures reply == Apply(View(), List).1
      ensures reply.Listing? && |reply.rows| == |flows.order|
      ensures forall i :: 0 <= i < |reply.rows| ==> flows.order[i] in flows.rows && reply.rows[i] == flows.rows[flows.order[i]]
      ensures forall id :: id in flows.rows ==> flows.rows[id] in reply.rows
    {
      hide Inv, ValuesIn;
      ListingIsComplete(View());
      return Listing(flows.Values());
    }

    /** A listing has every live flow once, in dictionary order. */
    static lemma ListingIsComplete(w: World)
      requires Inv(w)
      ensures var rows := w.flows.Values();
        && |rows| == |w.flows.order|
        && (forall i :: 0 <= i < |rows| ==> w.flows.order[i] in w.flows.rows && rows[i] == w.flows.rows[w.flows.order[i]])
        && (forall id :: id in w.flows.rows ==> w.flows.rows[id] in rows)
    {
      ValuesFollowOrder(w.flows.order, w.flows.rows);
      forall id | id in w.flows.rows ensures w.flows.rows[id] in w.flows.Values() {
        var i :| 0 <= i < |w.flows.order| && w.flows.order[i] == id;
        assert w.flows.Values()[i] == w.flows.rows[id];
      }
    }

    method DeleteFlow(id: string) returns (reply: Reply)
      requires Inv(View())
      modifies this
      ensures Inv(View()) && (View(), reply) == Apply(old(View()), Delete(id))
    {
      hide Inv;
      ApplyKeepsInv(View(), Delete(id));
      if id !in flows.rows {
        return NotFound;
      }
      flows := flows.Pop(id);
      return Deleted;
    }
  }

  // ----- runs -----

  function After(w: World, ops: seq<Op>): World
    decreases |ops|
  {
    if ops == [] then w else Apply(After(w, ops[..|ops| - 1]), ops[|ops| - 1]).0
  }

  function Replies(w: World, ops: seq<Op>): (r: seq<Reply>)
    ensures |r| == |ops|
    decreases |ops|
  {
    if ops == [] then []
    else Replies(w, ops[..|ops| - 1]) + [Apply(After(w, ops[..|ops| - 1]), ops[|ops| - 1]).1]
  }

  ghost predicate Admissible(w: World, ops: seq<Op>)
    decreases |ops|
  {
    ops != [] ==> Admissible(w, ops[..|ops| - 1]) && Enabled(After(w, ops[..|ops| - 1]), ops[|ops| - 1])
  }

  /** Every reachable record is valid (required fields never null, never updated before created); no request crashes. */
  lemma {:induction false} RunKeepsInv(w: World, ops: seq<Op>)
    requires Inv(w) && Admissible(w, ops)
    ensures Inv(After(w, ops)) && w.issued <= After(w, ops).issued
    ensures Crash !in Replies(w, ops)
    decreases |ops|
  {
    hide Apply, Inv, Enabled;
    if ops != [] {
      RunKeepsInv(w, ops[..|ops| - 1]);
      ApplyKeepsInv(After(w, ops[..|ops| - 1]), ops[|ops| - 1]);
    }
  }

  /** A deleted flow never comes back: an update racing the delete gets 404 and cannot revive the row. */
  lemma {:induction false} NoResurrection(w: World, ops: seq<Op>, id: string)
    requires Inv(w) && Admissible(w, ops) && id in w.issued && !Live(w, id)
    ensures !Live(After(w, ops), id) && id in After(w, ops).issued
    decreases |ops|
  {
    if ops != [] {
      NoResurrection(w, ops[..|ops| - 1], id);
    }
  }

  /** Different uuids give different ids. */
  lemma MintIsInjective(a: string, b: string)
    ensures MintId(a) == "flow_" + a
    ensures MintId(a) == MintId(b) <==> a == b
  {
    assert MintId(a)[5..] == a && MintId(b)[5..] == b;
  }

  /** A created flow is found by its new id with the payload's own values, its description included. */
  lemma CreateThenRead(w: World, op: Op)
    requires Inv(w) && Enabled(w, op) && op.Create?
    ensures Apply(w, op).1.Created?
    ensures var w', row := Apply(w, op).0, Apply(w, op).1.row;
      && Apply(w', Get(MintId(op.uuid))).1 == Found(row)
      && row[Id] == Str("flow_" + op.uuid) && row[Name] == Str(op.payload.name)
      && row[Description] == op.payload.description && row[Status] == Str("created")
      && row[CreatedAt] == row[UpdatedAt] == Time(op.at)
      && forall id :: Live(w, id) ==> Live(w', id) && w'.flows.rows[id] == w.flows.rows[id]
  {
  }

  /** After a successful PATCH each field is the one given, a null only clearing the description, or kept. */
  lemma PatchThenRead(w: World, op: Op, f: Field)
    requires Inv(w) && Enabled(w, op) && op.Patch? && Live(w, op.id)
    ensures Apply(w, op).1.Found?
    ensures Apply(Apply(w, op).0, Get(op.id)).1 == Apply(w, op).1
    ensures f in w.flows.rows[op.id] && f in Apply(w, op).1.row
    ensures Apply(w, op).1.row[f] ==
            if f == UpdatedAt then Time(op.now)
            else if f in op.patch.isSet && (op.patch.values[f] != Null || f == Description) then op.patch.values[f]
            else w.flows.rows[op.id][f]
  {
    assert ValidRow(op.id, w.flows.rows[op.id]);
    hide ModelCopy, Update;
    PatchedField(w.flows.rows[op.id], op.patch, op.now, f);
  }

  /** A deleted flow is not found any more. */
  lemma DeleteThenRead(w: World, id: string)
    requires Inv(w) && Live(w, id)
    ensures Apply(w, Delete(id)).1 == Deleted && Apply(Apply(w, Delete(id)).0, Get(id)).1 == NotFound
  {
  }

  /** No request changes a flow other than the one it names. */
  lemma OtherRowsUntouched(w: World, op: Op, other: string)
    requires Inv(w) && Enabled(w, op) && !Targets(op, other) && Live(w, other)
    ensures Live(Apply(w, op).0, other) && Apply(w, op).0.flows.rows[other] == w.flows.rows[other]
  {
    hide ValidRow, NewRow, ModelCopy, Update;
  }

  predicate Targets(op: Op, id: string) {
    (op.Patch? || op.Delete? || op.Get?) && op.id == id
  }

  lemma GoneStaysGone(w: World, op: Op, id: string)
    requires Inv(w) && Enabled(w, op) && id in w.issued && !Live(w, id)
    ensures !Live(Apply(w, op).0, id) && id in Apply(w, op).0.issued
    ensures Targets(op, id) ==> Apply(w, op) == (w, NotFound)
  {
  }

  lemma DeletedIsGone(w: World, id: string)
    requires Inv(w) && Apply(w, Delete(id)).1 == Deleted
    ensures !Live(Apply(w, Delete(id)).0, id) && id in Apply(w, Delete(id)).0.issued
  {
  }

  /** After a 204 for an id it is gone for the rest of the run, and every later request for it is answered 404. */
  lemma {:induction false} DeletedMeansGone(w: World, ops: seq<Op>, i: nat, id: string)
    requires Inv(w) && Admissible(w, ops) && i < |ops| && ops[i] == Delete(id) && Replies(w, ops)[i] == Deleted
    ensures !Live(After(w, ops), id) && id in After(w, ops).issued
    ensures forall j :: i < j < |ops| && Targets(ops[j], id) ==> Replies(w, ops)[j] == NotFound
    decreases |ops|
  {
    hide Apply, Inv, Enabled, Live, Targets;
    var head, op := ops[..|ops| - 1], ops[|ops| - 1];
    RunKeepsInv(w, head);
    if i == |ops| - 1 {
      DeletedIsGone(After(w, head), id);
    } else {
      DeletedMeansGone(w, head, i, id);
      GoneStaysGone(After(w, head), op, id);
      forall j | i < j < |ops| && Targets(ops[j], id) ensures Replies(w, ops)[j] == NotFound {
        if j < |ops| - 1 {
          assert head[j] == ops[j];
        }
      }
    }
  }

  /** How many deletes of `id` were answered 204. */
  function DeletedCount(ops: seq<Op>, replies: seq<Reply>, id: string): nat
    requires |ops| == |replies|
  {
    if ops == [] then 0 else
    var n := |ops| - 1;
    DeletedCount(ops[..n], replies[..n], id) + (if ops[n] == Delete(id) && replies[n] == Deleted then 1 else 0)
  }

  predicate IsCreateOf(op: Op, id: string) {
    op.Create? && MintId(op.uuid) == id
  }

  lemma StepOfUnissued(w: World, op: Op, id: string)
    requires Inv(w) && Enabled(w, op) && id !in Apply(w, op).0.issued
    ensures id !in w.issued && !(op == Delete(id) && Apply(w, op).1 == Deleted)
  {
  }

  lemma {:induction false} NothingDeletedBefore(w: World, ops: seq<Op>, id: string)
    requires Inv(w) && Admissible(w, ops) && id !in After(w, ops).issued
    ensures DeletedCount(ops, Replies(w, ops), id) == 0
    decreases |ops|
  {
    hide Apply, Inv, Enabled;
    if ops != [] {
      var head := ops[..|ops| - 1];
      RunKeepsInv(w, head);
      StepOfUnissued(After(w, head), ops[|ops| - 1], id);
      assert Replies(w, ops)[..|ops| - 1] == Replies(w, head);
      NothingDeletedBefore(w, head, id);
    }
  }

  lemma CreateMakesLive(w: World, op: Op, id: string)
    requires Enabled(w, op) && IsCreateOf(op, id)
    ensures id !in w.issued && Live(Apply(w, op).0, id) && id in Apply(w, op).0.issued && op != Delete(id)
  {
  }

  /** What one operation does to a flow that exists, or existed. */
  lemma StepOfIssued(w: World, op: Op, id: string)
    requires Inv(w) && Enabled(w, op) && id in w.issued
    ensures Live(Apply(w, op).0, id) <==> Live(w, id) && op != Delete(id)
    ensures op == Delete(id) ==> Apply(w, op).1 == (if Live(w, id) then Deleted else NotFound)
    ensures id in Apply(w, op).0.issued
  {
  }

  predicate DeletedAfter(ops: seq<Op>, i: nat, id: string) {
    exists k :: i < k < |ops| && ops[k] == Delete(id)
  }

  /**
   * Racing deletes of a created flow, whatever else runs in between: exactly one is
   * answered 204 if there is any, the others 404, and the flow is gone iff there was one.
   */
  lemma {:induction false} RacingDeletes(w: World, ops: seq<Op>, i: nat, id: string)
    requires Inv(w) && Admissible(w, ops) && i < |ops| && IsCreateOf(ops[i], id)
    ensures DeletedCount(ops, Replies(w, ops), id) == (if DeletedAfter(ops, i, id) then 1 else 0)
    ensures Live(After(w, ops), id) <==> !DeletedAfter(ops, i, id)
    ensures forall k :: i < k < |ops| && ops[k] == Delete(id) ==> Replies(w, ops)[k] in {Deleted, NotFound}
    ensures id in After(w, ops).issued
    decreases |ops|
  {
    hide Apply, Inv, Enabled, Live, IsCreateOf;
    var head, op := ops[..|ops| - 1], ops[|ops| - 1];
    RunKeepsInv(w, head);
    assert Replies(w, ops)[..|ops| - 1] == Replies(w, head);
    if i == |ops| - 1 {
      CreateMakesLive(After(w, head), op, id);
      NothingDeletedBefore(w, head, id);
    } else {
      RacingDeletes(w, head, i, id);
      StepOfIssued(After(w, head), op, id);
      assert DeletedAfter(ops, i, id) <==> DeletedAfter(head, i, id) || op == Delete(id);
    }
  }

  /** The update that `op` makes to `id`, if it takes effect. */
  function WriteOf(w: World, op: Op, id: string): seq<map<Field, Value>> {
    if op.Patch? && op.id == id && Live(w, id) then [Update(op.patch, op.now)] else []
  }

  function Writes(w: World, ops: seq<Op>, id: string): seq<map<Field, Value>>
    decreases |ops|
  {
    if ops == [] then []
    else Writes(w, ops[..|ops| - 1], id) + WriteOf(After(w, ops[..|ops| - 1]), ops[|ops| - 1], id)
  }

  lemma StepOfOneRecord(w: World, op: Op, id: string)
    requires Inv(w) && Enabled(w, op) && Live(w, id) && Live(Apply(w, op).0, id)
    ensures Apply(w, op).0.flows.rows[id] == OverlayAll(w.flows.rows[id], WriteOf(w, op, id))
  {
  }

  /** A flow is its starting value overlaid with the writes that took effect on it, in order. */
  lemma {:induction false} RecordIsItsHistory(w: World, ops: seq<Op>, id: string)
    requires Inv(w) && Admissible(w, ops) && Live(w, id) && Live(After(w, ops), id)
    ensures After(w, ops).flows.rows[id] == OverlayAll(w.flows.rows[id], Writes(w, ops, id))
    decreases |ops|
  {
    if ops != [] {
      var head, op := ops[..|ops| - 1], ops[|ops| - 1];
      RunKeepsInv(w, head);
      StaysLiveBackwards(w, head, op, id);
      RecordIsItsHistory(w, head, id);
      hide Apply, Inv, OverlayAll, WriteOf, Enabled;
      StepOfOneRecord(After(w, head), op, id);
      PatchesCompose(w.flows.rows[id], Writes(w, head, id), WriteOf(After(w, head), op, id));
    }
  }

  /** The operation is a PATCH of the flow that gives the field a value. */
  predicate GivesField(op: Op, id: string, f: Field) {
    op.Patch? && op.id == id && Gives(op.patch, f)
  }

  ghost predicate NoneGives(ops: seq<Op>, id: string, f: Field) {
    forall i :: 0 <= i < |ops| ==> !GivesField(ops[i], id, f)
  }

  ghost predicate LastGives(ops: seq<Op>, i: nat, id: string, f: Field)
    requires i < |ops|
  {
    GivesField(ops[i], id, f) && forall j :: i < j < |ops| ==> !GivesField(ops[j], id, f)
  }

  lemma StepOfOneField(w: World, op: Op, id: string, f: Field)
    requires Inv(w) && Enabled(w, op) && Live(w, id) && Live(Apply(w, op).0, id)
    ensures f in w.flows.rows[id] && f in Apply(w, op).0.flows.rows[id]
    ensures Apply(w, op).0.flows.rows[id][f] ==
            if GivesField(op, id, f) then Given(op.patch, op.now, f) else w.flows.rows[id][f]
  {
    assert ValidRow(id, w.flows.rows[id]);
    if op.Patch? && op.id == id {
      PatchThenRead(w, op, f);
    } else {
      hide Inv, ValidRow, NewRow, ModelCopy, Update, Gives;
    }
  }

  /** The value is the one the last PATCH of the flow that gives the field gave it, or `start` if none does. */
  ghost predicate LastWriterHas(ops: seq<Op>, id: string, f: Field, start: Value, final: Value) {
    && (NoneGives(ops, id, f) ==> final == start)
    && (forall i :: 0 <= i < |ops| && LastGives(ops, i, id, f) ==> final == Given(ops[i].patch, ops[i].now, f))
  }

  lemma NoneGivesSnoc(ops: seq<Op>, id: string, f: Field)
    requires ops != []
    ensures NoneGives(ops, id, f) ==> NoneGives(ops[..|ops| - 1], id, f) && !GivesField(ops[|ops| - 1], id, f)
  {
    hide GivesField;
  }

  lemma LastGivesSnoc(ops: seq<Op>, i: nat, id: string, f: Field)
    requires i < |ops| && LastGives(ops, i, id, f)
    ensures GivesField(ops[i], id, f)
    ensures i < |ops| - 1 ==> LastGives(ops[..|ops| - 1], i, id, f) && !GivesField(ops[|ops| - 1], id, f)
  {
    hide GivesField;
  }

  lemma LastWriterSnoc(ops: seq<Op>, id: string, f: Field, start: Value, before: Value)
    requires ops != [] && LastWriterHas(ops[..|ops| - 1], id, f, start, before)
    ensures var op := ops[|ops| - 1];
      LastWriterHas(ops, id, f, start, if GivesField(op, id, f) then Given(op.patch, op.now, f) else before)
  {
    hide Given, NoneGives;
    var head, op := ops[..|ops| - 1], ops[|ops| - 1];
    NoneGivesSnoc(ops, id, f);
    forall i | 0 <= i < |ops| && LastGives(ops, i, id, f)
      ensures (if GivesField(op, id, f) then Given(op.patch, op.now, f) else before) == Given(ops[i].patch, ops[i].now, f)
    {
      LastGivesSnoc(ops, i, id, f);
    }
  }

  /**
   * Last writer wins per field over any history of a live flow: the value is the one the
   * last PATCH of the flow that gives the field gave it, or the starting one if none does;
   * no PATCH gives `id` or `created_at`.
   */
  lemma {:induction false} LastWriterWinsPerField(w: World, ops: seq<Op>, id: string, f: Field)
    requires Inv(w) && Admissible(w, ops) && Live(w, id) && Live(After(w, ops), id)
    ensures f in w.flows.rows[id] && f in After(w, ops).flows.rows[id]
    ensures LastWriterHas(ops, id, f, w.flows.rows[id][f], After(w, ops).flows.rows[id][f])
    ensures f in {Id, CreatedAt} ==> NoneGives(ops, id, f)
    decreases |ops|
  {
    hide Apply, Inv, Enabled, NoneGives, LastGives, LastWriterHas;
    IdentityIsNotGiven(ops, id, f);
    if ops == [] {
      FieldsAreThere(w, id, f);
      NothingWritten(id, f, w.flows.rows[id][f]);
    } else {
      var head, op := ops[..|ops| - 1], ops[|ops| - 1];
      RunKeepsInv(w, head);
      LiveIsIssued(w, head, id);
      StaysLiveBackwards(w, head, op, id);
      LastWriterWinsPerField(w, head, id, f);
      StepOfOneField(After(w, head), op, id, f);
      LastWriterSnoc(ops, id, f, w.flows.rows[id][f], After(w, head).flows.rows[id][f]);
    }
  }

  lemma NothingWritten(id: string, f: Field, start: Value)
    ensures LastWriterHas([], id, f, start, start)
  {
  }

  lemma FieldsAreThere(w: World, id: string, f: Field)
    requires Inv(w) && Live(w, id)
    ensures f in w.flows.rows[id] && id in w.issued
  {
    assert ValidRow(id, w.flows.rows[id]);
  }

  lemma LiveIsIssued(w: World, ops: seq<Op>, id: string)
    requires Inv(w) && Admissible(w, ops) && Live(w, id)
    ensures id in After(w, ops).issued
  {
    RunKeepsInv(w, ops);
    FieldsAreThere(w, id, Id);
  }

  lemma IdentityIsNotGiven(ops: seq<Op>, id: string, f: Field)
    ensures f in {Id, CreatedAt} ==> NoneGives(ops, id, f)
  {
  }

  lemma StaysLiveBackwards(w: World, head: seq<Op>, op: Op, id: string)
    requires Inv(After(w, head)) && Enabled(After(w, head), op) && id in After(w, head).issued
    requires Live(Apply(After(w, head), op).0, id)
    ensures Live(After(w, head), id)
  {
  }

  function CreatedIds(ops: seq<Op>): seq<string>
    decreases |ops|
  {
    if ops == [] then []
    else CreatedIds(ops[..|ops| - 1]) + (if ops[|ops| - 1].Create? then [MintId(ops[|ops| - 1].uuid)] else [])
  }

  lemma EmptyIsInv()
    ensures Inv(EMPTY)
  {
  }

  lemma {:induction false} OrderIsCommitOrder(log: seq<Op>)
    requires Admissible(EMPTY, log)
    ensures After(EMPTY, log).flows.order == Only(CreatedIds(log), After(EMPTY, log).flows.rows.Keys)
    ensures forall id :: id in CreatedIds(log) ==> id in After(EMPTY, log).issued
    decreases |log|
  {
    if log != [] {
      var head, op := log[..|log| - 1], log[|log| - 1];
      var w := After(EMPTY, head);
      OrderIsCommitOrder(head);
      RunKeepsInv(EMPTY, head);
      StepOrder(w, op, CreatedIds(head));
    }
  }

  lemma StepOrder(w: World, op: Op, ids: seq<string>)
    requires Inv(w) && Enabled(w, op) && w.flows.order == Only(ids, w.flows.rows.Keys)
    requires forall id :: id in ids ==> id in w.issued
    ensures Apply(w, op).0.flows.order ==
            Only(ids + (if op.Create? then [MintId(op.uuid)] else []), Apply(w, op).0.flows.rows.Keys)
  {
    var w' := Apply(w, op).0;
    var live, live' := w.flows.rows.Keys, w'.flows.rows.Keys;
    match op
    case Create(_, uuid, _) =>
      OnlyConcat(ids, [MintId(uuid)], live');
      OnlySame(ids, live, live');
    case Delete(id) =>
      assert ids + [] == ids;
      if Live(w, id) {
        OnlyTwice(ids, live, live');
      }
    case _ =>
      assert ids + [] == ids && live' == live;
  }

  lemma OnlySame(ids: seq<string>, a: set<string>, b: set<string>)
    requires forall id :: id in ids ==> (id in a <==> id in b)
    ensures Only(ids, a) == Only(ids, b)
  {
  }

  // ----- when the listing is sorted by creation time -----

  ghost predicate Sorted(times: seq<int>) {
    forall i, j :: 0 <= i < j < |times| ==> times[i] <= times[j]
  }

  predicate SortedByCreation(rows: seq<Row>) {
    forall i, j :: 0 <= i < j < |rows| ==> Stamp(rows[i], CreatedAt) <= Stamp(rows[j], CreatedAt)
  }

  predicate CreatedLive(op: Op, live: set<string>) {
    op.Create? && MintId(op.uuid) in live
  }

  /** Of any two creates in the run whose flows are live at the end, the earlier one read the clock first. */
  predicate SurvivorsInClockOrder(ops: seq<Op>, live: set<string>) {
    forall i, j :: 0 <= i < j < |ops| && CreatedLive(ops[i], live) && CreatedLive(ops[j], live) ==> ops[i].at <= ops[j].at
  }

  /** The clock readings of the surviving creates, in the order of the run. */
  function SurvivorTimes(ops: seq<Op>, live: set<string>): seq<int>
    decreases |ops|
  {
    if ops == [] then []
    else SurvivorTimes(ops[..|ops| - 1], live) + (if CreatedLive(ops[|ops| - 1], live) then [ops[|ops| - 1].at] else [])
  }

  lemma {:induction false} SurvivorTimesMembers(ops: seq<Op>, live: set<string>)
    ensures forall x :: x in SurvivorTimes(ops, live) <==>
                        exists i :: 0 <= i < |ops| && CreatedLive(ops[i], live) && ops[i].at == x
    decreases |ops|
  {
    if ops != [] {
      var head := ops[..|ops| - 1];
      SurvivorTimesMembers(head, live);
      forall x ensures x in SurvivorTimes(ops, live) <==>
                       exists i :: 0 <= i < |ops| && CreatedLive(ops[i], live) && ops[i].at == x
      {
        if i :| 0 <= i < |ops| && CreatedLive(ops[i], live) && ops[i].at == x {
          assert i < |head| ==> head[i] == ops[i];
        }
        if i :| 0 <= i < |head| && CreatedLive(head[i], live) && head[i].at == x {
          assert head[i] == ops[i];
        }
      }
    }
  }

  lemma SortedSnoc(times: seq<int>, x: int)
    ensures Sorted(times + [x]) <==> Sorted(times) && forall y :: y in times ==> y <= x
  {
    var more := times + [x];
    assert forall i :: 0 <= i < |times| ==> more[i] == times[i] && times[i] in times;
    if Sorted(more) {
      forall i, j | 0 <= i < j < |times| ensures times[i] <= times[j] {
        assert more[i] <= more[j];
      }
      forall y | y in times ensures y <= x {
        var i :| 0 <= i < |times| && times[i] == y;
        assert more[i] <= more[|times|];
      }
    }
  }

  lemma {:induction false} SurvivorTimesSortedIff(ops: seq<Op>, live: set<string>)
    ensures Sorted(SurvivorTimes(ops, live)) <==> SurvivorsInClockOrder(ops, live)
    decreases |ops|
  {
    if ops != [] {
      var head, op := ops[..|ops| - 1], ops[|ops| - 1];
      SurvivorTimesSortedIff(head, live);
      SurvivorTimesMembers(head, live);
      OrderSnoc(ops, live);
      assert SurvivorTimes(head, live) + [] == SurvivorTimes(head, live);
      if CreatedLive(op, live) {
        SortedSnoc(SurvivorTimes(head, live), op.at);
        forall i | 0 <= i < |head| && CreatedLive(head[i], live) ensures head[i].at in SurvivorTimes(head, live) {
        }
      }
    }
  }

  lemma OrderSnoc(ops: seq<Op>, live: set<string>)
    requires ops != []
    ensures var head, op := ops[..|ops| - 1], ops[|ops| - 1];
      SurvivorsInClockOrder(ops, live) <==>
      && SurvivorsInClockOrder(head, live)
      && (CreatedLive(op, live) ==> forall i :: 0 <= i < |head| && CreatedLive(head[i], live) ==> head[i].at <= op.at)
  {
    var head := ops[..|ops| - 1];
    assert forall i :: 0 <= i < |head| ==> head[i] == ops[i];
  }

  lemma CreationTimeIsKept(w: World, op: Op, id: string)
    requires Inv(w) && Enabled(w, op) && Live(w, id) && Live(Apply(w, op).0, id)
    ensures Stamp(Apply(w, op).0.flows.rows[id], CreatedAt) == Stamp(w.flows.rows[id], CreatedAt)
  {
    if op.Patch? && op.id == id {
      UpdateKeepsRowValid(id, w.flows.rows[id], op.patch, op.now);
    }
  }

  lemma CreationTimeIsSet(w: World, op: Op)
    requires op.Create?
    ensures var id, w' := MintId(op.uuid), Apply(w, op).0;
      id in w'.issued && Live(w', id) && Stamp(w'.flows.rows[id], CreatedAt) == op.at
  {
  }

  /** A surviving flow bears the clock reading of its own create. */
  lemma {:induction false} SurvivorBearsItsTime(ops: seq<Op>, i: nat)
    requires Admissible(EMPTY, ops) && i < |ops| && ops[i].Create?
    ensures var id, w := MintId(ops[i].uuid), After(EMPTY, ops);
      id in w.issued && (Live(w, id) ==> Stamp(w.flows.rows[id], CreatedAt) == ops[i].at)
    decreases |ops|
  {
    hide Apply, Inv, Enabled, Live;
    var id, head, op := MintId(ops[i].uuid), ops[..|ops| - 1], ops[|ops| - 1];
    if i == |ops| - 1 {
      CreationTimeIsSet(After(EMPTY, head), op);
    } else {
      SurvivorBearsItsTime(head, i);
      EmptyIsInv();
      RunKeepsInv(EMPTY, head);
      StepOfIssued(After(EMPTY, head), op, id);
      if Live(Apply(After(EMPTY, head), op).0, id) {
        CreationTimeIsKept(After(EMPTY, head), op, id);
      }
    }
  }

  ghost predicate Bears(rows: seq<Row>, times: seq<int>) {
    |rows| == |times| && forall k :: 0 <= k < |rows| ==> Stamp(rows[k], CreatedAt) == times[k]
  }

  lemma {:induction false} ListedTimes(ops: seq<Op>, rows: map<string, Row>)
    requires forall i :: 0 <= i < |ops| && CreatedLive(ops[i], rows.Keys) ==>
               Stamp(rows[MintId(ops[i].uuid)], CreatedAt) == ops[i].at
    ensures Bears(ValuesIn(Only(CreatedIds(ops), rows.Keys), rows), SurvivorTimes(ops, rows.Keys))
    decreases |ops|
  {
    if ops != [] {
      hide Only, ValuesIn;
      var head, op := ops[..|ops| - 1], ops[|ops| - 1];
      assert forall i :: 0 <= i < |head| ==> head[i] == ops[i];
      ListedTimes(head, rows);
      var last := if op.Create? then [MintId(op.uuid)] else [];
      OnlyConcat(CreatedIds(head), last, rows.Keys);
      ValuesConcat(Only(CreatedIds(head), rows.Keys), Only(last, rows.Keys), rows);
      LastListed(op, rows);
    }
  }

  lemma LastListed(op: Op, rows: map<string, Row>)
    ensures ValuesIn(Only(if op.Create? then [MintId(op.uuid)] else [], rows.Keys), rows)
         == (if CreatedLive(op, rows.Keys) then [rows[MintId(op.uuid)]] else [])
  {
  }

  /** The listing is sorted by creation time iff the surviving creates ran in the order of their clock readings. */
  lemma SortedIffClockOrder(ops: seq<Op>)
    requires Admissible(EMPTY, ops)
    ensures var flows := After(EMPTY, ops).flows;
      SortedByCreation(flows.Values()) <==> SurvivorsInClockOrder(ops, flows.rows.Keys)
  {
    hide After, Admissible, ValuesIn;
    var flows := After(EMPTY, ops).flows;
    OrderIsCommitOrder(ops);
    forall i | 0 <= i < |ops| && CreatedLive(ops[i], flows.rows.Keys)
      ensures Stamp(flows.rows[MintId(ops[i].uuid)], CreatedAt) == ops[i].at
    {
      SurvivorBearsItsTime(ops, i);
    }
    ListedTimes(ops, flows.rows);
    SurvivorTimesSortedIff(ops, flows.rows.Keys);
  }
}
