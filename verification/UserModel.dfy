/** The User Center's request and stored models, with the constraints checked when a request is parsed. */
module UserModel {
  import opened PartialUpdate

  datatype Field = Id | Username | Email | Status | CreatedAt | UpdatedAt

  /** A stored user: `model_copy` could put anything into it, so nothing is assumed of its fields. */
  type Row = map<Field, Value>

  predicate Bounded(s: string, min: nat, max: nat) {
    min <= |s| <= max
  }

  datatype CreateFields = CreateFields(username: string, email: string, password: string)

  type UserCreate = c: CreateFields |
      Bounded(c.username, 3, 50) && Bounded(c.email, 3, 254) && Bounded(c.password, 8, 128)
    witness CreateFields("abc", "abc", "abcdefgh")

  const PATCHABLE: set<Field> := {Username, Email, Status}

  /** No field of the stored user model is nullable. */
  const NULLABLE: set<Field> := {}

  predicate ValidText(v: Value, min: nat, max: nat) {
    v == Null || (v.Str? && Bounded(v.text, min, max))
  }

  predicate ValidPatch(p: Payload<Field>) {
    && p.values.Keys == PATCHABLE
    && p.isSet <= PATCHABLE
    && (forall k :: k in PATCHABLE && k !in p.isSet ==> p.values[k] == Null)
    && ValidText(p.values[Username], 3, 50)
    && ValidText(p.values[Email], 3, 254)
    && (p.values[Status] == Null || p.values[Status].Str?)
  }

  type UserUpdate = p: Payload<Field> | ValidPatch(p)
    witness Payload(map[Username := Null, Email := Null, Status := Null], {})

  /** What the fields of a PATCH are when its body omits them. */
  const DEFAULTS: map<Field, Value> := map[Username := Null, Email := Null, Status := Null]

  /** Which JSON bodies are accepted as a PATCH: undeclared fields are ignored, nulls and omissions allowed. */
  lemma PatchAcceptedIff(json: map<Field, Value>)
    ensures ValidPatch(Parse(json, DEFAULTS)) <==>
            && (Username in json && json[Username] != Null ==> json[Username].Str? && 3 <= |json[Username].text| <= 50)
            && (Email in json && json[Email] != Null ==> json[Email].Str? && 3 <= |json[Email].text| <= 254)
            && (Status in json && json[Status] != Null ==> json[Status].Str?)
    ensures Parse(json, DEFAULTS).isSet == set f | f in json && f in {Username, Email, Status}
  {
    var p := Parse(json, DEFAULTS);
    assert p.values.Keys == DEFAULTS.Keys == PATCHABLE;
    assert forall f :: f in DEFAULTS <==> f == Username || f == Email || f == Status;
  }

  /** What the stored user model demands of a record. */
  ghost predicate ValidRow(id: string, row: Row) {
    && row.Keys == {Id, Username, Email, Status, CreatedAt, UpdatedAt}
    && row[Id] == Str(id)
    && row[Username].Str? && Bounded(row[Username].text, 3, 50)
    && row[Email].Str? && Bounded(row[Email].text, 3, 254)
    && row[Status].Str?
    && row[CreatedAt].Time? && row[UpdatedAt].Time?
    && Stamp(row, CreatedAt) <= Stamp(row, UpdatedAt)
  }

  function NewRow(id: string, c: UserCreate, now: int): Row {
    map[Id := Str(id), Username := Str(c.username), Email := Str(c.email), Status := Str("active"),
        CreatedAt := Time(now), UpdatedAt := Time(now)]
  }

  lemma NewRowIsValid(id: string, c: UserCreate, now: int)
    ensures ValidRow(id, NewRow(id, c, now))
    ensures NameOf(NewRow(id, c, now)) == Str(c.username)
    ensures Stamp(NewRow(id, c, now), CreatedAt) == Stamp(NewRow(id, c, now), UpdatedAt) == now
  {
  }

  /** The update a PATCH overlays: its effective fields and the time stamp. */
  function Update(p: UserUpdate, now: int): map<Field, Value> {
    Effective(p, NULLABLE)[UpdatedAt := Time(now)]
  }

  /** `update_data.get("username")`, `Null` when the patch does not set one. */
  function NewName(p: UserUpdate): Value {
    var e := Effective(p, NULLABLE);
    if Username in e then e[Username] else Null
  }

  function NameOf(row: Row): Value {
    if Username in row then row[Username] else Null
  }

  predicate Renames(row: Row, p: UserUpdate) {
    NewName(p) != Null && NewName(p) != NameOf(row)
  }

  /** Field by field: what a PATCH leaves in a record. */
  lemma PatchedField(row: Row, p: UserUpdate, now: int, f: Field)
    requires f in row
    ensures var row' := ModelCopy(row, Update(p, now));
      f in row' && row'[f] == (if f == UpdatedAt then Time(now)
                               else if f in p.isSet && p.values[f] != Null then p.values[f] else row[f])
  {
  }

  /** The unvalidated overlay still gives a valid record; identity and creation time stay. */
  lemma UpdateKeepsRowValid(id: string, row: Row, p: UserUpdate, now: int)
    requires ValidRow(id, row) && Stamp(row, UpdatedAt) <= now
    ensures var row' := ModelCopy(row, Update(p, now));
      && ValidRow(id, row')
      && row'[Id] == row[Id] && row'[CreatedAt] == row[CreatedAt] && row'[UpdatedAt] == Time(now)
      && NameOf(row') == (if Renames(row, p) then NewName(p) else NameOf(row))
  {
  }
}
