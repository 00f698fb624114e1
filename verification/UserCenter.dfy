/** The username index: when it agrees with the user map, and what each write does to the agreement. */
module UserIndex {
  import opened Wrappers
  import opened OrderedDict
  import opened PartialUpdate
  import opened UserModel
  import opened UserDirectory

  type Index = map<Value, string>

  /** The index is exactly the inverse of the username field. */
  ghost predicate Inverse(rows: map<string, Row>, index: Index) {
    && (forall id :: id in rows ==> NameOf(rows[id]) in index && index[NameOf(rows[id])] == id)
    && (forall name :: name in index ==> index[name] in rows && NameOf(rows[index[name]]) == name)
  }

  function Lookup(index: Index, name: Value): Option<string> {
    if name in index then Some(index[name]) else None
  }

  /** Looking a name up in the index returns what the linear search returns. */
  lemma LookupIsSearch(users: Dict<string, Row>, index: Index, name: Value)
    requires users.WellFormed() && Inverse(users.rows, index)
    ensures Lookup(index, name) == Owner(users, name)
  {
  }

  /** The index is a bijection between the names in use and the live ids. */
  lemma InverseIsBijection(rows: map<string, Row>, index: Index)
    requires Inverse(rows, index)
    ensures forall a, b :: a in index && b in index && index[a] == index[b] ==> a == b
    ensures index.Values == rows.Keys
  {
  }

  /** In a rename the conjunct `owner_id != user_id` is redundant. */
  lemma OwnerConjunctIsRedundant(rows: map<string, Row>, index: Index, id: string, patch: UserUpdate)
    requires Inverse(rows, index) && id in rows && Renames(rows[id], patch)
    ensures Lookup(index, NewName(patch)) != Some(id)
  {
  }

  lemma OwnerDecidesConflict(users: Dict<string, Row>, index: Index, id: string, name: Value)
    requires users.WellFormed() && Inverse(users.rows, index)
    ensures HeldByOther(users, id, name) <==> name in index && index[name] != id
  {
  }

  lemma InverseAfterCreate(rows: map<string, Row>, index: Index, id: string, row: Row)
    requires Inverse(rows, index) && id !in rows && NameOf(row) !in index
    ensures Inverse(rows[id := row], index[NameOf(row) := id])
  {
  }

  lemma InverseAfterUpdate(rows: map<string, Row>, index: Index, id: string, row: Row)
    requires Inverse(rows, index) && id in rows && NameOf(row) == NameOf(rows[id])
    ensures Inverse(rows[id := row], index)
  {
  }

  lemma InverseAfterRename(rows: map<string, Row>, index: Index, id: string, row: Row)
    requires Inverse(rows, index) && id in rows && NameOf(row) !in index
    ensures Inverse(rows[id := row], (index - {NameOf(rows[id])})[NameOf(row) := id])
  {
  }

  lemma InverseAfterDelete(rows: map<string, Row>, index: Index, id: string)
    requires Inverse(rows, index) && id in rows
    ensures Inverse(rows - {id}, index - {NameOf(rows[id])})
  {
  }
}

/** The User Center's store as the handlers change it: two dictionaries, updated in place. */
module UserCenter {
  import opened Wrappers
  import opened OrderedDict
  import opened PartialUpdate
  import opened UserModel
  import opened UserDirectory
  import opened UserIndex

  class UserStore {
    var users: Dict<string, Row>
    var byUsername: Index
    ghost var issued: set<string>
    ghost var clock: int

    /** The abstract store this object stands for: the index is not part of it. */
    ghost function View(): World
      reads this
    {
      World(users, issued, clock)
    }

    ghost predicate Valid()
      reads this
    {
      Inv(View()) && Inverse(users.rows, byUsername)
    }

    constructor ()
      ensures Valid() && View() == World(Dict([], map[]), {}, 0)
    {
      users, byUsername := Dict([], map[]), map[];
      issued, clock := {}, 0;
    }

    static lemma IndexKnowsTheOwner(w: World, index: Index, name: Value)
      requires Inv(w) && Inverse(w.users.rows, index)
      ensures name in index <==> Owner(w.users, name).Some?
    {
      LookupIsSearch(w.users, index, name);
    }

    method CreateUser(payload: UserCreate, uuid: string, now: int) returns (reply: Reply)
      requires Valid() && Enabled(View(), Create(payload, uuid, now))
      modifies this
      ensures Valid() && (View(), reply) == Apply(old(View()), Create(payload, uuid, now))
    {
      hide Inv, Inverse, NewRow, Owner, MintId;
      IndexKnowsTheOwner(View(), byUsername, Str(payload.username));
      ApplyKeepsInv(View(), Create(payload, uuid, now));
      if Str(payload.username) in byUsername {
        return Conflict;
      }
      var id := MintId(uuid);
      var row := NewRow(id, payload, now);
      NewRowIsValid(id, payload, now);
      MintedIsNew(View(), id);
      InverseAfterCreate(users.rows, byUsername, id, row);
      users := users.Put(id, row);
      byUsername := byUsername[Str(payload.username) := id];
      issued, clock := issued + {id}, now;
      return Created(row);
    }

    method UpdateUser(id: string, patch: UserUpdate, now: int) returns (reply: Reply)
      requires Valid() && Enabled(View(), Patch(id, patch, now))
      modifies this
      ensures Valid() && (View(), reply) == Apply(old(View()), Patch(id, patch, now))
    {
      hide Inv, Inverse, Update, NewName, ModelCopy;
      ApplyKeepsInv(View(), Patch(id, patch, now));
      if id !in users.rows {
        return NotFound;
      }
      PatchedName(View(), id, patch, now);
      assert users.WellFormed() by { UsersWellFormed(View()); }
      var existing := users.rows[id];
      var newName := NewName(patch);
      OwnerDecidesConflict(users, byUsername, id, newName);
      if newName != Null && newName != NameOf(existing) {
        OwnerConjunctIsRedundant(users.rows, byUsername, id, patch);
        var owner := Lookup(byUsername, newName);
        if owner.Some? && owner.value != id {
          return Conflict;
        }
      }
      var updated := ModelCopy(existing, Update(patch, now));
      ghost var before := users.rows;
      users := users.Put(id, updated);
      clock := now;
      if newName != Null && newName != NameOf(existing) {
        InverseAfterRename(before, byUsername, id, updated);
        byUsername := byUsername - {NameOf(existing)};
        byUsername := byUsername[newName := id];
      } else {
        InverseAfterUpdate(before, byUsername, id, updated);
      }
      return Found(updated);
    }

    method DeleteUser(id: string) returns (reply: Reply)
      requires Valid()
      modifies this
      ensures Valid() && (View(), reply) == Apply(old(View()), Delete(id))
    {
      hide Inv, Inverse, Only;
      ApplyKeepsInv(View(), Delete(id));
      if id !in users.rows {
        return NotFound;
      }
      var user := users.rows[id];
      InverseAfterDelete(users.rows, byUsername, id);
      users := users.Pop(id);
      byUsername := byUsername - {NameOf(user)};
      return Deleted;
    }

    method GetUserByUsername(name: string) returns (reply: Reply)
      requires Valid()
      ensures reply == Apply(View(), ByUsername(name)).1
    {
      LookupIsSearch(users, byUsername, Str(name));
      var id := Lookup(byUsername, Str(name));
      if id.None? || id.value !in users.rows {
        return NotFound;
      }
      return Found(users.rows[id.value]);
    }

    method GetUser(id: string) returns (reply: Reply)
      requires Valid()
      ensures reply == Apply(View(), Get(id)).1
      ensures reply.Found? <==> id in users.rows
      ensures reply.Found? ==> reply.row == users.rows[id] && ValidRow(id, reply.row)
    {
      hide Inverse, UniqueNames, CreatedInOrder, ValidRow;
      if id !in users.rows {
        return NotFound;
      }
      return Found(users.rows[id]);
    }

    /** A listing has every live user once, in order of creation. */
    static lemma ListingIsComplete(w: World)
      requires Inv(w)
      ensures var rows := w.users.Values();
        && |rows| == |w.users.order|
        && (forall i :: 0 <= i < |rows| ==> w.users.order[i] in w.users.rows && rows[i] == w.users.rows[w.users.order[i]])
        && (forall id :: id in w.users.rows ==> w.users.rows[id] in rows)
        && (forall i, j :: 0 <= i < j < |rows| ==> Stamp(rows[i], CreatedAt) <= Stamp(rows[j], CreatedAt))
    {
      ValuesFollowOrder(w.users.order, w.users.rows);
      forall id | id in w.users.rows ensures w.users.rows[id] in w.users.Values() {
        var i :| 0 <= i < |w.users.order| && w.users.order[i] == id;
        assert w.users.Values()[i] == w.users.rows[id];
      }
      forall i, j | 0 <= i < j < |w.users.order|
        ensures Stamp(w.users.Values()[i], CreatedAt) <= Stamp(w.users.Values()[j], CreatedAt)
      {
        assert CreatedBefore(w.users.rows, w.users.order[i], w.users.order[j]);
      }
    }

    method ListUsers() returns (reply: Reply)
      requires Valid()
      ensures reply == Apply(View(), List).1
      ensures reply.Listing? && |reply.rows| == |users.order|
      ensures forall i :: 0 <= i < |reply.rows| ==> users.order[i] in users.rows && reply.rows[i] == users.rows[users.order[i]]
      ensures forall id :: id in users.rows ==> users.rows[id] in reply.rows
      ensures forall i, j :: 0 <= i < j < |reply.rows| ==> Stamp(reply.rows[i], CreatedAt) <= Stamp(reply.rows[j], CreatedAt)
    {
      hide Inv, Inverse, ValuesIn;
      ListingIsComplete(View());
      return Listing(users.Values());
    }
  }
}
