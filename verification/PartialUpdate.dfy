/**
 * PATCH semantics: what a parsed payload puts on the wire, which of its fields
 * take effect on a stored record, and how a history of patches composes.
 * Everything is stated for an arbitrary set `K` of field names.
 */
module PartialUpdate {
  import opened Wrappers

  datatype Value = Null | Str(text: string) | Time(at: int)

  /** The instant in a timestamp field, 0 when there is none. */
  function Stamp<K(==)>(record: map<K, Value>, field: K): int {
    if field in record && record[field].Time? then record[field].at else 0
  }

  /** A parsed request model: every declared field has a value, `isSet` holds those given explicitly. */
  datatype Payload<K> = Payload(values: map<K, Value>, isSet: set<K>)

  ghost predicate WellFormed<K>(p: Payload<K>) {
    p.isSet <= p.values.Keys
  }

  /** `model_dump(exclude_unset=...)` */
  function Dump<K(==)>(p: Payload<K>, excludeUnset: bool): map<K, Value> {
    if excludeUnset then map k | k in p.values && k in p.isSet :: p.values[k] else p.values
  }

  /** Parsing a JSON object: fields present are set, undeclared ones ignored, the rest take their defaults. */
  function Parse<K(==)>(json: map<K, Value>, defaults: map<K, Value>): Payload<K> {
    Payload(map k | k in defaults :: if k in json then json[k] else defaults[k],
            set k | k in defaults && k in json)
  }

  /** `partial_update_dict`: set fields, a null only where the stored field is nullable. */
  function Effective<K(==)>(p: Payload<K>, nullable: set<K>): map<K, Value> {
    var dump := Dump(p, true);
    map k | k in dump && (dump[k] != Null || k in nullable) :: dump[k]
  }

  /** `model_copy(update=...)`: an unvalidated overlay. */
  function ModelCopy<K(==)>(record: map<K, Value>, update: map<K, Value>): map<K, Value> {
    record + update
  }

  // ----- PATCH over the wire -----

  function Patched<K(==)>(record: map<K, Value>, p: Payload<K>, nullable: set<K>): map<K, Value> {
    ModelCopy(record, Effective(p, nullable))
  }

  /** Client dump, JSON, server parse and overlay together are the local overlay. */
  lemma WireEqualsLocal<K>(record: map<K, Value>, p: Payload<K>, defaults: map<K, Value>, nullable: set<K>)
    requires WellFormed(p) && defaults.Keys == p.values.Keys
    ensures Effective(Parse(Dump(p, true), defaults), nullable) == Effective(p, nullable)
    ensures Patched(record, Parse(Dump(p, true), defaults), nullable) == Patched(record, p, nullable)
  {
  }

  /** An unset field whose default would overwrite what is stored. */
  ghost predicate Clobbers<K>(record: map<K, Value>, p: Payload<K>, nullable: set<K>, k: K) {
    && k in p.values && k !in p.isSet
    && (p.values[k] != Null || k in nullable)
    && (k !in record || record[k] != p.values[k])
  }

  /** Sending the full dump instead gives the same record exactly when no unset field clobbers a stored one. */
  lemma FullDumpEqualsLocalIff<K(!new)>(record: map<K, Value>, p: Payload<K>, defaults: map<K, Value>, nullable: set<K>)
    requires WellFormed(p) && defaults.Keys == p.values.Keys
    ensures Patched(record, Parse(Dump(p, false), defaults), nullable) == Patched(record, p, nullable)
       <==> forall k :: !Clobbers(record, p, nullable, k)
  {
    var q := Parse(Dump(p, false), defaults);
    var full, local := Patched(record, q, nullable), Patched(record, p, nullable);
    assert q.values == p.values && q.isSet == p.values.Keys;
    forall k ensures Clobbers(record, p, nullable, k)
                <==> !((k in full <==> k in local) && (k in full ==> full[k] == local[k]))
    {
    }
    if forall k :: !Clobbers(record, p, nullable, k) {
      assert full == local;
    }
  }

  // ----- histories of patches -----

  /** Overlaying a sequence of updates, oldest first. */
  function OverlayAll<K(==)>(record: map<K, Value>, updates: seq<map<K, Value>>): map<K, Value>
    decreases |updates|
  {
    if updates == [] then record
    else ModelCopy(OverlayAll(record, updates[..|updates| - 1]), updates[|updates| - 1])
  }

  /** The most recent update that writes `k`. */
  function LastWrite<K(==)>(updates: seq<map<K, Value>>, k: K): (r: Option<Value>)
    ensures r.None? ==> forall i :: 0 <= i < |updates| ==> k !in updates[i]
    ensures r.Some? ==> exists i :: 0 <= i < |updates| && k in updates[i] && updates[i][k] == r.value
                                 && forall j :: i < j < |updates| ==> k !in updates[j]
    decreases |updates|
  {
    if updates == [] then None
    else
      var last := updates[|updates| - 1];
      if k in last then Some(last[k]) else LastWrite(updates[..|updates| - 1], k)
  }

  /** Last writer wins, field by field, over any history of updates. */
  lemma {:induction false} LastWriterWins<K>(record: map<K, Value>, updates: seq<map<K, Value>>, k: K)
    ensures var final := OverlayAll(record, updates);
      match LastWrite(updates, k)
      case Some(v) => k in final && final[k] == v
      case None => (k in final <==> k in record) && (k in final ==> final[k] == record[k])
    decreases |updates|
  {
    if updates != [] {
      LastWriterWins(record, updates[..|updates| - 1], k);
    }
  }

  /** Patches compose: overlaying two histories one after the other is overlaying their concatenation. */
  lemma {:induction false} PatchesCompose<K>(record: map<K, Value>, a: seq<map<K, Value>>, b: seq<map<K, Value>>)
    ensures OverlayAll(record, a + b) == OverlayAll(OverlayAll(record, a), b)
    decreases |b|
  {
    if b == [] {
      assert a + b == a;
    } else {
      var n := |b| - 1;
      PatchesCompose(record, a, b[..n]);
      assert (a + b)[..|a + b| - 1] == a + b[..n];
    }
  }

  /** A whole history has the effect of the single patch made by overlaying the updates on nothing. */
  lemma {:induction false} HistoryIsOnePatch<K>(record: map<K, Value>, updates: seq<map<K, Value>>)
    ensures OverlayAll(record, updates) == ModelCopy(record, OverlayAll(map[], updates))
    decreases |updates|
  {
    if updates != [] {
      var n := |updates| - 1;
      HistoryIsOnePatch(record, updates[..n]);
      var before := OverlayAll(map[], updates[..n]);
      assert (record + before) + updates[n] == record + (before + updates[n]);
    }
  }

  /** A sequence of PATCH requests as they travel: dumped, parsed, and applied to the stored record. */
  function PatchedOverWire<K(==)>(record: map<K, Value>, ps: seq<Payload<K>>,
                                  defaults: map<K, Value>, nullable: set<K>): map<K, Value>
    decreases |ps|
  {
    if ps == [] then record
    else Patched(PatchedOverWire(record, ps[..|ps| - 1], defaults, nullable), Parse(Dump(ps[|ps| - 1], true), defaults), nullable)
  }

  function Updates<K(==)>(ps: seq<Payload<K>>, nullable: set<K>): seq<map<K, Value>> {
    seq(|ps|, i requires 0 <= i < |ps| => Effective(ps[i], nullable))
  }

  /** For every record and every history of requests, PATCH end to end is the overlay of the effective updates. */
  lemma {:induction false} WireHistoryIsOverlay<K>(record: map<K, Value>, ps: seq<Payload<K>>,
                                                   defaults: map<K, Value>, nullable: set<K>)
    requires forall i :: 0 <= i < |ps| ==> WellFormed(ps[i]) && ps[i].values.Keys == defaults.Keys
    ensures PatchedOverWire(record, ps, defaults, nullable) == OverlayAll(record, Updates(ps, nullable))
    decreases |ps|
  {
    if ps != [] {
      hide Effective, Parse, Dump;
      var n := |ps| - 1;
      WireHistoryIsOverlay(record, ps[..n], defaults, nullable);
      WireEqualsLocal(record, ps[n], defaults, nullable);
      assert Updates(ps, nullable)[..n] == Updates(ps[..n], nullable);
    }
  }
}
