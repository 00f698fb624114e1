/** A Python `dict`: a finite map that remembers the order in which its keys were first inserted. */
module OrderedDict {

  /** `s` restricted to the elements of `keep`, in the same order. */
  function Only<K(==)>(s: seq<K>, keep: set<K>): seq<K> {
    if s == [] then []
    else if s[0] in keep then [s[0]] + Only(s[1..], keep)
    else Only(s[1..], keep)
  }

  lemma {:induction false} OnlyMembers<K>(s: seq<K>, keep: set<K>)
    ensures forall x :: x in Only(s, keep) <==> x in s && x in keep
  {
    if s != [] {
      OnlyMembers(s[1..], keep);
      assert s == [s[0]] + s[1..];
    }
  }

  ghost predicate NoDuplicates<K>(s: seq<K>) {
    forall i, j :: 0 <= i < j < |s| ==> s[i] != s[j]
  }

  lemma {:induction false} OnlyConcat<K>(a: seq<K>, b: seq<K>, keep: set<K>)
    ensures Only(a + b, keep) == Only(a, keep) + Only(b, keep)
  {
    if a == [] {
      assert a + b == b;
    } else {
      OnlyConcat(a[1..], b, keep);
      assert (a + b)[1..] == a[1..] + b;
    }
  }

  lemma {:induction false} OnlyAll<K>(s: seq<K>, keep: set<K>)
    requires forall x :: x in s ==> x in keep
    ensures Only(s, keep) == s
  {
    if s != [] {
      OnlyAll(s[1..], keep);
    }
  }

  lemma {:induction false} OnlyTwice<K>(s: seq<K>, a: set<K>, b: set<K>)
    requires forall x :: x in s && x in b ==> x in a
    ensures Only(Only(s, a), b) == Only(s, b)
  {
    if s != [] {
      OnlyTwice(s[1..], a, b);
    }
  }

  /** Restricting a prefix early makes no difference to the final restriction. */
  lemma OnlyPrefix<K>(prefix: seq<K>, rest: seq<K>, a: set<K>, b: set<K>)
    requires forall x :: x in prefix && x in b ==> x in a
    ensures Only(Only(prefix, a) + rest, b) == Only(prefix + rest, b)
  {
    OnlyTwice(prefix, a, b);
    OnlyConcat(Only(prefix, a), rest, b);
    OnlyConcat(prefix, rest, b);
  }

  /** Any relation that holds between every two elements in order survives a restriction. */
  lemma {:induction false} OnlyKeepsPairs<K(!new)>(s: seq<K>, keep: set<K>, rel: (K, K) -> bool)
    requires forall i, j :: 0 <= i < j < |s| ==> rel(s[i], s[j])
    ensures forall i, j :: 0 <= i < j < |Only(s, keep)| ==> rel(Only(s, keep)[i], Only(s, keep)[j])
  {
    if s != [] {
      OnlyKeepsPairs(s[1..], keep, rel);
      var t := Only(s[1..], keep);
      OnlyMembers(s[1..], keep);
      forall j | 0 <= j < |t| ensures rel(s[0], t[j]) {
        assert t[j] in s[1..];
      }
    }
  }

  datatype Dict<K(==), V> = Dict(order: seq<K>, rows: map<K, V>)
  {
    ghost predicate WellFormed() {
      && NoDuplicates(order)
      && (forall k :: k in order ==> k in rows)
      && (forall k :: k in rows ==> k in order)
    }

    /** `d[k] = v`: overwriting keeps the position, a new key goes last. */
    function Put(k: K, v: V): Dict<K, V> {
      Dict(if k in rows then order else order + [k], rows[k := v])
    }

    /** `d.pop(k, None)` */
    function Pop(k: K): Dict<K, V> {
      Dict(Only(order, rows.Keys - {k}), rows - {k})
    }

    /** `list(d.values())` */
    function Values(): seq<V> {
      ValuesIn(order, rows)
    }
  }

  function ValuesIn<K(==), V>(order: seq<K>, rows: map<K, V>): seq<V> {
    if order == [] then []
    else (if order[0] in rows then [rows[order[0]]] else []) + ValuesIn(order[1..], rows)
  }

  lemma {:induction false} ValuesFollowOrder<K, V>(order: seq<K>, rows: map<K, V>)
    requires forall k :: k in order ==> k in rows
    ensures |ValuesIn(order, rows)| == |order|
    ensures forall i :: 0 <= i < |order| ==> order[i] in rows && ValuesIn(order, rows)[i] == rows[order[i]]
  {
    if order != [] {
      ValuesFollowOrder(order[1..], rows);
    }
  }

  lemma ValuesStep<K, V>(order: seq<K>, rows: map<K, V>)
    ensures order == [] ==> ValuesIn(order, rows) == []
    ensures order != [] ==>
              ValuesIn(order, rows) == (if order[0] in rows then [rows[order[0]]] else []) + ValuesIn(order[1..], rows)
  {
  }

  lemma {:induction false} ValuesConcat<K, V>(a: seq<K>, b: seq<K>, rows: map<K, V>)
    ensures ValuesIn(a + b, rows) == ValuesIn(a, rows) + ValuesIn(b, rows)
  {
    hide ValuesIn;
    ValuesStep(a, rows);
    if a == [] {
      assert a + b == b;
    } else {
      ValuesConcat(a[1..], b, rows);
      ValuesStep(a + b, rows);
      assert (a + b)[1..] == a[1..] + b && (a + b)[0] == a[0];
    }
  }

  lemma PutWellFormed<K, V>(d: Dict<K, V>, k: K, v: V)
    requires d.WellFormed()
    ensures d.Put(k, v).WellFormed()
  {
  }

  lemma PopWellFormed<K(!new), V>(d: Dict<K, V>, k: K)
    requires d.WellFormed()
    ensures d.Pop(k).WellFormed()
  {
    OnlyKeepsPairs(d.order, d.rows.Keys - {k}, (x, y) => x != y);
    OnlyMembers(d.order, d.rows.Keys - {k});
  }
}
