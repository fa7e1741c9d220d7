/** Values shared by both servers: an optional value, duplicate-free
    sequences, and Python's insertion-ordered dictionary together with a
    description, without replaying them, of what a run of `d[k] = v` writes
    leaves behind. */
module Common {

  datatype Option<+T> = None | Some(value: T)

  /** No element of `s` occurs twice: each element is new to the ones
      before it. */
  predicate Distinct<T(==)>(s: seq<T>) {
    s == [] || (Distinct(s[..|s| - 1]) && s[|s| - 1] !in s[..|s| - 1])
  }

  lemma {:induction false} DistinctSnoc<T>(s: seq<T>, x: T)
    ensures Distinct(s + [x]) <==> Distinct(s) && x !in s
  {
    assert (s + [x])[..|s|] == s;
  }

  /** `Distinct` is the familiar statement about pairs of positions. */
  lemma {:induction false} DistinctIndices<T>(s: seq<T>)
    ensures Distinct(s) <==> forall i, j :: 0 <= i < j < |s| ==> s[i] != s[j]
  {
    if s != [] {
      var n := |s| - 1;
      var init := s[..n];
      DistinctIndices(init);
      assert forall i :: 0 <= i < n ==> init[i] == s[i];
      assert s[n] in init <==> exists i :: 0 <= i < n && s[i] == s[n];
    }
  }

  lemma {:induction false} MapUnionUpdate<K, V>(a: map<K, V>, b: map<K, V>, k: K, v: V)
    ensures a + b[k := v] == (a + b)[k := v]
  {
  }

  lemma {:induction false} AppendAssoc<T>(a: seq<T>, b: seq<T>, c: seq<T>)
    ensures a + (b + c) == (a + b) + c
  {
  }

  /** The elements of `keys` that are not in `known`, each once, in the order
      of their first occurrence: the keys a run of writes adds to a
      dictionary that already holds `known`. */
  function FirstSeen<K(==, !new)>(known: set<K>, keys: seq<K>): (r: seq<K>)
    ensures Distinct(r)
    ensures forall k :: k in r <==> k in keys && k !in known
  {
    if keys == [] then []
    else
      var init, k := keys[..|keys| - 1], keys[|keys| - 1];
      assert keys == init + [k];
      var r := FirstSeen(known, init);
      if k in known || k in init then r
      else DistinctSnoc(r, k); r + [k]
  }

  /** A Python `dict`: the insertion order of its keys and the value each
      key holds. */
  datatype Dict<K(==, !new), V> = Dict(order: seq<K>, entries: map<K, V>) {

    /** The order lists every key of the mapping exactly once. */
    ghost predicate Valid() {
      && Distinct(order)
      && forall k :: k in entries <==> k in order
    }

    /** `d[k] = v`: a new key goes to the end of the order, a key already
        present keeps its place and only its value changes. */
    function Put(k: K, v: V): Dict<K, V> {
      Dict(if k in entries then order else order + [k], entries[k := v])
    }

    /** `list(d.values())`: the values in insertion order. */
    function Values(): (vs: seq<V>)
      requires Valid()
      ensures |vs| == |order|
      ensures forall i :: 0 <= i < |order| ==> vs[i] == entries[order[i]]
    {
      seq(|order|, i requires 0 <= i < |order| => entries[order[i]])
    }
  }

  /** `d[k] = v` keeps the order in step with the mapping. */
  lemma {:induction false} PutValid<K(!new), V>(d: Dict<K, V>, k: K, v: V)
    requires d.Valid()
    ensures d.Put(k, v).Valid()
  {
    DistinctSnoc(d.order, k);
  }

  /** The keys of a run of writes, in order. */
  function WriteKeys<K, V>(writes: seq<(K, V)>): (keys: seq<K>)
    ensures |keys| == |writes|
    ensures forall i :: 0 <= i < |writes| ==> keys[i] == writes[i].0
  {
    seq(|writes|, i requires 0 <= i < |writes| => writes[i].0)
  }

  /** Each written key with the value of its last write. */
  function LastWrites<K(==, !new), V>(writes: seq<(K, V)>): (m: map<K, V>)
    ensures forall k :: k in m <==> k in WriteKeys(writes)
  {
    if writes == [] then map[]
    else
      var n := |writes| - 1;
      assert WriteKeys(writes) == WriteKeys(writes[..n]) + [writes[n].0];
      LastWrites(writes[..n])[writes[n].0 := writes[n].1]
  }

  /** The value a key holds after the writes was written to it by one of them. */
  lemma {:induction false} LastWritesFrom<K(!new), V>(writes: seq<(K, V)>, k: K)
    requires k in LastWrites(writes)
    ensures exists i :: 0 <= i < |writes| && writes[i] == (k, LastWrites(writes)[k])
  {
    var n := |writes| - 1;
    if writes[n].0 != k {
      LastWritesFrom(writes[..n], k);
      var i :| 0 <= i < n && writes[..n][i] == (k, LastWrites(writes[..n])[k]);
      assert writes[i] == writes[..n][i];
    }
  }

  /** The value a key holds after the writes comes from the last write to it. */
  lemma {:induction false} LastWriteIsLast<K(!new), V>(writes: seq<(K, V)>, k: K)
    requires k in WriteKeys(writes)
    ensures k in LastWrites(writes)
    ensures exists i :: 0 <= i < |writes| && writes[i] == (k, LastWrites(writes)[k])
                        && forall j :: i < j < |writes| ==> writes[j].0 != k
  {
    var n := |writes| - 1;
    assert WriteKeys(writes) == WriteKeys(writes[..n]) + [writes[n].0];
    if writes[n].0 != k {
      LastWriteIsLast(writes[..n], k);
      var i :| 0 <= i < n && writes[..n][i] == (k, LastWrites(writes[..n])[k])
               && forall j :: i < j < n ==> writes[..n][j].0 != k;
      assert writes[i] == writes[..n][i];
    }
  }

  /** When no key is written twice, each write is the last one to its key. */
  lemma {:induction false} LastWriteOfDistinct<K(!new), V>(writes: seq<(K, V)>, i: int)
    requires Distinct(WriteKeys(writes)) && 0 <= i < |writes|
    ensures writes[i].0 in LastWrites(writes)
    ensures LastWrites(writes)[writes[i].0] == writes[i].1
  {
    var keys, n := WriteKeys(writes), |writes| - 1;
    assert keys[i] == writes[i].0;
    if i < n {
      assert keys[..n][i] == keys[i];
      assert keys[n] != keys[i];
      assert WriteKeys(writes[..n]) == keys[..n];
      LastWriteOfDistinct(writes[..n], i);
    }
  }

  /** A write that no later write overrides is the one its key keeps. */
  lemma {:induction false} LastWriteAt<K(!new), V>(writes: seq<(K, V)>, i: int)
    requires 0 <= i < |writes|
    requires forall j :: i < j < |writes| ==> writes[j].0 != writes[i].0
    ensures writes[i].0 in LastWrites(writes)
    ensures LastWrites(writes)[writes[i].0] == writes[i].1
  {
    var n := |writes| - 1;
    if i < n {
      assert writes[n].0 != writes[i].0;
      assert writes[..n][i] == writes[i];
      assert forall j :: i < j < n ==> writes[..n][j] == writes[j];
      LastWriteAt(writes[..n], i);
    }
  }

  /** The dictionary that the writes `d[k] = v` of `writes`, done in
      order, leave behind. */
  function AfterWrites<K(==, !new), V>(d: Dict<K, V>, writes: seq<(K, V)>): Dict<K, V> {
    if writes == [] then d
    else
      var n := |writes| - 1;
      AfterWrites(d, writes[..n]).Put(writes[n].0, writes[n].1)
  }

  lemma {:induction false} AfterWritesStep<K(!new), V>(d: Dict<K, V>, writes: seq<(K, V)>, k: K, v: V)
    ensures AfterWrites(d, writes + [(k, v)]) == AfterWrites(d, writes).Put(k, v)
  {
    assert (writes + [(k, v)])[..|writes|] == writes;
  }

  /** What a run of writes leaves, without replaying it: the keys not yet in
      `d` are appended in the order they are first written, every written key
      holds the value of its last write, and every other key keeps its value. */
  lemma {:induction false} AfterWritesDescribed<K(!new), V>(d: Dict<K, V>, writes: seq<(K, V)>)
    ensures AfterWrites(d, writes).order == d.order + FirstSeen(d.entries.Keys, WriteKeys(writes))
    ensures AfterWrites(d, writes).entries == d.entries + LastWrites(writes)
  {
    if writes != [] {
      var n := |writes| - 1;
      var init, k, v := writes[..n], writes[n].0, writes[n].1;
      assert writes == init + [(k, v)];
      AfterWritesDescribed(d, init);
      AfterWritesStep(d, init, k, v);
      WriteKeysSnoc(init, k, v);
      FirstSeenSnoc(d.entries.Keys, WriteKeys(init), k);
      LastWritesSnoc(init, k, v);
      MapUnionUpdate(d.entries, LastWrites(init), k, v);
      AppendAssoc(d.order, FirstSeen(d.entries.Keys, WriteKeys(init)), [k]);
    }
  }

  lemma {:induction false} AfterWritesValid<K(!new), V>(d: Dict<K, V>, writes: seq<(K, V)>)
    requires d.Valid()
    ensures AfterWrites(d, writes).Valid()
  {
    if writes != [] {
      var n := |writes| - 1;
      AfterWritesValid(d, writes[..n]);
      PutValid(AfterWrites(d, writes[..n]), writes[n].0, writes[n].1);
    }
  }

  /** Writes to distinct keys, into an empty dictionary, leave each key in
      the order written, holding the value written to it. */
  lemma {:induction false} AfterDistinctWrites<K(!new), V>(writes: seq<(K, V)>)
    requires Distinct(WriteKeys(writes))
    ensures var d := AfterWrites(Dict([], map[]), writes);
            && d.order == WriteKeys(writes)
            && forall i :: 0 <= i < |writes| ==> writes[i].0 in d.entries && d.entries[writes[i].0] == writes[i].1
  {
    var empty: Dict<K, V> := Dict([], map[]);
    AfterWritesDescribed(empty, writes);
    FirstSeenOfFresh(empty.entries.Keys, WriteKeys(writes));
    assert empty.order + WriteKeys(writes) == WriteKeys(writes);
    forall i | 0 <= i < |writes| ensures writes[i].0 in LastWrites(writes) && LastWrites(writes)[writes[i].0] == writes[i].1 {
      LastWriteOfDistinct(writes, i);
    }
  }

  /** Keys that are all new and each given once are their own first-seen order. */
  lemma {:induction false} FirstSeenOfFresh<K(!new)>(known: set<K>, keys: seq<K>)
    requires Distinct(keys)
    requires forall i :: 0 <= i < |keys| ==> keys[i] !in known
    ensures FirstSeen(known, keys) == keys
  {
    if keys != [] {
      var n := |keys| - 1;
      assert Distinct(keys[..n]);
      FirstSeenOfFresh(known, keys[..n]);
      assert keys[n] !in keys[..n];
      assert keys == keys[..n] + [keys[n]];
    }
  }

  lemma {:induction false} FirstSeenSnoc<K(!new)>(known: set<K>, keys: seq<K>, k: K)
    ensures FirstSeen(known, keys + [k])
         == if k in known || k in keys then FirstSeen(known, keys) else FirstSeen(known, keys) + [k]
  {
    assert (keys + [k])[..|keys|] == keys;
  }

  lemma {:induction false} WriteKeysSnoc<K, V>(writes: seq<(K, V)>, k: K, v: V)
    ensures WriteKeys(writes + [(k, v)]) == WriteKeys(writes) + [k]
  {
  }

  lemma {:induction false} LastWritesSnoc<K(!new), V>(writes: seq<(K, V)>, k: K, v: V)
    ensures LastWrites(writes + [(k, v)]) == LastWrites(writes)[k := v]
  {
    assert (writes + [(k, v)])[..|writes|] == writes;
  }
}
