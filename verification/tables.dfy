/** Database tables as sequences of rows kept in id order, so that a query's
    `->first()` is the first matching row, and Eloquent's `updateOrCreate`
    as "update the first row with this key, or append a new one". */
module Tables {
  import opened Common

  /** The row predicate "has key `k`". */
  function HasKey<R, K(==)>(key: R -> K, k: K): R -> bool
  {
    (x: R) => key(x) == k
  }

  /** `->where(key = k)->first()`. */
  function Lookup<R, K(==)>(rows: seq<R>, key: R -> K, k: K): (r: Option<R>)
    ensures r.Some? ==> r.value in rows && key(r.value) == k
    ensures r.None? <==> forall i :: 0 <= i < |rows| ==> key(rows[i]) != k
  {
    match FirstIndex(rows, HasKey(key, k))
    case None => None
    case Some(i) => Some(rows[i])
  }

  /** `updateOrCreate(key = k, ...)`: the first row with key `k` is rewritten by
      `update`; when there is none, `create` is appended. */
  function Upsert<R, K(==)>(rows: seq<R>, key: R -> K, k: K, update: R -> R, create: R): seq<R>
  {
    match FirstIndex(rows, HasKey(key, k))
    case Some(i) => rows[i := update(rows[i])]
    case None => rows + [create]
  }

  /** After the upsert, the key finds the updated row, or the created one; the
      table grows by one row exactly when the key was absent. */
  lemma UpsertLookup<R, K>(rows: seq<R>, key: R -> K, k: K, update: R -> R, create: R)
    requires (forall x :: key(update(x)) == key(x)) && key(create) == k
    ensures Lookup(rows, key, k).Some? ==>
      Lookup(Upsert(rows, key, k, update, create), key, k) == Some(update(Lookup(rows, key, k).value))
      && |Upsert(rows, key, k, update, create)| == |rows|
    ensures Lookup(rows, key, k).None? ==>
      Lookup(Upsert(rows, key, k, update, create), key, k) == Some(create)
      && |Upsert(rows, key, k, update, create)| == |rows| + 1
  {
    var r := Upsert(rows, key, k, update, create);
    match FirstIndex(rows, HasKey(key, k))
    case Some(i) =>
      assert r[i] == update(rows[i]);
      assert forall j :: 0 <= j < i ==> r[j] == rows[j];
      FirstIndexAt(r, HasKey(key, k), i);
    case None =>
      assert r[|rows|] == create;
      assert forall j :: 0 <= j < |rows| ==> r[j] == rows[j];
      FirstIndexAt(r, HasKey(key, k), |rows|);
  }

  /** A lookup under any other key sees the same row before and after the upsert. */
  lemma UpsertOtherKey<R, K>(rows: seq<R>, key: R -> K, k: K, update: R -> R, create: R, k': K)
    requires (forall x :: key(update(x)) == key(x)) && key(create) == k && k' != k
    ensures Lookup(Upsert(rows, key, k, update, create), key, k') == Lookup(rows, key, k')
  {
    var r := Upsert(rows, key, k, update, create);
    assert forall j :: 0 <= j < |rows| ==> HasKey(key, k')(r[j]) == HasKey(key, k')(rows[j]);
    assert forall j :: 0 <= j < |rows| && HasKey(key, k')(rows[j]) ==> r[j] == rows[j];
    match FirstIndex(rows, HasKey(key, k'))
    case Some(i) =>
      FirstIndexAt(r, HasKey(key, k'), i);
    case None =>
      assert |r| > |rows| ==> !HasKey(key, k')(r[|rows|]);
  }

  /** Writing the same values under the same key twice is writing them once. */
  lemma UpsertIdempotent<R, K>(rows: seq<R>, key: R -> K, k: K, update: R -> R, create: R)
    requires (forall x :: key(update(x)) == key(x)) && key(create) == k
    requires forall x :: update(update(x)) == update(x)
    requires update(create) == create
    ensures Upsert(Upsert(rows, key, k, update, create), key, k, update, create)
         == Upsert(rows, key, k, update, create)
  {
    var r := Upsert(rows, key, k, update, create);
    UpsertLookup(rows, key, k, update, create);
    var i :| i == FirstIndex(r, HasKey(key, k)).value;
    assert r[i := update(r[i])] == r;
  }

  /** No two rows share a key: what a unique index on the key columns guarantees. */
  predicate UniqueKeys<R, K(==)>(rows: seq<R>, key: R -> K)
  {
    forall i, j :: 0 <= i < j < |rows| ==> key(rows[i]) != key(rows[j])
  }

  /** A filtered view of a table keeps its keys unique. */
  lemma {:induction false} FilterKeepsUnique<R, K>(rows: seq<R>, key: R -> K, p: R -> bool)
    requires UniqueKeys(rows, key)
    ensures UniqueKeys(Filter(rows, p), key)
  {
    if rows != [] {
      var init := rows[..|rows| - 1];
      var last := rows[|rows| - 1];
      var f := Filter(init, p);
      FilterKeepsUnique(init, key, p);
      forall i | 0 <= i < |f|
        ensures key(f[i]) != key(last)
      {
        FilteredKey(init, key, p, f[i], key(last));
      }
    }
  }

  lemma FilteredKey<R, K>(rows: seq<R>, key: R -> K, p: R -> bool, y: R, k: K)
    requires y in Filter(rows, p)
    requires forall j :: 0 <= j < |rows| ==> key(rows[j]) != k
    ensures key(y) != k
  {
    FilterMembers(rows, p);
  }

  /** An upsert keeps the keys unique. */
  lemma UpsertKeepsUnique<R, K>(rows: seq<R>, key: R -> K, k: K, update: R -> R, create: R)
    requires (forall x :: key(update(x)) == key(x)) && key(create) == k
    requires UniqueKeys(rows, key)
    ensures UniqueKeys(Upsert(rows, key, k, update, create), key)
  {
    var r := Upsert(rows, key, k, update, create);
    assert forall j :: 0 <= j < |rows| ==> key(r[j]) == key(rows[j]);
  }

  /** A first-match index is recognised from its two defining facts. */
  lemma FirstIndexAt<T>(s: seq<T>, p: T -> bool, i: nat)
    requires i < |s| && p(s[i])
    requires forall j :: 0 <= j < i ==> !p(s[j])
    ensures FirstIndex(s, p) == Some(i)
  {
  }

  // ---------------------------------------------------------------------------
  // Tables with an auto-increment id

  /** A table and the id its next created row receives. */
  datatype Table<R> = Table(rows: seq<R>, nextId: int)

  /** One `updateOrCreate` call: the key, the attribute update, and the row
      created (given its new id) when the key is absent. */
  datatype Write<!R, K> = Write(k: K, update: R -> R, create: int -> R)

  /** `updateOrCreate` on a table: a created row takes the next id. */
  function Save<R, K(==)>(t: Table<R>, key: R -> K, w: Write<R, K>): Table<R>
  {
    var nextId := if Lookup(t.rows, key, w.k).Some? then t.nextId else t.nextId + 1;
    Table(Upsert(t.rows, key, w.k, w.update, w.create(t.nextId)), nextId)
  }

  /** A sequence of `updateOrCreate` calls, in order. */
  function SaveAll<R, K(==)>(t: Table<R>, key: R -> K, ws: seq<Write<R, K>>): Table<R>
  {
    if ws == [] then t else Save(SaveAll(t, key, ws[..|ws| - 1]), key, ws[|ws| - 1])
  }

  /** A write that keeps its key, creates rows under its key, and whose update
      settles after one application, also on the rows it creates. */
  ghost predicate Settled<R(!new), K>(key: R -> K, w: Write<R, K>)
  {
    && (forall x :: key(w.update(x)) == key(x))
    && (forall id :: key(w.create(id)) == w.k)
    && (forall x :: w.update(w.update(x)) == w.update(x))
    && (forall id :: w.update(w.create(id)) == w.create(id))
  }

  /** No two writes of the batch share a key. */
  predicate DistinctKeys<R, K(==)>(ws: seq<Write<R, K>>)
  {
    forall i, j :: 0 <= i < j < |ws| ==> ws[i].k != ws[j].k
  }

  /** After a batch of settled writes with distinct keys, each key finds a row
      that its own update leaves as it is. */
  lemma {:induction false} SaveAllSettles<R(!new), K>(t: Table<R>, key: R -> K, ws: seq<Write<R, K>>, i: nat)
    requires i < |ws| && DistinctKeys(ws)
    requires forall j :: 0 <= j < |ws| ==> Settled(key, ws[j])
    ensures Lookup(SaveAll(t, key, ws).rows, key, ws[i].k).Some?
    ensures ws[i].update(Lookup(SaveAll(t, key, ws).rows, key, ws[i].k).value)
         == Lookup(SaveAll(t, key, ws).rows, key, ws[i].k).value
  {
    var n := |ws|;
    var before := SaveAll(t, key, ws[..n - 1]);
    var w := ws[n - 1];
    assert SaveAll(t, key, ws) == Save(before, key, w);
    if i == n - 1 {
      SaveSettlesOwn(before, key, w);
    } else {
      assert forall j :: 0 <= j < n - 1 ==> ws[..n - 1][j] == ws[j];
      assert ws[i].k != w.k;
      SaveAllSettles(t, key, ws[..n - 1], i);
      UpsertOtherKey(before.rows, key, w.k, w.update, w.create(before.nextId), ws[i].k);
    }
  }

  /** After a settled write, its key finds a row its update leaves as it is. */
  lemma SaveSettlesOwn<R(!new), K>(t: Table<R>, key: R -> K, w: Write<R, K>)
    requires Settled(key, w)
    ensures Lookup(Save(t, key, w).rows, key, w.k).Some?
    ensures w.update(Lookup(Save(t, key, w).rows, key, w.k).value) == Lookup(Save(t, key, w).rows, key, w.k).value
  {
    UpsertLookup(t.rows, key, w.k, w.update, w.create(t.nextId));
    var found := Lookup(t.rows, key, w.k);
    if found.Some? {
      assert w.update(w.update(found.value)) == w.update(found.value);
    } else {
      assert w.update(w.create(t.nextId)) == w.create(t.nextId);
    }
  }

  /** Two batches run one after the other are the concatenated batch. */
  lemma {:induction false} SaveAllAppend<R, K>(t: Table<R>, key: R -> K, a: seq<Write<R, K>>, b: seq<Write<R, K>>)
    ensures SaveAll(SaveAll(t, key, a), key, b) == SaveAll(t, key, a + b)
    decreases |b|
  {
    if b == [] {
      assert a + b == a;
    } else {
      assert (a + b)[..|a + b| - 1] == a + b[..|b| - 1];
      SaveAllAppend(t, key, a, b[..|b| - 1]);
    }
  }

  /** A write whose key already finds a row its update leaves as it is changes nothing. */
  lemma SaveSettled<R, K>(t: Table<R>, key: R -> K, w: Write<R, K>)
    requires Lookup(t.rows, key, w.k).Some?
    requires w.update(Lookup(t.rows, key, w.k).value) == Lookup(t.rows, key, w.k).value
    ensures Save(t, key, w) == t
  {
    var i := FirstIndex(t.rows, HasKey(key, w.k)).value;
    assert t.rows[i := w.update(t.rows[i])] == t.rows;
  }

  /** Running the same batch of settled writes with distinct keys a second time
      changes nothing: the batch is idempotent. */
  lemma SaveAllIdempotent<R(!new), K>(t: Table<R>, key: R -> K, ws: seq<Write<R, K>>)
    requires DistinctKeys(ws)
    requires forall j :: 0 <= j < |ws| ==> Settled(key, ws[j])
    ensures SaveAll(SaveAll(t, key, ws), key, ws) == SaveAll(t, key, ws)
  {
    var done := SaveAll(t, key, ws);
    forall i | 0 <= i < |ws|
      ensures Lookup(done.rows, key, ws[i].k).Some?
      ensures ws[i].update(Lookup(done.rows, key, ws[i].k).value) == Lookup(done.rows, key, ws[i].k).value
    {
      SaveAllSettles(t, key, ws, i);
    }
    SaveAllUnchanged(done, key, ws);
  }

  /** Writes that each change nothing change nothing together. */
  lemma {:induction false} SaveAllUnchanged<R, K>(t: Table<R>, key: R -> K, ws: seq<Write<R, K>>)
    requires forall i :: 0 <= i < |ws| ==>
      Lookup(t.rows, key, ws[i].k).Some?
      && ws[i].update(Lookup(t.rows, key, ws[i].k).value) == Lookup(t.rows, key, ws[i].k).value
    ensures SaveAll(t, key, ws) == t
  {
    if ws != [] {
      var n := |ws|;
      assert forall i :: 0 <= i < n - 1 ==> ws[..n - 1][i] == ws[i];
      SaveAllUnchanged(t, key, ws[..n - 1]);
      SaveSettled(t, key, ws[n - 1]);
    }
  }

  /** A write keeps the keys of a table unique. */
  lemma SaveKeepsUnique<R(!new), K>(t: Table<R>, key: R -> K, w: Write<R, K>)
    requires Settled(key, w)
    requires UniqueKeys(t.rows, key)
    ensures UniqueKeys(Save(t, key, w).rows, key)
  {
    UpsertKeepsUnique(t.rows, key, w.k, w.update, w.create(t.nextId));
  }

  /** A batch of writes keeps the keys of a table unique. */
  lemma {:induction false} SaveAllKeepsUnique<R(!new), K>(t: Table<R>, key: R -> K, ws: seq<Write<R, K>>)
    requires forall j :: 0 <= j < |ws| ==> Settled(key, ws[j])
    requires UniqueKeys(t.rows, key)
    ensures UniqueKeys(SaveAll(t, key, ws).rows, key)
  {
    if ws != [] {
      var n := |ws|;
      assert forall i :: 0 <= i < n - 1 ==> ws[..n - 1][i] == ws[i];
      SaveAllKeepsUnique(t, key, ws[..n - 1]);
      SaveKeepsUnique(SaveAll(t, key, ws[..n - 1]), key, ws[n - 1]);
    }
  }
}
