/** One object store of the IndexedDB database, as a sequence of rows kept in
    ascending primary-key order (the order `getAll`/`toArray` returns). */
module Store {
  import opened Optional

  /** IndexedDB's order on string keys: character by character, a proper
      prefix before its extensions. */
  predicate KeyLess(a: string, b: string) {
    if a == [] then b != []
    else b != [] && (a[0] < b[0] || (a[0] == b[0] && KeyLess(a[1..], b[1..])))
  }

  lemma KeyLessIrreflexive(a: string)
    ensures !KeyLess(a, a)
  {
  }

  lemma {:induction false} KeyLessTransitive(a: string, b: string, c: string)
    requires KeyLess(a, b) && KeyLess(b, c)
    ensures KeyLess(a, c)
  {
    if a != [] && a[0] == b[0] && b[0] == c[0] {
      KeyLessTransitive(a[1..], b[1..], c[1..]);
    }
  }

  lemma {:induction false} KeyLessTotal(a: string, b: string)
    ensures a == b || KeyLess(a, b) || KeyLess(b, a)
  {
    if a != [] && b != [] && a[0] == b[0] {
      KeyLessTotal(a[1..], b[1..]);
      if a[1..] == b[1..] {
        assert a == [a[0]] + a[1..] && b == [b[0]] + b[1..];
      }
    }
  }

  datatype Row<R> = Row(key: string, record: R)

  type Table<R> = seq<Row<R>>

  /** Strictly ascending keys: the keys are also pairwise distinct. */
  predicate Ordered<R>(t: Table<R>) {
    forall i, j | 0 <= i < j < |t| :: KeyLess(t[i].key, t[j].key)
  }

  predicate HasKey<R>(t: Table<R>, key: string) {
    exists i | 0 <= i < |t| :: t[i].key == key
  }

  /** `getAll(table)` */
  function Values<R>(t: Table<R>): (vs: seq<R>)
    ensures |vs| == |t|
    ensures forall i | 0 <= i < |t| :: vs[i] == t[i].record
  {
    if t == [] then [] else [t[0].record] + Values(t[1..])
  }

  /** `get(table, key)`: the record stored under the key, if any. */
  function Get<R>(t: Table<R>, key: string): (r: Option<R>)
    ensures r.None? <==> !HasKey(t, key)
    ensures r.Some? ==> exists i | 0 <= i < |t| :: t[i] == Row(key, r.value)
  {
    if t == [] then None
    else if t[0].key == key then Some(t[0].record)
    else (assert forall i | 0 <= i < |t[1..]| :: t[1..][i] == t[i + 1]; Get(t[1..], key))
  }

  /** `put(table, record)`: an upsert. Afterwards `get` of the key returns the
      record, every other key reads as before, and key order is kept. */
  function Put<R>(t: Table<R>, key: string, rec: R): (t': Table<R>)
    ensures Get(t', key) == Some(rec)
    ensures forall k | k != key :: Get(t', k) == Get(t, k)
    ensures Ordered(t) ==> Ordered(t')
    ensures forall x | x in t' :: x in t || x == Row(key, rec)
    ensures Ordered(t) ==> |t'| == |t| + (if HasKey(t, key) then 0 else 1)
  {
    if t == [] then [Row(key, rec)]
    else if t[0].key == key then (PutHead(t, key, rec); [Row(key, rec)] + t[1..])
    else if KeyLess(key, t[0].key) then (PutFront(t, key, rec); [Row(key, rec)] + t)
    else
      (var rest := Put(t[1..], key, rec);
       PutPast(t, key, rec, rest);
       [t[0]] + rest)
  }

  /** What `Put` promises about its result `t'`. */
  ghost predicate IsPut<R>(t: Table<R>, key: string, rec: R, t': Table<R>) {
    && Get(t', key) == Some(rec)
    && (forall k | k != key :: Get(t', k) == Get(t, k))
    && (Ordered(t) ==> Ordered(t'))
    && (forall x | x in t' :: x in t || x == Row(key, rec))
    && (Ordered(t) ==> |t'| == |t| + (if HasKey(t, key) then 0 else 1))
  }

  lemma PutHead<R>(t: Table<R>, key: string, rec: R)
    requires t != [] && t[0].key == key
    ensures IsPut(t, key, rec, [Row(key, rec)] + t[1..])
  {
    var t' := [Row(key, rec)] + t[1..];
    assert t'[1..] == t[1..];
    assert forall x | x in t' :: x in t || x == Row(key, rec);
    if Ordered(t) {
      forall i, j | 0 <= i < j < |t'| ensures KeyLess(t'[i].key, t'[j].key) {
        assert t'[i].key == t[i].key && t'[j].key == t[j].key;
      }
    }
  }

  lemma PutFront<R>(t: Table<R>, key: string, rec: R)
    requires t != [] && t[0].key != key && KeyLess(key, t[0].key)
    ensures IsPut(t, key, rec, [Row(key, rec)] + t)
  {
    var t' := [Row(key, rec)] + t;
    assert t'[1..] == t;
    GetOrderedFirst(t, key);
    BelowFirst(key, t);
    OrderedPrepend(Row(key, rec), t);
  }

  lemma PutPast<R>(t: Table<R>, key: string, rec: R, rest: Table<R>)
    requires t != [] && t[0].key != key && !KeyLess(key, t[0].key)
    requires IsPut(t[1..], key, rec, rest)
    ensures IsPut(t, key, rec, [t[0]] + rest)
  {
    var t' := [t[0]] + rest;
    assert t'[1..] == rest;
    assert forall x | x in t' :: x == t[0] || x in rest;
    assert forall x | x in t[1..] :: x in t;
    KeyLessTotal(key, t[0].key);
    if Ordered(t) {
      assert Ordered(t[1..]);
      assert forall x | x in t[1..] :: KeyLess(t[0].key, x.key);
      OrderedPrepend(t[0], rest);
      assert HasKey(t, key) <==> HasKey(t[1..], key) by {
        if HasKey(t, key) {
          var i :| 0 <= i < |t| && t[i].key == key;
          assert t[1..][i - 1].key == key;
        }
        if HasKey(t[1..], key) {
          var i :| 0 <= i < |t[1..]| && t[1..][i].key == key;
          assert t[i + 1].key == key;
        }
      }
    }
  }

  lemma OrderedPrepend<R>(r: Row<R>, t: Table<R>)
    ensures Ordered(t) && (forall x | x in t :: KeyLess(r.key, x.key)) ==> Ordered([r] + t)
  {
    if Ordered(t) && (forall x | x in t :: KeyLess(r.key, x.key)) {
      forall i, j | 0 <= i < j < |[r] + t|
        ensures KeyLess(([r] + t)[i].key, ([r] + t)[j].key)
      {
        assert ([r] + t)[j] == t[j - 1];
        if i > 0 {
          assert ([r] + t)[i] == t[i - 1];
        } else {
          assert t[j - 1] in t;
        }
      }
    }
  }

  lemma BelowFirst<R>(key: string, t: Table<R>)
    ensures Ordered(t) && t != [] && KeyLess(key, t[0].key) ==> forall x | x in t :: KeyLess(key, x.key)
  {
    if Ordered(t) && t != [] && KeyLess(key, t[0].key) {
      forall x | x in t
        ensures KeyLess(key, x.key)
      {
        var i :| 0 <= i < |t| && t[i] == x;
        if i > 0 {
          KeyLessTransitive(key, t[0].key, x.key);
        }
      }
    }
  }

  /** In an ordered table, a key below the first key is absent. */
  lemma GetOrderedFirst<R>(t: Table<R>, key: string)
    requires t != [] && KeyLess(key, t[0].key)
    ensures Ordered(t) ==> forall i | 0 <= i < |t| :: t[i].key != key
  {
    if Ordered(t) {
      forall i | 0 <= i < |t|
        ensures t[i].key != key
      {
        KeyLessIrreflexive(key);
        if 0 < i {
          if t[i].key == key {
            KeyLessTransitive(key, t[0].key, key);
          }
        }
      }
    }
  }

  /** `delete(table, key)`: only that key goes; key order is kept. */
  function Delete<R>(t: Table<R>, key: string): (t': Table<R>)
    ensures Get(t', key) == None
    ensures forall k | k != key :: Get(t', k) == Get(t, k)
    ensures Ordered(t) ==> Ordered(t')
    ensures forall x | x in t' :: x in t
  {
    if t == [] then []
    else if t[0].key == key then Delete(t[1..], key)
    else
      var rest := Delete(t[1..], key);
      assert Ordered(t) ==> forall x | x in t[1..] :: KeyLess(t[0].key, x.key);
      assert forall j | 0 <= j < |rest| :: rest[j] in rest;
      [t[0]] + rest
  }

  /** `update(table, key, changes)`: merges the changes into the record under
      the key; a missing key changes nothing. */
  function Update<R>(t: Table<R>, key: string, merge: R -> R): (t': Table<R>)
    ensures Get(t', key) == (match Get(t, key) case Some(r) => Some(merge(r)) case None => None)
    ensures forall k | k != key :: Get(t', k) == Get(t, k)
    ensures Ordered(t) ==> Ordered(t')
    ensures !HasKey(t, key) ==> t' == t
  {
    match Get(t, key)
    case Some(r) => Put(t, key, merge(r))
    case None => t
  }

  /** `add(table, record)`: like `put`, but fails on a key already present. */
  function Add<R>(t: Table<R>, key: string, rec: R): (r: Option<Table<R>>)
    ensures r.None? <==> HasKey(t, key)
    ensures r.Some? ==> Get(r.value, key) == Some(rec)
    ensures r.Some? ==> forall k | k != key :: Get(r.value, k) == Get(t, k)
    ensures r.Some? && Ordered(t) ==> Ordered(r.value) && |r.value| == |t| + 1
    ensures r.Some? ==> multiset(Values(r.value)) == multiset(Values(t)) + multiset{rec}
  {
    if HasKey(t, key) then None else (PutNewValues(t, key, rec); Some(Put(t, key, rec)))
  }

  /** `clear(table)` */
  function Clear<R>(t: Table<R>): (t': Table<R>)
    ensures forall k :: Get(t', k) == None
  {
    []
  }

  // ---------------------------------------------------------------------------
  // What `getAll` returns after a write

  /** Putting a new key adds exactly its record to the multiset of values. */
  lemma {:induction false} PutNewValues<R>(t: Table<R>, key: string, rec: R)
    requires !HasKey(t, key)
    ensures multiset(Values(Put(t, key, rec))) == multiset(Values(t)) + multiset{rec}
  {
    if t == [] {
    } else if KeyLess(key, t[0].key) {
      assert Values(Put(t, key, rec)) == [rec] + Values(t);
    } else {
      assert forall i | 0 <= i < |t[1..]| :: t[1..][i] == t[i + 1];
      PutNewValues(t[1..], key, rec);
      assert Values(Put(t, key, rec)) == [t[0].record] + Values(Put(t[1..], key, rec));
      assert Values(t) == [t[0].record] + Values(t[1..]);
    }
  }

  /** A later key of an ordered table is neither the first key nor below it. */
  lemma PastFirst<R>(t: Table<R>, i: nat)
    requires 0 < i < |t| && Ordered(t)
    ensures t[0].key != t[i].key && !KeyLess(t[i].key, t[0].key)
  {
    assert KeyLess(t[0].key, t[i].key);
    KeyLessIrreflexive(t[i].key);
    if KeyLess(t[i].key, t[0].key) {
      KeyLessTransitive(t[i].key, t[0].key, t[i].key);
    }
  }

  /** Putting an existing key replaces its row where it stands. */
  lemma {:induction false} PutExisting<R>(t: Table<R>, i: nat, rec: R)
    requires i < |t| && Ordered(t)
    ensures Put(t, t[i].key, rec) == t[i := Row(t[i].key, rec)]
  {
    var key := t[i].key;
    if i > 0 {
      PastFirst(t, i);
      assert t[1..][i - 1] == t[i];
      assert Ordered(t[1..]);
      PutExisting(t[1..], i - 1, rec);
      assert Put(t, key, rec) == [t[0]] + t[1..][i - 1 := Row(key, rec)];
    }
  }

  /** ... so `getAll` sees the new record at the old position. */
  lemma PutExistingValues<R>(t: Table<R>, i: nat, rec: R)
    requires i < |t| && Ordered(t)
    ensures Values(Put(t, t[i].key, rec)) == Values(t)[i := rec]
  {
    PutExisting(t, i, rec);
    var t' := t[i := Row(t[i].key, rec)];
    var vs, ws := Values(t'), Values(t)[i := rec];
    assert |vs| == |ws|;
    forall j | 0 <= j < |vs|
      ensures vs[j] == ws[j]
    {
      assert vs[j] == t'[j].record;
    }
  }

  // ---------------------------------------------------------------------------
  // Seeding: one `put` per record

  /** `put` of each record in turn, under the key `keyOf` gives it. */
  function PutAll<R>(t: Table<R>, keyOf: R -> string, rs: seq<R>): (t': Table<R>)
    ensures Ordered(t) ==> Ordered(t')
  {
    if rs == [] then t
    else Put(PutAll(t, keyOf, rs[..|rs| - 1]), keyOf(rs[|rs| - 1]), rs[|rs| - 1])
  }

  /** After `put`, the keys are the old ones and the key put. */
  lemma PutHasKey<R>(t: Table<R>, key: string, rec: R, k: string)
    ensures HasKey(Put(t, key, rec), k) <==> HasKey(t, k) || k == key
  {
    var t' := Put(t, key, rec);
    assert Get(t', k).Some? <==> HasKey(t', k);
    assert Get(t, k).Some? <==> HasKey(t, k);
  }

  /** Some record of `rs` has the key `k`. */
  predicate KeyAmong<R>(keyOf: R -> string, rs: seq<R>, k: string) {
    exists j | 0 <= j < |rs| :: keyOf(rs[j]) == k
  }

  lemma KeyAmongLast<R>(keyOf: R -> string, rs: seq<R>, k: string)
    requires rs != []
    ensures KeyAmong(keyOf, rs, k) <==> KeyAmong(keyOf, rs[..|rs| - 1], k) || keyOf(rs[|rs| - 1]) == k
  {
    var n := |rs| - 1;
    if KeyAmong(keyOf, rs, k) {
      var j :| 0 <= j < |rs| && keyOf(rs[j]) == k;
      if j < n {
        assert rs[..n][j] == rs[j];
      }
    }
    if KeyAmong(keyOf, rs[..n], k) {
      var j :| 0 <= j < n && keyOf(rs[..n][j]) == k;
      assert rs[j] == rs[..n][j];
    }
  }

  /** The keys present after seeding: the old ones and those of the records. */
  lemma {:induction false} PutAllKeys<R>(t: Table<R>, keyOf: R -> string, rs: seq<R>, k: string)
    ensures HasKey(PutAll(t, keyOf, rs), k) <==> HasKey(t, k) || KeyAmong(keyOf, rs, k)
  {
    if rs != [] {
      var n := |rs| - 1;
      var before := PutAll(t, keyOf, rs[..n]);
      PutAllKeys(t, keyOf, rs[..n], k);
      PutHasKey(before, keyOf(rs[n]), rs[n], k);
      KeyAmongLast(keyOf, rs, k);
    }
  }

  /** Seeding an empty table with records of distinct keys stores exactly
      those records. */
  lemma {:induction false} PutAllValues<R>(keyOf: R -> string, rs: seq<R>)
    requires forall i, j | 0 <= i < j < |rs| :: keyOf(rs[i]) != keyOf(rs[j])
    ensures Ordered(PutAll([], keyOf, rs))
    ensures multiset(Values(PutAll([], keyOf, rs))) == multiset(rs)
  {
    if rs != [] {
      var n := |rs| - 1;
      var init := rs[..n];
      assert forall j | 0 <= j < n :: init[j] == rs[j];
      PutAllValues(keyOf, init);
      var before := PutAll([], keyOf, init);
      PutAllKeys([], keyOf, init, keyOf(rs[n]));
      assert !KeyAmong(keyOf, init, keyOf(rs[n]));
      assert !HasKey(before, keyOf(rs[n]));
      PutNewValues(before, keyOf(rs[n]), rs[n]);
      SplitLast(rs);
    }
  }

  lemma SplitLast<T>(s: seq<T>)
    requires s != []
    ensures s == s[..|s| - 1] + [s[|s| - 1]]
    ensures multiset(s) == multiset(s[..|s| - 1]) + multiset{s[|s| - 1]}
  {
    assert s == s[..|s| - 1] + [s[|s| - 1]];
  }
}
