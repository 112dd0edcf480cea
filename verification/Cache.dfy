/** The configuration cache and the values it is computed from: `pkg/kv/repository.go`, `pkg/cache/repository.go` and
    `pkg/repository/cachedep.go`. */
module Cache {
  import opened Model

  /** One row of `config_values`; rows are kept in the order of their versions. */
  datatype Value = Value(bucket: string, key: string, keyVersion: nat, value: string, version: nat)

  /** Label and runtime ID, the primary key of `config_cache`. */
  type EntryKey = (string, string)

  datatype Entry = Entry(id: nat, data: string)

  /** The primary key of `config_cachedeps`. */
  datatype DepKey = DepKey(bucket: string, key: string, entry: EntryKey)

  /** The version the entry was computed from is not stored in the source; it records what the row stands for. */
  datatype Dep = Dep(cacheID: nat, version: nat)

  datatype DB = DB(
    values: seq<Value>, nextVersion: nat,
    entries: map<EntryKey, Entry>, nextID: nat,
    deps: map<DepKey, Dep>)

  const EMPTY := DB([], 1, map[], 1, map[])

  function LatestValue(values: seq<Value>, bucket: string, key: string): (v: Option<Value>) {
    if values == [] then None
    else
      var n := |values| - 1;
      if values[n].bucket == bucket && values[n].key == key then Some(values[n])
      else LatestValue(values[..n], bucket, key)
  }

  // ---------------------------------------------------------------- invalidation

  /** The selector of an invalidation: columns that are not set match everything. */
  datatype Selector = Selector(bucket: Option<string>, key: Option<string>, entry: Option<EntryKey>,
                               cacheID: Option<nat>) {
    predicate Matches(k: DepKey, d: Dep) {
      && (bucket.Some? ==> k.bucket == bucket.value) && (key.Some? ==> k.key == key.value)
      && (entry.Some? ==> k.entry == entry.value) && (cacheID.Some? ==> d.cacheID == cacheID.value)
    }
  }

  function ByBucketAndKey(bucket: string, key: string): Selector { Selector(Some(bucket), Some(key), None, None) }
  function ByKey(key: string): Selector { Selector(None, Some(key), None, None) }
  function ByBucket(bucket: string): Selector { Selector(Some(bucket), None, None, None) }
  function ByEntry(entry: EntryKey): Selector { Selector(None, None, Some(entry), None) }
  function ByCacheID(id: nat): Selector { Selector(None, None, None, Some(id)) }

  function MatchingIDs(deps: map<DepKey, Dep>, sel: Selector): set<nat> {
    set k | k in deps && sel.Matches(k, deps[k]) :: deps[k].cacheID
  }

  /** Removes the entries with these IDs; their dependencies go with them. */
  function DropEntries(db: DB, ids: set<nat>): DB {
    db.(entries := map e | e in db.entries && db.entries[e].id !in ids :: db.entries[e],
        deps := map k | k in db.deps && !(k.entry in db.entries && db.entries[k.entry].id in ids) :: db.deps[k])
  }

  function Invalidate(db: DB, sel: Selector): DB {
    var ids := MatchingIDs(db.deps, sel);
    var db1 := DropEntries(db, ids);
    db1.(deps := map k | k in db1.deps && db1.deps[k].cacheID !in ids :: db1.deps[k])
  }

  function InvalidateByID(db: DB, id: nat): DB {
    DropEntries(Invalidate(db, ByCacheID(id)), {id})
  }

  function InvalidateEntry(db: DB, e: EntryKey): DB {
    var db1 := Invalidate(db, ByEntry(e));
    if e in db1.entries then DropEntries(db1, {db1.entries[e].id}) else db1
  }

  // ---------------------------------------------------------------- adding entries

  /** A value an entry was computed from. */
  datatype Ref = Ref(bucket: string, key: string, version: nat)

  /** Inserts a row for each dependency; a repeated one violates the primary key. */
  function Recorded(deps: map<DepKey, Dep>, e: EntryKey, id: nat, refs: seq<Ref>): (r: Option<map<DepKey, Dep>>) {
    if refs == [] then Some(deps)
    else
      var n := |refs| - 1;
      var front := Recorded(deps, e, id, refs[..n]);
      var k := DepKey(refs[n].bucket, refs[n].key, e);
      if front.None? || k in front.value then None else Some(front.value[k := Dep(id, refs[n].version)])
  }

  function Add(db: DB, e: EntryKey, data: string, refs: seq<Ref>): (r: (DB, Option<nat>)) {
    if e in db.entries && db.entries[e].data == data then (db, Some(db.entries[e].id))
    else
      var db1 := if e in db.entries then InvalidateByID(db, db.entries[e].id) else db;
      var deps := Recorded(db1.deps, e, db1.nextID, refs);
      if deps.None? then (db1, None)
      else (db1.(entries := db1.entries[e := Entry(db1.nextID, data)], nextID := db1.nextID + 1, deps := deps.value),
            Some(db1.nextID))
  }

  // ---------------------------------------------------------------- values

  /** Values that do not belong to the bucket and key; an unset column matches everything. */
  function Without(values: seq<Value>, bucket: Option<string>, key: Option<string>): (r: seq<Value>) {
    if values == [] then []
    else
      var n := |values| - 1;
      var v := values[n];
      Without(values[..n], bucket, key)
      + (if (bucket.None? || v.bucket == bucket.value) && (key.None? || v.key == key.value) then [] else [v])
  }

  /** `accepted` says that the key exists and its type and validator accept the value. */
  function CreateValue(db: DB, bucket: string, key: string, keyVersion: nat, value: string, accepted: bool): DB {
    var v := LatestValue(db.values, bucket, key);
    if v.Some? && v.value.keyVersion == keyVersion && v.value.value == value then db
    else if !accepted then db
    else
      Invalidate(db.(values := db.values + [Value(bucket, key, keyVersion, value, db.nextVersion)],
                     nextVersion := db.nextVersion + 1),
                 ByBucketAndKey(bucket, key))
  }

  function DeleteValue(db: DB, bucket: string, key: string): DB {
    Invalidate(db, ByBucketAndKey(bucket, key)).(values := Without(db.values, Some(bucket), Some(key)))
  }

  function DeleteKey(db: DB, key: string): DB {
    Invalidate(db, ByKey(key)).(values := Without(db.values, None, Some(key)))
  }

  function DeleteBucket(db: DB, bucket: string): DB {
    Invalidate(db, ByBucket(bucket)).(values := Without(db.values, Some(bucket), None))
  }

  // ---------------------------------------------------------------- what every operation keeps

  predicate IsLatest(values: seq<Value>, bucket: string, key: string, version: nat) {
    var v := LatestValue(values, bucket, key);
    v.Some? && v.value.version == version
  }

  /** A dependency points to an existing entry of its label and runtime, and to the latest value. */
  predicate DepFits(db: DB, k: DepKey) {
    k in db.deps ==>
      && k.entry in db.entries && db.entries[k.entry].id == db.deps[k].cacheID
      && IsLatest(db.values, k.bucket, k.key, db.deps[k].version)
  }

  predicate EntriesApart(db: DB, a: EntryKey, b: EntryKey) {
    a in db.entries && b in db.entries ==>
      db.entries[a].id < db.nextID && (db.entries[a].id == db.entries[b].id ==> a == b)
  }

  ghost predicate Sound(db: DB) {
    (forall k :: DepFits(db, k)) && (forall a, b :: EntriesApart(db, a, b))
  }

  lemma DropKeepsSound(db: DB, ids: set<nat>)
    requires Sound(db)
    ensures Sound(DropEntries(db, ids))
  {
    var db' := DropEntries(db, ids);
    forall k ensures DepFits(db', k) {
      assert DepFits(db, k);
    }
    forall a, b ensures EntriesApart(db', a, b) {
      assert EntriesApart(db, a, b);
    }
  }

  /** Invalidation removes every entry that has a matching dependency, with all its dependencies, and nothing else. */
  lemma InvalidateIsExact(db: DB, sel: Selector)
    requires Sound(db)
    ensures Sound(Invalidate(db, sel))
    ensures forall k :: k in Invalidate(db, sel).deps ==> !sel.Matches(k, db.deps[k])
    ensures forall e :: e in Invalidate(db, sel).entries <==>
      e in db.entries && !exists k :: k in db.deps && k.entry == e && sel.Matches(k, db.deps[k])
    ensures forall e :: e in Invalidate(db, sel).entries ==> Invalidate(db, sel).entries[e] == db.entries[e]
    ensures forall k :: k in Invalidate(db, sel).deps <==> k in db.deps && k.entry in Invalidate(db, sel).entries
    ensures forall k :: k in Invalidate(db, sel).deps ==> Invalidate(db, sel).deps[k] == db.deps[k]
  {
    var ids := MatchingIDs(db.deps, sel);
    var db1, db' := DropEntries(db, ids), Invalidate(db, sel);
    DropKeepsSound(db, ids);
    forall k ensures DepFits(db', k) {
      assert DepFits(db1, k);
    }
    forall a, b ensures EntriesApart(db', a, b) {
      assert EntriesApart(db1, a, b);
    }
    forall e | e in db.entries
      ensures db.entries[e].id in ids <==> exists k :: k in db.deps && k.entry == e && sel.Matches(k, db.deps[k])
    {
      if db.entries[e].id in ids {
        var k :| k in db.deps && sel.Matches(k, db.deps[k]) && db.deps[k].cacheID == db.entries[e].id;
        assert DepFits(db, k) && EntriesApart(db, e, k.entry);
      }
      if k :| k in db.deps && k.entry == e && sel.Matches(k, db.deps[k]) {
        assert DepFits(db, k);
        assert db.deps[k].cacheID in ids;
      }
    }
    forall k | k in db.deps ensures k.entry in db.entries && db.deps[k].cacheID == db.entries[k.entry].id {
      assert DepFits(db, k);
    }
  }

  /** Values may change as long as no dependency names them. */
  lemma ValuesMayChange(db: DB, db': DB)
    requires Sound(db) && db'.entries == db.entries && db'.deps == db.deps && db'.nextID == db.nextID
    requires forall k :: k in db.deps ==>
      LatestValue(db'.values, k.bucket, k.key) == LatestValue(db.values, k.bucket, k.key)
    ensures Sound(db')
  {
    forall k ensures DepFits(db', k) {
      assert DepFits(db, k);
    }
    forall a, b ensures EntriesApart(db', a, b) {
      assert EntriesApart(db, a, b);
    }
  }

  lemma {:induction false} LatestWithout(values: seq<Value>, b: Option<string>, k: Option<string>, bucket: string,
                                         key: string)
    ensures LatestValue(Without(values, b, k), bucket, key) ==
      if (b.None? || bucket == b.value) && (k.None? || key == k.value) then None else LatestValue(values, bucket, key)
  {
    if values != [] {
      var n := |values| - 1;
      LatestWithout(values[..n], b, k, bucket, key);
      var front := Without(values[..n], b, k);
      assert (front + [values[n]])[..|front|] == front;
      assert front + [] == front;
    }
  }

  /** Deleting values after invalidating what depends on them. */
  lemma DeleteKeepsSound(db: DB, b: Option<string>, k: Option<string>)
    requires Sound(db)
    ensures Sound(Invalidate(db, Selector(b, k, None, None)).(values := Without(db.values, b, k)))
  {
    var sel := Selector(b, k, None, None);
    var db1 := Invalidate(db, sel);
    InvalidateIsExact(db, sel);
    forall d | d in db1.deps
      ensures LatestValue(Without(db.values, b, k), d.bucket, d.key) == LatestValue(db1.values, d.bucket, d.key)
    {
      LatestWithout(db.values, b, k, d.bucket, d.key);
    }
    ValuesMayChange(db1, db1.(values := Without(db.values, b, k)));
  }

  /** A deletion of values covers this bucket and key; an unset column matches everything. */
  predicate Covers(b: Option<string>, k: Option<string>, bucket: string, key: string) {
    (b.Some? ==> bucket == b.value) && (k.Some? ==> key == k.value)
  }

  /** The values covered are gone, and no others; and so are the entries that depend on one of them, and no others. */
  ghost predicate Forgets(db: DB, db': DB, b: Option<string>, k: Option<string>) {
    && (forall v :: v in db'.values <==> v in db.values && !Covers(b, k, v.bucket, v.key))
    && (forall bucket, key :: LatestValue(db'.values, bucket, key) ==
          if Covers(b, k, bucket, key) then None else LatestValue(db.values, bucket, key))
    && (forall e :: e in db'.entries <==>
          e in db.entries && !exists d :: d in db.deps && d.entry == e && Covers(b, k, d.bucket, d.key))
    && (forall e :: e in db'.entries ==> db'.entries[e] == db.entries[e])
    && (forall d :: d in db'.deps <==> d in db.deps && d.entry in db'.entries)
    && (forall d :: d in db'.deps ==> db'.deps[d] == db.deps[d])
    && db'.nextVersion == db.nextVersion && db'.nextID == db.nextID
  }

  lemma {:induction false} WithoutMembers(values: seq<Value>, b: Option<string>, k: Option<string>)
    ensures forall v :: v in Without(values, b, k) <==> v in values && !Covers(b, k, v.bucket, v.key)
  {
    if values != [] {
      var n := |values| - 1;
      WithoutMembers(values[..n], b, k);
      assert values == values[..n] + [values[n]];
    }
  }

  lemma DeletionForgets(db: DB, db': DB, b: Option<string>, k: Option<string>)
    requires Sound(db) && db' == Invalidate(db, Selector(b, k, None, None)).(values := Without(db.values, b, k))
    ensures Forgets(db, db', b, k)
  {
    ValuesGo(db.values, b, k);
    EntriesGo(db, Invalidate(db, Selector(b, k, None, None)), b, k);
    DepsGo(db, Invalidate(db, Selector(b, k, None, None)), Selector(b, k, None, None));
  }

  lemma ValuesGo(values: seq<Value>, b: Option<string>, k: Option<string>)
    ensures
      var values' := Without(values, b, k);
      && (forall v :: v in values' <==> v in values && !Covers(b, k, v.bucket, v.key))
      && (forall bucket, key :: LatestValue(values', bucket, key) ==
            if Covers(b, k, bucket, key) then None else LatestValue(values, bucket, key))
  {
    WithoutMembers(values, b, k);
    forall bucket, key
      ensures LatestValue(Without(values, b, k), bucket, key) ==
        if Covers(b, k, bucket, key) then None else LatestValue(values, bucket, key)
    {
      LatestWithout(values, b, k, bucket, key);
    }
  }

  lemma EntriesGo(db: DB, db': DB, b: Option<string>, k: Option<string>)
    requires Sound(db) && db' == Invalidate(db, Selector(b, k, None, None))
    ensures forall e :: e in db'.entries <==>
      e in db.entries && !exists d :: d in db.deps && d.entry == e && Covers(b, k, d.bucket, d.key)
    ensures forall e :: e in db'.entries ==> db'.entries[e] == db.entries[e]
  {
    forall e
      ensures e in db'.entries <==>
        e in db.entries && !exists d :: d in db.deps && d.entry == e && Covers(b, k, d.bucket, d.key)
      ensures e in db'.entries ==> db'.entries[e] == db.entries[e]
    {
      InvalidatedEntry(db, Selector(b, k, None, None), e);
      DependsOnCovered(db, b, k, e);
    }
  }

  lemma DepsGo(db: DB, db': DB, sel: Selector)
    requires Sound(db) && db' == Invalidate(db, sel)
    ensures forall d :: d in db'.deps <==> d in db.deps && d.entry in db'.entries
    ensures forall d :: d in db'.deps ==> db'.deps[d] == db.deps[d]
  {
    DepsHaveEntries(db);
    forall d
      ensures d in db'.deps <==> d in db.deps && d.entry in db'.entries
      ensures d in db'.deps ==> db'.deps[d] == db.deps[d]
    {
      InvalidatedDep(db, sel, d);
      InvalidatedEntry(db, sel, d.entry);
    }
  }

  lemma DependsOnCovered(db: DB, b: Option<string>, k: Option<string>, e: EntryKey)
    ensures e in Dependents(db, Selector(b, k, None, None)) <==>
      exists d :: d in db.deps && d.entry == e && Covers(b, k, d.bucket, d.key)
  {
    var sel := Selector(b, k, None, None);
    if d :| d in db.deps && d.entry == e && Covers(b, k, d.bucket, d.key) {
      assert sel.Matches(d, db.deps[d]);
    }
  }

  /** Deleting a value removes exactly it, and exactly the entries that depend on it. */
  lemma DeleteValueForgets(db: DB, bucket: string, key: string)
    requires Sound(db)
    ensures Forgets(db, DeleteValue(db, bucket, key), Some(bucket), Some(key))
  {
    DeletionForgets(db, DeleteValue(db, bucket, key), Some(bucket), Some(key));
  }

  lemma DeleteKeyForgets(db: DB, key: string)
    requires Sound(db)
    ensures Forgets(db, DeleteKey(db, key), None, Some(key))
  {
    DeletionForgets(db, DeleteKey(db, key), None, Some(key));
  }

  lemma DeleteBucketForgets(db: DB, bucket: string)
    requires Sound(db)
    ensures Forgets(db, DeleteBucket(db, bucket), Some(bucket), None)
  {
    DeletionForgets(db, DeleteBucket(db, bucket), Some(bucket), None);
  }

  /** The value is stored as the latest one of its bucket and key, with a version of its own; every other bucket and key
      keeps its latest value. */
  ghost predicate Stores(db: DB, db': DB, bucket: string, key: string, keyVersion: nat, value: string) {
    && LatestValue(db'.values, bucket, key) == Some(Value(bucket, key, keyVersion, value, db.nextVersion))
    && db'.nextVersion == db.nextVersion + 1 && db'.nextID == db.nextID
    && (forall v :: v in db.values ==> v in db'.values)
    && (forall b, k :: (b, k) != (bucket, key) ==> LatestValue(db'.values, b, k) == LatestValue(db.values, b, k))
    && (forall e :: e in db'.entries <==> e in db.entries && DepKey(bucket, key, e) !in db.deps)
    && (forall e :: e in db'.entries ==> db'.entries[e] == db.entries[e])
  }

  /** A value that is accepted and new is stored; otherwise nothing happens. */
  lemma CreateValueStores(db: DB, bucket: string, key: string, keyVersion: nat, value: string, accepted: bool)
    requires Sound(db)
    ensures
      var db', v := CreateValue(db, bucket, key, keyVersion, value, accepted), LatestValue(db.values, bucket, key);
      if accepted && (v.None? || v.value.keyVersion != keyVersion || v.value.value != value)
      then Stores(db, db', bucket, key, keyVersion, value)
      else db' == db
  {
    var v := Value(bucket, key, keyVersion, value, db.nextVersion);
    var sel := ByBucketAndKey(bucket, key);
    var values := db.values + [v];
    assert values[..|db.values|] == db.values;
    InvalidateIsExact(db, sel);
    InvalidateIgnoresValues(db, sel, values, db.nextVersion + 1);
    forall e | e in db.entries ensures e in Invalidate(db, sel).entries <==> DepKey(bucket, key, e) !in db.deps {
      DroppedIfDependent(db, bucket, key, e);
    }
  }

  /** Storing a value before invalidating what depends on the old one. */
  lemma CreateKeepsSound(db: DB, bucket: string, key: string, keyVersion: nat, value: string, accepted: bool)
    requires Sound(db)
    ensures Sound(CreateValue(db, bucket, key, keyVersion, value, accepted))
  {
    var v := Value(bucket, key, keyVersion, value, db.nextVersion);
    var sel := ByBucketAndKey(bucket, key);
    var db1 := Invalidate(db, sel);
    InvalidateIsExact(db, sel);
    assert (db.values + [v])[..|db.values|] == db.values;
    ValuesMayChange(db1, db1.(values := db.values + [v], nextVersion := db.nextVersion + 1));
    InvalidateIgnoresValues(db, sel, db.values + [v], db.nextVersion + 1);
  }

  lemma InvalidateIgnoresValues(db: DB, sel: Selector, values: seq<Value>, next: nat)
    ensures Invalidate(db.(values := values, nextVersion := next), sel)
      == Invalidate(db, sel).(values := values, nextVersion := next)
  {
  }

  /** Exactly these entries are gone, with their dependencies; values and counters stay. */
  ghost predicate Drops(db: DB, db': DB, gone: set<EntryKey>) {
    && (forall e :: EntryStays(db, db', gone, e)) && (forall k :: DepStays(db, db', gone, k))
    && db'.values == db.values && db'.nextVersion == db.nextVersion && db'.nextID == db.nextID
  }

  predicate EntryStays(db: DB, db': DB, gone: set<EntryKey>, e: EntryKey) {
    && (e in db'.entries <==> e in db.entries && e !in gone)
    && (e in db'.entries ==> db'.entries[e] == db.entries[e])
  }

  predicate DepStays(db: DB, db': DB, gone: set<EntryKey>, k: DepKey) {
    && (k in db'.deps <==> k in db.deps && k.entry !in gone)
    && (k in db'.deps ==> db'.deps[k] == db.deps[k])
  }

  /** The entries with this ID; there is at most one. */
  function WithID(db: DB, id: nat): set<EntryKey> { set e | e in db.entries && db.entries[e].id == id }

  lemma DropsEntries(db: DB, ids: set<nat>, gone: set<EntryKey>)
    requires forall k :: k in db.deps ==> k.entry in db.entries
    requires forall e :: e in db.entries ==> (db.entries[e].id in ids <==> e in gone)
    ensures Drops(db, DropEntries(db, ids), gone)
  {
  }

  lemma DropsTwice(db: DB, db1: DB, db2: DB, a: set<EntryKey>, b: set<EntryKey>)
    requires Drops(db, db1, a) && Drops(db1, db2, b)
    ensures Drops(db, db2, a + b)
  {
    forall e ensures EntryStays(db, db2, a + b, e) {
      assert EntryStays(db, db1, a, e) && EntryStays(db1, db2, b, e);
    }
    forall k ensures DepStays(db, db2, a + b, k) {
      assert DepStays(db, db1, a, k) && DepStays(db1, db2, b, k);
    }
  }

  /** The entries that depend on something selected. */
  function Dependents(db: DB, sel: Selector): set<EntryKey> {
    set k | k in db.deps && sel.Matches(k, db.deps[k]) :: k.entry
  }

  lemma InvalidatedEntry(db: DB, sel: Selector, e: EntryKey)
    requires Sound(db)
    ensures EntryStays(db, Invalidate(db, sel), Dependents(db, sel), e)
  {
    InvalidateIsExact(db, sel);
    if k :| k in db.deps && k.entry == e && sel.Matches(k, db.deps[k]) {
      assert e in Dependents(db, sel);
    }
  }

  lemma InvalidatedDep(db: DB, sel: Selector, k: DepKey)
    requires Sound(db)
    ensures DepStays(db, Invalidate(db, sel), Dependents(db, sel), k)
  {
    InvalidateIsExact(db, sel);
    InvalidatedEntry(db, sel, k.entry);
    assert DepFits(db, k);
  }

  lemma InvalidateDrops(db: DB, sel: Selector)
    requires Sound(db)
    ensures Sound(Invalidate(db, sel)) && Drops(db, Invalidate(db, sel), Dependents(db, sel))
  {
    assert Sound(Invalidate(db, sel)) by {
      InvalidateIsExact(db, sel);
    }
    forall e ensures EntryStays(db, Invalidate(db, sel), Dependents(db, sel), e) {
      InvalidatedEntry(db, sel, e);
    }
    forall k ensures DepStays(db, Invalidate(db, sel), Dependents(db, sel), k) {
      InvalidatedDep(db, sel, k);
    }
  }

  lemma InvalidateByIDKeepsSound(db: DB, id: nat)
    requires Sound(db)
    ensures Sound(InvalidateByID(db, id))
    ensures Drops(db, InvalidateByID(db, id), WithID(db, id))
  {
    var sel := ByCacheID(id);
    var db1, db' := Invalidate(db, sel), InvalidateByID(db, id);
    InvalidateDrops(db, sel);
    DropKeepsSound(db1, {id});
    DepsHaveEntries(db1);
    DropsEntries(db1, {id}, WithID(db1, id));
    DropsTwice(db, db1, db', Dependents(db, sel), WithID(db1, id));
    forall e ensures e in Dependents(db, sel) + WithID(db1, id) <==> e in WithID(db, id) {
      assert EntryStays(db, db1, Dependents(db, sel), e);
      if e in Dependents(db, sel) {
        var k :| k in db.deps && sel.Matches(k, db.deps[k]) && k.entry == e;
        assert DepFits(db, k);
      }
    }
    assert Dependents(db, sel) + WithID(db1, id) == WithID(db, id);
  }

  lemma DepsHaveEntries(db: DB)
    requires Sound(db)
    ensures forall k :: k in db.deps ==> k.entry in db.entries
  {
    forall k | k in db.deps ensures k.entry in db.entries {
      assert DepFits(db, k);
    }
  }

  lemma InvalidateEntryKeepsSound(db: DB, e: EntryKey)
    requires Sound(db)
    ensures Sound(InvalidateEntry(db, e))
    ensures Drops(db, InvalidateEntry(db, e), {e})
  {
    var sel := ByEntry(e);
    var db1, db' := Invalidate(db, sel), InvalidateEntry(db, e);
    InvalidateDrops(db, sel);
    assert Dependents(db, sel) <= {e};
    if e in db1.entries {
      DropKeepsSound(db1, {db1.entries[e].id});
      DepsHaveEntries(db1);
      forall other | other in db1.entries ensures db1.entries[other].id == db1.entries[e].id <==> other == e {
        assert EntriesApart(db1, other, e);
      }
      DropsEntries(db1, {db1.entries[e].id}, {e});
      DropsTwice(db, db1, db', Dependents(db, sel), {e});
      assert Dependents(db, sel) + {e} == {e};
    } else {
      NoneLeft(db, db1, Dependents(db, sel), e);
    }
  }

  lemma NoneLeft(db: DB, db': DB, gone: set<EntryKey>, e: EntryKey)
    requires Sound(db) && Drops(db, db', gone) && gone <= {e} && e !in db'.entries
    ensures Drops(db, db', {e})
  {
    DepsHaveEntries(db);
    forall other ensures EntryStays(db, db', {e}, other) {
      assert EntryStays(db, db', gone, other);
    }
    forall k ensures DepStays(db, db', {e}, k) {
      assert DepStays(db, db', gone, k) && EntryStays(db, db', gone, e);
    }
  }

  /** What recording adds: one row for each dependency, all of them for the new entry. */
  lemma {:induction false} RecordedRows(deps: map<DepKey, Dep>, e: EntryKey, id: nat, refs: seq<Ref>)
    requires Recorded(deps, e, id, refs).Some?
    ensures
      var deps' := Recorded(deps, e, id, refs).value;
      && (forall k :: k in deps ==> k in deps' && deps'[k] == deps[k])
      && (forall k :: k in deps' && k !in deps ==> IsRecordOf(k, deps'[k], e, id, refs))
      && (forall i :: 0 <= i < |refs| ==> IsRecorded(deps, deps', e, id, refs[i]))
  {
    if refs != [] {
      var n := |refs| - 1;
      RecordedRows(deps, e, id, refs[..n]);
      var front := Recorded(deps, e, id, refs[..n]).value;
      var deps' := Recorded(deps, e, id, refs).value;
      forall k | k in deps' && k !in deps ensures IsRecordOf(k, deps'[k], e, id, refs) {
        if k in front {
          assert IsRecordOf(k, front[k], e, id, refs[..n]);
        }
      }
      forall i | 0 <= i < |refs| ensures IsRecorded(deps, deps', e, id, refs[i]) {
        if i < n {
          assert refs[..n][i] == refs[i] && IsRecorded(deps, front, e, id, refs[..n][i]);
        }
      }
    }
  }

  predicate IsRecorded(deps: map<DepKey, Dep>, deps': map<DepKey, Dep>, e: EntryKey, id: nat, ref: Ref) {
    var k := DepKey(ref.bucket, ref.key, e);
    k !in deps && k in deps' && deps'[k] == Dep(id, ref.version)
  }

  predicate IsRecordOf(k: DepKey, d: Dep, e: EntryKey, id: nat, refs: seq<Ref>) {
    k.entry == e && d.cacheID == id && Ref(k.bucket, k.key, d.version) in refs
  }

  /** The entry is computed from the latest values. */
  predicate AreLatest(values: seq<Value>, refs: seq<Ref>) {
    forall ref :: ref in refs ==> IsLatest(values, ref.bucket, ref.key, ref.version)
  }

  lemma AddKeepsSound(db: DB, e: EntryKey, data: string, refs: seq<Ref>)
    requires Sound(db) && AreLatest(db.values, refs)
    ensures Sound(Add(db, e, data, refs).0)
  {
    if !(e in db.entries && db.entries[e].data == data) {
      var db1 := if e in db.entries then InvalidateByID(db, db.entries[e].id) else db;
      if e in db.entries {
        InvalidateByIDKeepsSound(db, db.entries[e].id);
      }
      NoDepsWithoutEntry(db1, e);
      if Recorded(db1.deps, e, db1.nextID, refs).Some? {
        NewEntryKeepsSound(db1, Add(db, e, data, refs).0, e, data, refs);
      }
    }
  }

  predicate HasRepeated(refs: seq<Ref>) {
    exists i, j :: 0 <= i < j < |refs| && SameTarget(refs[i], refs[j])
  }

  predicate SameTarget(a: Ref, b: Ref) { a.bucket == b.bucket && a.key == b.key }

  predicate RepeatsLast(refs: seq<Ref>)
    requires refs != []
  {
    exists i :: 0 <= i < |refs| - 1 && SameTarget(refs[i], refs[|refs| - 1])
  }

  lemma RepeatedSnoc(refs: seq<Ref>)
    requires refs != []
    ensures HasRepeated(refs) <==> HasRepeated(refs[..|refs| - 1]) || RepeatsLast(refs)
  {
    var n := |refs| - 1;
    if i, j :| 0 <= i < j < n && SameTarget(refs[..n][i], refs[..n][j]) {
      assert SameTarget(refs[i], refs[j]);
    }
    if i, j :| 0 <= i < j < |refs| && SameTarget(refs[i], refs[j]) {
      if j < n {
        assert SameTarget(refs[..n][i], refs[..n][j]);
      }
    }
  }

  lemma RecordedBefore(deps: map<DepKey, Dep>, e: EntryKey, id: nat, refs: seq<Ref>, ref: Ref)
    requires (forall k :: k in deps ==> k.entry != e) && Recorded(deps, e, id, refs).Some?
    ensures DepKey(ref.bucket, ref.key, e) in Recorded(deps, e, id, refs).value <==>
      exists i :: 0 <= i < |refs| && SameTarget(refs[i], ref)
  {
    var deps', k := Recorded(deps, e, id, refs).value, DepKey(ref.bucket, ref.key, e);
    RecordedRows(deps, e, id, refs);
    if k in deps' {
      assert IsRecordOf(k, deps'[k], e, id, refs);
      var i :| 0 <= i < |refs| && refs[i] == Ref(k.bucket, k.key, deps'[k].version);
      assert SameTarget(refs[i], ref);
    }
    if i :| 0 <= i < |refs| && SameTarget(refs[i], ref) {
      assert IsRecorded(deps, deps', e, id, refs[i]);
    }
  }

  /** Recording fails exactly if a dependency is named twice. */
  lemma {:induction false} RecordedIff(deps: map<DepKey, Dep>, e: EntryKey, id: nat, refs: seq<Ref>)
    requires forall k :: k in deps ==> k.entry != e
    ensures Recorded(deps, e, id, refs).None? <==> HasRepeated(refs)
  {
    if refs != [] {
      var n := |refs| - 1;
      RecordedIff(deps, e, id, refs[..n]);
      RepeatedSnoc(refs);
      if Recorded(deps, e, id, refs[..n]).Some? {
        RecordedBefore(deps, e, id, refs[..n], refs[n]);
        assert forall i :: 0 <= i < n ==> refs[..n][i] == refs[i];
      }
    }
  }

  /** The entry is the only thing that has changed: it has the data and an ID of its own, and exactly the dependencies
      named. */
  ghost predicate Adds(db: DB, db': DB, e: EntryKey, data: string, refs: seq<Ref>) {
    && db'.entries == db.entries[e := Entry(db.nextID, data)] && db'.nextID == db.nextID + 1
    && db'.values == db.values && db'.nextVersion == db.nextVersion
    && (forall k: DepKey :: k.entry != e ==> (k in db'.deps <==> k in db.deps))
    && (forall k :: k in db.deps && k.entry != e ==> db'.deps[k] == db.deps[k])
    && (forall k :: k in db'.deps && k.entry == e ==> IsRecordOf(k, db'.deps[k], e, db.nextID, refs))
    && (forall ref :: ref in refs ==> IsTracked(db', e, ref))
  }

  /** Adding unchanged data does nothing; naming a dependency twice removes the old entry and adds nothing; otherwise
      the entry is added. */
  lemma AddIsExact(db: DB, e: EntryKey, data: string, refs: seq<Ref>)
    requires Sound(db)
    ensures
      var (db', id) := Add(db, e, data, refs);
      if e in db.entries && db.entries[e].data == data then db' == db && id == Some(db.entries[e].id)
      else if HasRepeated(refs) then id == None && Drops(db, db', {e})
      else id == Some(db.nextID) && Adds(db, db', e, data, refs)
  {
    if !(e in db.entries && db.entries[e].data == data) {
      var db1 := if e in db.entries then InvalidateByID(db, db.entries[e].id) else db;
      OldEntryIsGone(db, e);
      RecordedIff(db1.deps, e, db1.nextID, refs);
      if !HasRepeated(refs) {
        AddedRows(db, db1, Add(db, e, data, refs).0, e, data, refs);
      }
    }
  }

  lemma OldEntryIsGone(db: DB, e: EntryKey)
    requires Sound(db)
    ensures
      var db1 := if e in db.entries then InvalidateByID(db, db.entries[e].id) else db;
      Drops(db, db1, {e})
  {
    if e in db.entries {
      InvalidateByIDKeepsSound(db, db.entries[e].id);
      forall other | other in db.entries ensures db.entries[other].id == db.entries[e].id <==> other == e {
        assert EntriesApart(db, other, e);
      }
      assert WithID(db, db.entries[e].id) == {e};
    } else {
      NoDepsWithoutEntry(db, e);
    }
  }

  lemma AddedRows(db: DB, db1: DB, db': DB, e: EntryKey, data: string, refs: seq<Ref>)
    requires Drops(db, db1, {e}) && Recorded(db1.deps, e, db1.nextID, refs).Some?
    requires db' == db1.(entries := db1.entries[e := Entry(db1.nextID, data)], nextID := db1.nextID + 1,
                         deps := Recorded(db1.deps, e, db1.nextID, refs).value)
    ensures Adds(db, db', e, data, refs)
  {
    RecordedRows(db1.deps, e, db1.nextID, refs);
    assert forall k :: k in db1.deps ==> DepStays(db, db1, {e}, k);
    assert forall k :: k in db.deps ==> DepStays(db, db1, {e}, k);
    assert forall other :: other in db.entries ==> EntryStays(db, db1, {e}, other);
    assert forall other :: other in db1.entries ==> EntryStays(db, db1, {e}, other);
    forall ref | ref in refs ensures IsTracked(db', e, ref) {
      var i :| 0 <= i < |refs| && refs[i] == ref;
      assert IsRecorded(db1.deps, db'.deps, e, db1.nextID, refs[i]);
    }
    forall k | k in db'.deps && k !in db1.deps ensures k.entry == e {
      assert IsRecordOf(k, db'.deps[k], e, db1.nextID, refs);
    }
    forall k | k in db'.deps && k.entry == e ensures IsRecordOf(k, db'.deps[k], e, db.nextID, refs) {
      assert k !in db1.deps;
    }
  }

  lemma NoDepsWithoutEntry(db: DB, e: EntryKey)
    requires Sound(db) && e !in db.entries
    ensures forall k :: k in db.deps ==> k.entry != e
  {
    forall k | k in db.deps ensures k.entry != e {
      assert DepFits(db, k);
    }
  }

  lemma NewEntryKeepsSound(db: DB, db': DB, e: EntryKey, data: string, refs: seq<Ref>)
    requires Sound(db) && e !in db.entries && AreLatest(db.values, refs)
    requires Recorded(db.deps, e, db.nextID, refs) == Some(db'.deps)
    requires db'.entries == db.entries[e := Entry(db.nextID, data)]
    requires db'.nextID == db.nextID + 1 && db'.values == db.values
    ensures Sound(db')
  {
    RecordedRows(db.deps, e, db.nextID, refs);
    forall k ensures DepFits(db', k) {
      assert DepFits(db, k);
      if k in db'.deps && k !in db.deps {
        assert IsRecordOf(k, db'.deps[k], e, db.nextID, refs);
      }
    }
    forall a, b ensures EntriesApart(db', a, b) {
      assert EntriesApart(db, a, b) && EntriesApart(db, a, a) && EntriesApart(db, b, b);
    }
  }

  // ---------------------------------------------------------------- any run

  datatype Call =
    | CallAdd(entry: EntryKey, data: string, refs: seq<Ref>)
    | CallInvalidate(entry: EntryKey)
    | CallInvalidateByID(id: nat)
    | CallCreateValue(bucket: string, key: string, keyVersion: nat, value: string, accepted: bool)
    | CallDeleteValue(bucket: string, key: string)
    | CallDeleteKey(key: string)
    | CallDeleteBucket(bucket: string)

  function Perform(db: DB, call: Call): DB {
    match call
    case CallAdd(e, data, refs) => Add(db, e, data, refs).0
    case CallInvalidate(e) => InvalidateEntry(db, e)
    case CallInvalidateByID(id) => InvalidateByID(db, id)
    case CallCreateValue(bucket, key, keyVersion, value, accepted) =>
      CreateValue(db, bucket, key, keyVersion, value, accepted)
    case CallDeleteValue(bucket, key) => DeleteValue(db, bucket, key)
    case CallDeleteKey(key) => DeleteKey(db, key)
    case CallDeleteBucket(bucket) => DeleteBucket(db, bucket)
  }

  function Run(calls: seq<Call>): DB {
    if calls == [] then EMPTY else Perform(Run(calls[..|calls| - 1]), calls[|calls| - 1])
  }

  /** Whenever an entry is added, it was computed from the latest values. */
  predicate HonestAt(calls: seq<Call>, i: nat) {
    i < |calls| && calls[i].CallAdd? ==> AreLatest(Run(calls[..i]).values, calls[i].refs)
  }

  lemma PerformKeepsSound(db: DB, call: Call)
    requires Sound(db) && (call.CallAdd? ==> AreLatest(db.values, call.refs))
    ensures Sound(Perform(db, call))
  {
    match call
    case CallAdd(e, data, refs) => AddKeepsSound(db, e, data, refs);
    case CallInvalidate(e) => InvalidateEntryKeepsSound(db, e);
    case CallInvalidateByID(id) => InvalidateByIDKeepsSound(db, id);
    case CallCreateValue(bucket, key, keyVersion, value, accepted) =>
      CreateKeepsSound(db, bucket, key, keyVersion, value, accepted);
    case CallDeleteValue(bucket, key) => DeleteKeepsSound(db, Some(bucket), Some(key));
    case CallDeleteKey(key) => DeleteKeepsSound(db, None, Some(key));
    case CallDeleteBucket(bucket) => DeleteKeepsSound(db, Some(bucket), None);
  }

  /** After any run no cached entry outlives a value it depends on: every recorded dependency is on the latest value
      and belongs to an existing entry. */
  lemma {:induction false} CacheStaysSound(calls: seq<Call>)
    requires forall i :: HonestAt(calls, i)
    ensures Sound(Run(calls))
  {
    if calls != [] {
      var n := |calls| - 1;
      forall i: nat ensures HonestAt(calls[..n], i) {
        assert HonestAt(calls, i);
        if i < n {
          assert calls[..n][..i] == calls[..i];
        }
      }
      CacheStaysSound(calls[..n]);
      assert HonestAt(calls, n);
      PerformKeepsSound(Run(calls[..n]), calls[n]);
    }
  }

  /** The entry is dropped by a change of a value exactly if this value is among its recorded dependencies. */
  lemma ChangeDropsDependents(db: DB, bucket: string, key: string, keyVersion: nat, value: string, e: EntryKey)
    requires Sound(db) && e in db.entries
    requires
      var v := LatestValue(db.values, bucket, key);
      v.None? || v.value.keyVersion != keyVersion || v.value.value != value
    ensures e !in CreateValue(db, bucket, key, keyVersion, value, true).entries <==> DepKey(bucket, key, e) in db.deps
  {
    var v := Value(bucket, key, keyVersion, value, db.nextVersion);
    var sel := ByBucketAndKey(bucket, key);
    InvalidateIgnoresValues(db, sel, db.values + [v], db.nextVersion + 1);
    assert CreateValue(db, bucket, key, keyVersion, value, true).entries == Invalidate(db, sel).entries;
    DroppedIfDependent(db, bucket, key, e);
  }

  lemma DroppedIfDependent(db: DB, bucket: string, key: string, e: EntryKey)
    requires Sound(db) && e in db.entries
    ensures e !in Invalidate(db, ByBucketAndKey(bucket, key)).entries <==> DepKey(bucket, key, e) in db.deps
  {
    var sel := ByBucketAndKey(bucket, key);
    var ids, id := MatchingIDs(db.deps, sel), db.entries[e].id;
    var k := DepKey(bucket, key, e);
    assert DepFits(db, k);
    assert k in db.deps ==> sel.Matches(k, db.deps[k]) && id in ids;
    if id in ids {
      var j :| j in db.deps && sel.Matches(j, db.deps[j]) && db.deps[j].cacheID == id;
      assert DepFits(db, j) && EntriesApart(db, e, j.entry);
      assert j == k;
    }
  }

  /** What an addition tracks: the given dependencies, exactly if the entry is new or its data has changed, or they were
      tracked already.  Adding the same data again with other dependencies does not track those. */
  lemma AddTracksNewDependencies(db: DB, e: EntryKey, data: string, refs: seq<Ref>, ref: Ref)
    requires Sound(db) && ref in refs && Add(db, e, data, refs).1.Some?
    ensures DepKey(ref.bucket, ref.key, e) in Add(db, e, data, refs).0.deps <==>
      !(e in db.entries && db.entries[e].data == data) || DepKey(ref.bucket, ref.key, e) in db.deps
  {
    if !(e in db.entries && db.entries[e].data == data) {
      var db1 := if e in db.entries then InvalidateByID(db, db.entries[e].id) else db;
      RecordedRows(db1.deps, e, db1.nextID, refs);
      var i :| 0 <= i < |refs| && refs[i] == ref;
      assert IsRecorded(db1.deps, Add(db, e, data, refs).0.deps, e, db1.nextID, refs[i]);
    }
  }

  // ---------------------------------------------------------------- what entries were computed from

  /** The dependencies named when each entry was last added. */
  function Given(calls: seq<Call>): map<EntryKey, seq<Ref>> {
    if calls == [] then map[]
    else
      var n := |calls| - 1;
      var given, call := Given(calls[..n]), calls[n];
      if call.CallAdd? && Add(Run(calls[..n]), call.entry, call.data, call.refs).1.Some?
      then given[call.entry := call.refs] else given
  }

  predicate IsTracked(db: DB, e: EntryKey, ref: Ref) {
    var k := DepKey(ref.bucket, ref.key, e);
    k in db.deps && db.deps[k].version == ref.version
  }

  predicate AreTracked(db: DB, e: EntryKey, refs: seq<Ref>) { forall ref :: ref in refs ==> IsTracked(db, e, ref) }

  /** Adding unchanged data again names only dependencies that are tracked. */
  predicate NamesTracked(db: DB, call: Call) {
    call.CallAdd? && call.entry in db.entries && db.entries[call.entry].data == call.data ==>
      forall ref :: ref in call.refs ==> DepKey(ref.bucket, ref.key, call.entry) in db.deps
  }

  predicate NamesTrackedAt(calls: seq<Call>, i: nat) { i < |calls| ==> NamesTracked(Run(calls[..i]), calls[i]) }

  ghost predicate GivenAreTracked(db: DB, given: map<EntryKey, seq<Ref>>) {
    forall e :: e in db.entries ==> e in given && AreTracked(db, e, given[e])
  }

  /** Entries that survive keep their dependencies. */
  ghost predicate KeepsTracks(db: DB, db': DB) {
    && (forall e :: e in db'.entries ==> e in db.entries)
    && (forall k :: k in db.deps && k.entry in db'.entries ==> k in db'.deps && db'.deps[k] == db.deps[k])
  }

  lemma KeepsGiven(db: DB, db': DB, given: map<EntryKey, seq<Ref>>)
    requires GivenAreTracked(db, given) && KeepsTracks(db, db')
    ensures GivenAreTracked(db', given)
  {
    forall e | e in db'.entries ensures e in given && AreTracked(db', e, given[e]) {
      forall ref | ref in given[e] ensures IsTracked(db', e, ref) {
        assert IsTracked(db, e, ref);
      }
    }
  }

  lemma InvalidateKeepsTracks(db: DB, sel: Selector)
    requires Sound(db)
    ensures KeepsTracks(db, Invalidate(db, sel))
  {
    InvalidateIsExact(db, sel);
  }

  lemma InvalidateByIDKeepsTracks(db: DB, id: nat)
    requires Sound(db)
    ensures KeepsTracks(db, InvalidateByID(db, id))
  {
    InvalidateKeepsTracks(db, ByCacheID(id));
  }

  /** Every call except an addition. */
  lemma PerformKeepsTracks(db: DB, call: Call)
    requires Sound(db) && !call.CallAdd?
    ensures KeepsTracks(db, Perform(db, call))
  {
    match call
    case CallInvalidate(e) => InvalidateKeepsTracks(db, ByEntry(e));
    case CallInvalidateByID(id) => InvalidateByIDKeepsTracks(db, id);
    case CallCreateValue(bucket, key, keyVersion, value, accepted) =>
      var values := db.values + [Value(bucket, key, keyVersion, value, db.nextVersion)];
      InvalidateIgnoresValues(db, ByBucketAndKey(bucket, key), values, db.nextVersion + 1);
      InvalidateKeepsTracks(db, ByBucketAndKey(bucket, key));
    case CallDeleteValue(bucket, key) => InvalidateKeepsTracks(db, ByBucketAndKey(bucket, key));
    case CallDeleteKey(key) => InvalidateKeepsTracks(db, ByKey(key));
    case CallDeleteBucket(bucket) => InvalidateKeepsTracks(db, ByBucket(bucket));
  }

  lemma AddKeepsGiven(db: DB, e: EntryKey, data: string, refs: seq<Ref>, given: map<EntryKey, seq<Ref>>)
    requires Sound(db) && AreLatest(db.values, refs)
    requires NamesTracked(db, CallAdd(e, data, refs)) && GivenAreTracked(db, given)
    ensures GivenAreTracked(Add(db, e, data, refs).0,
                            if Add(db, e, data, refs).1.Some? then given[e := refs] else given)
  {
    if e in db.entries && db.entries[e].data == data {
      forall ref | ref in refs ensures IsTracked(db, e, ref) {
        assert DepFits(db, DepKey(ref.bucket, ref.key, e));
      }
    } else {
      var db1 := if e in db.entries then InvalidateByID(db, db.entries[e].id) else db;
      if e in db.entries {
        InvalidateByIDKeepsTracks(db, db.entries[e].id);
      }
      KeepsGiven(db, db1, given);
      if Add(db, e, data, refs).1.Some? {
        NewEntryIsTracked(db1, Add(db, e, data, refs).0, e, data, refs, given);
      }
    }
  }

  lemma NewEntryIsTracked(db: DB, db': DB, e: EntryKey, data: string, refs: seq<Ref>, given: map<EntryKey, seq<Ref>>)
    requires GivenAreTracked(db, given) && Recorded(db.deps, e, db.nextID, refs) == Some(db'.deps)
    requires db'.entries == db.entries[e := Entry(db.nextID, data)]
    ensures GivenAreTracked(db', given[e := refs])
  {
    RecordedRows(db.deps, e, db.nextID, refs);
    forall other | other in db'.entries ensures AreTracked(db', other, given[e := refs][other]) {
      forall ref | ref in given[e := refs][other] ensures IsTracked(db', other, ref) {
        if other == e {
          var i :| 0 <= i < |refs| && refs[i] == ref;
          assert IsRecorded(db.deps, db'.deps, e, db.nextID, refs[i]);
        } else {
          assert IsTracked(db, other, ref);
        }
      }
    }
  }

  lemma HonestBefore(calls: seq<Call>, n: nat)
    requires (forall i :: HonestAt(calls, i) && NamesTrackedAt(calls, i)) && n <= |calls|
    ensures forall i :: HonestAt(calls[..n], i) && NamesTrackedAt(calls[..n], i)
  {
    forall i: nat ensures HonestAt(calls[..n], i) && NamesTrackedAt(calls[..n], i) {
      assert HonestAt(calls, i) && NamesTrackedAt(calls, i);
      if i < n {
        assert calls[..n][..i] == calls[..i];
      }
    }
  }

  lemma {:induction false} GivenStayTracked(calls: seq<Call>)
    requires forall i :: HonestAt(calls, i) && NamesTrackedAt(calls, i)
    ensures Sound(Run(calls)) && GivenAreTracked(Run(calls), Given(calls))
  {
    if calls == [] {
    } else {
      CacheStaysSound(calls);
      var n := |calls| - 1;
      HonestBefore(calls, n);
      GivenStayTracked(calls[..n]);
      assert HonestAt(calls, n) && NamesTrackedAt(calls, n);
      NextIsTracked(Run(calls[..n]), calls[n], Given(calls[..n]));
    }
  }

  lemma NextIsTracked(db: DB, call: Call, given: map<EntryKey, seq<Ref>>)
    requires Sound(db) && GivenAreTracked(db, given) && NamesTracked(db, call)
    requires call.CallAdd? ==> AreLatest(db.values, call.refs)
    ensures GivenAreTracked(Perform(db, call),
      if call.CallAdd? && Add(db, call.entry, call.data, call.refs).1.Some? then given[call.entry := call.refs]
      else given)
  {
    if call.CallAdd? {
      AddKeepsGiven(db, call.entry, call.data, call.refs, given);
    } else {
      PerformKeepsTracks(db, call);
      KeepsGiven(db, Perform(db, call), given);
    }
  }

  /** After any run, whatever an entry was last said to depend on still has the value it had then, provided that adding
      unchanged data again names only tracked dependencies: no entry in the cache is stale. */
  lemma EntriesAreNeverStale(calls: seq<Call>, e: EntryKey)
    requires forall i :: HonestAt(calls, i) && NamesTrackedAt(calls, i)
    requires e in Run(calls).entries
    ensures e in Given(calls) && AreLatest(Run(calls).values, Given(calls)[e])
  {
    GivenStayTracked(calls);
    var db := Run(calls);
    forall ref | ref in Given(calls)[e] ensures IsLatest(db.values, ref.bucket, ref.key, ref.version) {
      assert IsTracked(db, e, ref) && DepFits(db, DepKey(ref.bucket, ref.key, e));
    }
  }

  /** For example: an entry added again with a dependency outlives that dependency. */
  lemma UntrackedDependencyGoesStale(e: EntryKey, data: string, bucket: string, key: string, old_: string, new_: string)
    requires old_ != new_
    ensures
      var db := CreateValue(EMPTY, bucket, key, 1, old_, true);
      var db1 := Add(db, e, data, []).0;
      var db2 := Add(db1, e, data, [Ref(bucket, key, 1)]).0;
      var db3 := CreateValue(db2, bucket, key, 1, new_, true);
      && AreLatest(db1.values, [Ref(bucket, key, 1)]) && !AreLatest(db3.values, [Ref(bucket, key, 1)])
      && e in db3.entries && db3.entries[e] == db2.entries[e]
  {
    var v, v' := Value(bucket, key, 1, old_, 1), Value(bucket, key, 1, new_, 2);
    var db := CreateValue(EMPTY, bucket, key, 1, old_, true);
    assert MatchingIDs(EMPTY.deps, ByBucketAndKey(bucket, key)) == {};
    assert db.values == [v] && db.nextVersion == 2 && db.entries == map[] && db.deps == map[] && db.nextID == 1;
    var db1 := Add(db, e, data, []).0;
    assert db1 == DB([v], 2, map[e := Entry(1, data)], 2, map[]);
    assert MatchingIDs(db1.deps, ByBucketAndKey(bucket, key)) == {};
    assert [v, v'][..1] == [v] && [v] + [v'] == [v, v'];
    assert LatestValue([v], bucket, key) == Some(v) && LatestValue([v, v'], bucket, key) == Some(v');
    assert Ref(bucket, key, 1) in [Ref(bucket, key, 1)];
  }
}
