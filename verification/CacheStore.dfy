/** The value and cache repositories as the objects they are, proved against the step functions of `Cache`. */
module CacheStore {
  import opened Model
  import opened Cache

  class Repository {
    var values: seq<Value>
    var nextVersion: nat
    var entries: map<EntryKey, Entry>
    var nextID: nat
    var deps: map<DepKey, Dep>

    constructor ()
      ensures View() == EMPTY
    {
      values, nextVersion, entries, nextID, deps := [], 1, map[], 1, map[];
    }

    ghost function View(): DB
      reads this
    {
      DB(values, nextVersion, entries, nextID, deps)
    }

    /** `cacheIDsCSV`: each cache ID once. */
    method CacheIDs(rows: set<DepKey>) returns (ids: seq<nat>)
      requires rows <= deps.Keys
      ensures forall i, j :: 0 <= i < j < |ids| ==> ids[i] != ids[j]
      ensures forall id :: id in ids <==> exists k :: k in rows && deps[k].cacheID == id
    {
      ids := [];
      var seen: set<nat> := {};
      var todo := rows;
      while todo != {}
        invariant todo <= rows
        invariant forall i, j :: 0 <= i < j < |ids| ==> ids[i] != ids[j]
        invariant forall id :: id in ids <==> id in seen
        invariant forall id :: id in seen <==> exists k :: k in rows - todo && deps[k].cacheID == id
      {
        var k := Pick(todo);
        var id := deps[k].cacheID;
        assert rows - (todo - {k}) == (rows - todo) + {k};
        todo := todo - {k};
        if id in seen {
          continue;
        }
        assert forall i :: 0 <= i < |ids| ==> ids[i] in ids;
        seen := seen + {id};
        ids := ids + [id];
      }
      assert rows - todo == rows;
    }

    /** Deletes entries by ID; the foreign key takes their dependencies along. */
    method DeleteEntries(ids: set<nat>)
      modifies this`entries, this`deps
      ensures View() == DropEntries(old(View()), ids)
    {
      var before := entries;
      entries := map e | e in before && before[e].id !in ids :: before[e];
      deps := map k | k in deps && !(k.entry in before && before[k.entry].id in ids) :: deps[k];
    }

    /** `invalidate.Exec` */
    method InvalidateBy(sel: Selector)
      modifies this`entries, this`deps
      ensures View() == Cache.Invalidate(old(View()), sel)
    {
      var rows := set k | k in deps && sel.Matches(k, deps[k]);
      if rows == {} {
        forall k | k in deps ensures !sel.Matches(k, deps[k]) {
          assert k !in rows;
        }
        NothingMatches(View(), sel);
        return;
      }
      var ids := CacheIDs(rows);
      var gone := set id | id in ids;
      assert gone == MatchingIDs(deps, sel);
      DeleteEntries(gone);
      deps := map k | k in deps && deps[k].cacheID !in gone :: deps[k];
    }

    /** `record.Exec`: all rows or none. */
    method Record(e: EntryKey, id: nat, refs: seq<Ref>) returns (ok: bool)
      modifies this`deps
      ensures ok <==> Recorded(old(deps), e, id, refs).Some?
      ensures deps == if ok then Recorded(old(deps), e, id, refs).value else old(deps)
    {
      var before := deps;
      var i := 0;
      while i < |refs|
        invariant 0 <= i <= |refs|
        invariant Recorded(before, e, id, refs[..i]) == Some(deps)
      {
        var k := DepKey(refs[i].bucket, refs[i].key, e);
        assert refs[..i + 1][..i] == refs[..i];
        if k in deps {
          RecordedFails(before, e, id, refs, i + 1);
          deps := before;
          return false;
        }
        deps := deps[k := Dep(id, refs[i].version)];
        i := i + 1;
      }
      assert refs[..i] == refs;
      return true;
    }

    method InvalidateByID(id: nat)
      modifies this`entries, this`deps
      ensures View() == Cache.InvalidateByID(old(View()), id)
      ensures old(Sound(View())) ==>
        Drops(old(View()), View(), set e | e in old(entries) && old(entries)[e].id == id)
    {
      ghost var before := View();
      if Sound(before) {
        InvalidateByIDKeepsSound(before, id);
      }
      InvalidateBy(ByCacheID(id));
      DeleteEntries({id});
    }

    method Invalidate(e: EntryKey)
      modifies this`entries, this`deps
      ensures View() == InvalidateEntry(old(View()), e)
      ensures old(Sound(View())) ==> Drops(old(View()), View(), {e})
    {
      if Sound(View()) {
        InvalidateEntryKeepsSound(View(), e);
      }
      InvalidateBy(ByEntry(e));
      if e in entries {
        DeleteEntries({entries[e].id});
      }
    }

    /** Adding the latest results keeps the cache sound; an entry that could not be recorded is not there. */
    method Add(e: EntryKey, data: string, refs: seq<Ref>) returns (id: Option<nat>)
      modifies this
      ensures (View(), id) == Cache.Add(old(View()), e, data, refs)
      ensures old(Sound(View())) && AreLatest(old(values), refs) ==> Sound(View())
      ensures id.Some? ==> e in entries && entries[e] == Entry(id.value, data)
      ensures
        var kept := e in old(entries) && old(entries)[e].data == data;
        old(Sound(View())) && !kept && !HasRepeated(refs) ==> Adds(old(View()), View(), e, data, refs)
    {
      ghost var before := View();
      if Sound(before) {
        AddIsExact(before, e, data, refs);
      }
      if Sound(before) && AreLatest(values, refs) {
        AddKeepsSound(before, e, data, refs);
      }
      if e in entries {
        if entries[e].data == data {
          return Some(entries[e].id);
        }
        InvalidateByID(entries[e].id);
      }
      id := Some(nextID);
      var ok := Record(e, nextID, refs);
      if !ok {
        return None;
      }
      entries := entries[e := Entry(nextID, data)];
      nextID := nextID + 1;
    }

    /** A new value invalidates what was computed from the old one. */
    method CreateValue(bucket: string, key: string, keyVersion: nat, value: string, accepted: bool)
      modifies this
      ensures View() == Cache.CreateValue(old(View()), bucket, key, keyVersion, value, accepted)
      ensures old(Sound(View())) ==> Sound(View())
      ensures
        var v := LatestValue(old(values), bucket, key);
        var isNew := v.None? || v.value.keyVersion != keyVersion || v.value.value != value;
        old(Sound(View())) && accepted && isNew ==> Stores(old(View()), View(), bucket, key, keyVersion, value)
    {
      if Sound(View()) {
        CreateKeepsSound(View(), bucket, key, keyVersion, value, accepted);
        CreateValueStores(View(), bucket, key, keyVersion, value, accepted);
      }
      var existing := LatestValue(values, bucket, key);
      if existing.Some? && existing.value.keyVersion == keyVersion && existing.value.value == value {
        return;
      }
      if !accepted {
        return;
      }
      values := values + [Value(bucket, key, keyVersion, value, nextVersion)];
      nextVersion := nextVersion + 1;
      InvalidateBy(ByBucketAndKey(bucket, key));
    }

    method DeleteValue(bucket: string, key: string)
      modifies this
      ensures View() == Cache.DeleteValue(old(View()), bucket, key)
      ensures old(Sound(View())) ==> Sound(View()) && Forgets(old(View()), View(), Some(bucket), Some(key))
    {
      if Sound(View()) {
        DeleteKeepsSound(View(), Some(bucket), Some(key));
        DeleteValueForgets(View(), bucket, key);
      }
      InvalidateBy(ByBucketAndKey(bucket, key));
      values := Without(values, Some(bucket), Some(key));
    }

    method DeleteKey(key: string)
      modifies this
      ensures View() == Cache.DeleteKey(old(View()), key)
      ensures old(Sound(View())) ==> Sound(View()) && Forgets(old(View()), View(), None, Some(key))
    {
      if Sound(View()) {
        DeleteKeepsSound(View(), None, Some(key));
        DeleteKeyForgets(View(), key);
      }
      InvalidateBy(ByKey(key));
      values := Without(values, None, Some(key));
    }

    method DeleteBucket(bucket: string)
      modifies this
      ensures View() == Cache.DeleteBucket(old(View()), bucket)
      ensures old(Sound(View())) ==> Sound(View()) && Forgets(old(View()), View(), Some(bucket), None)
    {
      if Sound(View()) {
        DeleteKeepsSound(View(), Some(bucket), None);
        DeleteBucketForgets(View(), bucket);
      }
      InvalidateBy(ByBucket(bucket));
      values := Without(values, Some(bucket), None);
    }
  }

  lemma NothingMatches(db: DB, sel: Selector)
    requires forall k :: k in db.deps ==> !sel.Matches(k, db.deps[k])
    ensures Cache.Invalidate(db, sel) == db
  {
    assert MatchingIDs(db.deps, sel) == {};
    assert DropEntries(db, {}) == db;
  }

  lemma {:induction false} RecordedFails(deps: map<DepKey, Dep>, e: EntryKey, id: nat, refs: seq<Ref>, i: nat)
    requires i <= |refs| && Recorded(deps, e, id, refs[..i]).None?
    ensures Recorded(deps, e, id, refs).None?
    decreases |refs|
  {
    if i < |refs| {
      var n := |refs| - 1;
      assert refs[..n][..i] == refs[..i];
      RecordedFails(deps, e, id, refs[..n], i);
    } else {
      assert refs[..i] == refs;
    }
  }
}
