/** The per-kind index over a resource list (`pkg/reconciler/kubernetes/resource.go`). */
module ResourceIndex {
  import opened Model

  class Unstructured {
    var kind: string
    var name: string
    var namespace: string
    var apiVersion: string

    constructor (kind: string, name: string, namespace: string, apiVersion: string)
      ensures this.kind == kind && this.name == name && this.namespace == namespace && this.apiVersion == apiVersion
    {
      this.kind, this.name, this.namespace, this.apiVersion := kind, name, namespace, apiVersion;
    }
  }

  function LowerChar(c: char): char { if 'A' <= c <= 'Z' then (c as int + 32) as char else c }

  function Lower(s: string): string { seq(|s|, i requires 0 <= i < |s| => LowerChar(s[i])) }

  predicate SameResource(a: Unstructured, b: Unstructured)
    reads a, b
  {
    a.name == b.name && a.namespace == b.namespace && a.kind == b.kind
  }

  /** The scan an index entry has to agree with. */
  function OfKind(s: seq<Unstructured>, k: string): (r: seq<Unstructured>)
    reads s
  {
    if s == [] then []
    else if Lower(s[0].kind) == k then [s[0]] + OfKind(s[1..], k)
    else OfKind(s[1..], k)
  }

  function RemoveFirst(s: seq<Unstructured>, u: Unstructured): (r: seq<Unstructured>)
    reads s, u
  {
    if s == [] then [] else if SameResource(s[0], u) then s[1..] else [s[0]] + RemoveFirst(s[1..], u)
  }

  function ReplaceFirst(s: seq<Unstructured>, u: Unstructured): (r: seq<Unstructured>)
    reads s, u
  {
    if s == [] then [] else if SameResource(s[0], u) then [u] + s[1..] else [s[0]] + ReplaceFirst(s[1..], u)
  }

  predicate IsAsked(u: Unstructured, kind: string, name: string, namespace: string)
    reads u
  {
    u.kind == kind && u.name == name && (u.namespace == "" || u.namespace == namespace)
  }

  function FirstAsked(s: seq<Unstructured>, kind: string, name: string, namespace: string): (r: Option<Unstructured>)
    reads s
  {
    if s == [] then None
    else if IsAsked(s[0], kind, name, namespace) then Some(s[0]) else FirstAsked(s[1..], kind, name, namespace)
  }

  // ---------------------------------------------------------------- filtering commutes with the updates

  lemma {:induction false} OfKindAppend(s: seq<Unstructured>, u: Unstructured, k: string)
    ensures OfKind(s + [u], k) == OfKind(s, k) + (if Lower(u.kind) == k then [u] else [])
  {
    if s != [] {
      OfKindAppend(s[1..], u, k);
      assert (s + [u])[1..] == s[1..] + [u];
    }
  }

  lemma {:induction false} OfKindRemove(s: seq<Unstructured>, u: Unstructured, k: string)
    ensures OfKind(RemoveFirst(s, u), k) == if Lower(u.kind) == k then RemoveFirst(OfKind(s, k), u) else OfKind(s, k)
  {
    if s != [] {
      OfKindRemove(s[1..], u, k);
      var rest := OfKind(s[1..], k);
      if !SameResource(s[0], u) {
        assert ([s[0]] + RemoveFirst(s[1..], u))[1..] == RemoveFirst(s[1..], u);
      }
      if Lower(s[0].kind) == k {
        assert ([s[0]] + rest)[1..] == rest;
      }
    }
  }

  lemma {:induction false} OfKindReplace(s: seq<Unstructured>, u: Unstructured, k: string)
    ensures OfKind(ReplaceFirst(s, u), k) == if Lower(u.kind) == k then ReplaceFirst(OfKind(s, k), u) else OfKind(s, k)
  {
    if s != [] {
      OfKindReplace(s[1..], u, k);
      var rest := OfKind(s[1..], k);
      if SameResource(s[0], u) {
        assert ([u] + s[1..])[1..] == s[1..];
      } else {
        assert ([s[0]] + ReplaceFirst(s[1..], u))[1..] == ReplaceFirst(s[1..], u);
      }
      if Lower(s[0].kind) == k {
        assert ([s[0]] + rest)[1..] == rest;
      }
    }
  }

  /** A lookup in the index finds what a lookup in the whole list finds. */
  lemma {:induction false} LookupAgrees(s: seq<Unstructured>, kind: string, name: string, namespace: string)
    ensures FirstAsked(OfKind(s, Lower(kind)), kind, name, namespace) == FirstAsked(s, kind, name, namespace)
  {
    if s != [] {
      LookupAgrees(s[1..], kind, name, namespace);
      var rest := OfKind(s[1..], Lower(kind));
      if Lower(s[0].kind) == Lower(kind) {
        assert ([s[0]] + rest)[1..] == rest;
      }
    }
  }

  // ---------------------------------------------------------------- what the updates do

  /** The two are about the same resource: kind, name and namespace agree. */
  predicate AreTwins(a: Unstructured, b: Unstructured)
    reads a, b
  {
    (a.kind, a.name, a.namespace) == (b.kind, b.name, b.namespace)
  }

  /** Position `i` holds the first twin of `u`, or is the end if there is none. */
  predicate IsFirstTwin(s: seq<Unstructured>, u: Unstructured, i: nat)
    reads s, u
  {
    i <= |s| && (i < |s| ==> AreTwins(s[i], u)) && forall j :: 0 <= j < i ==> !AreTwins(s[j], u)
  }

  /** Removal takes the first twin out, replacement puts the resource into its place; without a twin nothing happens. */
  lemma FirstTwinGoes(s: seq<Unstructured>, u: Unstructured) returns (i: nat)
    ensures IsFirstTwin(s, u, i)
    ensures RemoveFirst(s, u) == if i < |s| then s[..i] + s[i + 1..] else s
    ensures ReplaceFirst(s, u) == if i < |s| then s[i := u] else s
  {
    i := FirstTwin(s, u);
    RemovesAt(s, u, i);
    ReplacesAt(s, u, i);
  }

  lemma {:induction false} FirstTwin(s: seq<Unstructured>, u: Unstructured) returns (i: nat)
    ensures IsFirstTwin(s, u, i)
  {
    if s == [] || AreTwins(s[0], u) {
      i := 0;
    } else {
      var j := FirstTwin(s[1..], u);
      i := j + 1;
      assert forall k :: 1 <= k < |s| ==> s[k] == s[1..][k - 1];
    }
  }

  lemma TwinOfRest(s: seq<Unstructured>, u: Unstructured, i: nat)
    requires IsFirstTwin(s, u, i) && i > 0
    ensures s != [] && !AreTwins(s[0], u) && IsFirstTwin(s[1..], u, i - 1)
  {
    assert forall k :: 1 <= k < |s| ==> s[k] == s[1..][k - 1];
  }

  lemma {:induction false} RemovesAt(s: seq<Unstructured>, u: Unstructured, i: nat)
    requires IsFirstTwin(s, u, i)
    ensures RemoveFirst(s, u) == if i < |s| then s[..i] + s[i + 1..] else s
  {
    if i > 0 {
      TwinOfRest(s, u, i);
      RemovesAt(s[1..], u, i - 1);
      if i < |s| {
        assert [s[0]] + (s[1..][..i - 1] + s[1..][i..]) == s[..i] + s[i + 1..];
      }
    }
  }

  lemma {:induction false} ReplacesAt(s: seq<Unstructured>, u: Unstructured, i: nat)
    requires IsFirstTwin(s, u, i)
    ensures ReplaceFirst(s, u) == if i < |s| then s[i := u] else s
  {
    if i > 0 {
      TwinOfRest(s, u, i);
      ReplacesAt(s[1..], u, i - 1);
      if i < |s| {
        assert [s[0]] + s[1..][i - 1 := u] == s[i := u];
      }
    }
  }

  ghost predicate NoTwins(s: seq<Unstructured>)
    reads s
  {
    forall i, j :: 0 <= i < j < |s| ==> !AreTwins(s[i], s[j])
  }

  /** Adding never leaves two entries for the same resource. */
  lemma AddKeepsApart(s: seq<Unstructured>, u: Unstructured)
    requires NoTwins(s)
    ensures NoTwins(RemoveFirst(s, u)) && NoTwins(RemoveFirst(s, u) + [u])
  {
    var i := FirstTwinGoes(s, u);
    var r := RemoveFirst(s, u);
    forall j | 0 <= j < |r| ensures !AreTwins(r[j], u) {
      if i < |s| && j >= i {
        assert r[j] == s[j + 1] && !AreTwins(s[i], s[j + 1]);
      }
    }
    forall j, k | 0 <= j < k < |r| ensures !AreTwins(r[j], r[k]) {
      if i < |s| {
        var j', k' := if j < i then j else j + 1, if k < i then k else k + 1;
        assert r[j] == s[j'] && r[k] == s[k'] && !AreTwins(s[j'], s[k']);
      }
    }
  }

  /** A lookup finds the first resource of this kind and name whose namespace is the one asked for, or none at all. */
  lemma {:induction false} FirstAskedIs(s: seq<Unstructured>, kind: string, name: string, namespace: string)
    returns (i: nat)
    ensures i <= |s| && FirstAsked(s, kind, name, namespace) == if i < |s| then Some(s[i]) else None
    ensures i < |s| ==>
      s[i].kind == kind && s[i].name == name && (s[i].namespace == "" || s[i].namespace == namespace)
    ensures forall j :: 0 <= j < i ==>
      s[j].kind != kind || s[j].name != name || (s[j].namespace != "" && s[j].namespace != namespace)
  {
    if s == [] || IsAsked(s[0], kind, name, namespace) {
      i := 0;
    } else {
      var j := FirstAskedIs(s[1..], kind, name, namespace);
      i := j + 1;
      assert forall k :: 1 <= k < |s| ==> s[k] == s[1..][k - 1];
    }
  }

  // ---------------------------------------------------------------- the loops

  method RemoveFromSlice(slc: seq<Unstructured>, u: Unstructured) returns (r: seq<Unstructured>)
    ensures r == RemoveFirst(slc, u)
  {
    var idx := 0;
    while idx < |slc|
      invariant 0 <= idx <= |slc|
      invariant RemoveFirst(slc, u) == slc[..idx] + RemoveFirst(slc[idx..], u)
    {
      assert slc[idx..][1..] == slc[idx + 1..];
      if slc[idx].name == u.name && slc[idx].namespace == u.namespace && slc[idx].kind == u.kind {
        return slc[..idx] + slc[idx + 1..];
      }
      assert slc[..idx] + ([slc[idx]] + RemoveFirst(slc[idx + 1..], u))
        == slc[..idx + 1] + RemoveFirst(slc[idx + 1..], u);
      idx := idx + 1;
    }
    assert slc[..idx] + [] == slc;
    return slc;
  }

  method ReplaceFromSlice(slc: seq<Unstructured>, u: Unstructured) returns (r: seq<Unstructured>)
    ensures r == ReplaceFirst(slc, u)
  {
    r := slc;
    var idx := 0;
    while idx < |slc|
      invariant 0 <= idx <= |slc| && r == slc
      invariant ReplaceFirst(slc, u) == slc[..idx] + ReplaceFirst(slc[idx..], u)
    {
      assert slc[idx..][1..] == slc[idx + 1..];
      if slc[idx].name == u.name && slc[idx].namespace == u.namespace && slc[idx].kind == u.kind {
        r := r[idx := u];
        assert r == slc[..idx] + ([u] + slc[idx + 1..]);
        return;
      }
      assert slc[..idx] + ([slc[idx]] + ReplaceFirst(slc[idx + 1..], u))
        == slc[..idx + 1] + ReplaceFirst(slc[idx + 1..], u);
      idx := idx + 1;
    }
    assert slc[..idx] + [] == slc;
  }

  class ResourceCacheList {
    var resources: seq<Unstructured>
    var cache: map<string, seq<Unstructured>>

    /** An absent key reads as an empty list. */
    function GetKind(k: string): seq<Unstructured>
      reads this
    {
      IndexOf(cache, k)
    }

    /** The index agrees with the scan, for every kind: same objects, same order. */
    ghost predicate Agrees()
      reads this, resources
    {
      IsIndexFor(cache, resources)
    }

    constructor (unstructs: seq<Unstructured>)
      ensures resources == unstructs && Agrees()
    {
      resources, cache := unstructs, map[];
      new;
      var i := 0;
      while i < |unstructs|
        invariant 0 <= i <= |unstructs| && resources == unstructs
        invariant IsIndexFor(cache, unstructs[..i])
      {
        var u := unstructs[i];
        AppendKeepsIndex(cache, cache[Lower(u.kind) := GetKind(Lower(u.kind)) + [u]], unstructs[..i], u);
        assert unstructs[..i + 1] == unstructs[..i] + [u];
        cache := cache[Lower(u.kind) := GetKind(Lower(u.kind)) + [u]];
        i := i + 1;
      }
      assert unstructs[..i] == unstructs;
    }

    method Remove(u: Unstructured)
      requires Agrees()
      modifies this
      ensures Agrees() && resources == RemoveFirst(old(resources), u)
    {
      var kind := Lower(u.kind);
      var remaining := RemoveFromSlice(resources, u);
      var list := RemoveFromSlice(IndexOf(cache, kind), u);
      RemoveKeepsIndex(cache, cache[kind := list], resources, u);
      resources, cache := remaining, cache[kind := list];
    }

    method Replace(u: Unstructured)
      requires Agrees()
      modifies this
      ensures Agrees() && resources == ReplaceFirst(old(resources), u)
    {
      var kind := Lower(u.kind);
      var replaced := ReplaceFromSlice(resources, u);
      var list := ReplaceFromSlice(IndexOf(cache, kind), u);
      ReplaceKeepsIndex(cache, cache[kind := list], resources, u);
      resources, cache := replaced, cache[kind := list];
    }

    /** Adding replaces the resource of the same kind, name and namespace, and puts it last. */
    method Add(u: Unstructured)
      requires Agrees()
      modifies this
      ensures Agrees() && resources == RemoveFirst(old(resources), u) + [u]
    {
      Remove(u);
      var kind := Lower(u.kind);
      AppendKeepsIndex(cache, cache[kind := GetKind(kind) + [u]], resources, u);
      resources, cache := resources + [u], cache[kind := GetKind(kind) + [u]];
    }

    /** Calls back for one resource after the other until a callback fails; `fails` names the first failing call. */
    method Visit(unstructs: seq<Unstructured>, fails: nat) returns (visited: seq<Unstructured>, ok: bool)
      ensures ok <==> |unstructs| <= fails
      ensures visited == if ok then unstructs else unstructs[..fails + 1]
    {
      visited := [];
      for i := 0 to |unstructs|
        invariant visited == unstructs[..i] && i <= fails
      {
        visited := visited + [unstructs[i]];
        if i == fails {
          return visited, false;
        }
      }
      return visited, true;
    }

    /** Visits exactly what a scan filtered by kind would, in the same order, until a callback fails. */
    method VisitByKind(kind: string, fails: nat) returns (visited: seq<Unstructured>, ok: bool)
      requires Agrees()
      ensures
        var scan := OfKind(resources, Lower(kind));
        && (ok <==> |scan| <= fails)
        && visited == if ok then scan else scan[..fails + 1]
    {
      assert IsIndex(cache, resources, Lower(kind));
      visited, ok := Visit(GetKind(Lower(kind)), fails);
    }

    /** Finds the first resource of exactly this kind and name whose namespace fits. */
    method Get(kind: string, name: string, namespace: string) returns (r: Option<Unstructured>)
      requires Agrees()
      ensures r == FirstAsked(resources, kind, name, namespace)
    {
      assert IsIndex(cache, resources, Lower(kind));
      LookupAgrees(resources, kind, name, namespace);
      var list := GetKind(Lower(kind));
      var i := 0;
      while i < |list|
        invariant 0 <= i <= |list|
        invariant FirstAsked(list, kind, name, namespace) == FirstAsked(list[i..], kind, name, namespace)
      {
        assert list[i..][1..] == list[i + 1..];
        if list[i].kind == kind && list[i].name == name && (list[i].namespace == "" || list[i].namespace == namespace) {
          return Some(list[i]);
        }
        i := i + 1;
      }
      return None;
    }
  }

  function IndexOf(cache: map<string, seq<Unstructured>>, k: string): seq<Unstructured> {
    if k in cache then cache[k] else []
  }

  predicate IsIndex(cache: map<string, seq<Unstructured>>, s: seq<Unstructured>, k: string)
    reads s
  {
    IndexOf(cache, k) == OfKind(s, k)
  }

  ghost predicate IsIndexFor(cache: map<string, seq<Unstructured>>, s: seq<Unstructured>)
    reads s
  {
    forall k :: IsIndex(cache, s, k)
  }

  lemma RemoveKeepsIndex(cache: map<string, seq<Unstructured>>, cache': map<string, seq<Unstructured>>,
                         s: seq<Unstructured>, u: Unstructured)
    requires IsIndexFor(cache, s)
    requires cache' == cache[Lower(u.kind) := RemoveFirst(IndexOf(cache, Lower(u.kind)), u)]
    ensures IsIndexFor(cache', RemoveFirst(s, u))
  {
    forall k ensures IsIndex(cache', RemoveFirst(s, u), k) {
      assert IsIndex(cache, s, k);
      OfKindRemove(s, u, k);
    }
  }

  lemma ReplaceKeepsIndex(cache: map<string, seq<Unstructured>>, cache': map<string, seq<Unstructured>>,
                          s: seq<Unstructured>, u: Unstructured)
    requires IsIndexFor(cache, s)
    requires cache' == cache[Lower(u.kind) := ReplaceFirst(IndexOf(cache, Lower(u.kind)), u)]
    ensures IsIndexFor(cache', ReplaceFirst(s, u))
  {
    forall k ensures IsIndex(cache', ReplaceFirst(s, u), k) {
      assert IsIndex(cache, s, k);
      OfKindReplace(s, u, k);
    }
  }

  lemma AppendKeepsIndex(cache: map<string, seq<Unstructured>>, cache': map<string, seq<Unstructured>>,
                         s: seq<Unstructured>, u: Unstructured)
    requires IsIndexFor(cache, s) && cache' == cache[Lower(u.kind) := IndexOf(cache, Lower(u.kind)) + [u]]
    ensures IsIndexFor(cache', s + [u])
  {
    forall k ensures IsIndex(cache', s + [u], k) {
      assert IsIndex(cache, s, k);
      OfKindAppend(s, u, k);
    }
  }

  // ---------------------------------------------------------------- edits in place

  function LowerKinds(s: seq<Unstructured>): (r: seq<string>)
    reads s
    ensures |r| == |s| && forall i :: 0 <= i < |s| ==> r[i] == Lower(s[i].kind)
  {
    seq(|s|, i requires 0 <= i < |s| reads s => Lower(s[i].kind))
  }

  /** The scan, with the kinds as they were at some time. */
  function Filter(s: seq<Unstructured>, kinds: seq<string>, k: string): (r: seq<Unstructured>)
    requires |s| == |kinds|
  {
    if s == [] then []
    else if kinds[0] == k then [s[0]] + Filter(s[1..], kinds[1..], k)
    else Filter(s[1..], kinds[1..], k)
  }

  lemma {:induction false} OfKindIsFilter(s: seq<Unstructured>, k: string)
    ensures OfKind(s, k) == Filter(s, LowerKinds(s), k)
  {
    if s != [] {
      OfKindIsFilter(s[1..], k);
      assert LowerKinds(s)[1..] == LowerKinds(s[1..]);
    }
  }

  lemma {:induction false} FilterMembers(s: seq<Unstructured>, kinds: seq<string>, k: string, u: Unstructured)
    requires |s| == |kinds|
    ensures u in Filter(s, kinds, k) <==> exists i :: 0 <= i < |s| && s[i] == u && kinds[i] == k
  {
    if s != [] {
      FilterMembers(s[1..], kinds[1..], k, u);
      if i :| 0 <= i < |s| && s[i] == u && kinds[i] == k {
        assert i > 0 ==> s[1..][i - 1] == u && kinds[1..][i - 1] == k;
      }
      if i :| 0 <= i < |s| - 1 && s[1..][i] == u && kinds[1..][i] == k {
        assert s[i + 1] == u && kinds[i + 1] == k;
      }
    }
  }

  /** An edit in place keeps the index in agreement exactly if it keeps the lower-case kind of a listed resource. */
  method EditInPlace(list: ResourceCacheList, u: Unstructured, kind: string, name: string, namespace: string)
    requires list.Agrees()
    modifies u
    ensures u.kind == kind && u.name == name && u.namespace == namespace
    ensures list.Agrees() <==> u !in list.resources || Lower(kind) == old(Lower(u.kind))
  {
    ghost var s, kinds, lower := list.resources, LowerKinds(list.resources), Lower(u.kind);
    forall k ensures IndexOf(list.cache, k) == Filter(s, kinds, k) {
      assert IsIndex(list.cache, s, k);
      OfKindIsFilter(s, k);
    }
    u.kind, u.name, u.namespace := kind, name, namespace;
    forall k ensures OfKind(s, k) == Filter(s, LowerKinds(s), k) {
      OfKindIsFilter(s, k);
    }
    if u !in s || Lower(kind) == lower {
      assert LowerKinds(s) == kinds;
    } else {
      var k := Lower(kind);
      FilterMembers(s, kinds, k, u);
      FilterMembers(s, LowerKinds(s), k, u);
      var i :| 0 <= i < |s| && s[i] == u;
      assert u in OfKind(s, k) && u !in IndexOf(list.cache, k);
      assert !IsIndex(list.cache, s, k);
    }
  }
}
