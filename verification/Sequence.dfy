/** The order in which the components of a cluster are processed (`pkg/model/clusterconfigentity.go`). */
module Sequence {
  import opened Model

  const CRD_COMPONENT := "CRDs"
  const CLEANUP_COMPONENT := "cleaner"
  const DELETE_STRATEGY_KEY := "delete_strategy"
  const CRDS := Component(CRD_COMPONENT, "default", [])

  // ---------------------------------------------------------------- specification

  /** The component a name stands for: the last one listed under it. */
  function ByName(components: seq<Component>): (m: map<string, Component>)
    ensures forall n :: n in m ==> m[n].name == n && m[n] in components
    ensures forall c :: c in components ==> c.name in m
  {
    if components == [] then map[]
    else
      var c := components[|components| - 1];
      ByName(components[..|components| - 1])[c.name := c]
  }

  lemma {:induction false} LastOneCounts(components: seq<Component>, i: nat)
    requires i < |components| && forall j :: i < j < |components| ==> components[j].name != components[i].name
    ensures components[i].name in ByName(components) && ByName(components)[components[i].name] == components[i]
  {
    var n := |components| - 1;
    var front, last, name := components[..n], components[n], components[i].name;
    ByNameSnoc(front, last, components);
    if i < n {
      assert front[i] == components[i];
      forall j | i < j < n ensures front[j].name != name {
        assert front[j] == components[j];
      }
      LastOneCounts(front, i);
    }
  }

  lemma ByNameSnoc(front: seq<Component>, last: Component, components: seq<Component>)
    requires components != [] && front == components[..|components| - 1] && last == components[|components| - 1]
    ensures ByName(components) == ByName(front)[last.name := last]
  {
  }

  /** The first pre-component group that mentions a name; `|pre|` when none does. */
  function Rank(pre: seq<seq<string>>, name: string): (r: nat)
    ensures r <= |pre|
    ensures r < |pre| ==> name in pre[r]
    ensures forall i :: 0 <= i < r ==> name !in pre[i]
  {
    if pre == [] then 0
    else if name in pre[0] then 0
    else 1 + Rank(pre[1..], name)
  }

  /** `group` holds exactly the components of rank `rank`, each once. */
  ghost predicate IsGroup(group: seq<Component>, comps: map<string, Component>, pre: seq<seq<string>>, rank: nat) {
    && group != []
    && (forall i, j :: 0 <= i < j < |group| ==> group[i].name != group[j].name)
    && (forall c :: c in group <==> c.name in comps && comps[c.name] == c && Rank(pre, c.name) == rank)
  }

  /** The groups are those of the ranks in use, in increasing order. */
  ghost predicate IsQueue(queue: seq<seq<Component>>, ranks: seq<nat>, comps: map<string, Component>,
                          pre: seq<seq<string>>) {
    && |queue| == |ranks|
    && (forall i, j :: 0 <= i < j < |ranks| ==> ranks[i] < ranks[j])
    && (forall i :: 0 <= i < |queue| ==> IsGroup(queue[i], comps, pre, ranks[i]))
    && (forall n :: n in comps ==> Rank(pre, n) in ranks)
  }

  /** Number of artificial groups at the front: the CRDs, and the cleaner in a deletion. */
  function HeaderLength(status: Status): nat { if status.IsDeletionInProgress() then 2 else 1 }

  ghost predicate IsSequence(queue: seq<seq<Component>>, components: seq<Component>, pre: seq<seq<string>>,
                             status: Status)
  {
    var h := HeaderLength(status);
    && |queue| >= h
    && queue[0] == [CRDS]
    && (status.IsDeletionInProgress() ==> |queue[1]| == 1 && queue[1][0].name == CLEANUP_COMPONENT)
    && exists ranks :: IsQueue(queue[h..], ranks, ByName(components), pre)
  }

  // ---------------------------------------------------------------- what a sequence promises

  /** Every configured component is processed, and none is processed twice. */
  lemma EachComponentOnce(queue: seq<seq<Component>>, ranks: seq<nat>, components: seq<Component>,
                          pre: seq<seq<string>>)
    requires IsQueue(queue, ranks, ByName(components), pre)
    ensures forall c :: c in components ==>
      exists i, j :: 0 <= i < |queue| && 0 <= j < |queue[i]| && queue[i][j].name == c.name
    ensures forall i, j, k, l ::
      (0 <= i < |queue| && 0 <= j < |queue[i]| && 0 <= k < |queue| && 0 <= l < |queue[k]|
       && queue[i][j].name == queue[k][l].name) ==> i == k && j == l
    ensures forall i, j :: 0 <= i < |queue| && 0 <= j < |queue[i]| ==> queue[i][j] in components
  {
    var m := ByName(components);
    forall c | c in components
      ensures exists i, j :: 0 <= i < |queue| && 0 <= j < |queue[i]| && queue[i][j].name == c.name
    {
      var i :| 0 <= i < |ranks| && ranks[i] == Rank(pre, c.name);
      assert IsGroup(queue[i], m, pre, ranks[i]);
      assert m[c.name] in queue[i];
      var j :| 0 <= j < |queue[i]| && queue[i][j] == m[c.name];
    }
    forall i, j | 0 <= i < |queue| && 0 <= j < |queue[i]|
      ensures Rank(pre, queue[i][j].name) == ranks[i] && queue[i][j] in components
    {
      assert IsGroup(queue[i], m, pre, ranks[i]);
      assert queue[i][j] in queue[i];
    }
    forall i, j, k, l |
      0 <= i < |queue| && 0 <= j < |queue[i]| && 0 <= k < |queue| && 0 <= l < |queue[k]|
      && queue[i][j].name == queue[k][l].name
      ensures i == k && j == l
    {
      assert ranks[i] == ranks[k];
      assert IsGroup(queue[i], m, pre, ranks[i]);
    }
  }

  /** Components follow the order of the pre-component groups; those mentioned nowhere come last. */
  lemma PreComponentOrder(queue: seq<seq<Component>>, ranks: seq<nat>, components: seq<Component>,
                          pre: seq<seq<string>>, i: nat, a: Component, j: nat, b: Component)
    requires IsQueue(queue, ranks, ByName(components), pre)
    requires i < |queue| && a in queue[i] && j < |queue| && b in queue[j]
    ensures i < j <==> Rank(pre, a.name) < Rank(pre, b.name)
    ensures (forall g :: g in pre ==> a.name !in g) ==> i == |queue| - 1
  {
    var m := ByName(components);
    GroupRank(queue, ranks, m, pre, i, a);
    GroupRank(queue, ranks, m, pre, j, b);
    RanksIncrease(ranks, i, j);
    if forall g :: g in pre ==> a.name !in g {
      LastRank(queue, ranks, m, pre, i);
    }
  }

  lemma RanksIncrease(ranks: seq<nat>, i: nat, j: nat)
    requires (forall a, b :: 0 <= a < b < |ranks| ==> ranks[a] < ranks[b]) && i < |ranks| && j < |ranks|
    ensures i < j <==> ranks[i] < ranks[j]
  {
  }

  /** Only the last group can have the last rank. */
  lemma LastRank(queue: seq<seq<Component>>, ranks: seq<nat>, m: map<string, Component>, pre: seq<seq<string>>, i: nat)
    requires IsQueue(queue, ranks, m, pre) && i < |queue| && ranks[i] == |pre|
    ensures i == |queue| - 1
  {
    var last := |queue| - 1;
    assert IsGroup(queue[last], m, pre, ranks[last]);
    assert queue[last][0] in queue[last];
    GroupRank(queue, ranks, m, pre, last, queue[last][0]);
  }

  /** The rank of a component is that of its group. */
  lemma GroupRank(queue: seq<seq<Component>>, ranks: seq<nat>, m: map<string, Component>, pre: seq<seq<string>>, i: nat,
                  c: Component)
    requires IsQueue(queue, ranks, m, pre) && i < |queue| && c in queue[i]
    ensures Rank(pre, c.name) == ranks[i] && ranks[i] <= |pre|
  {
    assert IsGroup(queue[i], m, pre, ranks[i]);
  }

  // ---------------------------------------------------------------- the shared cleanup component

  /** A sequence that is built: the status of its cluster and the strategy configured for deletions. */
  datatype Request = Request(status: Status, deleteStrategy: string)

  /** The configuration of the shared cleanup component after a sequence was built. */
  function Shared(configuration: seq<(string, string)>, request: Request): seq<(string, string)> {
    if request.status.IsDeletionInProgress() then configuration + [(DELETE_STRATEGY_KEY, request.deleteStrategy)]
    else configuration
  }

  function SharedAfter(configuration: seq<(string, string)>, requests: seq<Request>): seq<(string, string)> {
    if requests == [] then configuration
    else Shared(SharedAfter(configuration, requests[..|requests| - 1]), requests[|requests| - 1])
  }

  /** How many strategies a cleaner finds in its configuration. */
  function Strategies(configuration: seq<(string, string)>): nat {
    if configuration == [] then 0
    else
      var n := |configuration| - 1;
      Strategies(configuration[..n]) + (if configuration[n].0 == DELETE_STRATEGY_KEY then 1 else 0)
  }

  function Deletions(requests: seq<Request>): nat {
    if requests == [] then 0
    else
      var n := |requests| - 1;
      Deletions(requests[..n]) + (if requests[n].status.IsDeletionInProgress() then 1 else 0)
  }

  /** Every deletion sequence leaves its strategy behind: the cleaner of any later deletion carries it, too. */
  lemma {:induction false} StrategiesAddUp(configuration: seq<(string, string)>, requests: seq<Request>)
    ensures Strategies(SharedAfter(configuration, requests)) == Strategies(configuration) + Deletions(requests)
  {
    if requests != [] {
      var n := |requests| - 1;
      StrategiesAddUp(configuration, requests[..n]);
      var before := SharedAfter(configuration, requests[..n]);
      assert (before + [(DELETE_STRATEGY_KEY, requests[n].deleteStrategy)])[..|before|] == before;
    }
  }

  lemma {:induction false} SharedInTurn(configuration: seq<(string, string)>, a: seq<Request>, b: seq<Request>)
    ensures SharedAfter(configuration, a + b) == SharedAfter(SharedAfter(configuration, a), b)
    ensures SharedAfter(configuration, a) <= SharedAfter(configuration, a + b)
    ensures Deletions(a + b) == Deletions(a) + Deletions(b)
  {
    if b == [] {
      assert a + b == a;
    } else {
      var n := |b| - 1;
      SharedInTurn(configuration, a, b[..n]);
      assert (a + b)[..|a + b| - 1] == a + b[..n] && (a + b)[|a + b| - 1] == b[n];
    }
  }

  /** A cleaner is given the shared component when it is dispatched, after further sequences may have been built.  It
      carries the strategy of its own deletion, and no other exactly if the shared configuration had none to begin with
      and no other deletion sequence was built, neither before its own nor since.  What counts are sequences: a start
      that is tried again after a collision builds its own a second time. */
  lemma CleanerCarriesOneStrategyIff(configuration: seq<(string, string)>, earlier: seq<Request>, request: Request,
                                     later: seq<Request>)
    requires request.status.IsDeletionInProgress()
    ensures
      var carried := SharedAfter(configuration, earlier + [request] + later);
      && (DELETE_STRATEGY_KEY, request.deleteStrategy) in carried
      && (Strategies(carried) == 1 <==>
          Strategies(configuration) == 0 && Deletions(earlier) == 0 && Deletions(later) == 0)
  {
    var own := earlier + [request];
    assert own[..|own| - 1] == earlier;
    SharedInTurn(configuration, own, later);
    var mine := SharedAfter(configuration, own);
    assert mine[|mine| - 1] == (DELETE_STRATEGY_KEY, request.deleteStrategy);
    StrategiesAddUp(configuration, own + later);
  }

  /** For example: the second deletion of a process. */
  lemma SecondDeletionCarriesBoth(first: string, second: string)
    ensures SharedAfter([], [Request(Deleting, first), Request(Deleting, second)])
      == [(DELETE_STRATEGY_KEY, first), (DELETE_STRATEGY_KEY, second)]
  {
    var requests := [Request(Deleting, first), Request(Deleting, second)];
    assert requests[..1] == [Request(Deleting, first)] && requests[..1][..0] == [];
    assert SharedAfter([], requests[..1]) == Shared([], Request(Deleting, first));
  }

  // ---------------------------------------------------------------- the source's objects

  /** The package-level cleanup component, shared by all sequences. */
  class SharedComponent {
    var component: Component

    constructor ()
      ensures component == Component(CLEANUP_COMPONENT, "default", [])
    {
      component := Component(CLEANUP_COMPONENT, "default", []);
    }
  }

  class ReconciliationSequence {
    var queue: seq<seq<Component>>
    const preComponents: seq<seq<string>>

    /** `newReconciliationSequence`: a deletion appends its strategy to the shared cleanup component, which
        therefore keeps one entry for each deletion sequence ever built. */
    constructor (pre: seq<seq<string>>, deleteStrategy: string, status: Status, cleanup: SharedComponent)
      modifies cleanup
      ensures preComponents == pre
      ensures cleanup.component ==
        old(cleanup.component).(configuration := Shared(old(cleanup.component.configuration),
                                                        Request(status, deleteStrategy)))
      ensures queue == if status.IsDeletionInProgress() then [[CRDS], [cleanup.component]] else [[CRDS]]
    {
      preComponents := pre;
      queue := [[CRDS]];
      new;
      if status.IsDeletionInProgress() {
        cleanup.component := cleanup.component.(configuration :=
          cleanup.component.configuration + [(DELETE_STRATEGY_KEY, deleteStrategy)]);
        queue := queue + [[cleanup.component]];
      }
    }

    method AddComponents(components: seq<Component>) returns (ghost ranks: seq<nat>)
      modifies this
      ensures |queue| >= |old(queue)| && queue[..|old(queue)|] == old(queue)
      ensures IsQueue(queue[|old(queue)|..], ranks, ByName(components), preComponents)
    {
      ghost var m, before := ByName(components), queue;
      var compsByNameCache := CacheByName(components);
      ghost var added: seq<seq<Component>> := [];
      ranks := [];
      var g := 0;
      while g < |preComponents|
        invariant 0 <= g <= |preComponents| && queue == before + added
        invariant IsPartial(added, ranks, m, preComponents, compsByNameCache, g)
      {
        var preComps, rest := TakeGroup(preComponents, g, m, compsByNameCache);
        PartialGrows(added, ranks, m, preComponents, compsByNameCache, g, preComps, rest);
        Append(preComps, before, added);
        if |preComps| > 0 {
          added, ranks := added + [preComps], ranks + [g];
        }
        compsByNameCache := rest;
        g := g + 1;
      }
      var noPreComps := Values(compsByNameCache);
      PartialCompletes(added, ranks, m, preComponents, compsByNameCache, noPreComps);
      Append(noPreComps, before, added);
      if |noPreComps| > 0 {
        added, ranks := added + [noPreComps], ranks + [|preComponents|];
      }
      assert queue[|before|..] == added && queue[..|before|] == before;
    }

    /** Empty groups are not queued. */
    method Append(group: seq<Component>, ghost before: seq<seq<Component>>, ghost added: seq<seq<Component>>)
      requires queue == before + added
      modifies this`queue
      ensures queue == if |group| > 0 then before + (added + [group]) else before + added
    {
      if |group| > 0 {
        queue := queue + [group];
        assert before + added + [group] == before + (added + [group]);
      }
    }
  }

  method CacheByName(components: seq<Component>) returns (cache: map<string, Component>)
    ensures cache == ByName(components)
  {
    cache := map[];
    for i := 0 to |components|
      invariant cache == ByName(components[..i])
    {
      assert components[..i + 1][..i] == components[..i];
      cache := cache[components[i].name := components[i]];
    }
    assert components[..|components|] == components;
  }

  lemma PartialGrows(added: seq<seq<Component>>, ranks: seq<nat>, m: map<string, Component>,
                     pre: seq<seq<string>>, cache: map<string, Component>, g: nat,
                     preComps: seq<Component>, rest: map<string, Component>)
    requires g < |pre| && IsPartial(added, ranks, m, pre, cache, g) && IsRest(rest, m, pre, g + 1)
    requires if preComps != [] then IsGroup(preComps, m, pre, g) else forall n :: n in m ==> Rank(pre, n) != g
    ensures preComps != [] ==> IsPartial(added + [preComps], ranks + [g], m, pre, rest, g + 1)
    ensures preComps == [] ==> IsPartial(added, ranks, m, pre, rest, g + 1)
  {
    if preComps != [] {
      var ranks' := ranks + [g];
      forall n | n in m && Rank(pre, n) < g + 1 ensures Rank(pre, n) in ranks' {
        if Rank(pre, n) == g {
          assert ranks'[|ranks|] == g;
        } else {
          assert Rank(pre, n) in ranks;
        }
      }
    }
  }

  lemma PartialCompletes(added: seq<seq<Component>>, ranks: seq<nat>, m: map<string, Component>,
                         pre: seq<seq<string>>, cache: map<string, Component>, rest: seq<Component>)
    requires IsPartial(added, ranks, m, pre, cache, |pre|)
    requires forall n :: n in m ==> m[n].name == n
    requires forall i, j :: 0 <= i < j < |rest| ==> rest[i].name != rest[j].name
    requires forall c :: c in rest <==> c.name in cache && cache[c.name] == c
    requires rest == [] ==> cache == map[]
    ensures rest != [] ==> IsQueue(added + [rest], ranks + [|pre|], m, pre)
    ensures rest == [] ==> IsQueue(added, ranks, m, pre)
  {
    forall n | n in m ensures Rank(pre, n) in ranks + (if rest != [] then [|pre|] else []) {
      if Rank(pre, n) == |pre| {
        assert n in cache;
      }
    }
    if rest != [] {
      assert IsGroup(rest, m, pre, |pre|);
    }
  }

  /** After the first `g` pre-component groups: the cache holds what they do not mention. */
  ghost predicate IsPartial(added: seq<seq<Component>>, ranks: seq<nat>, m: map<string, Component>,
                            pre: seq<seq<string>>, cache: map<string, Component>, g: nat)
  {
    && |added| == |ranks|
    && (forall i, j :: 0 <= i < j < |ranks| ==> ranks[i] < ranks[j])
    && (forall i :: 0 <= i < |ranks| ==> ranks[i] < g && IsGroup(added[i], m, pre, ranks[i]))
    && (forall n :: n in m && Rank(pre, n) < g ==> Rank(pre, n) in ranks)
    && IsRest(cache, m, pre, g)
  }

  ghost predicate IsRest(cache: map<string, Component>, m: map<string, Component>, pre: seq<seq<string>>, g: nat) {
    forall n :: (n in cache <==> n in m && Rank(pre, n) >= g) && (n in cache ==> cache[n] == m[n])
  }

  /** Takes the components one pre-component group names out of the cache. */
  method TakeGroup(pre: seq<seq<string>>, g: nat, ghost m: map<string, Component>, cache: map<string, Component>)
    returns (preComps: seq<Component>, rest: map<string, Component>)
    requires g < |pre| && (forall n :: n in m ==> m[n].name == n)
    requires IsRest(cache, m, pre, g)
    ensures IsRest(rest, m, pre, g + 1)
    ensures preComps != [] ==> IsGroup(preComps, m, pre, g)
    ensures preComps == [] ==> forall n :: n in m ==> Rank(pre, n) != g
  {
    preComps, rest := [], cache;
    for i := 0 to |pre[g]|
      invariant IsTaken(preComps, rest, cache, pre[g][..i])
    {
      assert pre[g][..i + 1] == pre[g][..i] + [pre[g][i]];
      var name := pre[g][i];
      TakeOne(preComps, rest, cache, pre[g][..i], name);
      if name in rest {
        preComps := preComps + [rest[name]];
        rest := rest - {name};
      }
    }
    assert pre[g][..|pre[g]|] == pre[g];
    TakenIsGroup(preComps, rest, cache, m, pre, g);
  }

  /** The components of the cache that `names` mentions were taken out of it, each once. */
  ghost predicate IsTaken(taken: seq<Component>, rest: map<string, Component>, cache: map<string, Component>,
                          names: seq<string>) {
    && (forall a, b :: 0 <= a < b < |taken| ==> taken[a].name != taken[b].name)
    && (forall c :: c in taken <==> c.name in cache && cache[c.name] == c && c.name in names)
    && (forall n :: (n in rest <==> n in cache && n !in names) && (n in rest ==> rest[n] == cache[n]))
  }

  lemma TakeOne(taken: seq<Component>, rest: map<string, Component>, cache: map<string, Component>, names: seq<string>,
                name: string)
    requires IsTaken(taken, rest, cache, names) && forall n :: n in cache ==> cache[n].name == n
    ensures
      if name in rest then IsTaken(taken + [rest[name]], rest - {name}, cache, names + [name])
      else IsTaken(taken, rest, cache, names + [name])
  {
    assert forall n :: n in names + [name] <==> n in names || n == name;
    if name in rest {
      assert forall a :: 0 <= a < |taken| ==> taken[a] in taken;
    }
  }

  lemma TakenIsGroup(taken: seq<Component>, rest: map<string, Component>, cache: map<string, Component>,
                     m: map<string, Component>, pre: seq<seq<string>>, g: nat)
    requires g < |pre| && IsTaken(taken, rest, cache, pre[g]) && IsRest(cache, m, pre, g)
    requires forall n :: n in m ==> m[n].name == n
    ensures IsRest(rest, m, pre, g + 1)
    ensures taken != [] ==> IsGroup(taken, m, pre, g)
    ensures taken == [] ==> forall n :: n in m ==> Rank(pre, n) != g
  {
    forall n | n in cache ensures n in pre[g] <==> Rank(pre, n) == g { }
    if taken == [] {
      forall n | n in cache && n in pre[g] ensures cache[n] in taken { }
    }
  }

  /** The values of a map, in no particular order. */
  method Values(cache: map<string, Component>) returns (r: seq<Component>)
    requires forall n :: n in cache ==> cache[n].name == n
    ensures forall i, j :: 0 <= i < j < |r| ==> r[i].name != r[j].name
    ensures forall c :: c in r <==> c.name in cache && cache[c.name] == c
    ensures r == [] ==> cache == map[]
  {
    r := [];
    var todo := cache.Keys;
    while todo != {}
      invariant todo <= cache.Keys
      invariant forall i, j :: 0 <= i < j < |r| ==> r[i].name != r[j].name
      invariant forall c :: c in r <==> c.name in cache && c.name !in todo && cache[c.name] == c
      invariant todo != cache.Keys ==> r != []
    {
      var n := Pick(todo);
      assert forall i :: 0 <= i < |r| ==> r[i] in r;
      r := r + [cache[n]];
      todo := todo - {n};
    }
  }

  /** `GetReconciliationSequence` yields a sequence in the sense above. */
  method GetReconciliationSequence(components: seq<Component>, pre: seq<seq<string>>, deleteStrategy: string,
                                   status: Status, cleanup: SharedComponent)
    returns (queue: seq<seq<Component>>)
    requires cleanup.component.name == CLEANUP_COMPONENT
    modifies cleanup
    ensures IsSequence(queue, components, pre, status)
    ensures cleanup.component.name == CLEANUP_COMPONENT
    ensures cleanup.component.configuration
      == Shared(old(cleanup.component.configuration), Request(status, deleteStrategy))
  {
    var reconSeq := new ReconciliationSequence(pre, deleteStrategy, status, cleanup);
    ghost var header := reconSeq.queue;
    ghost var ranks := reconSeq.AddComponents(components);
    queue := reconSeq.queue;
    assert queue[0] == header[0] && (|header| == 2 ==> queue[1] == header[1]);
  }
}
