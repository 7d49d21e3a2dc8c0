/** What refreshes and saves keep: a graph that needs no repair, the user's edges, and the user's deletions. */
module RelationLaws {
  import opened Wrappers
  import opened Relations

  // ----- resolved edges and pairs

  /** An edge normalization leaves as it is. */
  ghost predicate IsCleanEdge(norm: Norm, keys: seq<string>, e: Edge)
  {
    IsEdgeOk(norm, keys, e) && Resolved(norm, keys, e) == e
  }

  lemma ResolvedIsClean(norm: Norm, keys: seq<string>, e: Edge)
    requires IsEdgeOk(norm, keys, e)
    ensures IsCleanEdge(norm, keys, Resolved(norm, keys, e))
  {
    var r := Resolved(norm, keys, e);
    ResolveByNorm(norm, keys, r.source, e.source);
    ResolveByNorm(norm, keys, r.target, e.target);
  }

  ghost predicate IsCleanPair(norm: Norm, keys: seq<string>, p: Pair)
  {
    IsPairKnown(norm, keys, p) && ResolvedPair(norm, keys, p) == p && norm(p.source) != norm(p.target)
  }

  lemma ResolvedPairIsClean(norm: Norm, keys: seq<string>, p: Pair)
    requires IsPairKnown(norm, keys, p) && norm(p.source) != norm(p.target)
    ensures IsCleanPair(norm, keys, ResolvedPair(norm, keys, p))
  {
    var r := ResolvedPair(norm, keys, p);
    ResolveByNorm(norm, keys, r.source, p.source);
    ResolveByNorm(norm, keys, r.target, p.target);
  }

  ghost predicate DistinctPairs(norm: Norm, pairs: seq<Pair>)
  {
    forall i, j | 0 <= i < j < |pairs| :: KeyOfPair(norm, pairs[i]) != KeyOfPair(norm, pairs[j])
  }

  ghost predicate AreCleanPairs(norm: Norm, keys: seq<string>, pairs: seq<Pair>)
  {
    DistinctPairs(norm, pairs) && forall i | 0 <= i < |pairs| :: IsCleanPair(norm, keys, pairs[i])
  }

  lemma AppendPair(norm: Norm, keys: seq<string>, pairs: seq<Pair>, p: Pair)
    requires AreCleanPairs(norm, keys, pairs) && IsCleanPair(norm, keys, p)
             && KeyOfPair(norm, p) !in Suppressed(norm, pairs)
    ensures AreCleanPairs(norm, keys, pairs + [p])
  {
  }

  lemma {:induction false} ResolvedPairsAreClean(norm: Norm, keys: seq<string>, pairs: seq<Pair>)
    requires forall i | 0 <= i < |pairs| :: IsPairKnown(norm, keys, pairs[i])
    ensures AreCleanPairs(norm, keys, ResolvedPairs(norm, keys, pairs))
  {
    if pairs != [] {
      var n := |pairs| - 1;
      var before := ResolvedPairs(norm, keys, pairs[..n]);
      ResolvedPairsAreClean(norm, keys, pairs[..n]);
      if norm(pairs[n].source) != norm(pairs[n].target) && KeyOfPair(norm, pairs[n]) !in Suppressed(norm, before) {
        ResolvedPairIsClean(norm, keys, pairs[n]);
        AppendPair(norm, keys, before, ResolvedPair(norm, keys, pairs[n]));
      }
    }
  }

  /** Clean pairs are left as they are. */
  lemma {:induction false} CleanPairsStay(norm: Norm, keys: seq<string>, pairs: seq<Pair>)
    requires AreCleanPairs(norm, keys, pairs)
    ensures ResolvedPairs(norm, keys, pairs) == pairs
  {
    if pairs != [] {
      var n := |pairs| - 1;
      CleanPairsStay(norm, keys, pairs[..n]);
      assert pairs[..n] + [pairs[n]] == pairs;
      assert forall i | 0 <= i < n :: pairs[..n][i] == pairs[i];
    }
  }

  /** Normalization drops only self pairs and repetitions. */
  lemma {:induction false} ResolvedPairsKeepKeys(norm: Norm, keys: seq<string>, pairs: seq<Pair>)
    requires forall i | 0 <= i < |pairs| :: IsPairKnown(norm, keys, pairs[i])
    requires forall i | 0 <= i < |pairs| :: norm(pairs[i].source) != norm(pairs[i].target)
    ensures Suppressed(norm, ResolvedPairs(norm, keys, pairs)) == Suppressed(norm, pairs)
  {
    if pairs != [] {
      var n := |pairs| - 1;
      var before := ResolvedPairs(norm, keys, pairs[..n]);
      ResolvedPairsKeepKeys(norm, keys, pairs[..n]);
      assert pairs == pairs[..n] + [pairs[n]];
      SuppressedAppend(norm, pairs[..n], pairs[n]);
      SuppressedAppend(norm, before, ResolvedPair(norm, keys, pairs[n]));
    }
  }

  /** Joins two characters, and no pair before it joins the same. */
  ghost predicate IsFirstPair(norm: Norm, pairs: seq<Pair>, i: nat)
    requires i < |pairs|
  {
    && norm(pairs[i].source) != norm(pairs[i].target)
    && forall j | 0 <= j < i :: KeyOfPair(norm, pairs[j]) != KeyOfPair(norm, pairs[i])
  }

  /** The pairs at these places, which are all first ones, with resolved names. */
  ghost predicate AreFirstPairs(norm: Norm, keys: seq<string>, pairs: seq<Pair>, chosen: seq<Pair>, at: seq<nat>)
  {
    && |at| == |chosen|
    && (forall k | 0 <= k < |at| ::
          at[k] < |pairs| && IsFirstPair(norm, pairs, at[k]) && IsPairResolved(norm, keys, pairs[at[k]], chosen[k]))
    && (forall j, k | 0 <= j < k < |at| :: at[j] < at[k])
    && forall i: nat | i < |pairs| && IsFirstPair(norm, pairs, i) :: i in at
  }

  ghost predicate IsPairResolved(norm: Norm, keys: seq<string>, p: Pair, q: Pair)
  {
    Resolve(norm, keys, p.source) == Some(q.source) && Resolve(norm, keys, p.target) == Some(q.target)
    && q.directed == p.directed
  }

  /** Normalization keeps of all pairs that join the same the first one, in order. */
  lemma {:induction false} PairsInOrder(norm: Norm, keys: seq<string>, pairs: seq<Pair>) returns (at: seq<nat>)
    requires forall i | 0 <= i < |pairs| :: IsPairKnown(norm, keys, pairs[i])
    ensures AreFirstPairs(norm, keys, pairs, ResolvedPairs(norm, keys, pairs), at)
  {
    if pairs == [] {
      at := [];
    } else {
      var n: nat := |pairs| - 1;
      var before := ResolvedPairs(norm, keys, pairs[..n]);
      at := PairsInOrder(norm, keys, pairs[..n]);
      FirstIffNew(norm, keys, pairs);
      FirstPairsMore(norm, keys, pairs, before, at, ResolvedPair(norm, keys, pairs[n]));
      if IsFirstPair(norm, pairs, n) {
        at := at + [n];
      }
    }
  }

  lemma FirstIffNew(norm: Norm, keys: seq<string>, pairs: seq<Pair>)
    requires pairs != [] && forall i | 0 <= i < |pairs| :: IsPairKnown(norm, keys, pairs[i])
    ensures var n := |pairs| - 1;
            IsFirstPair(norm, pairs, n) <==>
            && norm(pairs[n].source) != norm(pairs[n].target)
            && KeyOfPair(norm, pairs[n]) !in Suppressed(norm, ResolvedPairs(norm, keys, pairs[..n]))
  {
    var n, key := |pairs| - 1, KeyOfPair(norm, pairs[|pairs| - 1]);
    ResolvedPairsKeys(norm, keys, pairs[..n], key);
    if norm(pairs[n].source) != norm(pairs[n].target) {
      forall j | 0 <= j < n && KeyOfPair(norm, pairs[j]) == key ensures IsNamed(norm, pairs[..n], key) {
        SamePairKey(norm, pairs[j], pairs[n]);
        assert pairs[..n][j] == pairs[j];
      }
    }
  }

  lemma FirstPairsMore(
    norm: Norm, keys: seq<string>, pairs: seq<Pair>, before: seq<Pair>, at: seq<nat>, last: Pair)
    requires pairs != [] && AreFirstPairs(norm, keys, pairs[..|pairs| - 1], before, at)
    requires IsPairResolved(norm, keys, pairs[|pairs| - 1], last)
    ensures var n: nat := |pairs| - 1;
            if IsFirstPair(norm, pairs, n) then AreFirstPairs(norm, keys, pairs, before + [last], at + [n])
            else AreFirstPairs(norm, keys, pairs, before, at)
  {
    var n: nat := |pairs| - 1;
    forall i: nat | i < n ensures IsFirstPair(norm, pairs, i) <==> IsFirstPair(norm, pairs[..n], i) {
      FirstInPrefix(norm, pairs, i);
    }
    forall i: nat | i < n && IsFirstPair(norm, pairs, i) ensures i in at {
      assert IsFirstPair(norm, pairs[..n], i);
    }
    var more := at + [n];
    assert more[|at|] == n;
  }

  lemma FirstInPrefix(norm: Norm, pairs: seq<Pair>, i: nat)
    requires i < |pairs| - 1
    ensures IsFirstPair(norm, pairs, i) <==> IsFirstPair(norm, pairs[..|pairs| - 1], i)
  {
    var init := pairs[..|pairs| - 1];
    assert init[i] == pairs[i] && forall j | 0 <= j < i :: init[j] == pairs[j];
  }

  lemma ResolvedEdgesKeepKeys(norm: Norm, keys: seq<string>, edges: seq<Edge>)
    requires forall i | 0 <= i < |edges| :: IsEdgeOk(norm, keys, edges[i])
    ensures Present(norm, ResolvedEdges(norm, keys, edges)) == Present(norm, edges)
  {
    var resolved := ResolvedEdges(norm, keys, edges);
    forall i | 0 <= i < |edges| ensures KeyOf(norm, resolved[i]) == KeyOf(norm, edges[i]) {
    }
  }

  // ----- graphs that need no repair

  /** Normalization accepts the graph and changes nothing. */
  ghost predicate IsNormal(norm: Norm, keys: seq<string>, g: Graph)
  {
    IsAcceptable(norm, keys, g) && Normalized(norm, keys, g) == g
  }

  ghost predicate IsClean(norm: Norm, keys: seq<string>, g: Graph)
  {
    && (forall i | 0 <= i < |g.edges| :: IsCleanEdge(norm, keys, g.edges[i]))
    && AreAllApart(norm, g.edges)
    && AreCleanPairs(norm, keys, g.suppressed)
  }

  lemma CleanIsNormal(norm: Norm, keys: seq<string>, g: Graph)
    requires IsClean(norm, keys, g)
    ensures IsNormal(norm, keys, g)
  {
    forall i | 0 <= i < |g.edges|
      ensures IsEdgeOk(norm, keys, g.edges[i]) && Resolved(norm, keys, g.edges[i]) == g.edges[i]
    {
      assert IsCleanEdge(norm, keys, g.edges[i]);
    }
    forall i | 0 <= i < |g.suppressed| ensures IsPairKnown(norm, keys, g.suppressed[i]) {
      assert IsCleanPair(norm, keys, g.suppressed[i]);
    }
    assert ResolvedEdges(norm, keys, g.edges) == g.edges;
    CleanPairsStay(norm, keys, g.suppressed);
  }

  lemma NormalizedIsClean(norm: Norm, keys: seq<string>, g: Graph)
    requires IsAcceptable(norm, keys, g)
    ensures IsClean(norm, keys, Normalized(norm, keys, g))
  {
    var edges := ResolvedEdges(norm, keys, g.edges);
    forall i | 0 <= i < |edges| ensures IsCleanEdge(norm, keys, edges[i]) {
      ResolvedIsClean(norm, keys, g.edges[i]);
    }
    forall i, j | 0 <= i < j < |edges| ensures AreApart(norm, edges[i], edges[j]) {
      assert AreApart(norm, g.edges[i], g.edges[j]);
    }
    ResolvedPairsAreClean(norm, keys, g.suppressed);
  }

  // ----- the refresh

  lemma {:induction false} KeptAreEdges(norm: Norm, edges: seq<Edge>)
    requires AreAllApart(norm, edges)
    ensures AreAllApart(norm, KeptEdges(edges))
    ensures forall e | e in KeptEdges(edges) :: e in edges && IsKept(e)
    ensures forall e | e in edges && IsKept(e) :: e in KeptEdges(edges)
  {
    if edges != [] {
      var n := |edges| - 1;
      KeptAreEdges(norm, edges[..n]);
      forall e | e in KeptEdges(edges[..n]) ensures AreApart(norm, e, edges[n]) && e in edges {
        var i :| 0 <= i < n && edges[..n][i] == e;
        assert edges[i] == e && AreApart(norm, edges[i], edges[n]);
      }
      forall e | e in edges && IsKept(e) ensures e in KeptEdges(edges) {
        assert e in edges[..n] || e == edges[n];
      }
    }
  }

  /** Fresh ids: all different, and none in use. */
  ghost predicate AreFresh(ids: seq<string>, edges: seq<Edge>)
  {
    && (forall i, j | 0 <= i < j < |ids| :: ids[i] != ids[j])
    && forall i, j | 0 <= i < |ids| && 0 <= j < |edges| :: ids[i] != edges[j].id
  }

  /** What the AI contributes: clean, apart, AI-owned, off the barred pairs, under the ids drawn for it. */
  ghost predicate IsContribution(norm: Norm, keys: seq<string>, barred: set<Key>, ids: seq<string>, e: Edge)
  {
    && IsCleanEdge(norm, keys, e) && e.origin == Ai && !e.overridden
    && KeyOf(norm, e) !in barred && e.id in ids
  }

  lemma {:induction false} AcceptedContribute(
    norm: Norm, keys: seq<string>, barred: set<Key>, ai: seq<Edge>, ids: seq<string>)
    requires |ids| == |ai| && forall i | 0 <= i < |ai| :: IsEdgeOk(norm, keys, ai[i])
    requires forall i, j | 0 <= i < j < |ids| :: ids[i] != ids[j]
    ensures forall i | 0 <= i < |Accepted(norm, keys, barred, ai, ids)| ::
              IsContribution(norm, keys, barred, ids, Accepted(norm, keys, barred, ai, ids)[i])
    ensures AreAllApart(norm, Accepted(norm, keys, barred, ai, ids))
  {
    if ai != [] {
      var n := |ai| - 1;
      AcceptedContribute(norm, keys, barred, ai[..n], ids[..n]);
      var before := Accepted(norm, keys, barred, ai[..n], ids[..n]);
      var e := Resolved(norm, keys, ai[n]).(id := ids[n], origin := Ai, overridden := false);
      ResolvedIsClean(norm, keys, ai[n]);
      assert IsCleanEdge(norm, keys, e);
      forall i | 0 <= i < |before| ensures before[i].id in ids && before[i].id != ids[n] {
        assert IsContribution(norm, keys, barred, ids[..n], before[i]);
      }
      forall i | 0 <= i < |before| ensures IsContribution(norm, keys, barred, ids, before[i]) {
        assert IsContribution(norm, keys, barred, ids[..n], before[i]);
      }
      if KeyOf(norm, e) !in barred && !HasRelation(norm, before, KeyOf(norm, e), e.kind) {
        AppendApart(norm, before, e);
      }
    }
  }

  lemma AppendApart(norm: Norm, edges: seq<Edge>, e: Edge)
    requires AreAllApart(norm, edges) && !HasRelation(norm, edges, KeyOf(norm, e), e.kind)
    requires forall i | 0 <= i < |edges| :: edges[i].id != e.id
    ensures AreAllApart(norm, edges + [e])
  {
  }

  lemma JoinApart(norm: Norm, a: seq<Edge>, b: seq<Edge>)
    requires AreAllApart(norm, a) && AreAllApart(norm, b)
    requires forall i, j | 0 <= i < |a| && 0 <= j < |b| :: AreApart(norm, a[i], b[j])
    ensures AreAllApart(norm, a + b)
  {
  }

  lemma InPresent(norm: Norm, edges: seq<Edge>, e: Edge)
    requires e in edges
    ensures KeyOf(norm, e) in Present(norm, edges)
  {
    var i :| 0 <= i < |edges| && edges[i] == e;
    assert KeyOf(norm, edges[i]) == KeyOf(norm, e);
  }

  /**
   A refresh leaves a graph that needs no repair, keeps every edge the user owns, and adds nothing on a pair the user
   owns or has suppressed.
   */
  lemma RefreshIsClean(norm: Norm, keys: seq<string>, g: Graph, ai: seq<Edge>, ids: seq<string>)
    requires CanMerge(norm, keys, g, ai) && |ids| == |ai| && AreFresh(ids, g.edges)
    ensures var current, merged := Normalized(norm, keys, g), Merged(norm, keys, g, ai, ids);
            && IsClean(norm, keys, merged) && IsNormal(norm, keys, merged)
            && merged.revision == g.revision + 1
            && (forall e | e in current.edges && IsKept(e) :: e in merged.edges)
            && (forall e | e in merged.edges && !(e in current.edges && IsKept(e)) ::
                  e.origin == Ai && !e.overridden && KeyOf(norm, e) !in Barred(norm, current))
            && merged.suppressed == current.suppressed
  {
    var current := Normalized(norm, keys, g);
    var kept, added := KeptEdges(current.edges), Accepted(norm, keys, Barred(norm, current), ai, ids);
    NormalizedIsClean(norm, keys, g);
    KeptAreEdges(norm, current.edges);
    AcceptedContribute(norm, keys, Barred(norm, current), ai, ids);
    forall i, j | 0 <= i < |kept| && 0 <= j < |added| ensures AreApart(norm, kept[i], added[j]) {
      assert IsContribution(norm, keys, Barred(norm, current), ids, added[j]);
      assert kept[i] in current.edges;
      InPresent(norm, kept, kept[i]);
      FreshForNormalized(norm, keys, g, ids, kept[i], added[j].id);
    }
    JoinApart(norm, kept, added);
    forall i | 0 <= i < |kept + added| ensures IsCleanEdge(norm, keys, (kept + added)[i]) {
      if i < |kept| {
        assert kept[i] in current.edges;
      } else {
        assert IsContribution(norm, keys, Barred(norm, current), ids, added[i - |kept|]);
      }
    }
    forall e | e in added ensures e.origin == Ai && !e.overridden && KeyOf(norm, e) !in Barred(norm, current) {
      var j :| 0 <= j < |added| && added[j] == e;
      assert IsContribution(norm, keys, Barred(norm, current), ids, added[j]);
    }
    CleanIsNormal(norm, keys, Merged(norm, keys, g, ai, ids));
  }

  lemma FreshForNormalized(norm: Norm, keys: seq<string>, g: Graph, ids: seq<string>, e: Edge, id: string)
    requires IsAcceptable(norm, keys, g) && AreFresh(ids, g.edges) && e in Normalized(norm, keys, g).edges && id in ids
    ensures e.id != id
  {
    var i :| 0 <= i < |g.edges| && Normalized(norm, keys, g).edges[i] == e;
    var k :| 0 <= k < |ids| && ids[k] == id;
    assert ids[k] != g.edges[i].id;
  }

  // ----- what a refresh brings

  /** No edge of the user's joins the pair of this proposal, and no suppression names it. */
  ghost predicate IsOpenToAi(norm: Norm, g: Graph, e: Edge)
  {
    && (forall k | 0 <= k < |g.edges| && KeyOf(norm, g.edges[k]) == KeyOf(norm, e) ::
        g.edges[k].origin == Ai && !g.edges[k].overridden)
    && forall k | 0 <= k < |g.suppressed| :: KeyOfPair(norm, g.suppressed[k]) != KeyOf(norm, e)
  }

  /** None of the proposals before it has its pair and kind. */
  ghost predicate IsFirst(norm: Norm, ai: seq<Edge>, i: nat)
    requires i < |ai|
  {
    forall j | 0 <= j < i :: KeyOf(norm, ai[j]) != KeyOf(norm, ai[i]) || ai[j].kind != ai[i].kind
  }

  /** The edge shows the proposal under the id drawn for it, between the project's own characters, and is the AI's. */
  ghost predicate IsShown(norm: Norm, keys: seq<string>, e: Edge, proposal: Edge, id: string)
  {
    && Resolve(norm, keys, proposal.source) == Some(e.source) && Resolve(norm, keys, proposal.target) == Some(e.target)
    && (e.kind, e.caption, e.directed, e.description, e.confidence) ==
       (proposal.kind, proposal.caption, proposal.directed, proposal.description, proposal.confidence)
    && e.id == id && e.origin == Ai && !e.overridden
  }

  lemma {:induction false} KeptKeys(norm: Norm, edges: seq<Edge>, key: Key)
    ensures key in Present(norm, KeptEdges(edges)) <==>
            exists k :: 0 <= k < |edges| && IsKept(edges[k]) && KeyOf(norm, edges[k]) == key
  {
    if edges != [] {
      var n := |edges| - 1;
      KeptKeys(norm, edges[..n], key);
      PresentAppend(norm, KeptEdges(edges[..n]), edges[n]);
      if exists k :: 0 <= k < n && IsKept(edges[..n][k]) && KeyOf(norm, edges[..n][k]) == key {
        var k :| 0 <= k < n && IsKept(edges[..n][k]) && KeyOf(norm, edges[..n][k]) == key;
        assert edges[k] == edges[..n][k];
      }
      if exists k :: 0 <= k < |edges| && IsKept(edges[k]) && KeyOf(norm, edges[k]) == key {
        var k :| 0 <= k < |edges| && IsKept(edges[k]) && KeyOf(norm, edges[k]) == key;
        assert k < n ==> edges[..n][k] == edges[k];
      }
      assert KeptEdges(edges[..n]) + [] == KeptEdges(edges[..n]);
    }
  }

  /** Normalization keeps the keys of all pairs but self pairs. */
  lemma {:induction false} ResolvedPairsKeys(norm: Norm, keys: seq<string>, pairs: seq<Pair>, key: Key)
    requires forall i | 0 <= i < |pairs| :: IsPairKnown(norm, keys, pairs[i])
    ensures key in Suppressed(norm, ResolvedPairs(norm, keys, pairs)) <==> IsNamed(norm, pairs, key)
  {
    if pairs != [] {
      var n := |pairs| - 1;
      var before := ResolvedPairs(norm, keys, pairs[..n]);
      ResolvedPairsKeys(norm, keys, pairs[..n], key);
      SuppressedAppend(norm, before, ResolvedPair(norm, keys, pairs[n]));
      NamedAppend(norm, pairs, key);
    }
  }

  ghost predicate IsNamed(norm: Norm, pairs: seq<Pair>, key: Key)
  {
    exists i :: 0 <= i < |pairs| && norm(pairs[i].source) != norm(pairs[i].target) && KeyOfPair(norm, pairs[i]) == key
  }

  lemma NamedAppend(norm: Norm, pairs: seq<Pair>, key: Key)
    requires pairs != []
    ensures var n := |pairs| - 1;
            IsNamed(norm, pairs, key) <==>
            || IsNamed(norm, pairs[..n], key)
            || (norm(pairs[n].source) != norm(pairs[n].target) && KeyOfPair(norm, pairs[n]) == key)
  {
    var n := |pairs| - 1;
    if IsNamed(norm, pairs[..n], key) {
      var i :| 0 <= i < n && norm(pairs[..n][i].source) != norm(pairs[..n][i].target)
               && KeyOfPair(norm, pairs[..n][i]) == key;
      assert pairs[i] == pairs[..n][i];
    }
    if IsNamed(norm, pairs, key) {
      var i :| 0 <= i <= n && norm(pairs[i].source) != norm(pairs[i].target) && KeyOfPair(norm, pairs[i]) == key;
      assert i < n ==> pairs[..n][i] == pairs[i];
    }
  }

  lemma BarredIffNotOpen(norm: Norm, keys: seq<string>, g: Graph, e: Edge)
    requires IsAcceptable(norm, keys, g) && IsEdgeOk(norm, keys, e)
    ensures KeyOf(norm, e) in Barred(norm, Normalized(norm, keys, g)) <==> !IsOpenToAi(norm, g, e)
  {
    var current, key := Normalized(norm, keys, g), KeyOf(norm, e);
    KeptKeys(norm, current.edges, key);
    ResolvedPairsKeys(norm, keys, g.suppressed, key);
    forall k | 0 <= k < |g.edges|
      ensures KeyOf(norm, current.edges[k]) == KeyOf(norm, g.edges[k])
      ensures IsKept(current.edges[k]) == IsKept(g.edges[k])
    {
    }
    forall k | 0 <= k < |g.suppressed| && KeyOfPair(norm, g.suppressed[k]) == key
      ensures norm(g.suppressed[k].source) != norm(g.suppressed[k].target)
    {
      SamePairKey(norm, g.suppressed[k], Pair(e.source, e.target, e.directed));
    }
  }

  function Contribution(norm: Norm, keys: seq<string>, proposal: Edge, id: string): Edge
    requires IsEdgeOk(norm, keys, proposal)
  {
    Resolved(norm, keys, proposal).(id := id, origin := Ai, overridden := false)
  }

  /** What is accepted is a first proposal off the barred pairs. */
  lemma {:induction false} AcceptedAreFirst(
    norm: Norm, keys: seq<string>, barred: set<Key>, ai: seq<Edge>, ids: seq<string>, e: Edge) returns (i: nat)
    requires |ids| == |ai| && forall k | 0 <= k < |ai| :: IsEdgeOk(norm, keys, ai[k])
    requires e in Accepted(norm, keys, barred, ai, ids)
    ensures i < |ai| && IsFirst(norm, ai, i) && KeyOf(norm, ai[i]) !in barred
    ensures e == Contribution(norm, keys, ai[i], ids[i])
  {
    var n := |ai| - 1;
    if e in Accepted(norm, keys, barred, ai[..n], ids[..n]) {
      i := AcceptedAreFirst(norm, keys, barred, ai[..n], ids[..n], e);
    } else {
      i := n;
      forall j | 0 <= j < n && KeyOf(norm, ai[j]) == KeyOf(norm, ai[n]) && ai[j].kind == ai[n].kind ensures false {
        SomeIsAccepted(norm, keys, barred, ai[..n], ids[..n], j);
      }
    }
  }

  /** The pair and kind of every proposal off the barred pairs are accepted. */
  lemma {:induction false} SomeIsAccepted(
    norm: Norm, keys: seq<string>, barred: set<Key>, ai: seq<Edge>, ids: seq<string>, i: nat)
    requires |ids| == |ai| && i < |ai| && forall k | 0 <= k < |ai| :: IsEdgeOk(norm, keys, ai[k])
    requires KeyOf(norm, ai[i]) !in barred
    ensures HasRelation(norm, Accepted(norm, keys, barred, ai, ids), KeyOf(norm, ai[i]), ai[i].kind)
  {
    var n := |ai| - 1;
    var before := Accepted(norm, keys, barred, ai[..n], ids[..n]);
    HasRelationAppend(norm, before, Contribution(norm, keys, ai[n], ids[n]));
    if i < n {
      SomeIsAccepted(norm, keys, barred, ai[..n], ids[..n], i);
    }
  }

  lemma FirstIsAccepted(
    norm: Norm, keys: seq<string>, barred: set<Key>, ai: seq<Edge>, ids: seq<string>, i: nat)
    requires |ids| == |ai| && i < |ai| && forall k | 0 <= k < |ai| :: IsEdgeOk(norm, keys, ai[k])
    requires KeyOf(norm, ai[i]) !in barred && IsFirst(norm, ai, i)
    ensures Contribution(norm, keys, ai[i], ids[i]) in Accepted(norm, keys, barred, ai, ids)
  {
    var accepted := Accepted(norm, keys, barred, ai, ids);
    SomeIsAccepted(norm, keys, barred, ai, ids, i);
    var k :| 0 <= k < |accepted| && KeyOf(norm, accepted[k]) == KeyOf(norm, ai[i]) && accepted[k].kind == ai[i].kind;
    var j := AcceptedAreFirst(norm, keys, barred, ai, ids, accepted[k]);
    assert i == j;
  }

  /** Exactly one edge of the AI's has this pair and kind, and it shows this proposal. */
  ghost predicate IsOnlyShown(norm: Norm, keys: seq<string>, edges: seq<Edge>, proposal: Edge, id: string)
  {
    exists k :: 0 <= k < |edges| && IsShown(norm, keys, edges[k], proposal, id)
                && forall j | 0 <= j < |edges| && edges[j].origin == Ai && !edges[j].overridden
                              && KeyOf(norm, edges[j]) == KeyOf(norm, proposal) && edges[j].kind == proposal.kind ::
                     j == k
  }

  /**
   A refresh brings every relation the AI proposes, once, as first proposed, unless the user owns or has suppressed the
   pair.
   */
  lemma ProposalsArrive(norm: Norm, keys: seq<string>, g: Graph, ai: seq<Edge>, ids: seq<string>, i: nat)
    requires CanMerge(norm, keys, g, ai) && |ids| == |ai| && AreFresh(ids, g.edges)
    requires i < |ai| && IsFirst(norm, ai, i) && IsOpenToAi(norm, g, ai[i])
    ensures IsOnlyShown(norm, keys, Merged(norm, keys, g, ai, ids).edges, ai[i], ids[i])
  {
    var current, merged := Normalized(norm, keys, g), Merged(norm, keys, g, ai, ids);
    var e := Contribution(norm, keys, ai[i], ids[i]);
    BarredIffNotOpen(norm, keys, g, ai[i]);
    FirstIsAccepted(norm, keys, Barred(norm, current), ai, ids, i);
    RefreshIsClean(norm, keys, g, ai, ids);
    assert e in merged.edges;
    var k :| 0 <= k < |merged.edges| && merged.edges[k] == e;
    assert IsShown(norm, keys, merged.edges[k], ai[i], ids[i]);
    forall j | 0 <= j < |merged.edges| && KeyOf(norm, merged.edges[j]) == KeyOf(norm, ai[i])
               && merged.edges[j].kind == ai[i].kind
      ensures j == k
    {
      assert j < k ==> AreApart(norm, merged.edges[j], merged.edges[k]);
      assert k < j ==> AreApart(norm, merged.edges[k], merged.edges[j]);
    }
  }

  /** And it brings nothing else: what the AI owns afterwards was proposed in this refresh. */
  lemma OnlyProposalsArrive(norm: Norm, keys: seq<string>, g: Graph, ai: seq<Edge>, ids: seq<string>, e: Edge)
    requires CanMerge(norm, keys, g, ai) && |ids| == |ai|
    requires e in Merged(norm, keys, g, ai, ids).edges && e.origin == Ai && !e.overridden
    ensures exists i: nat :: i < |ai| && IsFirst(norm, ai, i) && IsOpenToAi(norm, g, ai[i])
                             && IsShown(norm, keys, e, ai[i], ids[i])
  {
    var current := Normalized(norm, keys, g);
    KeptAreKept(current.edges);
    var i := AcceptedAreFirst(norm, keys, Barred(norm, current), ai, ids, e);
    BarredIffNotOpen(norm, keys, g, ai[i]);
    assert IsShown(norm, keys, e, ai[i], ids[i]);
  }

  lemma {:induction false} KeptAreKept(edges: seq<Edge>)
    ensures forall e | e in KeptEdges(edges) :: IsKept(e)
  {
    if edges != [] {
      KeptAreKept(edges[..|edges| - 1]);
    }
  }

  // ----- the save

  lemma {:induction false} PutPairKeys(norm: Norm, keys: seq<string>, pairs: seq<Pair>, p: Pair)
    ensures forall key :: key in Suppressed(norm, PutPair(norm, pairs, p)) <==>
              key in Suppressed(norm, pairs) || key == KeyOfPair(norm, p)
    ensures AreCleanPairs(norm, keys, pairs) && IsCleanPair(norm, keys, p) ==>
              AreCleanPairs(norm, keys, PutPair(norm, pairs, p))
  {
    if pairs == [] {
      assert [p][0] == p;
      assert KeyOfPair(norm, [p][0]) in Suppressed(norm, [p]);
    } else {
      var rest := pairs[1..];
      assert pairs == [pairs[0]] + rest;
      SuppressedCons(norm, pairs[0], rest);
      if KeyOfPair(norm, pairs[0]) == KeyOfPair(norm, p) {
        SuppressedCons(norm, p, rest);
        if AreCleanPairs(norm, keys, pairs) && IsCleanPair(norm, keys, p) {
          ReplaceFirst(norm, keys, pairs, p);
        }
      } else {
        PutPairKeys(norm, keys, rest, p);
        SuppressedCons(norm, pairs[0], PutPair(norm, rest, p));
        if AreCleanPairs(norm, keys, pairs) && IsCleanPair(norm, keys, p) {
          CleanCons(norm, keys, pairs, PutPair(norm, rest, p));
        }
      }
    }
  }

  lemma SuppressedCons(norm: Norm, p: Pair, rest: seq<Pair>)
    ensures Suppressed(norm, [p] + rest) == {KeyOfPair(norm, p)} + Suppressed(norm, rest)
  {
    var all := [p] + rest;
    assert all[0] == p;
    forall i | 0 <= i < |rest| ensures KeyOfPair(norm, rest[i]) in Suppressed(norm, all) {
      assert all[i + 1] == rest[i];
    }
  }

  lemma ReplaceFirst(norm: Norm, keys: seq<string>, pairs: seq<Pair>, p: Pair)
    requires pairs != [] && AreCleanPairs(norm, keys, pairs) && IsCleanPair(norm, keys, p)
    requires KeyOfPair(norm, pairs[0]) == KeyOfPair(norm, p)
    ensures AreCleanPairs(norm, keys, [p] + pairs[1..])
  {
    var all := [p] + pairs[1..];
    assert forall i | 0 < i < |all| :: all[i] == pairs[i];
  }

  lemma CleanCons(norm: Norm, keys: seq<string>, pairs: seq<Pair>, more: seq<Pair>)
    requires pairs != [] && AreCleanPairs(norm, keys, pairs)
    requires AreCleanPairs(norm, keys, pairs[1..]) ==> AreCleanPairs(norm, keys, more)
    requires KeyOfPair(norm, pairs[0]) !in Suppressed(norm, more)
             || KeyOfPair(norm, pairs[0]) in Suppressed(norm, pairs[1..])
    ensures AreCleanPairs(norm, keys, [pairs[0]] + more)
  {
    var rest := pairs[1..];
    assert forall i | 0 <= i < |rest| :: rest[i] == pairs[i + 1];
    assert KeyOfPair(norm, pairs[0]) !in Suppressed(norm, rest);
  }

  /** Some AI-owned edge left out of the save has this key. */
  ghost predicate IsRemovedPair(norm: Norm, edges: seq<Edge>, kept: set<string>, key: Key)
  {
    exists i :: 0 <= i < |edges| && IsRemoved(kept, edges[i]) && KeyOf(norm, edges[i]) == key
  }

  lemma {:induction false} RemovalsAreSuppressed(
    norm: Norm, keys: seq<string>, edges: seq<Edge>, kept: set<string>, pairs: seq<Pair>)
    requires forall i | 0 <= i < |edges| :: IsCleanEdge(norm, keys, edges[i])
    requires AreCleanPairs(norm, keys, pairs)
    ensures AreCleanPairs(norm, keys, WithRemovals(norm, edges, kept, pairs))
    ensures forall key :: key in Suppressed(norm, WithRemovals(norm, edges, kept, pairs)) <==>
              key in Suppressed(norm, pairs) || IsRemovedPair(norm, edges, kept, key)
  {
    if edges != [] {
      var n := |edges| - 1;
      var e := edges[n];
      RemovalsAreSuppressed(norm, keys, edges[..n], kept, pairs);
      forall key
        ensures IsRemovedPair(norm, edges, kept, key) <==>
                IsRemovedPair(norm, edges[..n], kept, key) || (IsRemoved(kept, e) && KeyOf(norm, e) == key)
      {
        RemovedPairAppend(norm, edges, kept, key);
      }
      if IsRemoved(kept, e) {
        assert IsCleanEdge(norm, keys, e);
        PutPairKeys(norm, keys, WithRemovals(norm, edges[..n], kept, pairs), Pair(e.source, e.target, e.directed));
      }
    }
  }

  lemma RemovedPairAppend(norm: Norm, edges: seq<Edge>, kept: set<string>, key: Key)
    requires edges != []
    ensures var n := |edges| - 1;
            IsRemovedPair(norm, edges, kept, key) <==>
            IsRemovedPair(norm, edges[..n], kept, key) || (IsRemoved(kept, edges[n]) && KeyOf(norm, edges[n]) == key)
  {
    var n := |edges| - 1;
    if IsRemovedPair(norm, edges[..n], kept, key) {
      var i :| 0 <= i < n && IsRemoved(kept, edges[..n][i]) && KeyOf(norm, edges[..n][i]) == key;
      assert edges[i] == edges[..n][i];
    }
    if IsRemovedPair(norm, edges, kept, key) {
      var i :| 0 <= i <= n && IsRemoved(kept, edges[i]) && KeyOf(norm, edges[i]) == key;
      assert i < n ==> edges[..n][i] == edges[i];
    }
  }

  lemma {:induction false} WithoutKeys(norm: Norm, keys: seq<string>, pairs: seq<Pair>, present: set<Key>)
    ensures forall key :: key in Suppressed(norm, Without(norm, pairs, present)) <==>
              key in Suppressed(norm, pairs) && key !in present
    ensures AreCleanPairs(norm, keys, pairs) ==> AreCleanPairs(norm, keys, Without(norm, pairs, present))
  {
    if pairs != [] {
      var n := |pairs| - 1;
      var before := Without(norm, pairs[..n], present);
      WithoutKeys(norm, keys, pairs[..n], present);
      assert pairs == pairs[..n] + [pairs[n]];
      SuppressedAppend(norm, pairs[..n], pairs[n]);
      SuppressedAppend(norm, before, pairs[n]);
      assert Without(norm, pairs, present) ==
             if KeyOfPair(norm, pairs[n]) in present then before else before + [pairs[n]];
      if AreCleanPairs(norm, keys, pairs) {
        CleanInit(norm, keys, pairs);
        if KeyOfPair(norm, pairs[n]) !in present {
          AppendPair(norm, keys, before, pairs[n]);
        }
      }
    }
  }

  lemma CleanInit(norm: Norm, keys: seq<string>, pairs: seq<Pair>)
    requires pairs != [] && AreCleanPairs(norm, keys, pairs)
    ensures var n := |pairs| - 1;
            AreCleanPairs(norm, keys, pairs[..n]) && IsCleanPair(norm, keys, pairs[n])
            && KeyOfPair(norm, pairs[n]) !in Suppressed(norm, pairs[..n])
  {
  }

  lemma {:induction false} ByIdIsEdge(edges: seq<Edge>, id: string)
    ensures ById(edges, id).Some? ==> ById(edges, id).value in edges && ById(edges, id).value.id == id
  {
    if edges != [] && edges[|edges| - 1].id != id {
      ByIdIsEdge(edges[..|edges| - 1], id);
    }
  }

  /** A saved edge has the id, the ends and the kind it was submitted with, and is clean. */
  lemma SavedIsClean(norm: Norm, keys: seq<string>, current: seq<Edge>, e: Edge)
    requires IsCleanEdge(norm, keys, e) && forall i | 0 <= i < |current| :: IsCleanEdge(norm, keys, current[i])
    ensures var saved := Saved(current, e);
            && IsCleanEdge(norm, keys, saved)
            && saved.id == e.id && KeyOf(norm, saved) == KeyOf(norm, e) && saved.kind == e.kind
  {
    ByIdIsEdge(current, e.id);
  }

  /** A save leaves a graph that needs no repair, and exactly the submitted edges. */
  lemma SaveIsClean(norm: Norm, keys: seq<string>, g: Graph, submitted: seq<Edge>)
    requires CanSave(norm, keys, g, submitted)
    ensures var saved := SavedGraph(norm, keys, g, submitted);
            && IsClean(norm, keys, saved) && IsNormal(norm, keys, saved)
            && saved.revision == g.revision + 1
            && |saved.edges| == |submitted|
            && Present(norm, saved.edges) == Present(norm, submitted)
            && forall i | 0 <= i < |submitted| :: saved.edges[i].id == submitted[i].id
  {
    var current := Normalized(norm, keys, g);
    var edges := SavedEdges(current.edges, ResolvedEdges(norm, keys, submitted));
    NormalizedIsClean(norm, keys, g);
    forall i | 0 <= i < |submitted|
      ensures IsCleanEdge(norm, keys, edges[i]) && edges[i].id == submitted[i].id
      ensures KeyOf(norm, edges[i]) == KeyOf(norm, submitted[i]) && edges[i].kind == submitted[i].kind
    {
      ResolvedIsClean(norm, keys, submitted[i]);
      SavedIsClean(norm, keys, current.edges, ResolvedEdges(norm, keys, submitted)[i]);
    }
    forall i, j | 0 <= i < j < |edges| ensures AreApart(norm, edges[i], edges[j]) {
      assert AreApart(norm, submitted[i], submitted[j]);
    }
    RemovalsAreSuppressed(norm, keys, current.edges, IdsOf(submitted), current.suppressed);
    WithoutKeys(
      norm, keys, WithRemovals(norm, current.edges, IdsOf(submitted), current.suppressed), Present(norm, edges));
    CleanIsNormal(norm, keys, SavedGraph(norm, keys, g, submitted));
  }

  /**
   Exactly which pairs are suppressed after a save: those that were, and those of AI-owned edges the user left out, as
   long as the save itself has no edge on them.
   */
  lemma SuppressedAfterSave(norm: Norm, keys: seq<string>, g: Graph, submitted: seq<Edge>, key: Key)
    requires CanSave(norm, keys, g, submitted)
    ensures var current, saved := Normalized(norm, keys, g), SavedGraph(norm, keys, g, submitted);
            key in Suppressed(norm, saved.suppressed) <==>
            && (key in Suppressed(norm, current.suppressed)
                || IsRemovedPair(norm, current.edges, IdsOf(submitted), key))
            && key !in Present(norm, submitted)
  {
    var current := Normalized(norm, keys, g);
    NormalizedIsClean(norm, keys, g);
    SaveIsClean(norm, keys, g, submitted);
    RemovalsAreSuppressed(norm, keys, current.edges, IdsOf(submitted), current.suppressed);
    WithoutKeys(
      norm, keys, WithRemovals(norm, current.edges, IdsOf(submitted), current.suppressed),
      Present(norm, SavedGraph(norm, keys, g, submitted).edges));
  }

  lemma {:induction false} ByIdFinds(norm: Norm, edges: seq<Edge>, k: nat)
    requires AreAllApart(norm, edges) && k < |edges|
    ensures ById(edges, edges[k].id) == Some(edges[k])
  {
    var n := |edges| - 1;
    if k < n {
      assert AreApart(norm, edges[k], edges[n]);
      ByIdFinds(norm, edges[..n], k);
    }
  }

  /**
   Who owns a saved edge: one that looks as it did is kept as it was, AI-owned or not; every other one is the user's,
   and shows what the user submitted. The AI's confidence stays with the id.
   */
  lemma SaveAssignsOwners(norm: Norm, keys: seq<string>, g: Graph, submitted: seq<Edge>, i: nat)
    requires CanSave(norm, keys, g, submitted) && i < |submitted|
    ensures var current, saved := Normalized(norm, keys, g), SavedGraph(norm, keys, g, submitted);
            var asked := ResolvedEdges(norm, keys, submitted)[i];
            && LooksTheSame(saved.edges[i], asked)
            && (forall k | 0 <= k < |current.edges|
                           && current.edges[k].id == asked.id && LooksTheSame(current.edges[k], asked) ::
                  saved.edges[i] == current.edges[k])
            && ((forall k | 0 <= k < |current.edges| && current.edges[k].id == asked.id ::
                !LooksTheSame(current.edges[k], asked)) ==>
                  saved.edges[i].origin == Manual && saved.edges[i].overridden)
            && (forall k | 0 <= k < |current.edges| && current.edges[k].id == asked.id ::
                  saved.edges[i].confidence == current.edges[k].confidence)
            && ((forall k | 0 <= k < |current.edges| :: current.edges[k].id != asked.id) ==>
                  saved.edges[i].confidence == None)
  {
    var current := Normalized(norm, keys, g);
    var asked := ResolvedEdges(norm, keys, submitted)[i];
    NormalizedIsClean(norm, keys, g);
    ByIdIsEdge(current.edges, asked.id);
    forall k | 0 <= k < |current.edges| && current.edges[k].id == asked.id
      ensures ById(current.edges, asked.id) == Some(current.edges[k])
    {
      ByIdFinds(norm, current.edges, k);
    }
  }

  // ----- runs

  /** The list of characters may be another one at every step. */
  datatype Step =
    | Refresh(refreshKeys: seq<string>, ai: seq<Edge>, ids: seq<string>)
    | Save(keys: seq<string>, submitted: seq<Edge>)

  ghost predicate Next(norm: Norm, g: Graph, step: Step, g': Graph)
  {
    match step
    case Refresh(keys, ai, ids) =>
      && CanMerge(norm, keys, g, ai) && |ids| == |ai| && AreFresh(ids, g.edges)
      && g' == Merged(norm, keys, g, ai, ids)
    case Save(keys, submitted) =>
      CanSave(norm, keys, g, submitted) && g' == SavedGraph(norm, keys, g, submitted)
  }

  ghost predicate IsRun(norm: Norm, states: seq<Graph>, steps: seq<Step>)
  {
    && |states| == |steps| + 1
    && states[0] == Graph(0, [], [])
    && forall i | 0 <= i < |steps| :: Next(norm, states[i], steps[i], states[i + 1])
  }

  /** No pair is both joined and suppressed, and no suppressed pair is a self pair. */
  ghost predicate IsSound(norm: Norm, g: Graph)
  {
    && Present(norm, g.edges) !! Suppressed(norm, g.suppressed)
    && forall i | 0 <= i < |g.suppressed| :: norm(g.suppressed[i].source) != norm(g.suppressed[i].target)
  }

  /** Normalizing for another list of characters changes no pair. */
  lemma NormalizingKeepsPairs(norm: Norm, keys: seq<string>, g: Graph)
    requires IsAcceptable(norm, keys, g) && IsSound(norm, g)
    ensures Present(norm, Normalized(norm, keys, g).edges) == Present(norm, g.edges)
    ensures Suppressed(norm, Normalized(norm, keys, g).suppressed) == Suppressed(norm, g.suppressed)
  {
    ResolvedEdgesKeepKeys(norm, keys, g.edges);
    ResolvedPairsKeepKeys(norm, keys, g.suppressed);
  }

  lemma CleanPairsAreNoSelfPairs(norm: Norm, keys: seq<string>, pairs: seq<Pair>)
    requires AreCleanPairs(norm, keys, pairs)
    ensures forall i | 0 <= i < |pairs| :: norm(pairs[i].source) != norm(pairs[i].target)
  {
    forall i | 0 <= i < |pairs| ensures norm(pairs[i].source) != norm(pairs[i].target) {
      assert IsCleanPair(norm, keys, pairs[i]);
    }
  }

  lemma RefreshIsSound(norm: Norm, keys: seq<string>, g: Graph, ai: seq<Edge>, ids: seq<string>)
    requires IsSound(norm, g) && CanMerge(norm, keys, g, ai) && |ids| == |ai| && AreFresh(ids, g.edges)
    ensures var merged := Merged(norm, keys, g, ai, ids);
            IsSound(norm, merged) && Suppressed(norm, merged.suppressed) == Suppressed(norm, g.suppressed)
  {
    var current, merged := Normalized(norm, keys, g), Merged(norm, keys, g, ai, ids);
    RefreshIsClean(norm, keys, g, ai, ids);
    NormalizingKeepsPairs(norm, keys, g);
    CleanPairsAreNoSelfPairs(norm, keys, merged.suppressed);
    forall i | 0 <= i < |merged.edges| ensures KeyOf(norm, merged.edges[i]) !in Suppressed(norm, g.suppressed) {
      var e := merged.edges[i];
      assert e in merged.edges;
      if e in current.edges {
        InPresent(norm, current.edges, e);
      }
    }
  }

  lemma SaveIsSound(norm: Norm, keys: seq<string>, g: Graph, submitted: seq<Edge>)
    requires CanSave(norm, keys, g, submitted)
    ensures IsSound(norm, SavedGraph(norm, keys, g, submitted))
  {
    var saved := SavedGraph(norm, keys, g, submitted);
    SaveIsClean(norm, keys, g, submitted);
    CleanPairsAreNoSelfPairs(norm, keys, saved.suppressed);
    forall key | key in Suppressed(norm, saved.suppressed) ensures key !in Present(norm, saved.edges) {
      SuppressedAfterSave(norm, keys, g, submitted, key);
    }
  }

  /**
   In every run from the empty graph no pair is ever both joined and suppressed, and the revision counts the steps.
   */
  lemma {:induction false} RunIsSound(norm: Norm, states: seq<Graph>, steps: seq<Step>, i: nat)
    requires IsRun(norm, states, steps) && i < |states|
    ensures IsSound(norm, states[i]) && states[i].revision == i
  {
    if i > 0 {
      RunIsSound(norm, states, steps, i - 1);
      assert Next(norm, states[i - 1], steps[i - 1], states[i - 1 + 1]);
      match steps[i - 1]
      case Refresh(keys, ai, ids) => RefreshIsSound(norm, keys, states[i - 1], ai, ids);
      case Save(keys, submitted) => SaveIsSound(norm, keys, states[i - 1], submitted);
    }
  }

  /** The save itself puts an edge on the pair. */
  ghost predicate Restores(norm: Norm, step: Step, key: Key)
  {
    step.Save? && key in Present(norm, step.submitted)
  }

  /** A suppressed pair stays suppressed, and without an edge, until the user saves an edge on it. */
  lemma {:induction false} SuppressionPersists(
    norm: Norm, states: seq<Graph>, steps: seq<Step>, i: nat, j: nat, key: Key)
    requires IsRun(norm, states, steps) && i <= j < |states|
    requires key in Suppressed(norm, states[i].suppressed)
    requires forall k | i <= k < j :: !Restores(norm, steps[k], key)
    ensures key in Suppressed(norm, states[j].suppressed) && key !in Present(norm, states[j].edges)
  {
    if i < j {
      SuppressionPersists(norm, states, steps, i, j - 1, key);
      RunIsSound(norm, states, steps, j - 1);
      StepKeepsSuppressed(norm, states, steps, j, key);
    }
    RunIsSound(norm, states, steps, j);
    SuppressedIsAbsent(norm, states[j], key);
  }

  lemma SuppressedIsAbsent(norm: Norm, g: Graph, key: Key)
    requires IsSound(norm, g) && key in Suppressed(norm, g.suppressed)
    ensures key !in Present(norm, g.edges)
  {
  }

  lemma StepKeepsSuppressed(norm: Norm, states: seq<Graph>, steps: seq<Step>, j: nat, key: Key)
    requires IsRun(norm, states, steps) && 0 < j < |states| && IsSound(norm, states[j - 1])
    requires key in Suppressed(norm, states[j - 1].suppressed) && !Restores(norm, steps[j - 1], key)
    ensures key in Suppressed(norm, states[j].suppressed)
  {
    assert Next(norm, states[j - 1], steps[j - 1], states[j - 1 + 1]);
    match steps[j - 1]
    case Refresh(keys, ai, ids) => RefreshIsSound(norm, keys, states[j - 1], ai, ids);
    case Save(keys, submitted) =>
      NormalizingKeepsPairs(norm, keys, states[j - 1]);
      SuppressedAfterSave(norm, keys, states[j - 1], submitted, key);
  }

  /**
   When a save leaves out an AI-owned edge and has no edge on its pair, no later sequence of refreshes and saves brings
   the pair back until a save itself does.
   */
  lemma RemovalIsRemembered(
    norm: Norm, states: seq<Graph>, steps: seq<Step>, i: nat, j: nat, e: Edge)
    requires IsRun(norm, states, steps) && i < j < |states| && steps[i].Save?
    requires e in states[i].edges && IsRemoved(IdsOf(steps[i].submitted), e)
    requires forall k | i <= k < j :: !Restores(norm, steps[k], KeyOf(norm, e))
    ensures KeyOf(norm, e) !in Present(norm, states[j].edges)
  {
    var keys, submitted := steps[i].keys, steps[i].submitted;
    assert Next(norm, states[i], steps[i], states[i + 1]);
    var n :| 0 <= n < |states[i].edges| && states[i].edges[n] == e;
    var current := Normalized(norm, keys, states[i]);
    assert current.edges[n] == Resolved(norm, keys, e);
    assert IsRemoved(IdsOf(submitted), current.edges[n]) && KeyOf(norm, current.edges[n]) == KeyOf(norm, e);
    SuppressedAfterSave(norm, keys, states[i], submitted, KeyOf(norm, e));
    SuppressionPersists(norm, states, steps, i + 1, j, KeyOf(norm, e));
  }
}
