/**
 The character relation graph: normalization, the AI refresh, and the user's save.

 `norm` is the Unicode normalization under which names are compared; `keys` are the project's character names in order.
 */
module Relations {
  import opened Strings
  import opened Wrappers

  datatype Origin = Ai | Manual

  datatype Edge = Edge(
    id: string, source: string, target: string, kind: string, caption: string, directed: bool, description: string,
    origin: Origin, overridden: bool, confidence: Option<int>)

  datatype Pair = Pair(source: string, target: string, directed: bool)

  datatype Graph = Graph(revision: nat, edges: seq<Edge>, suppressed: seq<Pair>)

  datatype RelationError = UnknownCharacter | SelfRelation | DuplicateId | DuplicateRelation

  type Norm = string -> string

  // ----- names and pairs

  /** resolve_asset_key: the last key that reads the same. */
  function Resolve(norm: Norm, keys: seq<string>, name: string): (r: Option<string>)
    ensures r.Some? ==> norm(r.value) == norm(name)
  {
    if keys == [] then None
    else if norm(keys[|keys| - 1]) == norm(name) then Some(keys[|keys| - 1])
    else Resolve(norm, keys[..|keys| - 1], name)
  }

  /** Only the normal form of a name decides what it resolves to. */
  lemma {:induction false} ResolveByNorm(norm: Norm, keys: seq<string>, a: string, b: string)
    requires norm(a) == norm(b)
    ensures Resolve(norm, keys, a) == Resolve(norm, keys, b)
  {
    if keys != [] {
      ResolveByNorm(norm, keys[..|keys| - 1], a, b);
    }
  }

  /** A name resolves exactly when some character reads the same, and then to the last of those. */
  lemma {:induction false} ResolveFindsLast(norm: Norm, keys: seq<string>, name: string)
    ensures var r := Resolve(norm, keys, name);
            && (r.None? <==> forall i | 0 <= i < |keys| :: norm(keys[i]) != norm(name))
            && (r.Some? ==> exists i :: 0 <= i < |keys| && keys[i] == r.value && norm(keys[i]) == norm(name)
                                        && forall j | i < j < |keys| :: norm(keys[j]) != norm(name))
  {
    if keys != [] {
      var n := |keys| - 1;
      ResolveFindsLast(norm, keys[..n], name);
      assert forall i | 0 <= i < n :: keys[..n][i] == keys[i];
      if norm(keys[n]) != norm(name) && Resolve(norm, keys[..n], name).Some? {
        var i :| 0 <= i < n && keys[..n][i] == Resolve(norm, keys[..n], name).value && norm(keys[..n][i]) == norm(name)
                 && forall j | i < j < n :: norm(keys[..n][j]) != norm(name);
        assert keys[i] == Resolve(norm, keys, name).value;
      }
    }
  }

  /** The identity of a pair: names in normal form, in order when the relation has no direction. */
  function PairKey(norm: Norm, source: string, target: string, directed: bool): (string, string, bool)
  {
    if !directed && Less(norm(target), norm(source)) then (norm(target), norm(source), directed)
    else (norm(source), norm(target), directed)
  }

  /** Two pairs have one key exactly when they join the same characters, either way round unless directed. */
  lemma SamePairKey(norm: Norm, a: Pair, b: Pair)
    ensures PairKey(norm, a.source, a.target, a.directed) == PairKey(norm, b.source, b.target, b.directed) <==>
            && a.directed == b.directed
            && ((norm(a.source) == norm(b.source) && norm(a.target) == norm(b.target))
                || (!a.directed && norm(a.source) == norm(b.target) && norm(a.target) == norm(b.source)))
  {
    LessIsTotal(norm(a.source), norm(a.target));
    LessIsTotal(norm(b.source), norm(b.target));
  }

  type Key = (string, string, bool)

  function KeyOf(norm: Norm, e: Edge): Key
  {
    PairKey(norm, e.source, e.target, e.directed)
  }

  function KeyOfPair(norm: Norm, p: Pair): Key
  {
    PairKey(norm, p.source, p.target, p.directed)
  }

  /** The pairs joined by an edge, and the suppressed ones. */
  function Present(norm: Norm, edges: seq<Edge>): set<Key>
  {
    set i | 0 <= i < |edges| :: KeyOf(norm, edges[i])
  }

  function Suppressed(norm: Norm, pairs: seq<Pair>): set<Key>
  {
    set i | 0 <= i < |pairs| :: KeyOfPair(norm, pairs[i])
  }

  lemma PresentAppend(norm: Norm, edges: seq<Edge>, e: Edge)
    ensures Present(norm, edges + [e]) == Present(norm, edges) + {KeyOf(norm, e)}
  {
    var all := edges + [e];
    forall i | 0 <= i < |edges| ensures KeyOf(norm, edges[i]) in Present(norm, all) {
      assert all[i] == edges[i];
    }
    assert all[|edges|] == e;
  }

  lemma SuppressedAppend(norm: Norm, pairs: seq<Pair>, p: Pair)
    ensures Suppressed(norm, pairs + [p]) == Suppressed(norm, pairs) + {KeyOfPair(norm, p)}
  {
    var all := pairs + [p];
    forall i | 0 <= i < |pairs| ensures KeyOfPair(norm, pairs[i]) in Suppressed(norm, all) {
      assert all[i] == pairs[i];
    }
    assert all[|pairs|] == p;
  }

  // ----- normalization

  /** Both ends are known characters, and not the same one. */
  predicate IsEdgeOk(norm: Norm, keys: seq<string>, e: Edge)
  {
    Resolve(norm, keys, e.source).Some? && Resolve(norm, keys, e.target).Some? && norm(e.source) != norm(e.target)
  }

  function Resolved(norm: Norm, keys: seq<string>, e: Edge): (r: Edge)
    requires IsEdgeOk(norm, keys, e)
    ensures KeyOf(norm, r) == KeyOf(norm, e) && r == e.(source := r.source, target := r.target)
  {
    e.(source := Resolve(norm, keys, e.source).value, target := Resolve(norm, keys, e.target).value)
  }

  /** Edges do not share an id, nor a pair together with a kind. */
  ghost predicate AreApart(norm: Norm, a: Edge, b: Edge)
  {
    a.id != b.id && (KeyOf(norm, a) != KeyOf(norm, b) || a.kind != b.kind)
  }

  ghost predicate AreAllApart(norm: Norm, edges: seq<Edge>)
  {
    forall i, j | 0 <= i < j < |edges| :: AreApart(norm, edges[i], edges[j])
  }

  ghost predicate AreEdgesOk(norm: Norm, keys: seq<string>, edges: seq<Edge>)
  {
    (forall i | 0 <= i < |edges| :: IsEdgeOk(norm, keys, edges[i])) && AreAllApart(norm, edges)
  }

  predicate IsPairKnown(norm: Norm, keys: seq<string>, p: Pair)
  {
    Resolve(norm, keys, p.source).Some? && Resolve(norm, keys, p.target).Some?
  }

  ghost predicate IsAcceptable(norm: Norm, keys: seq<string>, g: Graph)
  {
    && AreEdgesOk(norm, keys, g.edges)
    && forall i | 0 <= i < |g.suppressed| :: IsPairKnown(norm, keys, g.suppressed[i])
  }

  function ResolvedEdges(norm: Norm, keys: seq<string>, edges: seq<Edge>): (r: seq<Edge>)
    requires forall i | 0 <= i < |edges| :: IsEdgeOk(norm, keys, edges[i])
  {
    seq(|edges|, i requires 0 <= i < |edges| => Resolved(norm, keys, edges[i]))
  }

  function ResolvedPair(norm: Norm, keys: seq<string>, p: Pair): (r: Pair)
    requires IsPairKnown(norm, keys, p)
    ensures KeyOfPair(norm, r) == KeyOfPair(norm, p) && r.directed == p.directed
    ensures norm(r.source) == norm(p.source) && norm(r.target) == norm(p.target)
  {
    Pair(Resolve(norm, keys, p.source).value, Resolve(norm, keys, p.target).value, p.directed)
  }

  /** Suppressed pairs with resolved names; self pairs and repetitions are dropped. */
  function ResolvedPairs(norm: Norm, keys: seq<string>, pairs: seq<Pair>): seq<Pair>
    requires forall i | 0 <= i < |pairs| :: IsPairKnown(norm, keys, pairs[i])
  {
    if pairs == [] then []
    else
      var before := ResolvedPairs(norm, keys, pairs[..|pairs| - 1]);
      var p := pairs[|pairs| - 1];
      if norm(p.source) == norm(p.target) || KeyOfPair(norm, p) in Suppressed(norm, before) then before
      else before + [ResolvedPair(norm, keys, p)]
  }

  function Normalized(norm: Norm, keys: seq<string>, g: Graph): Graph
    requires IsAcceptable(norm, keys, g)
  {
    Graph(g.revision, ResolvedEdges(norm, keys, g.edges), ResolvedPairs(norm, keys, g.suppressed))
  }

  function IdsOf(edges: seq<Edge>): set<string>
  {
    set i | 0 <= i < |edges| :: edges[i].id
  }

  lemma OneMoreId(edges: seq<Edge>, i: nat)
    requires i < |edges|
    ensures IdsOf(edges[..i + 1]) == IdsOf(edges[..i]) + {edges[i].id}
  {
    assert edges[..i + 1][i] == edges[i];
    forall k | 0 <= k < i ensures edges[..i + 1][k] == edges[..i][k] {
    }
  }

  /** The pairs of edges together with their kinds. */
  function RelationsOf(norm: Norm, edges: seq<Edge>): set<(Key, string)>
  {
    set i | 0 <= i < |edges| :: (KeyOf(norm, edges[i]), edges[i].kind)
  }

  lemma OneMoreRelation(norm: Norm, edges: seq<Edge>, i: nat)
    requires i < |edges|
    ensures RelationsOf(norm, edges[..i + 1]) ==
            RelationsOf(norm, edges[..i]) + {(KeyOf(norm, edges[i]), edges[i].kind)}
  {
    assert edges[..i + 1][i] == edges[i];
    forall k | 0 <= k < i ensures edges[..i + 1][k] == edges[..i][k] {
    }
  }

  /** Whether one more edge goes with those before it. */
  predicate Joins(norm: Norm, keys: seq<string>, edges: seq<Edge>, e: Edge)
  {
    && IsEdgeOk(norm, keys, e)
    && e.id !in IdsOf(edges)
    && (KeyOf(norm, e), e.kind) !in RelationsOf(norm, edges)
  }

  lemma OneMoreEdge(norm: Norm, keys: seq<string>, edges: seq<Edge>, i: nat)
    requires i < |edges| && AreEdgesOk(norm, keys, edges[..i]) && Joins(norm, keys, edges[..i], edges[i])
    ensures AreEdgesOk(norm, keys, edges[..i + 1])
  {
    var before, all := edges[..i], edges[..i + 1];
    forall k | 0 <= k <= i ensures IsEdgeOk(norm, keys, all[k]) {
      assert k < i ==> all[k] == before[k];
    }
    forall j, k | 0 <= j < k <= i ensures AreApart(norm, all[j], all[k]) {
      assert all[j] == before[j];
      assert before[j].id in IdsOf(before) && (KeyOf(norm, before[j]), before[j].kind) in RelationsOf(norm, before);
      assert k < i ==> all[k] == before[k] && AreApart(norm, before[j], before[k]);
    }
  }

  lemma OneTooMany(norm: Norm, keys: seq<string>, edges: seq<Edge>, i: nat)
    requires i < |edges| && !Joins(norm, keys, edges[..i], edges[i])
    ensures !AreEdgesOk(norm, keys, edges)
  {
    if IsEdgeOk(norm, keys, edges[i]) {
      var k :| 0 <= k < i && !AreApart(norm, edges[k], edges[i]);
    }
  }

  lemma ResolvedAppend(norm: Norm, keys: seq<string>, edges: seq<Edge>, i: nat)
    requires i < |edges| && AreEdgesOk(norm, keys, edges[..i + 1]) && AreEdgesOk(norm, keys, edges[..i])
    requires IsEdgeOk(norm, keys, edges[i])
    ensures ResolvedEdges(norm, keys, edges[..i + 1]) ==
            ResolvedEdges(norm, keys, edges[..i]) + [Resolved(norm, keys, edges[i])]
  {
  }

  /** What each reason for refusing a list of edges says about it. */
  ghost predicate IsTrueError(norm: Norm, keys: seq<string>, edges: seq<Edge>, error: RelationError)
  {
    match error
    case UnknownCharacter =>
      exists e :: e in edges && (Resolve(norm, keys, e.source).None? || Resolve(norm, keys, e.target).None?)
    case SelfRelation => exists e :: e in edges && norm(e.source) == norm(e.target)
    case DuplicateId => exists i, j :: 0 <= i < j < |edges| && edges[i].id == edges[j].id
    case DuplicateRelation =>
      exists i, j :: 0 <= i < j < |edges| && KeyOf(norm, edges[i]) == KeyOf(norm, edges[j])
                     && edges[i].kind == edges[j].kind
  }

  method NormalizeEdges(norm: Norm, keys: seq<string>, edges: seq<Edge>) returns (r: Result<seq<Edge>, RelationError>)
    ensures r.Ok? <==> AreEdgesOk(norm, keys, edges)
    ensures r.Ok? ==> r.value == ResolvedEdges(norm, keys, edges)
    ensures r.Err? ==> IsTrueError(norm, keys, edges, r.error)
  {
    var ids: set<string>, relationKeys: set<(Key, string)> := {}, {};
    var normalized: seq<Edge> := [];
    for i := 0 to |edges|
      invariant AreEdgesOk(norm, keys, edges[..i]) && normalized == ResolvedEdges(norm, keys, edges[..i])
      invariant ids == IdsOf(edges[..i]) && relationKeys == RelationsOf(norm, edges[..i])
    {
      var e := edges[i];
      if !Joins(norm, keys, edges[..i], e) {
        OneTooMany(norm, keys, edges, i);
      }
      var source, target := Resolve(norm, keys, e.source), Resolve(norm, keys, e.target);
      if source.None? || target.None? {
        return Err(UnknownCharacter);
      }
      ResolveKeepsNorm(norm, keys, e);
      if norm(source.value) == norm(target.value) {
        return Err(SelfRelation);
      }
      if e.id in ids {
        return Err(DuplicateId);
      }
      var relationKey := (PairKey(norm, source.value, target.value, e.directed), e.kind);
      if relationKey in relationKeys {
        return Err(DuplicateRelation);
      }
      OneMoreEdge(norm, keys, edges, i);
      ResolvedAppend(norm, keys, edges, i);
      OneMoreId(edges, i);
      OneMoreRelation(norm, edges, i);
      ids := ids + {e.id};
      relationKeys := relationKeys + {relationKey};
      normalized := normalized + [e.(source := source.value, target := target.value)];
    }
    assert edges[..|edges|] == edges;
    return Ok(normalized);
  }

  /** A resolved name has the normal form of the name it stands for. */
  lemma ResolveKeepsNorm(norm: Norm, keys: seq<string>, e: Edge)
    requires Resolve(norm, keys, e.source).Some? && Resolve(norm, keys, e.target).Some?
    ensures var source, target := Resolve(norm, keys, e.source).value, Resolve(norm, keys, e.target).value;
            && norm(source) == norm(e.source) && norm(target) == norm(e.target)
            && PairKey(norm, source, target, e.directed) == KeyOf(norm, e)
  {
  }

  method NormalizePairs(norm: Norm, keys: seq<string>, pairs: seq<Pair>) returns (r: Result<seq<Pair>, RelationError>)
    ensures r.Ok? <==> forall i | 0 <= i < |pairs| :: IsPairKnown(norm, keys, pairs[i])
    ensures r.Ok? ==> r.value == ResolvedPairs(norm, keys, pairs)
  {
    var normalized: seq<Pair>, seen: set<Key> := [], {};
    for i := 0 to |pairs|
      invariant forall k | 0 <= k < i :: IsPairKnown(norm, keys, pairs[k])
      invariant normalized == ResolvedPairs(norm, keys, pairs[..i]) && seen == Suppressed(norm, normalized)
    {
      var p := pairs[i];
      if !IsPairKnown(norm, keys, p) {
        return Err(UnknownCharacter);
      }
      OneMorePair(norm, keys, pairs, i);
      var q := ResolvedPair(norm, keys, p);
      if norm(q.source) == norm(q.target) {
        continue;
      }
      var key := KeyOfPair(norm, q);
      if key !in seen {
        SuppressedAppend(norm, normalized, q);
        seen := seen + {key};
        normalized := normalized + [q];
      }
    }
    assert pairs[..|pairs|] == pairs;
    return Ok(normalized);
  }

  lemma OneMorePair(norm: Norm, keys: seq<string>, pairs: seq<Pair>, i: nat)
    requires i < |pairs| && forall k | 0 <= k <= i :: IsPairKnown(norm, keys, pairs[k])
    ensures ResolvedPairs(norm, keys, pairs[..i + 1]) ==
            var before, q := ResolvedPairs(norm, keys, pairs[..i]), ResolvedPair(norm, keys, pairs[i]);
            if norm(q.source) == norm(q.target) || KeyOfPair(norm, q) in Suppressed(norm, before) then before
            else before + [q]
  {
    assert pairs[..i + 1][..i] == pairs[..i];
  }

  method Normalize(norm: Norm, keys: seq<string>, g: Graph) returns (r: Result<Graph, RelationError>)
    ensures r.Ok? <==> IsAcceptable(norm, keys, g)
    ensures r.Ok? ==> r.value == Normalized(norm, keys, g)
  {
    var edges := NormalizeEdges(norm, keys, g.edges);
    if edges.Err? {
      return Err(edges.error);
    }
    var pairs := NormalizePairs(norm, keys, g.suppressed);
    if pairs.Err? {
      return Err(pairs.error);
    }
    return Ok(Graph(g.revision, edges.value, pairs.value));
  }

  // ----- the AI refresh

  predicate IsKept(e: Edge)
  {
    e.origin == Manual || e.overridden
  }

  function KeptEdges(edges: seq<Edge>): seq<Edge>
  {
    if edges == [] then []
    else KeptEdges(edges[..|edges| - 1]) + (if IsKept(edges[|edges| - 1]) then [edges[|edges| - 1]] else [])
  }

  /**
   The AI's edges that go in: fresh ids, AI-owned, and none on a pair that is protected, suppressed or repeated in
   kind.
   */
  function Accepted(norm: Norm, keys: seq<string>, barred: set<Key>, ai: seq<Edge>, ids: seq<string>): (r: seq<Edge>)
    requires |ids| == |ai| && forall i | 0 <= i < |ai| :: IsEdgeOk(norm, keys, ai[i])
  {
    if ai == [] then []
    else
      var n := |ai| - 1;
      var before := Accepted(norm, keys, barred, ai[..n], ids[..n]);
      var e := Resolved(norm, keys, ai[n]).(id := ids[n], origin := Ai, overridden := false);
      if KeyOf(norm, e) in barred || HasRelation(norm, before, KeyOf(norm, e), e.kind) then before else before + [e]
  }

  predicate HasRelation(norm: Norm, edges: seq<Edge>, key: Key, kind: string)
  {
    exists i | 0 <= i < |edges| :: KeyOf(norm, edges[i]) == key && edges[i].kind == kind
  }

  ghost predicate CanMerge(norm: Norm, keys: seq<string>, g: Graph, ai: seq<Edge>)
  {
    IsAcceptable(norm, keys, g) && forall i | 0 <= i < |ai| :: IsEdgeOk(norm, keys, ai[i])
  }

  /** The pairs the AI may not touch. */
  function Barred(norm: Norm, current: Graph): set<Key>
  {
    Present(norm, KeptEdges(current.edges)) + Suppressed(norm, current.suppressed)
  }

  function Merged(norm: Norm, keys: seq<string>, g: Graph, ai: seq<Edge>, ids: seq<string>): Graph
    requires CanMerge(norm, keys, g, ai) && |ids| == |ai|
  {
    var current := Normalized(norm, keys, g);
    Graph(current.revision + 1, KeptEdges(current.edges) + Accepted(norm, keys, Barred(norm, current), ai, ids),
          current.suppressed)
  }

  /** `ids` are the random ids drawn for the AI's edges. */
  method MergeAi(norm: Norm, keys: seq<string>, g: Graph, ai: seq<Edge>, ids: seq<string>)
    returns (r: Result<Graph, RelationError>)
    requires |ids| == |ai|
    ensures r.Ok? <==> CanMerge(norm, keys, g, ai)
    ensures r.Ok? ==> r.value == Merged(norm, keys, g, ai, ids)
  {
    var normalized := Normalize(norm, keys, g);
    if normalized.Err? {
      return Err(normalized.error);
    }
    var current := normalized.value;
    var kept, protected := SplitKept(norm, current.edges);
    var accepted := AcceptAi(norm, keys, protected, Suppressed(norm, current.suppressed), ai, ids);
    if accepted.Err? {
      return Err(accepted.error);
    }
    return Ok(Graph(current.revision + 1, kept + accepted.value, current.suppressed));
  }

  method AcceptAi(
    norm: Norm, keys: seq<string>, protected: set<Key>, suppressed: set<Key>, ai: seq<Edge>, ids: seq<string>)
    returns (r: Result<seq<Edge>, RelationError>)
    requires |ids| == |ai|
    ensures r.Ok? <==> forall i | 0 <= i < |ai| :: IsEdgeOk(norm, keys, ai[i])
    ensures r.Ok? ==> r.value == Accepted(norm, keys, protected + suppressed, ai, ids)
  {
    var merged: seq<Edge>, seen: set<(Key, string)> := [], {};
    for i := 0 to |ai|
      invariant forall k | 0 <= k < i :: IsEdgeOk(norm, keys, ai[k])
      invariant merged == Accepted(norm, keys, protected + suppressed, ai[..i], ids[..i])
      invariant IsSeen(norm, merged, seen)
    {
      if !IsEdgeOk(norm, keys, ai[i]) {
        return Err(UnknownCharacter);
      }
      OneMoreAccepted(norm, keys, protected + suppressed, ai, ids, i);
      var e := Resolved(norm, keys, ai[i]).(id := ids[i], origin := Ai, overridden := false);
      var key := KeyOf(norm, e);
      if key in protected || key in suppressed || (key, e.kind) in seen {
        continue;
      }
      HasRelationAppend(norm, merged, e);
      seen := seen + {(key, e.kind)};
      merged := merged + [e];
    }
    assert ai[..|ai|] == ai && ids[..|ids|] == ids;
    return Ok(merged);
  }

  lemma OneMoreAccepted(norm: Norm, keys: seq<string>, barred: set<Key>, ai: seq<Edge>, ids: seq<string>, i: nat)
    requires |ids| == |ai| && i < |ai| && forall k | 0 <= k <= i :: IsEdgeOk(norm, keys, ai[k])
    ensures Accepted(norm, keys, barred, ai[..i + 1], ids[..i + 1]) ==
            var before := Accepted(norm, keys, barred, ai[..i], ids[..i]);
            var e := Resolved(norm, keys, ai[i]).(id := ids[i], origin := Ai, overridden := false);
            if KeyOf(norm, e) in barred || HasRelation(norm, before, KeyOf(norm, e), e.kind) then before
            else before + [e]
  {
    assert ai[..i + 1][..i] == ai[..i] && ids[..i + 1][..i] == ids[..i];
  }

  ghost predicate IsSeen(norm: Norm, edges: seq<Edge>, seen: set<(Key, string)>)
  {
    forall key, kind :: (key, kind) in seen <==> HasRelation(norm, edges, key, kind)
  }

  lemma HasRelationAppend(norm: Norm, edges: seq<Edge>, e: Edge)
    ensures forall key, kind :: HasRelation(norm, edges + [e], key, kind) <==>
              HasRelation(norm, edges, key, kind) || (key == KeyOf(norm, e) && kind == e.kind)
  {
    var all := edges + [e];
    forall key, kind | HasRelation(norm, edges, key, kind) ensures HasRelation(norm, all, key, kind) {
      var i :| 0 <= i < |edges| && KeyOf(norm, edges[i]) == key && edges[i].kind == kind;
      assert all[i] == edges[i];
    }
    assert all[|edges|] == e;
  }

  method SplitKept(norm: Norm, edges: seq<Edge>) returns (kept: seq<Edge>, protected: set<Key>)
    ensures kept == KeptEdges(edges) && protected == Present(norm, kept)
  {
    kept, protected := [], {};
    for i := 0 to |edges|
      invariant kept == KeptEdges(edges[..i]) && protected == Present(norm, kept)
    {
      assert edges[..i + 1][..i] == edges[..i];
      if IsKept(edges[i]) {
        PresentAppend(norm, kept, edges[i]);
        kept := kept + [edges[i]];
        protected := protected + {KeyOf(norm, edges[i])};
      }
    }
    assert edges[..|edges|] == edges;
  }

  // ----- the user's save

  /** The edge with this id; ids are distinct. */
  function ById(edges: seq<Edge>, id: string): Option<Edge>
  {
    if edges == [] then None
    else if edges[|edges| - 1].id == id then Some(edges[|edges| - 1])
    else ById(edges[..|edges| - 1], id)
  }

  predicate LooksTheSame(a: Edge, b: Edge)
  {
    (a.source, a.target, a.kind, a.caption, a.directed, a.description) ==
    (b.source, b.target, b.kind, b.caption, b.directed, b.description)
  }

  /** What becomes of a submitted edge: unchanged ones stay as they were, all others are the user's from now on. */
  function Saved(current: seq<Edge>, e: Edge): Edge
  {
    match ById(current, e.id)
    case None => e.(origin := Manual, overridden := true, confidence := None)
    case Some(previous) =>
      if LooksTheSame(previous, e) then previous
      else e.(origin := Manual, overridden := true, confidence := previous.confidence)
  }

  function SavedEdges(current: seq<Edge>, submitted: seq<Edge>): (r: seq<Edge>)
  {
    seq(|submitted|, i requires 0 <= i < |submitted| => Saved(current, submitted[i]))
  }

  /** suppressions[key] = pair: an entry with this key is replaced where it stands. */
  function PutPair(norm: Norm, pairs: seq<Pair>, p: Pair): (r: seq<Pair>)
    ensures |r| >= |pairs|
  {
    if pairs == [] then [p]
    else if KeyOfPair(norm, pairs[0]) == KeyOfPair(norm, p) then [p] + pairs[1..]
    else [pairs[0]] + PutPair(norm, pairs[1..], p)
  }

  /** An AI-owned edge the user has left out. */
  predicate IsRemoved(kept: set<string>, e: Edge)
  {
    e.id !in kept && e.origin == Ai && !e.overridden
  }

  function WithRemovals(norm: Norm, edges: seq<Edge>, kept: set<string>, pairs: seq<Pair>): seq<Pair>
  {
    if edges == [] then pairs
    else
      var before := WithRemovals(norm, edges[..|edges| - 1], kept, pairs);
      var e := edges[|edges| - 1];
      if IsRemoved(kept, e) then PutPair(norm, before, Pair(e.source, e.target, e.directed)) else before
  }

  function Without(norm: Norm, pairs: seq<Pair>, present: set<Key>): seq<Pair>
  {
    if pairs == [] then []
    else Without(norm, pairs[..|pairs| - 1], present)
         + (if KeyOfPair(norm, pairs[|pairs| - 1]) in present then [] else [pairs[|pairs| - 1]])
  }

  ghost predicate CanSave(norm: Norm, keys: seq<string>, g: Graph, submitted: seq<Edge>)
  {
    IsAcceptable(norm, keys, g) && AreEdgesOk(norm, keys, submitted)
  }

  function SavedGraph(norm: Norm, keys: seq<string>, g: Graph, submitted: seq<Edge>): Graph
    requires CanSave(norm, keys, g, submitted)
  {
    var current := Normalized(norm, keys, g);
    var edges := SavedEdges(current.edges, ResolvedEdges(norm, keys, submitted));
    var suppressions := WithRemovals(norm, current.edges, IdsOf(submitted), current.suppressed);
    Graph(current.revision + 1, edges, Without(norm, suppressions, Present(norm, edges)))
  }

  method ApplyManual(norm: Norm, keys: seq<string>, g: Graph, submittedEdges: seq<Edge>)
    returns (r: Result<Graph, RelationError>)
    ensures r.Ok? <==> CanSave(norm, keys, g, submittedEdges)
    ensures r.Ok? ==> r.value == SavedGraph(norm, keys, g, submittedEdges)
  {
    var normalized := Normalize(norm, keys, g);
    if normalized.Err? {
      return Err(normalized.error);
    }
    var current := normalized.value;
    var resolved := NormalizeEdges(norm, keys, submittedEdges);
    if resolved.Err? {
      return Err(resolved.error);
    }
    var edges, submittedIds, currentPairs := SaveEdges(norm, current.edges, resolved.value);
    ResolvedKeepsIds(norm, keys, submittedEdges);
    var suppressions := AddRemovals(norm, current.edges, submittedIds, current.suppressed);
    return Ok(Graph(current.revision + 1, edges, Without(norm, suppressions, currentPairs)));
  }

  lemma ResolvedKeepsIds(norm: Norm, keys: seq<string>, edges: seq<Edge>)
    requires forall i | 0 <= i < |edges| :: IsEdgeOk(norm, keys, edges[i])
    ensures IdsOf(ResolvedEdges(norm, keys, edges)) == IdsOf(edges)
  {
    var resolved := ResolvedEdges(norm, keys, edges);
    forall i | 0 <= i < |edges| ensures resolved[i].id == edges[i].id {
    }
  }

  /** The edges of a save, with their ids and pairs. */
  method SaveEdges(norm: Norm, current: seq<Edge>, submitted: seq<Edge>)
    returns (edges: seq<Edge>, ids: set<string>, pairs: set<Key>)
    ensures edges == SavedEdges(current, submitted) && ids == IdsOf(submitted) && pairs == Present(norm, edges)
  {
    edges, ids, pairs := [], {}, {};
    for i := 0 to |submitted|
      invariant edges == SavedEdges(current, submitted[..i])
      invariant ids == IdsOf(submitted[..i]) && pairs == Present(norm, edges)
    {
      var e := submitted[i];
      var previous := ById(current, e.id);
      var saved := e;
      if previous.None? {
        saved := e.(origin := Manual, overridden := true, confidence := None);
      } else if !LooksTheSame(previous.value, e) {
        saved := e.(origin := Manual, overridden := true, confidence := previous.value.confidence);
      } else {
        saved := previous.value;
      }
      PresentAppend(norm, edges, saved);
      OneMoreId(submitted, i);
      OneMoreSaved(current, submitted, i, saved);
      edges := edges + [saved];
      ids := ids + {e.id};
      pairs := pairs + {KeyOf(norm, saved)};
    }
    assert submitted[..|submitted|] == submitted;
  }

  lemma OneMoreSaved(current: seq<Edge>, submitted: seq<Edge>, i: nat, saved: Edge)
    requires i < |submitted| && saved == Saved(current, submitted[i])
    ensures SavedEdges(current, submitted[..i + 1]) == SavedEdges(current, submitted[..i]) + [saved]
  {
  }

  /** The AI-owned edges that were left out join the suppressed pairs. */
  method AddRemovals(norm: Norm, edges: seq<Edge>, kept: set<string>, pairs: seq<Pair>)
    returns (suppressions: seq<Pair>)
    ensures suppressions == WithRemovals(norm, edges, kept, pairs)
  {
    suppressions := pairs;
    for i := 0 to |edges|
      invariant suppressions == WithRemovals(norm, edges[..i], kept, pairs)
    {
      assert edges[..i + 1][..i] == edges[..i];
      var e := edges[i];
      if IsRemoved(kept, e) {
        suppressions := PutPair(norm, suppressions, Pair(e.source, e.target, e.directed));
      }
    }
    assert edges[..|edges|] == edges;
  }
}
