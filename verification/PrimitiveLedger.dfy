/** The bounded primitive ledger: an insertion-ordered map with refresh and eviction, proved
    against the whole history of additions. */
module PrimitiveLedger {

  /** `body` stands for the node's remaining fields, apart from those compositions read. */
  datatype Node = Node(key: string, grants: seq<string>, preconditions: seq<string>, body: string)

  ghost predicate DistinctKeys(nodes: seq<Node>) {
    forall i, j :: 0 <= i < j < |nodes| ==> nodes[i].key != nodes[j].key
  }

  /** The specification. Walk the history backwards, keep the first `bound` nodes met under a
      new key, and return them oldest first: the last `bound` distinct keys, ordered by their
      latest addition, each with its latest node. */
  function Recent(history: seq<Node>, bound: nat, seen: set<string>): seq<Node> {
    if history == [] || bound == 0 then []
    else
      var last, front := history[|history| - 1], history[..|history| - 1];
      if last.key in seen then Recent(front, bound, seen)
      else Recent(front, bound - 1, seen + {last.key}) + [last]
  }

  /** `del self._nodes[key]`, when present. */
  function Remove(nodes: seq<Node>, key: string): seq<Node> {
    if nodes == [] then []
    else
      var last, front := nodes[|nodes| - 1], nodes[..|nodes| - 1];
      if last.key == key then Remove(front, key) else Remove(front, key) + [last]
  }

  /** The newest `bound` nodes, after evicting from the front. */
  function Newest(nodes: seq<Node>, bound: nat): seq<Node> {
    if |nodes| <= bound then nodes else nodes[|nodes| - bound..]
  }

  lemma {:induction false} RecentShape(history: seq<Node>, bound: nat, seen: set<string>)
    ensures |Recent(history, bound, seen)| <= bound
    ensures DistinctKeys(Recent(history, bound, seen))
    ensures forall n :: n in Recent(history, bound, seen) ==> n in history && n.key !in seen
  {
    if history != [] && bound > 0 {
      var last, front := history[|history| - 1], history[..|history| - 1];
      RecentShape(front, bound, seen);
      RecentShape(front, bound - 1, seen + {last.key});
    }
  }

  /** The latest addition under its key, if that key is not in `seen`. */
  ghost predicate Latest(history: seq<Node>, seen: set<string>, i: nat) {
    i < |history| && history[i].key !in seen && forall j :: i < j < |history| ==> history[j].key != history[i].key
  }

  /** `idx` lists, in order of addition, the latest additions of the newest `bound` keys. */
  ghost predicate NewestLatest(history: seq<Node>, bound: nat, seen: set<string>, idx: seq<nat>) {
    && |idx| <= bound
    && (forall k, l :: 0 <= k < l < |idx| ==> idx[k] < idx[l])
    && (forall k :: 0 <= k < |idx| ==> Latest(history, seen, idx[k]))
    && (forall i :: Latest(history, seen, i) && i !in idx ==>
          |idx| == bound && forall k :: 0 <= k < |idx| ==> i < idx[k])
  }

  /** `Recent` is what its description says: positions of latest additions, in order, with
      everything older than a full list left out and nothing else. */
  lemma {:induction false} RecentMeaning(history: seq<Node>, bound: nat, seen: set<string>) returns (idx: seq<nat>)
    ensures NewestLatest(history, bound, seen, idx)
    ensures Recent(history, bound, seen)
         == seq(|idx|, k requires 0 <= k < |idx| && idx[k] < |history| => history[idx[k]])
  {
    idx := [];
    if history != [] && bound > 0 {
      var n := |history| - 1;
      var last, front := history[n], history[..n];
      if last.key in seen {
        idx := RecentMeaning(front, bound, seen);
        forall i ensures Latest(history, seen, i) <==> Latest(front, seen, i) { LatestFront(history, seen, i); }
      } else {
        var older := RecentMeaning(front, bound - 1, seen + {last.key});
        forall i ensures Latest(history, seen, i) <==> i == n || Latest(front, seen + {last.key}, i) {
          LatestFront(history, seen, i);
        }
        idx := older + [n];
      }
    }
  }

  lemma LatestFront(history: seq<Node>, seen: set<string>, i: nat)
    requires history != []
    ensures var n := |history| - 1;
      Latest(history, seen, i) <==>
        (i == n && history[n].key !in seen) || Latest(history[..n], seen + {history[n].key}, i)
  {
  }

  lemma {:induction false} RemoveAppend(nodes: seq<Node>, x: Node, key: string)
    ensures Remove(nodes + [x], key) == if x.key == key then Remove(nodes, key) else Remove(nodes, key) + [x]
  {
    assert (nodes + [x])[..|nodes|] == nodes;
  }

  lemma NewestAppend(nodes: seq<Node>, x: Node, bound: nat)
    requires bound > 0
    ensures Newest(nodes + [x], bound) == Newest(nodes, bound - 1) + [x]
  {
  }

  lemma RecentLast(history: seq<Node>, bound: nat, seen: set<string>)
    requires history != [] && bound > 0 && history[|history| - 1].key !in seen
    ensures Recent(history, bound, seen)
         == Recent(history[..|history| - 1], bound - 1, seen + {history[|history| - 1].key})
            + [history[|history| - 1]]
  {
  }

  lemma OtherKeyKept(history: seq<Node>, bound: nat, seen: set<string>, key: string)
    requires history != [] && bound > 1
    requires var last := history[|history| - 1].key; last !in seen && last != key
    requires var last, front := history[|history| - 1].key, history[..|history| - 1];
      Recent(front, bound - 2, seen + {key} + {last})
      == Newest(Remove(Recent(front, bound - 1, seen + {last}), key), bound - 2)
    ensures Recent(history, bound - 1, seen + {key}) == Newest(Remove(Recent(history, bound, seen), key), bound - 1)
  {
    var last, front := history[|history| - 1], history[..|history| - 1];
    var r := Recent(front, bound - 1, seen + {last.key});
    RecentLast(history, bound, seen);
    RemoveAppend(r, last, key);
    NewestAppend(Remove(r, key), last, bound - 1);
    RecentLast(history, bound - 1, seen + {key});
  }

  lemma SameKeyDropped(history: seq<Node>, bound: nat, seen: set<string>, key: string)
    requires history != [] && bound > 0 && key !in seen && history[|history| - 1].key == key
    ensures Recent(history, bound - 1, seen + {key}) == Newest(Remove(Recent(history, bound, seen), key), bound - 1)
  {
    var last, front := history[|history| - 1], history[..|history| - 1];
    var r := Recent(front, bound - 1, seen + {key});
    RecentLast(history, bound, seen);
    RecentShape(front, bound - 1, seen + {key});
    RemoveAppend(r, last, key);
    RemoveAbsent(r, key);
  }

  /** Taking a key out of the recent nodes makes room for no older one. */
  lemma {:induction false} RecentWithout(history: seq<Node>, bound: nat, seen: set<string>, key: string)
    requires bound > 0 && key !in seen
    ensures Recent(history, bound - 1, seen + {key}) == Newest(Remove(Recent(history, bound, seen), key), bound - 1)
  {
    if history != [] {
      var last, front := history[|history| - 1].key, history[..|history| - 1];
      if last in seen {
        RecentWithout(front, bound, seen, key);
      } else if last == key {
        SameKeyDropped(history, bound, seen, key);
      } else if bound > 1 {
        RecentWithout(front, bound - 1, seen + {last}, key);
        assert seen + {key} + {last} == seen + {last} + {key};
        OtherKeyKept(history, bound, seen, key);
      }
    }
  }

  lemma {:induction false} RemoveAbsent(nodes: seq<Node>, key: string)
    requires forall n :: n in nodes ==> n.key != key
    ensures Remove(nodes, key) == nodes
  {
    if nodes != [] {
      RemoveAbsent(nodes[..|nodes| - 1], key);
      assert nodes == nodes[..|nodes| - 1] + [nodes[|nodes| - 1]];
    }
  }

  /** One addition: remove, append, evict. */
  lemma RecentStep(history: seq<Node>, bound: nat, node: Node)
    ensures Recent(history + [node], bound, {})
         == Newest(Remove(Recent(history, bound, {}), node.key) + [node], bound)
  {
    var h := history + [node];
    assert h[..|h| - 1] == history;
    if bound > 0 {
      RecentWithout(history, bound, {}, node.key);
      assert {} + {node.key} == {node.key};
    }
  }

  // ----- the exploit graph -----

  datatype Composition = Composition(source: string, target: string, via: string)

  /** `token in text`. */
  predicate Within(token: string, text: string) {
    exists i :: 0 <= i <= |text| && At(token, text, i)
  }

  predicate At(token: string, text: string, i: nat) {
    i + |token| <= |text| && text[i..i + |token|] == token
  }

  /** One of the node's preconditions mentions the grant, compared in lower case. */
  predicate Meets(grant: string, node: Node, lower: string -> string) {
    exists p :: p in node.preconditions && Within(lower(grant), lower(p))
  }

  /** The edges from one grant of `src`, in node order. */
  function EdgesVia(src: Node, grant: string, nodes: seq<Node>, lower: string -> string): seq<Composition> {
    if nodes == [] then []
    else
      var last, before := nodes[|nodes| - 1], EdgesVia(src, grant, nodes[..|nodes| - 1], lower);
      if last.key != src.key && Meets(grant, last, lower)
      then before + [Composition(src.key, last.key, grant)] else before
  }

  function EdgesOf(src: Node, grants: seq<string>, nodes: seq<Node>, lower: string -> string): seq<Composition> {
    if grants == [] then []
    else EdgesOf(src, grants[..|grants| - 1], nodes, lower) + EdgesVia(src, grants[|grants| - 1], nodes, lower)
  }

  function Edges(sources: seq<Node>, nodes: seq<Node>, lower: string -> string): seq<Composition> {
    if sources == [] then []
    else
      var last := sources[|sources| - 1];
      Edges(sources[..|sources| - 1], nodes, lower) + EdgesOf(last, last.grants, nodes, lower)
  }

  ghost predicate Edge(e: Composition, src: Node, dst: Node, lower: string -> string) {
    e == Composition(src.key, dst.key, e.via) && src.key != dst.key && e.via in src.grants && Meets(e.via, dst, lower)
  }

  /** `src` composes with some node through `e`. */
  ghost predicate Composes(e: Composition, src: Node, nodes: seq<Node>, lower: string -> string) {
    exists dst :: dst in nodes && Edge(e, src, dst, lower)
  }

  /** Some source composes with some node through `e`. */
  ghost predicate AnyComposes(e: Composition, sources: seq<Node>, nodes: seq<Node>, lower: string -> string) {
    exists src :: src in sources && Composes(e, src, nodes, lower)
  }

  lemma {:induction false} ViaMeaning(src: Node, grant: string, nodes: seq<Node>, lower: string -> string,
          e: Composition)
    requires grant in src.grants
    ensures e in EdgesVia(src, grant, nodes, lower) <==> e.via == grant && Composes(e, src, nodes, lower)
  {
    if nodes != [] {
      var n := |nodes| - 1;
      ViaMeaning(src, grant, nodes[..n], lower, e);
      LastOrBefore(nodes);
      assert Composes(e, src, nodes, lower) <==> Composes(e, src, nodes[..n], lower) || Edge(e, src, nodes[n], lower);
      assert e.via == grant && Edge(e, src, nodes[n], lower) <==>
        e == Composition(src.key, nodes[n].key, grant) && nodes[n].key != src.key && Meets(grant, nodes[n], lower);
    }
  }

  lemma {:induction false} OfMeaning(src: Node, grants: seq<string>, nodes: seq<Node>, lower: string -> string,
          e: Composition)
    requires forall g :: g in grants ==> g in src.grants
    ensures e in EdgesOf(src, grants, nodes, lower) <==> e.via in grants && Composes(e, src, nodes, lower)
  {
    if grants != [] {
      var n := |grants| - 1;
      OfMeaning(src, grants[..n], nodes, lower, e);
      ViaMeaning(src, grants[n], nodes, lower, e);
      assert grants == grants[..n] + [grants[n]];
    }
  }

  lemma SourceMeaning(src: Node, nodes: seq<Node>, lower: string -> string, e: Composition)
    ensures e in EdgesOf(src, src.grants, nodes, lower) <==> Composes(e, src, nodes, lower)
  {
    OfMeaning(src, src.grants, nodes, lower, e);
  }

  /** An edge is listed exactly when two different live nodes compose through it: nothing is
      missed, and no node composes with itself. */
  lemma {:induction false} EdgesMeaning(sources: seq<Node>, nodes: seq<Node>, lower: string -> string, e: Composition)
    ensures e in Edges(sources, nodes, lower) <==> AnyComposes(e, sources, nodes, lower)
  {
    if sources != [] {
      var n := |sources| - 1;
      EdgesMeaning(sources[..n], nodes, lower, e);
      SourceMeaning(sources[n], nodes, lower, e);
      AnyLast(e, sources, nodes, lower);
      var before, own := Edges(sources[..n], nodes, lower), EdgesOf(sources[n], sources[n].grants, nodes, lower);
      assert e in before + own <==> e in before || e in own;
    }
  }

  lemma AnyLast(e: Composition, sources: seq<Node>, nodes: seq<Node>, lower: string -> string)
    requires sources != []
    ensures var n := |sources| - 1;
      AnyComposes(e, sources, nodes, lower)
      <==> AnyComposes(e, sources[..n], nodes, lower) || Composes(e, sources[n], nodes, lower)
  {
    LastOrBefore(sources);
  }

  lemma LastOrBefore(nodes: seq<Node>)
    requires nodes != []
    ensures forall x :: x in nodes <==> x in nodes[..|nodes| - 1] || x == nodes[|nodes| - 1]
  {
    assert nodes == nodes[..|nodes| - 1] + [nodes[|nodes| - 1]];
  }

  datatype Added = Added(key: string) | EmptyLedgerError

  class Ledger {
    const maxPrimitives: int
    var entries: seq<Node>
    ghost var history: seq<Node>

    ghost predicate Valid()
      reads this
    {
      maxPrimitives >= 0 ==> entries == Recent(history, maxPrimitives, {})
    }

    constructor (maxPrimitives: int)
      ensures Valid() && this.maxPrimitives == maxPrimitives && history == [] && entries == []
    {
      this.maxPrimitives := maxPrimitives;
      entries, history := [], [];
    }

    /** `add_primitive`. With a negative bound the eviction empties the ledger and then fails;
        with any other bound it always succeeds. */
    method AddPrimitive(node: Node) returns (r: Added)
      requires Valid()
      modifies this
      ensures Valid() && history == old(history) + [node]
      ensures r == if maxPrimitives >= 0 then Added(node.key) else EmptyLedgerError
      ensures maxPrimitives >= 0 ==> entries == Newest(Remove(old(entries), node.key) + [node], maxPrimitives)
      ensures maxPrimitives < 0 ==> entries == []
    {
      var kept: seq<Node> := [];
      for i := 0 to |entries|
        invariant kept == Remove(entries[..i], node.key)
      {
        assert entries[..i + 1][..i] == entries[..i];
        if entries[i].key != node.key {
          kept := kept + [entries[i]];
        }
      }
      assert entries[..|entries|] == entries;
      ghost var all := kept + [node];
      if maxPrimitives >= 0 { RecentStep(history, maxPrimitives, node); }
      entries := kept + [node];
      history := history + [node];
      while |entries| > maxPrimitives
        invariant history == old(history) + [node]
        invariant |entries| <= |all| && entries == all[|all| - |entries|..]
        invariant maxPrimitives >= 0 && |all| > maxPrimitives ==> |entries| >= maxPrimitives
        invariant maxPrimitives >= 0 && |all| <= maxPrimitives ==> entries == all
      {
        if entries == [] {
          return EmptyLedgerError;
        }
        entries := entries[1..];
      }
      r := Added(node.key);
    }

    /** `nodes()`: the last `maxPrimitives` distinct keys of every addition ever made. */
    method Nodes() returns (nodes: seq<Node>)
      requires Valid()
      ensures nodes == entries
      ensures maxPrimitives >= 0 ==> nodes == Recent(history, maxPrimitives, {})
      ensures maxPrimitives >= 0 ==> |nodes| <= maxPrimitives && DistinctKeys(nodes)
    {
      if maxPrimitives >= 0 { RecentShape(history, maxPrimitives, {}); }
      nodes := entries;
    }

    /** `compositions()`: every edge among the nodes held, by source, grant and target. */
    method Compositions(lower: string -> string) returns (edges: seq<Composition>)
      ensures edges == Edges(entries, entries, lower)
    {
      edges := ComposeAll(entries, lower);
    }
  }

  method ComposeAll(nodes: seq<Node>, lower: string -> string) returns (edges: seq<Composition>)
    ensures edges == Edges(nodes, nodes, lower)
  {
    edges := [];
    for i := 0 to |nodes|
      invariant edges == Edges(nodes[..i], nodes, lower)
    {
      assert nodes[..i + 1][..i] == nodes[..i];
      var more := ComposeFrom(nodes[i], nodes, lower);
      edges := edges + more;
    }
    assert nodes[..|nodes|] == nodes;
  }

  method ComposeFrom(src: Node, nodes: seq<Node>, lower: string -> string) returns (edges: seq<Composition>)
    ensures edges == EdgesOf(src, src.grants, nodes, lower)
  {
    edges := [];
    for j := 0 to |src.grants|
      invariant edges == EdgesOf(src, src.grants[..j], nodes, lower)
    {
      assert src.grants[..j + 1][..j] == src.grants[..j];
      var more := ComposeVia(src, src.grants[j], nodes, lower);
      edges := edges + more;
    }
    assert src.grants[..|src.grants|] == src.grants;
  }

  method ComposeVia(src: Node, grant: string, nodes: seq<Node>, lower: string -> string)
    returns (edges: seq<Composition>)
    ensures edges == EdgesVia(src, grant, nodes, lower)
  {
    edges := [];
    for k := 0 to |nodes|
      invariant edges == EdgesVia(src, grant, nodes[..k], lower)
    {
      assert nodes[..k + 1][..k] == nodes[..k];
      var dst := nodes[k];
      if dst.key != src.key && Meets(grant, dst, lower) {
        edges := edges + [Composition(src.key, dst.key, grant)];
      }
    }
    assert nodes[..|nodes|] == nodes;
  }
}
