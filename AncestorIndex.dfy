/**
 * The ancestor de-duplication decorator of the query index stream (AncestorIndexStream).
 *
 * It wraps another index stream and forwards every call to it; on `peek` and `next` it rewrites the
 * delegate's (shard, IndexInfo) tuple so that, within the matches of one query node, no match whose uid
 * contains the uid of an already kept match survives.
 */
module AncestorIndex {
  import opened Wrappers

  /** Identity of a query (JEXL) node; only equality of nodes is used. */
  type NodeId = int

  /** One hit of the index: a record uid matched by a query node. */
  datatype IndexMatch = IndexMatch(uid: string, node: NodeId)

  /** The matches of one shard, in the order the delegate's set hands them out, and the node of the info. */
  datatype IndexInfo = IndexInfo(uids: seq<IndexMatch>, myNode: Option<NodeId>)

  /** The (shard, IndexInfo) tuple an index stream yields. */
  datatype ShardTuple = ShardTuple(shard: string, info: IndexInfo)

  /** Evaluation context of a stream; the decorator only forwards it. */
  datatype StreamContext = Present | Absent | Variable | Delayed | Unindexed | Initialized

  /** Errors a delegate stream may raise (exhaustion, an unsupported remove). */
  datatype StreamError = NoSuchElement | IllegalState | UnsupportedOperation

  // ---------------------------------------------------------------------------------------------
  // String.indexOf

  /** `t` occurs in `s` starting at position `j`. */
  ghost predicate OccursAt(s: string, t: string, j: nat) {
    j + |t| <= |s| && s[j..j + |t|] == t
  }

  /** `t` is a substring of `s` (the empty string is a substring of every string). */
  ghost predicate Contains(s: string, t: string) {
    exists j: nat :: OccursAt(s, t, j)
  }

  /** `String.indexOf(t, from)` for a start within `s`: the first position at or after `from` where `t`
      occurs in `s`, or -1. */
  function IndexOfFrom(s: string, t: string, from: nat): (r: int)
    requires from <= |s|
    ensures r == -1 || (from <= r && OccursAt(s, t, r))
    ensures r == -1 <==> forall j: nat :: from <= j ==> !OccursAt(s, t, j)
    ensures r != -1 ==> forall j: nat :: from <= j < r ==> !OccursAt(s, t, j)
    decreases |s| - from
  {
    if from + |t| > |s| then -1
    else if s[from..from + |t|] == t then from
    else IndexOfFrom(s, t, from + 1)
  }

  /** `String.indexOf(t)`: positive exactly when `t` is a substring of `s`, and then the first occurrence. */
  function IndexOf(s: string, t: string): (r: int)
    ensures r > -1 <==> Contains(s, t)
    ensures r > -1 ==> OccursAt(s, t, r) && forall j: nat :: j < r ==> !OccursAt(s, t, j)
  {
    IndexOfFrom(s, t, 0)
  }

  lemma ContainsItself(s: string)
    ensures Contains(s, s)
  {
    assert OccursAt(s, s, 0);
  }

  // ---------------------------------------------------------------------------------------------
  // The ordering of IndexMatch (compareTo), kept abstract

  ghost predicate StrictTotalOrder(lt: (IndexMatch, IndexMatch) -> bool) {
    && (forall a :: !lt(a, a))
    && (forall a, b, c :: lt(a, b) && lt(b, c) ==> lt(a, c))
    && (forall a, b :: a != b ==> lt(a, b) || lt(b, a))
  }

  /** The iteration order of a TreeSet: ascending and without repetition. */
  ghost predicate StrictlySorted(lt: (IndexMatch, IndexMatch) -> bool, s: seq<IndexMatch>) {
    forall i, j :: 0 <= i < j < |s| ==> lt(s[i], s[j])
  }

  ghost function Elems(s: seq<IndexMatch>): set<IndexMatch> {
    set x | x in s
  }

  /** `TreeSet.add`: insert `x` at its place in the ascending sequence `s`, unless it is already there. */
  function TreeSetAdd(lt: (IndexMatch, IndexMatch) -> bool, s: seq<IndexMatch>, x: IndexMatch): (r: seq<IndexMatch>)
    requires StrictTotalOrder(lt) && StrictlySorted(lt, s)
    ensures StrictlySorted(lt, r)
    ensures Elems(r) == Elems(s) + {x}
  {
    if s == [] then [x]
    else if x == s[0] then s
    else if lt(x, s[0]) then
      assert Elems([x] + s) == {x} + Elems(s);
      [x] + s
    else
      var rest := TreeSetAdd(lt, s[1..], x);
      assert Elems(s) == {s[0]} + Elems(s[1..]);
      assert forall j :: 0 <= j < |rest| ==> lt(s[0], rest[j]) by {
        forall j | 0 <= j < |rest| ensures lt(s[0], rest[j]) {
          assert rest[j] in Elems(s[1..]) + {x};
        }
      }
      assert Elems([s[0]] + rest) == {s[0]} + Elems(rest);
      [s[0]] + rest
  }

  /** The head of an ascending sequence is below every other element of it. */
  lemma HeadIsLeast(lt: (IndexMatch, IndexMatch) -> bool, s: seq<IndexMatch>, x: IndexMatch)
    requires StrictlySorted(lt, s) && x in s
    ensures x == s[0] || lt(s[0], x)
  {
    var j :| 0 <= j < |s| && s[j] == x;
  }

  /** Two ascending sequences with the same elements are the same sequence: a TreeSet's
      iteration order is determined by its contents. */
  lemma {:induction false} SortedUnique(lt: (IndexMatch, IndexMatch) -> bool, a: seq<IndexMatch>, b: seq<IndexMatch>)
    requires StrictTotalOrder(lt)
    requires StrictlySorted(lt, a) && StrictlySorted(lt, b)
    requires Elems(a) == Elems(b)
    ensures a == b
  {
    if a != [] { assert a[0] in Elems(b); }
    if b != [] { assert b[0] in Elems(a); }
    if a != [] && b != [] {
      assert a[0] == b[0] by {
        HeadIsLeast(lt, a, b[0]);
        HeadIsLeast(lt, b, a[0]);
      }
      assert a[0] !in a[1..] by {
        forall k | 0 <= k < |a[1..]| ensures a[1..][k] != a[0] { assert lt(a[0], a[k + 1]); }
      }
      assert b[0] !in b[1..] by {
        forall k | 0 <= k < |b[1..]| ensures b[1..][k] != b[0] { assert lt(b[0], b[k + 1]); }
      }
      assert Elems(a) == {a[0]} + Elems(a[1..]);
      assert Elems(b) == {b[0]} + Elems(b[1..]);
      assert Elems(a[1..]) == Elems(a) - {a[0]};
      assert Elems(b[1..]) == Elems(b) - {b[0]};
      SortedUnique(lt, a[1..], b[1..]);
      assert a == [a[0]] + a[1..];
      assert b == [b[0]] + b[1..];
    }
  }

  // ---------------------------------------------------------------------------------------------
  // The specification of removeOverlappingRanges: a walk over the matches in input order

  /** `m` is dropped: some match already kept for the same node has a uid that occurs in m's uid. */
  ghost predicate Suppressed(kept: seq<IndexMatch>, m: IndexMatch) {
    exists k :: k in kept && k.node == m.node && Contains(m.uid, k.uid)
  }

  /** One step of the walk: keep `m` unless it is suppressed. */
  ghost function Step(kept: seq<IndexMatch>, m: IndexMatch): seq<IndexMatch> {
    if Suppressed(kept, m) then kept else kept + [m]
  }

  /** The walk over `ms`, starting from the matches `kept` so far. */
  ghost function Walk(kept: seq<IndexMatch>, ms: seq<IndexMatch>): seq<IndexMatch>
    decreases |ms|
  {
    if ms == [] then kept else Walk(Step(kept, ms[0]), ms[1..])
  }

  /** The matches that survive de-duplication, in the order they were walked. */
  ghost function Kept(ms: seq<IndexMatch>): seq<IndexMatch> {
    Walk([], ms)
  }

  /** The matches of `s` that belong to `node`, in order: one node group. */
  ghost function OfNode(s: seq<IndexMatch>, node: NodeId): seq<IndexMatch>
    decreases |s|
  {
    if s == [] then []
    else if s[|s| - 1].node == node then OfNode(s[..|s| - 1], node) + [s[|s| - 1]]
    else OfNode(s[..|s| - 1], node)
  }

  /** No match of `s` contains the uid of an earlier match of `s` from the same node. */
  ghost predicate Independent(s: seq<IndexMatch>) {
    forall i, j :: 0 <= i < j < |s| && s[i].node == s[j].node ==> !Contains(s[j].uid, s[i].uid)
  }

  /** The result of removeOverlappingRanges: same shard and node, and the kept matches in TreeSet order. */
  ghost predicate Deduplicated(lt: (IndexMatch, IndexMatch) -> bool, t: ShardTuple, r: ShardTuple) {
    && r.shard == t.shard
    && r.info.myNode == t.info.myNode
    && StrictlySorted(lt, r.info.uids)
    && Elems(r.info.uids) == Elems(Kept(t.info.uids))
  }

  // ---------------------------------------------------------------------------------------------
  // Facts about the walk

  lemma {:induction false} WalkSnoc(kept: seq<IndexMatch>, ms: seq<IndexMatch>, m: IndexMatch)
    ensures Walk(kept, ms + [m]) == Step(Walk(kept, ms), m)
    decreases |ms|
  {
    if ms == [] {
      assert (ms + [m])[1..] == [];
    } else {
      assert (ms + [m])[0] == ms[0];
      assert (ms + [m])[1..] == ms[1..] + [m];
      WalkSnoc(Step(kept, ms[0]), ms[1..], m);
    }
  }

  lemma {:induction false} WalkExtends(kept: seq<IndexMatch>, ms: seq<IndexMatch>)
    ensures |kept| <= |Walk(kept, ms)| && Walk(kept, ms)[..|kept|] == kept
    decreases |ms|
  {
    if ms != [] {
      var next := Step(kept, ms[0]);
      WalkExtends(next, ms[1..]);
      assert next[..|kept|] == kept;
    }
  }

  lemma {:induction false} WalkElems(kept: seq<IndexMatch>, ms: seq<IndexMatch>)
    ensures forall x :: x in Walk(kept, ms) ==> x in kept || x in ms
    decreases |ms|
  {
    if ms != [] {
      WalkElems(Step(kept, ms[0]), ms[1..]);
      assert forall x :: x in ms[1..] ==> x in ms;
    }
  }

  lemma {:induction false} WalkIndependent(kept: seq<IndexMatch>, ms: seq<IndexMatch>)
    requires Independent(kept)
    ensures Independent(Walk(kept, ms))
    decreases |ms|
  {
    if ms != [] {
      var m := ms[0];
      if !Suppressed(kept, m) {
        var k' := kept + [m];
        forall i, j | 0 <= i < j < |k'| && k'[i].node == k'[j].node
          ensures !Contains(k'[j].uid, k'[i].uid)
        {
          if j == |kept| {
            assert k'[i] in kept;
          }
        }
      }
      WalkIndependent(Step(kept, m), ms[1..]);
    }
  }

  lemma {:induction false} WalkOfIndependent(kept: seq<IndexMatch>, ms: seq<IndexMatch>)
    requires Independent(kept + ms)
    ensures Walk(kept, ms) == kept + ms
    decreases |ms|
  {
    if ms != [] {
      var m := ms[0];
      assert kept + ms == (kept + [m]) + ms[1..];
      assert !Suppressed(kept, m) by {
        forall k | k in kept && k.node == m.node ensures !Contains(m.uid, k.uid) {
          var i :| 0 <= i < |kept| && kept[i] == k;
          assert (kept + ms)[i] == k && (kept + ms)[|kept|] == m;
        }
      }
      WalkOfIndependent(kept + [m], ms[1..]);
    }
  }

  lemma OfNodeSnoc(s: seq<IndexMatch>, m: IndexMatch, node: NodeId)
    ensures OfNode(s + [m], node) == if m.node == node then OfNode(s, node) + [m] else OfNode(s, node)
  {
    assert (s + [m])[..|s + [m]| - 1] == s;
  }

  lemma {:induction false} OfNodeMembers(s: seq<IndexMatch>, node: NodeId)
    ensures forall x :: x in OfNode(s, node) <==> x in s && x.node == node
    decreases |s|
  {
    if s != [] {
      var init := s[..|s| - 1];
      OfNodeMembers(init, node);
      assert s == init + [s[|s| - 1]];
    }
  }

  lemma SuppressedOfNode(kept: seq<IndexMatch>, m: IndexMatch)
    ensures Suppressed(kept, m) <==> Suppressed(OfNode(kept, m.node), m)
  {
    OfNodeMembers(kept, m.node);
  }

  lemma {:induction false} WalkOfNode(kept: seq<IndexMatch>, ms: seq<IndexMatch>, node: NodeId)
    ensures OfNode(Walk(kept, ms), node) == Walk(OfNode(kept, node), OfNode(ms, node))
    decreases |ms|
  {
    if ms == [] {
    } else {
      var init := ms[..|ms| - 1];
      var m := ms[|ms| - 1];
      assert ms == init + [m];
      WalkSnoc(kept, init, m);
      WalkOfNode(kept, init, node);
      var w := Walk(kept, init);
      OfNodeSnoc(init, m, node);
      if m.node == node {
        WalkSnoc(OfNode(kept, node), OfNode(init, node), m);
        SuppressedOfNode(w, m);
        if !Suppressed(w, m) {
          OfNodeSnoc(w, m, node);
        }
      } else {
        if !Suppressed(w, m) {
          OfNodeSnoc(w, m, node);
        }
      }
    }
  }

  lemma {:induction false} WalkSorted(lt: (IndexMatch, IndexMatch) -> bool, kept: seq<IndexMatch>, ms: seq<IndexMatch>)
    requires StrictlySorted(lt, kept + ms)
    ensures StrictlySorted(lt, Walk(kept, ms))
    decreases |ms|
  {
    if ms == [] {
      assert kept + ms == kept;
    } else {
      var m := ms[0];
      if Suppressed(kept, m) {
        var s := kept + ms;
        var s' := kept + ms[1..];
        forall i, j | 0 <= i < j < |s'| ensures lt(s'[i], s'[j]) {
          var i' := if i < |kept| then i else i + 1;
          var j' := if j < |kept| then j else j + 1;
          assert s'[i] == s[i'] && s'[j] == s[j'];
        }
      } else {
        assert kept + ms == (kept + [m]) + ms[1..];
      }
      WalkSorted(lt, Step(kept, m), ms[1..]);
    }
  }

  // ---------------------------------------------------------------------------------------------
  // The properties of de-duplication

  /** De-duplication only removes matches; it never creates one. */
  lemma KeptOnlyRemoves(ms: seq<IndexMatch>)
    ensures forall x :: x in Kept(ms) ==> x in ms
  {
    WalkElems([], ms);
  }

  /** Within one node group, no kept match contains the uid of a match kept before it. */
  lemma KeptIsIndependent(ms: seq<IndexMatch>)
    ensures forall i, j :: 0 <= i < j < |Kept(ms)| && Kept(ms)[i].node == Kept(ms)[j].node ==>
      !Contains(Kept(ms)[j].uid, Kept(ms)[i].uid)
  {
    WalkIndependent([], ms);
  }

  /** Containment includes equality, so a node group never keeps the same uid twice. */
  lemma KeptUidsDistinctPerNode(ms: seq<IndexMatch>)
    ensures forall i, j :: 0 <= i < j < |Kept(ms)| && Kept(ms)[i].node == Kept(ms)[j].node ==>
      Kept(ms)[i].uid != Kept(ms)[j].uid
  {
    KeptIsIndependent(ms);
    forall i, j | 0 <= i < j < |Kept(ms)| && Kept(ms)[i].node == Kept(ms)[j].node
      ensures Kept(ms)[i].uid != Kept(ms)[j].uid
    {
      ContainsItself(Kept(ms)[j].uid);
    }
  }

  /** Matches of different nodes never eliminate each other: de-duplicating everything and then taking
      one node's matches is the same as de-duplicating that node's matches alone. */
  lemma KeptPerNode(ms: seq<IndexMatch>, node: NodeId)
    ensures OfNode(Kept(ms), node) == Kept(OfNode(ms, node))
  {
    WalkOfNode([], ms, node);
  }

  /** The first match walked for a node is always kept. */
  lemma FirstOfNodeKept(ms: seq<IndexMatch>, p: nat)
    requires p < |ms|
    requires forall q :: 0 <= q < p ==> ms[q].node != ms[p].node
    ensures ms[p] in Kept(ms)
  {
    var before := Walk([], ms[..p]);
    WalkElems([], ms[..p]);
    assert !Suppressed(before, ms[p]);
    WalkSnoc([], ms[..p], ms[p]);
    assert ms[..p + 1] == ms[..p] + [ms[p]];
    var after := Walk([], ms[..p + 1]);
    assert ms == ms[..p + 1] + ms[p + 1..];
    WalkAppend([], ms[..p + 1], ms[p + 1..]);
    WalkExtends(after, ms[p + 1..]);
    assert after[|after| - 1] == ms[p];
  }

  lemma {:induction false} WalkAppend(kept: seq<IndexMatch>, a: seq<IndexMatch>, b: seq<IndexMatch>)
    ensures Walk(kept, a + b) == Walk(Walk(kept, a), b)
    decreases |a|
  {
    if a == [] {
      assert a + b == b;
    } else {
      assert (a + b)[0] == a[0] && (a + b)[1..] == a[1..] + b;
      WalkAppend(Step(kept, a[0]), a[1..], b);
    }
  }

  /** Walking the kept matches again, in the same relative order, keeps every one of them. */
  lemma KeptIdempotent(ms: seq<IndexMatch>)
    ensures Kept(Kept(ms)) == Kept(ms)
  {
    WalkIndependent([], ms);
    assert [] + Kept(ms) == Kept(ms);
    WalkOfIndependent([], Kept(ms));
  }

  /** Example: in one node group, "a.1.2" descends from "a.1" and is removed; "b.5" stays. */
  lemma DescendantRemovedExample(node: NodeId)
    ensures Kept([IndexMatch("a.1", node), IndexMatch("a.1.2", node), IndexMatch("b.5", node)])
         == [IndexMatch("a.1", node), IndexMatch("b.5", node)]
  {
    var a1, a12, b5 := IndexMatch("a.1", node), IndexMatch("a.1.2", node), IndexMatch("b.5", node);
    var ms := [a1, a12, b5];
    assert Step([], a1) == [a1];
    assert Step([a1], a12) == [a1] by { assert OccursAt(a12.uid, a1.uid, 0); }
    assert Step([a1], b5) == [a1, b5] by {
      forall j: nat ensures !OccursAt(b5.uid, a1.uid, j) {
        if j == 0 { assert b5.uid[0] != a1.uid[0]; }
      }
    }
    assert ms[1..] == [a12, b5];
    assert ms[1..][1..] == [b5];
    calc {
      Kept(ms);
      Walk([a1], [a12, b5]);
      Walk([a1], [b5]);
      Walk([a1, b5], []);
    }
  }

  // ---------------------------------------------------------------------------------------------
  // removeOverlappingRanges

  /** The per-node TreeSets of the walk hold exactly the kept matches of their node, in ascending order,
      and every node of a kept match has an entry. */
  ghost predicate GroupsOf(lt: (IndexMatch, IndexMatch) -> bool, nodeMap: map<NodeId, seq<IndexMatch>>, kept: seq<IndexMatch>) {
    && (forall n :: n in nodeMap ==> StrictlySorted(lt, nodeMap[n]) && Elems(nodeMap[n]) == (set x | x in kept && x.node == n))
    && (forall k :: k in kept ==> k.node in nodeMap)
  }

  /** `nodes` lists the keys of `nodeMap`: the order in which they were first put. */
  ghost predicate KeysListed(nodeMap: map<NodeId, seq<IndexMatch>>, nodes: seq<NodeId>) {
    forall n :: n in nodeMap <==> n in nodes
  }

  /** All the matches held by the per-node sets of `nodeMap` listed in `nodes`. */
  ghost function GroupsUnion(nodeMap: map<NodeId, seq<IndexMatch>>, nodes: seq<NodeId>): set<IndexMatch> {
    set n, x | n in nodes && n in nodeMap && x in nodeMap[n] :: x
  }

  /** The final loop of removeOverlappingRanges: `addAll` of every per-node set into one TreeSet, visiting
      the map's keys in the order `nodes` lists them. */
  method MergeGroups(lt: (IndexMatch, IndexMatch) -> bool, nodeMap: map<NodeId, seq<IndexMatch>>, nodes: seq<NodeId>)
    returns (allMatches: seq<IndexMatch>)
    requires StrictTotalOrder(lt)
    ensures StrictlySorted(lt, allMatches)
    ensures Elems(allMatches) == GroupsUnion(nodeMap, nodes)
  {
    allMatches := [];
    for i := 0 to |nodes|
      invariant StrictlySorted(lt, allMatches)
      invariant Elems(allMatches) == GroupsUnion(nodeMap, nodes[..i])
    {
      var n := nodes[i];
      var nodeMatches := if n in nodeMap then nodeMap[n] else [];
      ghost var done := Elems(allMatches);
      for q := 0 to |nodeMatches|
        invariant StrictlySorted(lt, allMatches)
        invariant Elems(allMatches) == done + Elems(nodeMatches[..q])
      {
        assert nodeMatches[..q + 1] == nodeMatches[..q] + [nodeMatches[q]];
        allMatches := TreeSetAdd(lt, allMatches, nodeMatches[q]);
      }
      assert nodeMatches[..|nodeMatches|] == nodeMatches;
      assert nodes[..i + 1] == nodes[..i] + [n];
      assert GroupsUnion(nodeMap, nodes[..i + 1]) == GroupsUnion(nodeMap, nodes[..i]) + Elems(nodeMatches);
    }
    assert nodes[..|nodes|] == nodes;
  }

  /** removeOverlappingRanges: group the matches by node, keep per group those not containing an
      already kept uid, and merge the groups into one TreeSet; shard and myNode are copied. */
  method RemoveOverlappingRanges(lt: (IndexMatch, IndexMatch) -> bool, tuple: ShardTuple) returns (r: ShardTuple)
    requires StrictTotalOrder(lt)
    ensures Deduplicated(lt, tuple, r)
  {
    var info := tuple.info;
    var matches := info.uids;

    var nodeMap: map<NodeId, seq<IndexMatch>> := map[];
    var nodes: seq<NodeId> := [];
    ghost var kept: seq<IndexMatch> := [];
    for i := 0 to |matches|
      invariant kept == Walk([], matches[..i])
      invariant GroupsOf(lt, nodeMap, kept)
      invariant KeysListed(nodeMap, nodes)
    {
      var candidate := matches[i];
      var current := candidate.node;

      var existing: seq<IndexMatch>;
      if current in nodeMap {
        existing := nodeMap[current];
      } else {
        existing := [];
        nodeMap := nodeMap[current := existing];
        nodes := nodes + [current];
      }

      var add := true;
      var j := 0;
      while j < |existing| && add
        invariant 0 <= j <= |existing|
        invariant add <==> forall q :: 0 <= q < j ==> !Contains(candidate.uid, existing[q].uid)
      {
        var indexMatch := existing[j];
        if IndexOf(candidate.uid, indexMatch.uid) > -1 {
          add := false;
        }
        j := j + 1;
      }

      assert add <==> !Suppressed(kept, candidate) by {
        assert Elems(existing) == set x | x in kept && x.node == current;
        if add {
          forall k | k in kept && k.node == current ensures !Contains(candidate.uid, k.uid) {
            assert k in Elems(existing);
          }
        } else {
          var q :| 0 <= q < j && Contains(candidate.uid, existing[q].uid);
          assert existing[q] in Elems(existing);
        }
      }

      if add {
        existing := TreeSetAdd(lt, existing, candidate);
        nodeMap := nodeMap[current := existing];
      }

      WalkSnoc([], matches[..i], candidate);
      assert matches[..i + 1] == matches[..i] + [candidate];
      kept := Step(kept, candidate);
    }
    assert matches[..|matches|] == matches;

    // aggregate all the per-node sets into a single set
    var allMatches := MergeGroups(lt, nodeMap, nodes);
    assert Elems(allMatches) == Elems(kept) by {
      forall x | x in kept ensures x in GroupsUnion(nodeMap, nodes) {
        assert x in Elems(nodeMap[x.node]);
      }
      forall x | x in GroupsUnion(nodeMap, nodes) ensures x in kept {
        var n :| n in nodes && n in nodeMap && x in nodeMap[n];
        assert x in Elems(nodeMap[n]);
      }
    }

    var newInfo := IndexInfo(allMatches, info.myNode);
    r := ShardTuple(tuple.shard, newInfo);
  }

  // ---------------------------------------------------------------------------------------------
  // Properties of the rewritten tuple

  /** The rewritten tuple is determined by its input: `peek` and a following `next` deliver the same tuple. */
  lemma DeduplicatedUnique(lt: (IndexMatch, IndexMatch) -> bool, t: ShardTuple, r1: ShardTuple, r2: ShardTuple)
    requires StrictTotalOrder(lt)
    requires Deduplicated(lt, t, r1) && Deduplicated(lt, t, r2)
    ensures r1 == r2
  {
    SortedUnique(lt, r1.info.uids, r2.info.uids);
  }

  /** Every match of the rewritten tuple is a match of the input tuple. */
  lemma DeduplicatedOnlyRemoves(lt: (IndexMatch, IndexMatch) -> bool, t: ShardTuple, r: ShardTuple)
    requires Deduplicated(lt, t, r)
    ensures forall x :: x in r.info.uids ==> x in t.info.uids
  {
    KeptOnlyRemoves(t.info.uids);
    forall x | x in r.info.uids ensures x in t.info.uids {
      assert x in Elems(r.info.uids);
    }
  }

  /** When the delegate hands its matches out in TreeSet order, the rewritten matches are exactly the
      kept ones in walk order. */
  lemma DeduplicatedOfSorted(lt: (IndexMatch, IndexMatch) -> bool, t: ShardTuple, r: ShardTuple)
    requires StrictTotalOrder(lt)
    requires StrictlySorted(lt, t.info.uids)
    requires Deduplicated(lt, t, r)
    ensures r.info.uids == Kept(t.info.uids)
  {
    assert [] + t.info.uids == t.info.uids;
    WalkSorted(lt, [], t.info.uids);
    SortedUnique(lt, r.info.uids, Kept(t.info.uids));
  }

  /** Rewriting a rewritten tuple changes nothing, when the first input was in TreeSet order. */
  lemma DeduplicatedIdempotent(lt: (IndexMatch, IndexMatch) -> bool, t: ShardTuple, r: ShardTuple, r2: ShardTuple)
    requires StrictTotalOrder(lt)
    requires StrictlySorted(lt, t.info.uids)
    requires Deduplicated(lt, t, r) && Deduplicated(lt, r, r2)
    ensures r2 == r
  {
    DeduplicatedOfSorted(lt, t, r);
    DeduplicatedOfSorted(lt, r, r2);
    KeptIdempotent(t.info.uids);
  }

  // ---------------------------------------------------------------------------------------------
  // The streams

  /** The wrapped index stream, seen only through what it still has to deliver. */
  class DelegateStream {
    const context: StreamContext
    const contextDebug: string
    const node: Option<NodeId>
    const removeOutcome: Outcome<StreamError>
    var pending: seq<ShardTuple>

    constructor (context: StreamContext, contextDebug: string, node: Option<NodeId>,
                 removeOutcome: Outcome<StreamError>, items: seq<ShardTuple>)
      ensures this.context == context && this.contextDebug == contextDebug && this.node == node
      ensures this.removeOutcome == removeOutcome && pending == items
    {
      this.context := context;
      this.contextDebug := contextDebug;
      this.node := node;
      this.removeOutcome := removeOutcome;
      pending := items;
    }

    function HasNext(): bool
      reads this
    {
      pending != []
    }

    function Peek(): Result<ShardTuple, StreamError>
      reads this
    {
      if pending == [] then Failure(NoSuchElement) else Success(pending[0])
    }

    method Next() returns (r: Result<ShardTuple, StreamError>)
      modifies this
      ensures r == old(Peek())
      ensures pending == if old(pending) == [] then old(pending) else old(pending)[1..]
    {
      r := Peek();
      if pending != [] {
        pending := pending[1..];
      }
    }

    method Remove() returns (o: Outcome<StreamError>)
      ensures o == removeOutcome
    {
      o := removeOutcome;
    }
  }

  /** AncestorIndexStream: forwards every call to its delegate and de-duplicates what `peek` and `next` yield. */
  class AncestorIndexStream {
    const delegate: DelegateStream
    const order: (IndexMatch, IndexMatch) -> bool

    constructor (delegate: DelegateStream, order: (IndexMatch, IndexMatch) -> bool)
      requires StrictTotalOrder(order)
      ensures this.delegate == delegate && this.order == order
    {
      this.delegate := delegate;
      this.order := order;
    }

    function Context(): (c: StreamContext)
      ensures c == delegate.context
    {
      delegate.context
    }

    function GetContextDebug(): (s: string)
      ensures s == delegate.contextDebug
    {
      delegate.contextDebug
    }

    function CurrentNode(): (n: Option<NodeId>)
      ensures n == delegate.node
    {
      delegate.node
    }

    function HasNext(): (b: bool)
      reads delegate
      ensures b == delegate.HasNext()
    {
      delegate.HasNext()
    }

    method Peek() returns (r: Result<ShardTuple, StreamError>)
      requires StrictTotalOrder(order)
      ensures delegate.Peek().Failure? ==> r == delegate.Peek()
      ensures delegate.Peek().Success? ==> r.Success? && Deduplicated(order, delegate.Peek().value, r.value)
    {
      var t := delegate.Peek();
      if t.Failure? {
        r := t;
      } else {
        var rewritten := RemoveOverlappingRanges(order, t.value);
        r := Success(rewritten);
      }
    }

    method Next() returns (r: Result<ShardTuple, StreamError>)
      requires StrictTotalOrder(order)
      modifies delegate
      ensures old(delegate.Peek()).Failure? ==> r == old(delegate.Peek())
      ensures old(delegate.Peek()).Success? ==> r.Success? && Deduplicated(order, old(delegate.Peek()).value, r.value)
      ensures delegate.pending == if old(delegate.pending) == [] then old(delegate.pending) else old(delegate.pending)[1..]
    {
      var t := delegate.Next();
      if t.Failure? {
        r := t;
      } else {
        var rewritten := RemoveOverlappingRanges(order, t.value);
        r := Success(rewritten);
      }
    }

    method Remove() returns (o: Outcome<StreamError>)
      ensures o == delegate.removeOutcome
    {
      o := delegate.Remove();
    }
  }
}
