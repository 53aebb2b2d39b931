/** The loops that compute the comparison: each fills sets, maps or counters and meets `GraphAudit`'s counts. */
module GraphAuditLoops {
  import opened GraphAudit
  import opened GraphCounts
  import opened KeyedRows

  function ByDigest(n: Node): Keyed<Node> {
    Keyed(n.identityDigest, n)
  }

  function ByKey(e: Edge): Keyed<Edge> {
    Keyed(EdgeKey(e), e)
  }

  lemma NormalNodeRows(nodes: seq<Node>)
    ensures MapSeq(ByDigest, MapSeq(NormalNode, nodes)) == MapSeq(KeyNode, nodes)
  {
  }

  lemma NormalEdgeRows(edges: seq<Edge>)
    ensures MapSeq(ByKey, MapSeq(NormalEdge, edges)) == MapSeq(KeyEdge, edges)
  {
  }

  /** `m` is the index of the first row of every key. */
  ghost predicate Indexes<T>(m: map<string, T>, t: seq<Keyed<T>>) {
    m.Keys == KeySet(t) && forall k :: k in m ==> m[k] == First(t, k)
  }

  lemma SuffixKeys<T>(t: seq<Keyed<T>>, k: string)
    requires t != [] && k !in KeySet(t)
    ensures k !in KeySet(t[1..])
  {
    forall i | 0 <= i < |t[1..]| ensures t[1..][i].key != k {
      assert t[i + 1].key in KeySet(t);
    }
  }

  lemma {:induction false} FirstGrows<T>(t: seq<Keyed<T>>, k: string)
    requires t != [] && k in KeySet(t)
    ensures var front := t[..|t| - 1];
            First(t, k) == if k in KeySet(front) then First(front, k) else t[|t| - 1].row
  {
    KeySetGrows(t);
    var front := t[..|t| - 1];
    if |t| > 1 && t[0].key != k {
      KeySetDrop(t, k);
      FirstGrows(t[1..], k);
      assert t[1..][..|t| - 2] == front[1..];
      if k in KeySet(front) {
        KeySetDrop(front, k);
      } else {
        SuffixKeys(front, k);
      }
    } else if |t| > 1 {
      assert front[0].key == k;
    }
  }

  lemma IndexGrows<T>(m: map<string, T>, t: seq<Keyed<T>>)
    requires t != [] && Indexes(m, t[..|t| - 1])
    ensures var last := t[|t| - 1]; Indexes(if last.key in m then m else m[last.key := last.row], t)
  {
    var last := t[|t| - 1];
    var next := if last.key in m then m else m[last.key := last.row];
    KeySetGrows(t);
    forall k | k in next ensures next[k] == First(t, k) {
      FirstGrows(t, k);
    }
  }

  lemma MapPrefix<A, B>(f: A -> B, s: seq<A>, i: nat)
    requires i < |s|
    ensures var t := MapSeq(f, s[..i + 1]); t[..|t| - 1] == MapSeq(f, s[..i]) && t[|t| - 1] == f(s[i])
  {
  }

  method AnalyzeNodes(nodes: seq<Node>) returns (duplicateCount: nat)
    ensures duplicateCount == Duplicates(MapSeq(ByDigest, nodes))
  {
    var seen: set<string> := {};
    duplicateCount := 0;
    for i := 0 to |nodes|
      invariant seen == KeySet(MapSeq(ByDigest, nodes[..i]))
      invariant duplicateCount == i - |seen|
    {
      MapPrefix(ByDigest, nodes, i);
      KeySetGrows(MapSeq(ByDigest, nodes[..i + 1]));
      if nodes[i].identityDigest in seen {
        duplicateCount := duplicateCount + 1;
        continue;
      }
      seen := seen + {nodes[i].identityDigest};
    }
    assert nodes[..|nodes|] == nodes;
  }

  lemma OneMoreEdge(edges: seq<Edge>, i: nat)
    requires i < |edges|
    ensures var before, after := MapSeq(ByKey, edges[..i]), MapSeq(ByKey, edges[..i + 1]);
            && KeySet(after) == KeySet(before) + {EdgeKey(edges[i])}
            && Count(after, Unknown) == Count(before, Unknown) + if Known(edges[i]) then 0 else 1
  {
    MapPrefix(ByKey, edges, i);
    KeySetGrows(MapSeq(ByKey, edges[..i + 1]));
  }

  method AnalyzeEdges(edges: seq<Edge>) returns (duplicateCount: nat, unknownRelationTypeCount: nat)
    ensures duplicateCount == Duplicates(MapSeq(ByKey, edges))
    ensures unknownRelationTypeCount == Count(MapSeq(ByKey, edges), Unknown)
  {
    var seen: set<string> := {};
    duplicateCount, unknownRelationTypeCount := 0, 0;
    for i := 0 to |edges|
      invariant seen == KeySet(MapSeq(ByKey, edges[..i]))
      invariant duplicateCount == i - |seen|
      invariant unknownRelationTypeCount == Count(MapSeq(ByKey, edges[..i]), Unknown)
    {
      OneMoreEdge(edges, i);
      if !Known(edges[i]) {
        unknownRelationTypeCount := unknownRelationTypeCount + 1;
      }
      var key := EdgeKey(edges[i]);
      if key in seen {
        duplicateCount := duplicateCount + 1;
        continue;
      }
      seen := seen + {key};
    }
    assert edges[..|edges|] == edges;
  }

  method IndexNodesByDigest(nodes: seq<Node>) returns (indexed: map<string, Node>)
    ensures Indexes(indexed, MapSeq(ByDigest, nodes))
  {
    indexed := map[];
    for i := 0 to |nodes|
      invariant Indexes(indexed, MapSeq(ByDigest, nodes[..i]))
    {
      MapPrefix(ByDigest, nodes, i);
      IndexGrows(indexed, MapSeq(ByDigest, nodes[..i + 1]));
      if nodes[i].identityDigest !in indexed {
        indexed := indexed[nodes[i].identityDigest := nodes[i]];
      }
    }
    assert nodes[..|nodes|] == nodes;
  }

  method IndexEdgesByKey(edges: seq<Edge>) returns (indexed: map<string, Edge>)
    ensures Indexes(indexed, MapSeq(ByKey, edges))
  {
    indexed := map[];
    for i := 0 to |edges|
      invariant Indexes(indexed, MapSeq(ByKey, edges[..i]))
    {
      MapPrefix(ByKey, edges, i);
      IndexGrows(indexed, MapSeq(ByKey, edges[..i + 1]));
      var key := EdgeKey(edges[i]);
      if key !in indexed {
        indexed := indexed[key := edges[i]];
      }
    }
    assert edges[..|edges|] == edges;
  }

  method CountOrphanEdges(edges: seq<Edge>, nodesByDigest: map<string, Node>) returns (orphanEdgeCount: nat)
    ensures orphanEdgeCount == Count(MapSeq(ByKey, edges), Orphan(nodesByDigest.Keys))
  {
    orphanEdgeCount := 0;
    for i := 0 to |edges|
      invariant orphanEdgeCount == Count(MapSeq(ByKey, edges[..i]), Orphan(nodesByDigest.Keys))
    {
      MapPrefix(ByKey, edges, i);
      if edges[i].source !in nodesByDigest || edges[i].target !in nodesByDigest {
        orphanEdgeCount := orphanEdgeCount + 1;
      }
    }
    assert edges[..|edges|] == edges;
  }

  method SameStringArrays(left: seq<string>, right: seq<string>) returns (same: bool)
    ensures same <==> left == right
  {
    if |left| != |right| {
      return false;
    }
    for i := 0 to |left|
      invariant left[..i] == right[..i]
    {
      if left[i] != right[i] {
        return false;
      }
    }
    return true;
  }

  // ----- Walking the union of two key sets -----

  lemma CountStep<T>(s: set<T>, keys: set<T>, k: T)
    requires k in keys
    ensures |s - (keys - {k})| == |s - keys| + if k in s then 1 else 0
  {
    if k in s {
      assert s - (keys - {k}) == (s - keys) + {k};
    } else {
      assert s - (keys - {k}) == s - keys;
    }
  }

  /** The counters hold how much of the three sets was met among the keys no longer in `keys`. */
  ghost predicate Seen(x: set<string>, y: set<string>, z: set<string>, keys: set<string>, i: nat, j: nat, k: nat) {
    i == |x - keys| && j == |y - keys| && k == |z - keys|
  }

  lemma SeenAtStart(x: set<string>, y: set<string>, z: set<string>, keys: set<string>)
    requires x <= keys && y <= keys && z <= keys
    ensures Seen(x, y, z, keys, 0, 0, 0)
  {
    assert x - keys == {} && y - keys == {} && z - keys == {};
  }

  lemma SeenStep(x: set<string>, y: set<string>, z: set<string>, keys: set<string>, key: string, i: nat, j: nat, k: nat)
    requires key in keys && Seen(x, y, z, keys, i, j, k)
    ensures Seen(x, y, z, keys - {key}, i + (if key in x then 1 else 0), j + (if key in y then 1 else 0),
                 k + (if key in z then 1 else 0))
  {
    CountStep(x, keys, key);
    CountStep(y, keys, key);
    CountStep(z, keys, key);
  }

  lemma SeenAtEnd(x: set<string>, y: set<string>, z: set<string>, i: nat, j: nat, k: nat)
    requires Seen(x, y, z, {}, i, j, k)
    ensures i == |x| && j == |y| && k == |z|
  {
    assert x - {} == x && y - {} == y && z - {} == z;
  }

  ghost function NodesDiffer(a: map<string, Node>, b: map<string, Node>): set<string> {
    set k | k in a && k in b && (a[k].labels != b[k].labels || a[k].propertyKeys != b[k].propertyKeys)
  }

  ghost function KnownKeysOnly(a: map<string, Edge>, b: map<string, Edge>): set<string> {
    set k | k in a && k !in b && Known(a[k])
  }

  ghost function EdgesDiffer(a: map<string, Edge>, b: map<string, Edge>): set<string> {
    set k | k in a && k in b && Known(a[k]) && Known(b[k]) && a[k].propertyKeys != b[k].propertyKeys
  }

  method CompareNodes(age: map<string, Node>, relational: map<string, Node>)
    returns (ageOnly: nat, relationalOnly: nat, mismatches: nat)
    ensures ageOnly == |age.Keys - relational.Keys| && relationalOnly == |relational.Keys - age.Keys|
    ensures mismatches == |NodesDiffer(age, relational)|
  {
    ghost var x, y, z := age.Keys - relational.Keys, relational.Keys - age.Keys, NodesDiffer(age, relational);
    ageOnly, relationalOnly, mismatches := 0, 0, 0;
    var keys := age.Keys + relational.Keys;
    SeenAtStart(x, y, z, keys);
    while keys != {}
      invariant keys <= age.Keys + relational.Keys
      invariant Seen(x, y, z, keys, ageOnly, relationalOnly, mismatches)
      decreases keys
    {
      HasKey(keys);
      var digest :| digest in keys;
      SeenStep(x, y, z, keys, digest, ageOnly, relationalOnly, mismatches);
      keys := keys - {digest};
      if digest !in age {
        relationalOnly := relationalOnly + 1;
        continue;
      }
      if digest !in relational {
        ageOnly := ageOnly + 1;
        continue;
      }
      var sameLabels := SameStringArrays(age[digest].labels, relational[digest].labels);
      var sameKeys := SameStringArrays(age[digest].propertyKeys, relational[digest].propertyKeys);
      if !sameLabels || !sameKeys {
        mismatches := mismatches + 1;
      }
    }
    SeenAtEnd(x, y, z, ageOnly, relationalOnly, mismatches);
  }

  lemma HasKey<T>(keys: set<T>)
    requires keys != {}
    ensures exists k :: k in keys
  {
    if forall k :: k !in keys {
      assert false;
    }
  }

  method CompareEdges(age: map<string, Edge>, relational: map<string, Edge>)
    returns (ageOnly: nat, relationalOnly: nat, mismatches: nat)
    ensures ageOnly == |KnownKeysOnly(age, relational)| && relationalOnly == |KnownKeysOnly(relational, age)|
    ensures mismatches == |EdgesDiffer(age, relational)|
  {
    ghost var x, y, z := KnownKeysOnly(age, relational), KnownKeysOnly(relational, age), EdgesDiffer(age, relational);
    ageOnly, relationalOnly, mismatches := 0, 0, 0;
    var keys := age.Keys + relational.Keys;
    SeenAtStart(x, y, z, keys);
    while keys != {}
      invariant keys <= age.Keys + relational.Keys
      invariant Seen(x, y, z, keys, ageOnly, relationalOnly, mismatches)
      decreases keys
    {
      HasKey(keys);
      var key :| key in keys;
      SeenStep(x, y, z, keys, key, ageOnly, relationalOnly, mismatches);
      keys := keys - {key};
      if key in age && !Known(age[key]) {
        continue;
      }
      if key in relational && !Known(relational[key]) {
        continue;
      }
      if key !in age {
        relationalOnly := relationalOnly + 1;
        continue;
      }
      if key !in relational {
        ageOnly := ageOnly + 1;
        continue;
      }
      var same := SameStringArrays(age[key].propertyKeys, relational[key].propertyKeys);
      if !same {
        mismatches := mismatches + 1;
      }
    }
    SeenAtEnd(x, y, z, ageOnly, relationalOnly, mismatches);
  }

  lemma IndexedNodeCounts(an: map<string, Node>, rn: map<string, Node>, a: seq<Keyed<Node>>, r: seq<Keyed<Node>>)
    requires Indexes(an, a) && Indexes(rn, r)
    ensures NodesDiffer(an, rn) == Mismatched(a, r)
  {
  }

  lemma IndexedEdgeCounts(ae: map<string, Edge>, re: map<string, Edge>, a: seq<Keyed<Edge>>, r: seq<Keyed<Edge>>)
    requires Indexes(ae, a) && Indexes(re, r)
    ensures EdgesDiffer(ae, re) == EdgeMismatched(a, r)
    ensures KnownKeysOnly(ae, re) == KnownOnly(a, r) && KnownKeysOnly(re, ae) == KnownOnly(r, a)
  {
  }

  datatype Side = Side(
    nodes: map<string, Node>, edges: map<string, Edge>, duplicateNodes: nat, duplicateEdges: nat, unknownTypes: nat,
    orphans: nat)

  ghost predicate Describes(s: Side, t: Table) {
    && Indexes(s.nodes, t.nodes) && Indexes(s.edges, t.edges)
    && s.duplicateNodes == Duplicates(t.nodes) && s.duplicateEdges == Duplicates(t.edges)
    && s.unknownTypes == Count(t.edges, Unknown) && s.orphans == Count(t.edges, Orphan(KeySet(t.nodes)))
  }

  /** Normalizes, counts and indexes one inventory. */
  method AnalyzeSide(i: Inventory) returns (side: Side)
    ensures Describes(side, TableOf(i))
  {
    var nodes, edges := MapSeq(NormalNode, i.nodes), MapSeq(NormalEdge, i.edges);
    NormalNodeRows(i.nodes);
    NormalEdgeRows(i.edges);
    var duplicateNodes := AnalyzeNodes(nodes);
    var duplicateEdges, unknownTypes := AnalyzeEdges(edges);
    var nodeByDigest := IndexNodesByDigest(nodes);
    var edgeByKey := IndexEdgesByKey(edges);
    var orphans := CountOrphanEdges(edges, nodeByDigest);
    side := Side(nodeByDigest, edgeByKey, duplicateNodes, duplicateEdges, unknownTypes, orphans);
  }

  lemma NodeCountsAgree(a: Side, r: Side, at: Table, rt: Table)
    requires Describes(a, at) && Describes(r, rt)
    ensures a.nodes.Keys == KeySet(at.nodes) && r.nodes.Keys == KeySet(rt.nodes)
    ensures NodesDiffer(a.nodes, r.nodes) == Mismatched(at.nodes, rt.nodes)
  {
    IndexedNodeCounts(a.nodes, r.nodes, at.nodes, rt.nodes);
  }

  lemma EdgeCountsAgree(a: Side, r: Side, at: Table, rt: Table)
    requires Describes(a, at) && Describes(r, rt)
    ensures EdgesDiffer(a.edges, r.edges) == EdgeMismatched(at.edges, rt.edges)
    ensures KnownKeysOnly(a.edges, r.edges) == KnownOnly(at.edges, rt.edges)
    ensures KnownKeysOnly(r.edges, a.edges) == KnownOnly(rt.edges, at.edges)
  {
    IndexedEdgeCounts(a.edges, r.edges, at.edges, rt.edges);
  }

  /** The counts of each side on its own. */
  ghost predicate OwnCounts(at: Table, rt: Table, s: Summary) {
    && s.duplicateNodes == Duplicates(at.nodes) + Duplicates(rt.nodes)
    && s.duplicateEdges == Duplicates(at.edges) + Duplicates(rt.edges)
    && s.unknownTypes == Count(at.edges, Unknown) + Count(rt.edges, Unknown)
    && s.orphanEdges == Count(at.edges, Orphan(KeySet(at.nodes))) + Count(rt.edges, Orphan(KeySet(rt.nodes)))
  }

  lemma OwnCountsAgree(a: Side, r: Side, at: Table, rt: Table, s: Summary)
    requires Describes(a, at) && Describes(r, rt)
    requires s.duplicateNodes == a.duplicateNodes + r.duplicateNodes
    requires s.duplicateEdges == a.duplicateEdges + r.duplicateEdges
    requires s.unknownTypes == a.unknownTypes + r.unknownTypes && s.orphanEdges == a.orphans + r.orphans
    ensures OwnCounts(at, rt, s)
  {
  }

  /** The counts between both sides. */
  ghost predicate MutualCounts(at: Table, rt: Table, s: Summary) {
    && s.ageOnlyNodes == |KeySet(at.nodes) - KeySet(rt.nodes)|
    && s.relationalOnlyNodes == |KeySet(rt.nodes) - KeySet(at.nodes)|
    && s.ageOnlyEdges == |KnownOnly(at.edges, rt.edges)| && s.relationalOnlyEdges == |KnownOnly(rt.edges, at.edges)|
    && s.mismatches == |Mismatched(at.nodes, rt.nodes)| + |EdgeMismatched(at.edges, rt.edges)|
  }

  lemma CountsMakeTheComparison(at: Table, rt: Table, s: Summary)
    requires OwnCounts(at, rt, s) && MutualCounts(at, rt, s) && s.gate == GateOf(s)
    ensures s == CompareTables(at, rt, s.sourceAudit, s.truncated)
  {
  }

  ghost predicate SidesCompared(a: Side, r: Side, s: Summary) {
    && s.ageOnlyNodes == |a.nodes.Keys - r.nodes.Keys| && s.relationalOnlyNodes == |r.nodes.Keys - a.nodes.Keys|
    && s.ageOnlyEdges == |KnownKeysOnly(a.edges, r.edges)| && s.relationalOnlyEdges == |KnownKeysOnly(r.edges, a.edges)|
    && s.mismatches == |NodesDiffer(a.nodes, r.nodes)| + |EdgesDiffer(a.edges, r.edges)|
  }

  lemma MutualCountsAgree(a: Side, r: Side, at: Table, rt: Table, s: Summary)
    requires Describes(a, at) && Describes(r, rt) && SidesCompared(a, r, s)
    ensures MutualCounts(at, rt, s)
  {
    NodeCountsAgree(a, r, at, rt);
    EdgeCountsAgree(a, r, at, rt);
  }

  lemma SidesCompare(a: Side, r: Side, at: Table, rt: Table, s: Summary)
    requires Describes(a, at) && Describes(r, rt) && SidesCompared(a, r, s) && s.gate == GateOf(s)
    requires s.duplicateNodes == a.duplicateNodes + r.duplicateNodes
    requires s.duplicateEdges == a.duplicateEdges + r.duplicateEdges
    requires s.unknownTypes == a.unknownTypes + r.unknownTypes && s.orphanEdges == a.orphans + r.orphans
    ensures s == CompareTables(at, rt, s.sourceAudit, s.truncated)
  {
    OwnCountsAgree(a, r, at, rt, s);
    MutualCountsAgree(a, r, at, rt, s);
    CountsMakeTheComparison(at, rt, s);
  }

  method CompareSides(
    a: Side, r: Side, ghost at: Table, ghost rt: Table, sourceAudit: SourceAudit, truncated: bool)
    returns (summary: Summary)
    requires Describes(a, at) && Describes(r, rt)
    ensures summary == CompareTables(at, rt, sourceAudit, truncated)
  {
    var ageOnlyNodes, relationalOnlyNodes, nodeMismatches := CompareNodes(a.nodes, r.nodes);
    var ageOnlyEdges, relationalOnlyEdges, edgeMismatches := CompareEdges(a.edges, r.edges);
    summary := Judge(Summary(
      ageOnlyEdges, ageOnlyNodes, a.duplicateEdges + r.duplicateEdges, a.duplicateNodes + r.duplicateNodes,
      nodeMismatches + edgeMismatches, Blocked, a.orphans + r.orphans, relationalOnlyEdges, relationalOnlyNodes,
      sourceAudit, truncated, a.unknownTypes + r.unknownTypes));
    SidesCompare(a, r, at, rt, summary);
  }

  method CompareGraphInventories(age: Inventory, relational: Inventory, sourceAudit: SourceAudit)
    returns (summary: Summary)
    ensures summary == Compare(age, relational, sourceAudit)
    ensures CountsTheGraphs(age, relational, sourceAudit, summary)
  {
    var a := AnalyzeSide(age);
    var r := AnalyzeSide(relational);
    summary := CompareSides(
      a, r, TableOf(age), TableOf(relational), sourceAudit, age.truncated || relational.truncated);
    ComparisonCountsTheGraphs(age, relational, sourceAudit);
  }
}
