/**
  Comparison of two graph inventories by digests: the counts, the gate, and what the gate means.
  `Compare` is the specification that the counting loops of `GraphAuditLoops` meet.
 */
module GraphAudit {
  import opened Collections
  import opened KeyedRows
  import opened SortedStrings

  datatype Node = Node(identityDigest: string, labels: seq<string>, propertyKeys: seq<string>)

  datatype Edge = Edge(relationType: string, source: string, target: string, propertyKeys: seq<string>)

  datatype Inventory = Inventory(nodes: seq<Node>, edges: seq<Edge>, truncated: bool)

  datatype SourceAudit = SourceAudit(
    currentDocumentMissingParsedOrStatus: nat, currentLifecycleOnlyDocument: nat, mergedActorAliasReference: nat,
    mergedActorEmailQuoteReference: nat, mergedActorMissingMergeDecision: nat,
    relationalDocumentNodeWithoutDocumentRow: nat)

  datatype Gate = Blocked | Inconclusive | Pass

  datatype Summary = Summary(
    ageOnlyEdges: nat, ageOnlyNodes: nat, duplicateEdges: nat, duplicateNodes: nat, mismatches: nat, gate: Gate,
    orphanEdges: nat, relationalOnlyEdges: nat, relationalOnlyNodes: nat, sourceAudit: SourceAudit, truncated: bool,
    unknownTypes: nat)

  const EDGE_TYPES: set<string> :=
    {"AUTHORED", "COMMENTED_ON", "MENTIONS", "OWNS", "REPLY_TO", "RELATED_TO", "REVIEWED", "SAME_AS", "SENT"}

  const SAME_AS := "SAME_AS"
  const SEPARATOR: string := "\U{001f}"

  // ----- Normalization -----

  function NormalNode(n: Node): Node {
    Node(n.identityDigest, SortedSet(n.labels), SortedSet(n.propertyKeys))
  }

  /** SAME_AS endpoints form an unordered pair. */
  function CanonicalEnds(relationType: string, source: string, target: string): (string, string) {
    if relationType != SAME_AS || AtMost(source, target) then (source, target) else (target, source)
  }

  function NormalEdge(e: Edge): Edge {
    var ends := CanonicalEnds(e.relationType, e.source, e.target);
    Edge(e.relationType, ends.0, ends.1, SortedSet(e.propertyKeys))
  }

  function EdgeKey(e: Edge): string {
    var ends := CanonicalEnds(e.relationType, e.source, e.target);
    ends.0 + SEPARATOR + e.relationType + SEPARATOR + ends.1
  }

  predicate Known(e: Edge) {
    e.relationType in EDGE_TYPES
  }

  function KeyNode(n: Node): Keyed<Node> {
    Keyed(n.identityDigest, NormalNode(n))
  }

  function KeyEdge(e: Edge): Keyed<Edge> {
    Keyed(EdgeKey(NormalEdge(e)), NormalEdge(e))
  }

  // ----- Counts -----

  predicate Unknown(e: Keyed<Edge>) {
    !Known(e.row)
  }

  ghost function Orphan(digests: set<string>): Keyed<Edge> -> bool {
    (e: Keyed<Edge>) => !(e.row.source in digests && e.row.target in digests)
  }

  ghost function Mismatched(a: seq<Keyed<Node>>, b: seq<Keyed<Node>>): set<string> {
    set k | k in KeySet(a) && k in KeySet(b)
            && (First(a, k).labels != First(b, k).labels || First(a, k).propertyKeys != First(b, k).propertyKeys)
  }

  /** Keys of `a` alone, leaving out unknown relation types. */
  ghost function KnownOnly(a: seq<Keyed<Edge>>, b: seq<Keyed<Edge>>): set<string> {
    set k | k in KeySet(a) && k !in KeySet(b) && Known(First(a, k))
  }

  ghost function EdgeMismatched(a: seq<Keyed<Edge>>, b: seq<Keyed<Edge>>): set<string> {
    set k | k in KeySet(a) && k in KeySet(b) && Known(First(a, k)) && Known(First(b, k))
            && First(a, k).propertyKeys != First(b, k).propertyKeys
  }

  ghost function Duplicates<T>(t: seq<Keyed<T>>): nat {
    KeySetSize(t);
    |t| - |KeySet(t)|
  }

  function BlockingAudit(a: SourceAudit): nat {
    a.currentDocumentMissingParsedOrStatus + a.mergedActorAliasReference + a.mergedActorEmailQuoteReference
    + a.mergedActorMissingMergeDecision + a.relationalDocumentNodeWithoutDocumentRow
  }

  function GateOf(s: Summary): Gate {
    if s.truncated then Inconclusive
    else if s.duplicateNodes + s.duplicateEdges + s.orphanEdges + s.unknownTypes + s.ageOnlyNodes
      + s.relationalOnlyNodes
            + s.ageOnlyEdges + s.relationalOnlyEdges + s.mismatches + BlockingAudit(s.sourceAudit) == 0 then Pass
    else Blocked
  }

  function Judge(s: Summary): Summary {
    s.(gate := GateOf(s))
  }

  datatype Table = Table(nodes: seq<Keyed<Node>>, edges: seq<Keyed<Edge>>)

  /** Both row lists of an inventory, normalized and keyed. */
  function TableOf(i: Inventory): Table {
    Table(MapSeq(KeyNode, i.nodes), MapSeq(KeyEdge, i.edges))
  }

  /** The counts over keyed rows; the gate is judged from them. */
  ghost function CompareTables(a: Table, r: Table, audit: SourceAudit, truncated: bool): Summary {
    Judge(Summary(|KnownOnly(a.edges, r.edges)|, |KeySet(a.nodes) - KeySet(r.nodes)|,
                  Duplicates(a.edges) + Duplicates(r.edges), Duplicates(a.nodes) + Duplicates(r.nodes),
                  |Mismatched(a.nodes, r.nodes)| + |EdgeMismatched(a.edges, r.edges)|, Blocked,
                  Count(a.edges, Orphan(KeySet(a.nodes))) + Count(r.edges, Orphan(KeySet(r.nodes))),
                  |KnownOnly(r.edges, a.edges)|, |KeySet(r.nodes) - KeySet(a.nodes)|, audit, truncated,
                  Count(a.edges, Unknown) + Count(r.edges, Unknown)))
  }

  ghost function Compare(age: Inventory, relational: Inventory, audit: SourceAudit): Summary {
    CompareTables(TableOf(age), TableOf(relational), audit, age.truncated || relational.truncated)
  }

  // ----- The graph that an inventory lists -----

  datatype Link = Directed(relationType: string, source: string, target: string) | Mutual(ends: set<string>)

  datatype GraphNode = GraphNode(digest: string, labels: set<string>, propertyKeys: set<string>)

  datatype GraphEdge = GraphEdge(link: Link, propertyKeys: set<string>)

  datatype Graph = Graph(nodes: set<GraphNode>, edges: set<GraphEdge>)

  ghost function LinkOf(e: Edge): Link {
    if e.relationType == SAME_AS then Mutual({e.source, e.target}) else Directed(e.relationType, e.source, e.target)
  }

  ghost function NodeOf(n: Node): GraphNode {
    GraphNode(n.identityDigest, Elements(n.labels), Elements(n.propertyKeys))
  }

  ghost function EdgeOf(e: Edge): GraphEdge {
    GraphEdge(LinkOf(e), Elements(e.propertyKeys))
  }

  ghost function GraphOf(i: Inventory): Graph {
    Graph(Image(NodeOf, i.nodes), Image(EdgeOf, i.edges))
  }

  ghost predicate UniqueNodes(nodes: seq<Node>) {
    forall i, j :: 0 <= i < j < |nodes| ==> nodes[i].identityDigest != nodes[j].identityDigest
  }

  ghost predicate UniqueLinks(edges: seq<Edge>) {
    forall i, j :: 0 <= i < j < |edges| ==> LinkOf(edges[i]) != LinkOf(edges[j])
  }

  ghost predicate KnownTypes(edges: seq<Edge>) {
    forall i :: 0 <= i < |edges| ==> Known(edges[i])
  }

  ghost predicate HasNode(nodes: seq<Node>, digest: string) {
    exists i :: 0 <= i < |nodes| && nodes[i].identityDigest == digest
  }

  ghost predicate EndpointsExist(i: Inventory) {
    forall j :: 0 <= j < |i.edges| ==> HasNode(i.nodes, i.edges[j].source) && HasNode(i.nodes, i.edges[j].target)
  }

  ghost predicate WellFormed(i: Inventory) {
    UniqueNodes(i.nodes) && UniqueLinks(i.edges) && KnownTypes(i.edges) && EndpointsExist(i)
  }

  /** Endpoint digests are 64 hexadecimal characters, as SHA-256 prints them. */
  ghost predicate Digested(edges: seq<Edge>) {
    forall i :: 0 <= i < |edges| ==> |edges[i].source| == 64 && |edges[i].target| == 64
  }

  // ----- Keys and rows are the links and rows of the graph -----

  lemma CanonicalEndsUnordered(s: string, t: string, s': string, t': string)
    ensures CanonicalEnds(SAME_AS, s, t) == CanonicalEnds(SAME_AS, s', t') <==> {s, t} == {s', t'}
  {
    LessIsTotal(s, t);
    LessIsTotal(s', t');
    if {s, t} == {s', t'} {
      assert s in {s', t'} && t in {s', t'} && s' in {s, t} && t' in {s, t};
    }
  }

  lemma SameLink(x: Edge, y: Edge)
    ensures LinkOf(x) == LinkOf(y)
       <==> (&& x.relationType == y.relationType
             && CanonicalEnds(x.relationType, x.source, x.target) == CanonicalEnds(y.relationType, y.source, y.target))
  {
    if x.relationType == SAME_AS && y.relationType == SAME_AS {
      CanonicalEndsUnordered(x.source, x.target, y.source, y.target);
    }
  }

  lemma CanonicalTwice(r: string, s: string, t: string)
    ensures var c := CanonicalEnds(r, s, t); CanonicalEnds(r, c.0, c.1) == c
  {
    LessIsTotal(s, t);
  }

  lemma JoinedParts(s: string, r: string, t: string)
    requires |s| == 64 && |t| == 64
    ensures var k := s + SEPARATOR + r + SEPARATOR + t;
            |k| == 130 + |r| && k[..64] == s && k[65..|k| - 65] == r && k[|k| - 64..] == t
  {
  }

  /** The joined key of 64-character digests identifies the link. */
  lemma KeyIsLink(x: Edge, y: Edge)
    requires |x.source| == 64 && |x.target| == 64 && |y.source| == 64 && |y.target| == 64
    ensures KeyEdge(x).key == KeyEdge(y).key <==> LinkOf(x) == LinkOf(y)
  {
    var c := CanonicalEnds(x.relationType, x.source, x.target);
    var d := CanonicalEnds(y.relationType, y.source, y.target);
    CanonicalTwice(x.relationType, x.source, x.target);
    CanonicalTwice(y.relationType, y.source, y.target);
    JoinedParts(c.0, x.relationType, c.1);
    JoinedParts(d.0, y.relationType, d.1);
    SameLink(x, y);
  }

  lemma SameNode(x: Node, y: Node)
    ensures KeyNode(x) == KeyNode(y) <==> NodeOf(x) == NodeOf(y)
  {
    SortedSetsCompare(x.labels, y.labels);
    SortedSetsCompare(x.propertyKeys, y.propertyKeys);
  }

  lemma SameEdge(x: Edge, y: Edge)
    ensures KeyEdge(x) == KeyEdge(y) <==> EdgeOf(x) == EdgeOf(y)
  {
    SortedSetsCompare(x.propertyKeys, y.propertyKeys);
    SameLink(x, y);
  }

  lemma MapImage<A, B>(f: A -> Keyed<B>, s: seq<A>)
    ensures RowSet(MapSeq(f, s)) == Image(f, s)
  {
    var t := MapSeq(f, s);
    forall r ensures r in RowSet(t) <==> r in Image(f, s) {
      if r in RowSet(t) {
        var i :| 0 <= i < |t| && t[i] == r;
        assert f(s[i]) == r;
      }
      if r in Image(f, s) {
        var i :| 0 <= i < |s| && f(s[i]) == r;
        assert t[i] == r;
      }
    }
  }

  lemma SameNodeRows(a: seq<Node>, b: seq<Node>)
    ensures RowSet(MapSeq(KeyNode, a)) == RowSet(MapSeq(KeyNode, b)) <==> Image(NodeOf, a) == Image(NodeOf, b)
  {
    MapImage(KeyNode, a);
    MapImage(KeyNode, b);
    forall i, j | 0 <= i < |a| && 0 <= j < |b|
      ensures KeyNode(a[i]) == KeyNode(b[j]) <==> NodeOf(a[i]) == NodeOf(b[j])
    {
      SameNode(a[i], b[j]);
    }
    SameImages(KeyNode, NodeOf, a, b);
  }

  lemma SameEdgeRows(a: seq<Edge>, b: seq<Edge>)
    ensures RowSet(MapSeq(KeyEdge, a)) == RowSet(MapSeq(KeyEdge, b)) <==> Image(EdgeOf, a) == Image(EdgeOf, b)
  {
    MapImage(KeyEdge, a);
    MapImage(KeyEdge, b);
    forall i, j | 0 <= i < |a| && 0 <= j < |b|
      ensures KeyEdge(a[i]) == KeyEdge(b[j]) <==> EdgeOf(a[i]) == EdgeOf(b[j])
    {
      SameEdge(a[i], b[j]);
    }
    SameImages(KeyEdge, EdgeOf, a, b);
  }

  lemma UniqueEdgeKeys(edges: seq<Edge>)
    requires Digested(edges)
    ensures UniqueKeys(MapSeq(KeyEdge, edges)) <==> UniqueLinks(edges)
  {
    var t := MapSeq(KeyEdge, edges);
    forall i, j | 0 <= i < j < |t| ensures t[i].key == t[j].key <==> LinkOf(edges[i]) == LinkOf(edges[j]) {
      KeyIsLink(edges[i], edges[j]);
    }
  }

  lemma UnknownTypes(edges: seq<Edge>)
    ensures Count(MapSeq(KeyEdge, edges), Unknown) == 0 <==> KnownTypes(edges)
  {
    var t := MapSeq(KeyEdge, edges);
    CountZero(t, Unknown);
    assert forall i :: 0 <= i < |t| ==> (Unknown(t[i]) <==> !Known(edges[i]));
  }

  lemma NodeKeys(nodes: seq<Node>, k: string)
    ensures k in KeySet(MapSeq(KeyNode, nodes)) <==> HasNode(nodes, k)
  {
    var t := MapSeq(KeyNode, nodes);
    assert forall i :: 0 <= i < |t| ==> t[i].key == nodes[i].identityDigest;
    if HasNode(nodes, k) {
      var i :| 0 <= i < |nodes| && nodes[i].identityDigest == k;
      assert t[i].key == k;
    }
  }

  lemma OrphanEdges(i: Inventory)
    ensures Count(MapSeq(KeyEdge, i.edges), Orphan(KeySet(MapSeq(KeyNode, i.nodes)))) == 0 <==> EndpointsExist(i)
  {
    var t, digests := MapSeq(KeyEdge, i.edges), KeySet(MapSeq(KeyNode, i.nodes));
    CountZero(t, Orphan(digests));
    forall j | 0 <= j < |t|
      ensures Orphan(digests)(t[j]) <==> !(HasNode(i.nodes, i.edges[j].source) && HasNode(i.nodes, i.edges[j].target))
    {
      NodeKeys(i.nodes, i.edges[j].source);
      NodeKeys(i.nodes, i.edges[j].target);
    }
  }

  lemma RowsKeepKeys(nodes: seq<Node>, k: string)
    requires k in KeySet(MapSeq(KeyNode, nodes))
    ensures First(MapSeq(KeyNode, nodes), k).identityDigest == k
  {
    var t := MapSeq(KeyNode, nodes);
    var i :| 0 <= i < |t| && t[i] == Keyed(k, First(t, k));
    assert t[i] == KeyNode(nodes[i]);
  }

  lemma EmptyDifferences<T>(a: set<T>, b: set<T>)
    ensures |a - b| == 0 && |b - a| == 0 <==> a == b
  {
    if a - b == {} && b - a == {} {
      forall x ensures x in a <==> x in b {
        assert x !in a - b && x !in b - a;
      }
    }
  }

  lemma NodesAgree(a: seq<Node>, b: seq<Node>)
    requires UniqueNodes(a) && UniqueNodes(b)
    ensures NodesMatch(MapSeq(KeyNode, a), MapSeq(KeyNode, b)) <==> Image(NodeOf, a) == Image(NodeOf, b)
  {
    var s, t := MapSeq(KeyNode, a), MapSeq(KeyNode, b);
    SameRows(s, t);
    SameNodeRows(a, b);
    EmptyDifferences(KeySet(s), KeySet(t));
    forall k | k in KeySet(s) && k in KeySet(t) ensures k in Mismatched(s, t) <==> First(s, k) != First(t, k) {
      RowsKeepKeys(a, k);
      RowsKeepKeys(b, k);
    }
    assert |Mismatched(s, t)| == 0 <==> Mismatched(s, t) == {};
    assert Mismatched(s, t) == {} <==> forall k :: k in KeySet(s) && k in KeySet(t) ==> First(s, k) == First(t, k);
  }

  lemma EdgeRow(edges: seq<Edge>, k: string) returns (e: Edge)
    requires k in KeySet(MapSeq(KeyEdge, edges))
    ensures e in edges && KeyEdge(e) == Keyed(k, First(MapSeq(KeyEdge, edges), k))
  {
    var t := MapSeq(KeyEdge, edges);
    var i :| 0 <= i < |t| && t[i] == Keyed(k, First(t, k));
    e := edges[i];
  }

  lemma EdgesDifferByProperties(a: seq<Edge>, b: seq<Edge>, k: string)
    requires Digested(a) && Digested(b) && KnownTypes(a) && KnownTypes(b)
    requires k in KeySet(MapSeq(KeyEdge, a)) && k in KeySet(MapSeq(KeyEdge, b))
    ensures var s, t := MapSeq(KeyEdge, a), MapSeq(KeyEdge, b);
            k in EdgeMismatched(s, t) <==> First(s, k) != First(t, k)
  {
    var x := EdgeRow(a, k);
    var y := EdgeRow(b, k);
    KeyIsLink(x, y);
    SameLink(x, y);
  }

  lemma KnownOnlyIsDifference(a: seq<Edge>, t: seq<Keyed<Edge>>)
    requires KnownTypes(a)
    ensures KnownOnly(MapSeq(KeyEdge, a), t) == KeySet(MapSeq(KeyEdge, a)) - KeySet(t)
  {
    var s := MapSeq(KeyEdge, a);
    forall k | k in KeySet(s) ensures Known(First(s, k)) {
      var e := EdgeRow(a, k);
    }
  }

  lemma EdgesAgree(a: seq<Edge>, b: seq<Edge>)
    requires Digested(a) && Digested(b) && KnownTypes(a) && KnownTypes(b) && UniqueLinks(a) && UniqueLinks(b)
    ensures EdgesMatch(MapSeq(KeyEdge, a), MapSeq(KeyEdge, b)) <==> Image(EdgeOf, a) == Image(EdgeOf, b)
  {
    var s, t := MapSeq(KeyEdge, a), MapSeq(KeyEdge, b);
    UniqueEdgeKeys(a);
    UniqueEdgeKeys(b);
    SameRows(s, t);
    SameEdgeRows(a, b);
    KnownOnlyIsDifference(a, t);
    KnownOnlyIsDifference(b, s);
    EmptyDifferences(KeySet(s), KeySet(t));
    forall k | k in KeySet(s) && k in KeySet(t) ensures k in EdgeMismatched(s, t) <==> First(s, k) != First(t, k) {
      EdgesDifferByProperties(a, b, k);
    }
    assert |EdgeMismatched(s, t)| == 0 <==> EdgeMismatched(s, t) == {};
    assert EdgeMismatched(s, t) == {} <==> forall k :: k in KeySet(s) && k in KeySet(t) ==> First(s, k) == First(t, k);
  }

  lemma NoDuplicates(i: Inventory)
    requires Digested(i.edges)
    ensures Duplicates(MapSeq(KeyNode, i.nodes)) == 0 <==> UniqueNodes(i.nodes)
    ensures Duplicates(MapSeq(KeyEdge, i.edges)) == 0 <==> UniqueLinks(i.edges)
  {
    KeySetSize(MapSeq(KeyNode, i.nodes));
    KeySetSize(MapSeq(KeyEdge, i.edges));
    UniqueEdgeKeys(i.edges);
  }

  /** No row of the table is counted against the gate on its own. */
  ghost predicate Clean(t: Table) {
    && Duplicates(t.nodes) == 0 && Duplicates(t.edges) == 0
    && Count(t.edges, Orphan(KeySet(t.nodes))) == 0 && Count(t.edges, Unknown) == 0
  }

  lemma WellFormedIsClean(i: Inventory)
    requires Digested(i.edges)
    ensures WellFormed(i) <==> Clean(TableOf(i))
  {
    NoDuplicates(i);
    UnknownTypes(i.edges);
    OrphanEdges(i);
  }

  ghost predicate NodesMatch(a: seq<Keyed<Node>>, r: seq<Keyed<Node>>) {
    |KeySet(a) - KeySet(r)| == 0 && |KeySet(r) - KeySet(a)| == 0 && |Mismatched(a, r)| == 0
  }

  ghost predicate EdgesMatch(a: seq<Keyed<Edge>>, r: seq<Keyed<Edge>>) {
    |KnownOnly(a, r)| == 0 && |KnownOnly(r, a)| == 0 && |EdgeMismatched(a, r)| == 0
  }

  /** Nothing that the audit of the source counts stands against the gate; lifecycle-only documents never do. */
  ghost predicate NoAuditBlocker(a: SourceAudit) {
    && a.currentDocumentMissingParsedOrStatus == 0 && a.mergedActorAliasReference == 0
    && a.mergedActorEmailQuoteReference == 0 && a.mergedActorMissingMergeDecision == 0
    && a.relationalDocumentNodeWithoutDocumentRow == 0
  }

  lemma AuditBlockers(a: SourceAudit)
    ensures BlockingAudit(a) == 0 <==> NoAuditBlocker(a)
  {
  }

  lemma NoBlockers(s: Summary)
    ensures GateOf(s) == Pass
       <==> (&& !s.truncated && s.duplicateNodes == 0 && s.duplicateEdges == 0
             && s.orphanEdges == 0 && s.unknownTypes == 0
             && s.ageOnlyNodes == 0 && s.relationalOnlyNodes == 0 && s.ageOnlyEdges == 0 && s.relationalOnlyEdges == 0
             && s.mismatches == 0 && BlockingAudit(s.sourceAudit) == 0)
  {
  }

  lemma PassMeansNoCount(a: Table, r: Table, audit: SourceAudit, truncated: bool)
    ensures CompareTables(a, r, audit, truncated).gate == Pass
       <==> (&& !truncated && BlockingAudit(audit) == 0 && Clean(a) && Clean(r)
             && NodesMatch(a.nodes, r.nodes) && EdgesMatch(a.edges, r.edges))
  {
    NoBlockers(CompareTables(a, r, audit, truncated));
  }

  /**
    The gate passes exactly when nothing was cut off, the source audit found no blocker, both inventories are well
    formed, and both list the same graph.
   */
  lemma GateMeansSameGraph(age: Inventory, relational: Inventory, audit: SourceAudit)
    requires Digested(age.edges) && Digested(relational.edges)
    ensures Compare(age, relational, audit).gate == Pass
       <==> (&& !age.truncated && !relational.truncated && NoAuditBlocker(audit)
             && WellFormed(age) && WellFormed(relational) && GraphOf(age) == GraphOf(relational))
    ensures Compare(age, relational, audit).gate == Inconclusive <==> age.truncated || relational.truncated
  {
    PassMeansNoCount(TableOf(age), TableOf(relational), audit, age.truncated || relational.truncated);
    AuditBlockers(audit);
    WellFormedIsClean(age);
    WellFormedIsClean(relational);
    if WellFormed(age) && WellFormed(relational) {
      NodesAgree(age.nodes, relational.nodes);
      EdgesAgree(age.edges, relational.edges);
    }
  }

  // ----- Symmetry and conservation -----

  lemma SharedKeys<T>(a: set<T>, b: set<T>)
    ensures |a| - |a - b| == |a * b| == |b| - |b - a|
  {
    assert a == (a - b) + a * b && b == (b - a) + a * b;
  }

  function SwapSides(s: Summary): Summary {
    s.(ageOnlyEdges := s.relationalOnlyEdges, relationalOnlyEdges := s.ageOnlyEdges,
       ageOnlyNodes := s.relationalOnlyNodes, relationalOnlyNodes := s.ageOnlyNodes)
  }

  lemma SwappedTables(a: Table, r: Table, audit: SourceAudit, truncated: bool)
    ensures CompareTables(r, a, audit, truncated) == SwapSides(CompareTables(a, r, audit, truncated))
  {
    assert Mismatched(a.nodes, r.nodes) == Mismatched(r.nodes, a.nodes);
    assert EdgeMismatched(a.edges, r.edges) == EdgeMismatched(r.edges, a.edges);
  }

  /** Swapping the inventories swaps the one-sided counts and nothing else. */
  lemma SwapSwapsOneSidedCounts(age: Inventory, relational: Inventory, audit: SourceAudit)
    ensures var s := Compare(age, relational, audit);
            Compare(relational, age, audit)
            == s.(ageOnlyEdges := s.relationalOnlyEdges, relationalOnlyEdges := s.ageOnlyEdges,
                  ageOnlyNodes := s.relationalOnlyNodes, relationalOnlyNodes := s.ageOnlyNodes)
  {
    SwappedTables(TableOf(age), TableOf(relational), audit, age.truncated || relational.truncated);
  }

  ghost function DistinctNodes(i: Inventory): nat {
    |KeySet(MapSeq(KeyNode, i.nodes))|
  }

  /** Both sides have the same number of nodes left once their own are taken away. */
  lemma {:induction false} SharedNodesAgree(age: Inventory, relational: Inventory, audit: SourceAudit)
    ensures var s := Compare(age, relational, audit);
            && DistinctNodes(age) - s.ageOnlyNodes == DistinctNodes(relational) - s.relationalOnlyNodes
            && |age.nodes| + |relational.nodes| == DistinctNodes(age) + DistinctNodes(relational) + s.duplicateNodes
  {
    SharedKeys(KeySet(MapSeq(KeyNode, age.nodes)), KeySet(MapSeq(KeyNode, relational.nodes)));
  }

  // ----- Rearrangement -----

  function Flip(e: Edge): Edge {
    e.(source := e.target, target := e.source)
  }

  /** The edges with the ends of some SAME_AS edges exchanged. */
  function FlipSome(edges: seq<Edge>, flipped: set<nat>): (r: seq<Edge>)
    ensures |r| == |edges|
  {
    seq(|edges|, i requires 0 <= i < |edges| =>
      if i in flipped && edges[i].relationType == SAME_AS then Flip(edges[i]) else edges[i])
  }

  /** `b` lists the rows of `a` in another order, with some SAME_AS edges the other way around. */
  ghost predicate Rearranges(a: Inventory, b: Inventory, flipped: set<nat>) {
    && a.truncated == b.truncated
    && multiset(a.nodes) == multiset(b.nodes)
    && multiset(FlipSome(a.edges, flipped)) == multiset(b.edges)
  }

  ghost predicate SameRowsReordered(a: Table, b: Table) {
    multiset(a.nodes) == multiset(b.nodes) && multiset(a.edges) == multiset(b.edges)
  }

  lemma FlipKeepsRows(edges: seq<Edge>, flipped: set<nat>)
    ensures MapSeq(KeyEdge, FlipSome(edges, flipped)) == MapSeq(KeyEdge, edges)
  {
    var other := FlipSome(edges, flipped);
    forall i | 0 <= i < |edges| ensures KeyEdge(other[i]) == KeyEdge(edges[i]) {
      assert {edges[i].target, edges[i].source} == {edges[i].source, edges[i].target};
      SameEdge(other[i], edges[i]);
    }
  }

  lemma RearrangedInventory(a: Inventory, b: Inventory, flipped: set<nat>)
    requires Rearranges(a, b, flipped)
    ensures SameRowsReordered(TableOf(a), TableOf(b))
  {
    RearrangedMaps(KeyNode, a.nodes, b.nodes);
    FlipKeepsRows(a.edges, flipped);
    RearrangedMaps(KeyEdge, FlipSome(a.edges, flipped), b.edges);
  }

  ghost predicate SameTallies(s: Summary, t: Summary) {
    && s.ageOnlyNodes == t.ageOnlyNodes && s.relationalOnlyNodes == t.relationalOnlyNodes
    && s.duplicateNodes == t.duplicateNodes && s.duplicateEdges == t.duplicateEdges
    && s.orphanEdges == t.orphanEdges && s.unknownTypes == t.unknownTypes
    && s.sourceAudit == t.sourceAudit && s.truncated == t.truncated
  }

  /** What the counts that do not look at repeated rows depend on, for one side. */
  ghost predicate SameTableTallies(a: Table, b: Table) {
    && Duplicates(a.nodes) == Duplicates(b.nodes) && Duplicates(a.edges) == Duplicates(b.edges)
    && KeySet(a.nodes) == KeySet(b.nodes) && Count(a.edges, Unknown) == Count(b.edges, Unknown)
    && Count(a.edges, Orphan(KeySet(a.nodes))) == Count(b.edges, Orphan(KeySet(b.nodes)))
  }

  lemma RearrangedTallies(a: Table, b: Table)
    requires SameRowsReordered(a, b)
    ensures SameTableTallies(a, b)
  {
    RearrangedRows(a.nodes, b.nodes);
    RearrangedRows(a.edges, b.edges);
    RearrangedCounts(a.edges, b.edges, Unknown);
    RearrangedCounts(a.edges, b.edges, Orphan(KeySet(a.nodes)));
  }

  lemma TalliesFollow(a: Table, r: Table, a': Table, r': Table, audit: SourceAudit, truncated: bool)
    requires SameTableTallies(a, a') && SameTableTallies(r, r')
    ensures SameTallies(CompareTables(a, r, audit, truncated), CompareTables(a', r', audit, truncated))
  {
  }

  ghost predicate SameKeyed<T>(a: seq<Keyed<T>>, b: seq<Keyed<T>>) {
    KeySet(a) == KeySet(b) && forall k :: k in KeySet(a) ==> First(a, k) == First(b, k)
  }

  lemma UniqueRearranged<T>(a: seq<Keyed<T>>, b: seq<Keyed<T>>)
    requires multiset(a) == multiset(b) && Duplicates(a) == 0
    ensures SameKeyed(a, b)
  {
    RearrangedRows(a, b);
    KeySetSize(a);
    KeySetSize(b);
    SameRows(a, b);
  }

  lemma EdgeDifferencesFollow(a: seq<Keyed<Edge>>, r: seq<Keyed<Edge>>, a': seq<Keyed<Edge>>, r': seq<Keyed<Edge>>)
    requires SameKeyed(a, a') && SameKeyed(r, r')
    ensures EdgeMismatched(a, r) == EdgeMismatched(a', r')
    ensures KnownOnly(a, r) == KnownOnly(a', r') && KnownOnly(r, a) == KnownOnly(r', a')
  {
  }

  lemma DifferencesFollow(a: Table, r: Table, a': Table, r': Table, audit: SourceAudit, truncated: bool)
    requires SameTallies(CompareTables(a, r, audit, truncated), CompareTables(a', r', audit, truncated))
    requires Mismatched(a.nodes, r.nodes) == Mismatched(a'.nodes, r'.nodes)
    requires EdgeMismatched(a.edges, r.edges) == EdgeMismatched(a'.edges, r'.edges)
    requires KnownOnly(a.edges, r.edges) == KnownOnly(a'.edges, r'.edges)
    requires KnownOnly(r.edges, a.edges) == KnownOnly(r'.edges, a'.edges)
    ensures CompareTables(a, r, audit, truncated) == CompareTables(a', r', audit, truncated)
  {
  }

  lemma ReorderedTablesCompareAlike(a: Table, r: Table, a': Table, r': Table, audit: SourceAudit, truncated: bool)
    requires SameRowsReordered(a, a') && SameRowsReordered(r, r')
    requires Duplicates(a.nodes) == 0 && Duplicates(a.edges) == 0 && Duplicates(r.nodes) == 0
             && Duplicates(r.edges) == 0
    ensures CompareTables(a, r, audit, truncated) == CompareTables(a', r', audit, truncated)
  {
    RearrangedTallies(a, a');
    RearrangedTallies(r, r');
    TalliesFollow(a, r, a', r', audit, truncated);
    UniqueRearranged(a.nodes, a'.nodes);
    UniqueRearranged(r.nodes, r'.nodes);
    UniqueRearranged(a.edges, a'.edges);
    UniqueRearranged(r.edges, r'.edges);
    EdgeDifferencesFollow(a.edges, r.edges, a'.edges, r'.edges);
    DifferencesFollow(a, r, a', r', audit, truncated);
  }

  lemma ReorderedTablesKeepGate(a: Table, r: Table, a': Table, r': Table, audit: SourceAudit, truncated: bool)
    requires SameRowsReordered(a, a') && SameRowsReordered(r, r')
    ensures var s, t := CompareTables(a, r, audit, truncated), CompareTables(a', r', audit, truncated);
            && s.gate == t.gate && SameTallies(s, t)
            && (s.duplicateNodes == 0 && s.duplicateEdges == 0 ==> s == t)
  {
    var s, t := CompareTables(a, r, audit, truncated), CompareTables(a', r', audit, truncated);
    RearrangedTallies(a, a');
    RearrangedTallies(r, r');
    TalliesFollow(a, r, a', r', audit, truncated);
    if s.duplicateNodes == 0 && s.duplicateEdges == 0 {
      ReorderedTablesCompareAlike(a, r, a', r', audit, truncated);
    }
  }

  /** Row order and SAME_AS direction never change the gate, and change no count when no row repeats. */
  lemma RearrangingKeepsGate(
    age: Inventory, age': Inventory, flipped: set<nat>, relational: Inventory, relational': Inventory,
    flipped': set<nat>,
    audit: SourceAudit)
    requires Rearranges(age, age', flipped) && Rearranges(relational, relational', flipped')
    ensures var s, t := Compare(age, relational, audit), Compare(age', relational', audit);
            && s.gate == t.gate && SameTallies(s, t)
            && (s.duplicateNodes == 0 && s.duplicateEdges == 0 ==> s == t)
  {
    RearrangedInventory(age, age', flipped);
    RearrangedInventory(relational, relational', flipped');
    ReorderedTablesKeepGate(
      TableOf(age), TableOf(relational), TableOf(age'), TableOf(relational'), audit,
      age.truncated || relational.truncated);
  }
}
