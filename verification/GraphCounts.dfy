/** What every count of a comparison says about the two graphs, row by row and link by link. */
module GraphCounts {
  import opened GraphAudit
  import opened KeyedRows

  function Where<T(!new)>(s: seq<T>, p: T -> bool): (r: seq<T>)
    ensures forall x :: x in r <==> x in s && p(x)
  {
    if s == [] then []
    else
      var n := |s| - 1;
      assert s == s[..n] + [s[n]];
      Where(s[..n], p) + if p(s[n]) then [s[n]] else []
  }

  lemma ImageMember<A, B>(f: A -> B, s: seq<A>, x: A)
    requires x in s
    ensures f(x) in Image(f, s)
  {
    var i :| 0 <= i < |s| && s[i] == x;
    assert f(s[i]) == f(x);
  }

  lemma ImageSource<A, B>(f: A -> B, s: seq<A>, y: B) returns (x: A)
    requires y in Image(f, s)
    ensures x in s && f(x) == y
  {
    var i :| 0 <= i < |s| && f(s[i]) == y;
    x := s[i];
  }

  lemma ImageGrows<A, B>(f: A -> B, s: seq<A>)
    requires s != []
    ensures Image(f, s) == Image(f, s[..|s| - 1]) + {f(s[|s| - 1])}
  {
    var n := |s| - 1;
    var front := s[..n];
    forall y | y in Image(f, s) ensures y in Image(f, front) + {f(s[n])} {
      var i :| 0 <= i < |s| && f(s[i]) == y;
      assert i < n ==> front[i] == s[i];
    }
    forall y | y in Image(f, front) ensures y in Image(f, s) {
      var i :| 0 <= i < n && f(front[i]) == y;
      assert s[i] == front[i];
    }
  }

  /** Two readings that tell the same rows apart have equally many values. */
  ghost predicate ReadAlike<T(!new), B, C>(f: T -> B, g: T -> C, s: seq<T>) {
    forall x, y :: x in s && y in s ==> (f(x) == f(y) <==> g(x) == g(y))
  }

  lemma {:induction false} SameSizes<T(!new), B, C>(f: T -> B, g: T -> C, s: seq<T>)
    requires ReadAlike(f, g, s)
    ensures |Image(f, s)| == |Image(g, s)|
  {
    if s == [] {
      assert Image(f, s) == {} && Image(g, s) == {};
    } else {
      var n := |s| - 1;
      var front, last := s[..n], s[n];
      assert s == front + [last];
      SameSizes(f, g, front);
      ImageGrows(f, s);
      ImageGrows(g, s);
      LastIsNew(f, g, front, last);
    }
  }

  lemma LastIsNew<T(!new), B, C>(f: T -> B, g: T -> C, front: seq<T>, last: T)
    requires ReadAlike(f, g, front + [last])
    ensures f(last) in Image(f, front) <==> g(last) in Image(g, front)
  {
    var all := front + [last];
    assert last in all && forall x :: x in front ==> x in all;
    if f(last) in Image(f, front) {
      var x := ImageSource(f, front, f(last));
      ImageMember(g, front, x);
    }
    if g(last) in Image(g, front) {
      var x := ImageSource(g, front, g(last));
      ImageMember(f, front, x);
    }
  }

  // ----- The rows and links that are counted -----

  ghost function Digests(nodes: seq<Node>): set<string> {
    Image((n: Node) => n.identityDigest, nodes)
  }

  ghost function Links(edges: seq<Edge>): set<Link> {
    Image(LinkOf, edges)
  }

  ghost predicate KnownType(e: Edge) {
    || e.relationType == "AUTHORED" || e.relationType == "COMMENTED_ON" || e.relationType == "MENTIONS"
    || e.relationType == "OWNS" || e.relationType == "REPLY_TO" || e.relationType == "RELATED_TO"
    || e.relationType == "REVIEWED" || e.relationType == "SAME_AS" || e.relationType == "SENT"
  }

  /** Links of a known type that only the first edges list. */
  ghost function OwnLinks(a: seq<Edge>, b: seq<Edge>): set<Link> {
    Image(LinkOf, Where(a, e => KnownType(e) && LinkOf(e) !in Links(b)))
  }

  ghost function UnknownRows(edges: seq<Edge>): set<nat> {
    set i: nat | i < |edges| && !KnownType(edges[i])
  }

  ghost function OrphanRows(i: Inventory): set<nat> {
    set j: nat | j < |i.edges| && !(i.edges[j].source in Digests(i.nodes) && i.edges[j].target in Digests(i.nodes))
  }

  /** The nodes of `a` that `b` lists with other labels or property keys. */
  ghost function ChangedNodes(a: seq<Node>, b: seq<Node>): set<GraphNode> {
    set n | n in Image(NodeOf, a) && n !in Image(NodeOf, b) && n.digest in Digests(b)
  }

  /** The edges of `a` that `b` lists with other property keys. */
  ghost function ChangedEdges(a: seq<Edge>, b: seq<Edge>): set<GraphEdge> {
    set e | e in Image(EdgeOf, a) && e !in Image(EdgeOf, b) && e.link in Links(b)
  }

  // ----- Counts of one side -----

  lemma NodeKeysAreDigests(nodes: seq<Node>)
    ensures KeySet(MapSeq(KeyNode, nodes)) == Digests(nodes)
  {
    var t := MapSeq(KeyNode, nodes);
    forall i | 0 <= i < |t| ensures t[i].key == nodes[i].identityDigest {
    }
    forall k ensures k in KeySet(t) <==> k in Digests(nodes) {
      if k in Digests(nodes) {
        var n := ImageSource((n: Node) => n.identityDigest, nodes, k);
        var i :| 0 <= i < |nodes| && nodes[i] == n;
        assert t[i].key == k;
      }
      if k in KeySet(t) {
        var i :| 0 <= i < |t| && t[i].key == k;
        ImageMember((n: Node) => n.identityDigest, nodes, nodes[i]);
      }
    }
  }

  function KeyOf(e: Edge): string {
    KeyEdge(e).key
  }

  lemma EdgeKeysAreImage(edges: seq<Edge>)
    ensures KeySet(MapSeq(KeyEdge, edges)) == Image(KeyOf, edges)
  {
    var t := MapSeq(KeyEdge, edges);
    forall i | 0 <= i < |t| ensures t[i].key == KeyOf(edges[i]) {
    }
    forall k ensures k in KeySet(t) <==> k in Image(KeyOf, edges) {
      if k in KeySet(t) {
        var i :| 0 <= i < |t| && t[i].key == k;
        assert KeyOf(edges[i]) == k;
      }
      if k in Image(KeyOf, edges) {
        var i :| 0 <= i < |edges| && KeyOf(edges[i]) == k;
        assert t[i].key == k;
      }
    }
  }

  /** Keys tell edges apart as their links do. */
  lemma KeysReadLinks(edges: seq<Edge>, all: seq<Edge>)
    requires Digested(all) && forall e :: e in edges ==> e in all
    ensures ReadAlike(KeyOf, LinkOf, edges)
  {
    forall x, y | x in edges && y in edges ensures KeyOf(x) == KeyOf(y) <==> LinkOf(x) == LinkOf(y) {
      KeyIsLink(x, y);
    }
  }

  lemma EdgeKeysAreLinks(edges: seq<Edge>)
    requires Digested(edges)
    ensures |KeySet(MapSeq(KeyEdge, edges))| == |Links(edges)|
  {
    EdgeKeysAreImage(edges);
    KeysReadLinks(edges, edges);
    SameSizes(KeyOf, LinkOf, edges);
  }

  /** The positions of the rows that are counted. */
  ghost function Positions<T>(s: seq<T>, p: T -> bool): set<nat> {
    set i: nat | i < |s| && p(s[i])
  }

  lemma OneMorePosition<T>(s: seq<T>, p: T -> bool)
    requires s != []
    ensures var n := |s| - 1;
            n !in Positions(s[..n], p) && Positions(s, p) == Positions(s[..n], p) + if p(s[n]) then {n} else {}
  {
    assert forall i: nat :: i < |s| - 1 ==> s[..|s| - 1][i] == s[i];
  }

  /** A count is the number of rows counted. */
  lemma {:induction false} CountIsSize<T>(s: seq<T>, p: T -> bool)
    ensures Count(s, p) == |Positions(s, p)|
  {
    if s == [] {
      assert Positions(s, p) == {};
    } else {
      CountIsSize(s[..|s| - 1], p);
      OneMorePosition(s, p);
    }
  }

  lemma UnknownAreCounted(edges: seq<Edge>)
    ensures Count(MapSeq(KeyEdge, edges), Unknown) == |UnknownRows(edges)|
  {
    var t := MapSeq(KeyEdge, edges);
    CountIsSize(t, Unknown);
    forall i: nat ensures i in Positions(t, Unknown) <==> i in UnknownRows(edges) {
      if i < |t| {
        assert t[i] == KeyEdge(edges[i]);
        assert Unknown(t[i]) <==> !KnownType(edges[i]);
      }
    }
    assert Positions(t, Unknown) == UnknownRows(edges);
  }

  lemma OrphanRow(digests: set<string>, e: Edge)
    ensures Orphan(digests)(KeyEdge(e)) <==> !(e.source in digests && e.target in digests)
  {
  }

  lemma OrphansAreCounted(i: Inventory)
    ensures Count(MapSeq(KeyEdge, i.edges), Orphan(KeySet(MapSeq(KeyNode, i.nodes)))) == |OrphanRows(i)|
  {
    var t, digests := MapSeq(KeyEdge, i.edges), Digests(i.nodes);
    NodeKeysAreDigests(i.nodes);
    CountIsSize(t, Orphan(digests));
    forall j: nat ensures j in Positions(t, Orphan(digests)) <==> j in OrphanRows(i) {
      if j < |t| {
        assert t[j] == KeyEdge(i.edges[j]);
        OrphanRow(digests, i.edges[j]);
      }
    }
    assert Positions(t, Orphan(digests)) == OrphanRows(i);
  }

  // ----- Counts between both sides -----

  lemma LinkIn(e: Edge, b: seq<Edge>)
    requires Digested([e]) && Digested(b)
    ensures LinkOf(e) in Links(b) <==> KeyOf(e) in KeySet(MapSeq(KeyEdge, b))
  {
    EdgeKeysAreImage(b);
    assert [e][0] == e;
    if LinkOf(e) in Links(b) {
      var y := ImageSource(LinkOf, b, LinkOf(e));
      KeyIsLink(e, y);
      ImageMember(KeyOf, b, y);
    }
    if KeyOf(e) in Image(KeyOf, b) {
      var y := ImageSource(KeyOf, b, KeyOf(e));
      KeyIsLink(e, y);
      ImageMember(LinkOf, b, y);
    }
  }

  /** The first row under the key of an edge is of the same type. */
  lemma FirstHasItsType(a: seq<Edge>, e: Edge)
    requires Digested(a) && e in a
    ensures KeyOf(e) in KeySet(MapSeq(KeyEdge, a))
    ensures First(MapSeq(KeyEdge, a), KeyOf(e)).relationType == e.relationType
  {
    EdgeKeysAreImage(a);
    ImageMember(KeyOf, a, e);
    var x := EdgeRow(a, KeyOf(e));
    KeyIsLink(x, e);
    SameLink(x, e);
  }

  lemma OwnKeys(a: seq<Edge>, b: seq<Edge>, k: string)
    requires Digested(a) && Digested(b)
    ensures k in KnownOnly(MapSeq(KeyEdge, a), MapSeq(KeyEdge, b))
       <==> exists e :: e in a && KeyOf(e) == k && KnownType(e) && LinkOf(e) !in Links(b)
  {
    var s, t := MapSeq(KeyEdge, a), MapSeq(KeyEdge, b);
    if k in KnownOnly(s, t) {
      var e := EdgeRow(a, k);
      LinkIn(e, b);
      assert e in a && KeyOf(e) == k && KnownType(e) && LinkOf(e) !in Links(b);
    }
    if e :| e in a && KeyOf(e) == k && KnownType(e) && LinkOf(e) !in Links(b) {
      LinkIn(e, b);
      FirstHasItsType(a, e);
    }
  }

  lemma OwnLinksAreCounted(a: seq<Edge>, b: seq<Edge>)
    requires Digested(a) && Digested(b)
    ensures |KnownOnly(MapSeq(KeyEdge, a), MapSeq(KeyEdge, b))| == |OwnLinks(a, b)|
  {
    var own := Where(a, e => KnownType(e) && LinkOf(e) !in Links(b));
    forall k ensures k in KnownOnly(MapSeq(KeyEdge, a), MapSeq(KeyEdge, b)) <==> k in Image(KeyOf, own) {
      OwnKeys(a, b, k);
      if e :| e in a && KeyOf(e) == k && KnownType(e) && LinkOf(e) !in Links(b) {
        assert e in own;
        ImageMember(KeyOf, own, e);
      }
      if k in Image(KeyOf, own) {
        var e := ImageSource(KeyOf, own, k);
        assert e in a;
      }
    }
    assert KnownOnly(MapSeq(KeyEdge, a), MapSeq(KeyEdge, b)) == Image(KeyOf, own);
    KeysReadLinks(own, a);
    SameSizes(KeyOf, LinkOf, own);
  }

  function DigestOf(n: Node): string {
    n.identityDigest
  }

  lemma OneNode(nodes: seq<Node>, x: Node, y: Node)
    requires UniqueNodes(nodes) && x in nodes && y in nodes && x.identityDigest == y.identityDigest
    ensures x == y
  {
    var i :| 0 <= i < |nodes| && nodes[i] == x;
    var j :| 0 <= j < |nodes| && nodes[j] == y;
    assert i == j;
  }

  lemma OneEdge(edges: seq<Edge>, x: Edge, y: Edge)
    requires UniqueLinks(edges) && x in edges && y in edges && LinkOf(x) == LinkOf(y)
    ensures x == y
  {
    var i :| 0 <= i < |edges| && edges[i] == x;
    var j :| 0 <= j < |edges| && edges[j] == y;
    assert i == j;
  }

  lemma NodeRow(nodes: seq<Node>, k: string) returns (n: Node)
    requires k in KeySet(MapSeq(KeyNode, nodes))
    ensures n in nodes && KeyNode(n) == Keyed(k, First(MapSeq(KeyNode, nodes), k)) && n.identityDigest == k
  {
    var t := MapSeq(KeyNode, nodes);
    var i :| 0 <= i < |t| && t[i] == Keyed(k, First(t, k));
    n := nodes[i];
  }

  ghost predicate NodeChanged(n: Node, b: seq<Node>) {
    NodeOf(n) !in Image(NodeOf, b) && n.identityDigest in Digests(b)
  }

  /** The node that `b` lists under the digest is the only one that could be the same node. */
  lemma ChangedAgainst(n: Node, b: seq<Node>, m: Node)
    requires UniqueNodes(b) && m in b && m.identityDigest == n.identityDigest
    ensures NodeChanged(n, b) <==> NodeOf(m) != NodeOf(n)
  {
    ImageMember((n: Node) => n.identityDigest, b, m);
    ImageMember(NodeOf, b, m);
    if NodeOf(n) in Image(NodeOf, b) {
      var z := ImageSource(NodeOf, b, NodeOf(n));
      OneNode(b, m, z);
    }
  }

  lemma MismatchedDigest(a: seq<Node>, b: seq<Node>, k: string) returns (n: Node)
    requires UniqueNodes(a) && UniqueNodes(b) && k in KeySet(MapSeq(KeyNode, a)) && k in KeySet(MapSeq(KeyNode, b))
    ensures n in a && n.identityDigest == k
    ensures k in Mismatched(MapSeq(KeyNode, a), MapSeq(KeyNode, b)) <==> NodeChanged(n, b)
  {
    n := NodeRow(a, k);
    var m := NodeRow(b, k);
    ChangedAgainst(n, b, m);
    SameNode(n, m);
    RowsKeepKeys(a, k);
    RowsKeepKeys(b, k);
  }

  lemma MismatchedNode(a: seq<Node>, b: seq<Node>, k: string)
    requires UniqueNodes(a) && UniqueNodes(b)
    ensures k in Mismatched(MapSeq(KeyNode, a), MapSeq(KeyNode, b))
       <==> exists n :: n in a && n.identityDigest == k && NodeChanged(n, b)
  {
    NodeKeysAreDigests(a);
    NodeKeysAreDigests(b);
    if k in Mismatched(MapSeq(KeyNode, a), MapSeq(KeyNode, b)) {
      var x := MismatchedDigest(a, b, k);
    }
    if n :| n in a && n.identityDigest == k && NodeChanged(n, b) {
      ImageMember((n: Node) => n.identityDigest, a, n);
      var x := MismatchedDigest(a, b, k);
      OneNode(a, x, n);
    }
  }

  lemma NodesReadAlike(nodes: seq<Node>, all: seq<Node>)
    requires UniqueNodes(all) && forall n :: n in nodes ==> n in all
    ensures ReadAlike(DigestOf, NodeOf, nodes)
  {
    forall x, y | x in nodes && y in nodes ensures DigestOf(x) == DigestOf(y) <==> NodeOf(x) == NodeOf(y) {
      if DigestOf(x) == DigestOf(y) {
        OneNode(all, x, y);
      }
    }
  }

  lemma ChangedNodesAreCounted(a: seq<Node>, b: seq<Node>)
    requires UniqueNodes(a) && UniqueNodes(b)
    ensures |Mismatched(MapSeq(KeyNode, a), MapSeq(KeyNode, b))| == |ChangedNodes(a, b)|
  {
    var changed := Where(a, n => NodeChanged(n, b));
    forall k ensures k in Mismatched(MapSeq(KeyNode, a), MapSeq(KeyNode, b)) <==> k in Image(DigestOf, changed) {
      MismatchedNode(a, b, k);
      if n :| n in a && n.identityDigest == k && NodeChanged(n, b) {
        assert n in changed;
        ImageMember(DigestOf, changed, n);
      }
      if k in Image(DigestOf, changed) {
        var n := ImageSource(DigestOf, changed, k);
        assert n in a;
      }
    }
    assert Mismatched(MapSeq(KeyNode, a), MapSeq(KeyNode, b)) == Image(DigestOf, changed);
    forall g ensures g in ChangedNodes(a, b) <==> g in Image(NodeOf, changed) {
      if g in ChangedNodes(a, b) {
        var n := ImageSource(NodeOf, a, g);
        assert n in changed;
        ImageMember(NodeOf, changed, n);
      }
      if g in Image(NodeOf, changed) {
        var n := ImageSource(NodeOf, changed, g);
        ImageMember(NodeOf, a, n);
      }
    }
    assert ChangedNodes(a, b) == Image(NodeOf, changed);
    NodesReadAlike(changed, a);
    SameSizes(DigestOf, NodeOf, changed);
  }

  ghost predicate EdgeChanged(e: Edge, b: seq<Edge>) {
    EdgeOf(e) !in Image(EdgeOf, b) && LinkOf(e) in Links(b)
  }

  lemma EdgeChangedAgainst(e: Edge, b: seq<Edge>, y: Edge)
    requires UniqueLinks(b) && y in b && LinkOf(y) == LinkOf(e)
    ensures EdgeChanged(e, b) <==> EdgeOf(y) != EdgeOf(e)
  {
    ImageMember(LinkOf, b, y);
    ImageMember(EdgeOf, b, y);
    if EdgeOf(e) in Image(EdgeOf, b) {
      var z := ImageSource(EdgeOf, b, EdgeOf(e));
      OneEdge(b, y, z);
    }
  }

  /** Inventories that list every link once and know all its types. */
  ghost predicate Listed(edges: seq<Edge>) {
    Digested(edges) && KnownTypes(edges) && UniqueLinks(edges)
  }

  /** A key that both sides have is mismatched exactly when the edge under it is changed. */
  lemma MismatchedRow(a: seq<Edge>, b: seq<Edge>, k: string) returns (x: Edge)
    requires Listed(a) && Listed(b) && k in KeySet(MapSeq(KeyEdge, a)) && k in KeySet(MapSeq(KeyEdge, b))
    ensures x in a && KeyOf(x) == k
    ensures k in EdgeMismatched(MapSeq(KeyEdge, a), MapSeq(KeyEdge, b)) <==> EdgeChanged(x, b)
  {
    x := EdgeRow(a, k);
    var y := EdgeRow(b, k);
    KeyIsLink(x, y);
    EdgeChangedAgainst(x, b, y);
    SameEdge(x, y);
    EdgesDifferByProperties(a, b, k);
  }

  lemma ChangedHasKey(a: seq<Edge>, b: seq<Edge>, e: Edge)
    requires Listed(a) && Listed(b) && e in a && EdgeChanged(e, b)
    ensures KeyOf(e) in KeySet(MapSeq(KeyEdge, a)) && KeyOf(e) in KeySet(MapSeq(KeyEdge, b))
  {
    LinkIn(e, b);
    FirstHasItsType(a, e);
  }

  lemma OneKey(a: seq<Edge>, x: Edge, e: Edge)
    requires Listed(a) && x in a && e in a && KeyOf(x) == KeyOf(e)
    ensures x == e
  {
    KeyIsLink(x, e);
    OneEdge(a, x, e);
  }

  lemma MismatchedEdge(a: seq<Edge>, b: seq<Edge>, k: string)
    requires Listed(a) && Listed(b)
    ensures k in EdgeMismatched(MapSeq(KeyEdge, a), MapSeq(KeyEdge, b))
       <==> exists e :: e in a && KeyOf(e) == k && EdgeChanged(e, b)
  {
    if k in EdgeMismatched(MapSeq(KeyEdge, a), MapSeq(KeyEdge, b)) {
      var x := MismatchedRow(a, b, k);
    }
    if e :| e in a && KeyOf(e) == k && EdgeChanged(e, b) {
      ChangedHasKey(a, b, e);
      var x := MismatchedRow(a, b, k);
      OneKey(a, x, e);
    }
  }

  lemma EdgesReadAlike(edges: seq<Edge>, all: seq<Edge>)
    requires Digested(all) && UniqueLinks(all) && forall e :: e in edges ==> e in all
    ensures ReadAlike(KeyOf, EdgeOf, edges)
  {
    forall x, y | x in edges && y in edges ensures KeyOf(x) == KeyOf(y) <==> EdgeOf(x) == EdgeOf(y) {
      KeyIsLink(x, y);
      if LinkOf(x) == LinkOf(y) {
        OneEdge(all, x, y);
      }
    }
  }

  lemma ChangedEdgesAreCounted(a: seq<Edge>, b: seq<Edge>)
    requires Listed(a) && Listed(b)
    ensures |EdgeMismatched(MapSeq(KeyEdge, a), MapSeq(KeyEdge, b))| == |ChangedEdges(a, b)|
  {
    var changed := Where(a, e => EdgeChanged(e, b));
    forall k ensures k in EdgeMismatched(MapSeq(KeyEdge, a), MapSeq(KeyEdge, b)) <==> k in Image(KeyOf, changed) {
      MismatchedEdge(a, b, k);
      if e :| e in a && KeyOf(e) == k && EdgeChanged(e, b) {
        assert e in changed;
        ImageMember(KeyOf, changed, e);
      }
      if k in Image(KeyOf, changed) {
        var e := ImageSource(KeyOf, changed, k);
        assert e in a;
      }
    }
    assert EdgeMismatched(MapSeq(KeyEdge, a), MapSeq(KeyEdge, b)) == Image(KeyOf, changed);
    forall g ensures g in ChangedEdges(a, b) <==> g in Image(EdgeOf, changed) {
      if g in ChangedEdges(a, b) {
        var e := ImageSource(EdgeOf, a, g);
        assert e in changed;
        ImageMember(EdgeOf, changed, e);
      }
      if g in Image(EdgeOf, changed) {
        var e := ImageSource(EdgeOf, changed, g);
        ImageMember(EdgeOf, a, e);
      }
    }
    assert ChangedEdges(a, b) == Image(EdgeOf, changed);
    EdgesReadAlike(changed, a);
    SameSizes(KeyOf, EdgeOf, changed);
  }

  // ----- The summary -----

  /** What the counts are of inventories as they come. */
  ghost predicate CountsRows(a: Inventory, r: Inventory, s: Summary) {
    && s.ageOnlyNodes == |Digests(a.nodes) - Digests(r.nodes)|
    && s.relationalOnlyNodes == |Digests(r.nodes) - Digests(a.nodes)|
    && s.duplicateNodes == (|a.nodes| - |Digests(a.nodes)|) + (|r.nodes| - |Digests(r.nodes)|)
    && s.unknownTypes == |UnknownRows(a.edges)| + |UnknownRows(r.edges)|
    && s.orphanEdges == |OrphanRows(a)| + |OrphanRows(r)|
  }

  /** What the counts are where endpoints are digests: a key is a link. */
  ghost predicate CountsLinks(a: Inventory, r: Inventory, s: Summary) {
    && s.duplicateEdges == (|a.edges| - |Links(a.edges)|) + (|r.edges| - |Links(r.edges)|)
    && s.ageOnlyEdges == |OwnLinks(a.edges, r.edges)| && s.relationalOnlyEdges == |OwnLinks(r.edges, a.edges)|
  }

  /** Nothing is cut off, missing, repeated, unknown or different, and the audit found no blocker. */
  ghost predicate NothingFound(s: Summary) {
    && s.ageOnlyNodes == 0 && s.relationalOnlyNodes == 0 && s.ageOnlyEdges == 0 && s.relationalOnlyEdges == 0
    && s.duplicateNodes == 0 && s.duplicateEdges == 0 && s.orphanEdges == 0 && s.unknownTypes == 0
    && s.mismatches == 0 && NoAuditBlocker(s.sourceAudit)
  }

  lemma ComparisonCountsRows(age: Inventory, relational: Inventory, audit: SourceAudit)
    ensures CountsRows(age, relational, Compare(age, relational, audit))
  {
    NodeKeysAreDigests(age.nodes);
    NodeKeysAreDigests(relational.nodes);
    UnknownAreCounted(age.edges);
    UnknownAreCounted(relational.edges);
    OrphansAreCounted(age);
    OrphansAreCounted(relational);
  }

  lemma ComparisonCountsLinks(age: Inventory, relational: Inventory, audit: SourceAudit)
    requires Digested(age.edges) && Digested(relational.edges)
    ensures CountsLinks(age, relational, Compare(age, relational, audit))
  {
    EdgeKeysAreLinks(age.edges);
    EdgeKeysAreLinks(relational.edges);
    OwnLinksAreCounted(age.edges, relational.edges);
    OwnLinksAreCounted(relational.edges, age.edges);
  }

  /** Where every node and link is listed once, the mismatches are the nodes and edges that both sides list unlike. */
  lemma MismatchesAreChanges(age: Inventory, relational: Inventory, audit: SourceAudit)
    requires Listed(age.edges) && Listed(relational.edges)
    requires UniqueNodes(age.nodes) && UniqueNodes(relational.nodes)
    ensures Compare(age, relational, audit).mismatches
         == |ChangedNodes(age.nodes, relational.nodes)| + |ChangedEdges(age.edges, relational.edges)|
  {
    ChangedNodesAreCounted(age.nodes, relational.nodes);
    ChangedEdgesAreCounted(age.edges, relational.edges);
  }

  lemma GateFollowsTheCounts(age: Inventory, relational: Inventory, audit: SourceAudit)
    ensures var s := Compare(age, relational, audit);
            && s.sourceAudit == audit && s.truncated == (age.truncated || relational.truncated)
            && s.gate == if s.truncated then Inconclusive else if NothingFound(s) then Pass else Blocked
  {
    AuditBlockers(audit);
    NoBlockers(Compare(age, relational, audit));
  }

  /** All of it, of one summary. */
  ghost predicate CountsTheGraphs(age: Inventory, relational: Inventory, audit: SourceAudit, s: Summary) {
    && CountsRows(age, relational, s)
    && (Digested(age.edges) && Digested(relational.edges) ==> CountsLinks(age, relational, s))
    && (Listed(age.edges) && Listed(relational.edges) && UniqueNodes(age.nodes) && UniqueNodes(relational.nodes) ==>
          s.mismatches == |ChangedNodes(age.nodes, relational.nodes)| + |ChangedEdges(age.edges, relational.edges)|)
    && s.sourceAudit == audit && s.truncated == (age.truncated || relational.truncated)
    && s.gate == if s.truncated then Inconclusive else if NothingFound(s) then Pass else Blocked
  }

  lemma ComparisonCountsTheGraphs(age: Inventory, relational: Inventory, audit: SourceAudit)
    ensures CountsTheGraphs(age, relational, audit, Compare(age, relational, audit))
  {
    ComparisonCountsRows(age, relational, audit);
    if Digested(age.edges) && Digested(relational.edges) {
      ComparisonCountsLinks(age, relational, audit);
    }
    if Listed(age.edges) && Listed(relational.edges) && UniqueNodes(age.nodes) && UniqueNodes(relational.nodes) {
      MismatchesAreChanges(age, relational, audit);
    }
    GateFollowsTheCounts(age, relational, audit);
  }
}
