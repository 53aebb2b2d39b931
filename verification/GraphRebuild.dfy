/**
  Rebuilding the relational graph batch by batch: documents in the order of the digest of their raw document, each batch
  resumed from the digest that the one before ended with.
 */
module GraphRebuild {
  import opened Collections
  import opened Options
  import opened SortedStrings
  import opened WhiteSpace

  /** `digest` stands for the hexadecimal digest, in its text order. */
  datatype Row = Row(digest: int, rawDocument: int)

  datatype Mutation = UpsertNode(node: string) | UpsertEdge(from: string, relationType: string, to: string)

  datatype RebuildResult = RebuildResult(
    duplicateAttempts: nat, edges: nat, failed: nat, hasMore: bool, next: Option<int>, nodes: nat, processed: nat)

  datatype Outcome = Done(result: RebuildResult) | BatchFailed

  // ----- Paging -----

  /** The eligible documents in the order of the query: by digest, then by id. */
  ghost predicate Ordered(rows: seq<Row>) {
    forall i, j :: 0 <= i < j < |rows| ==>
      rows[i].digest < rows[j].digest || (rows[i].digest == rows[j].digest && rows[i].rawDocument < rows[j].rawDocument)
  }

  ghost predicate DistinctDigests(rows: seq<Row>) {
    forall i, j :: 0 <= i < j < |rows| ==> rows[i].digest != rows[j].digest
  }

  /** The rows whose digest comes after the cursor. */
  function Past(rows: seq<Row>, cursor: Option<int>): (r: seq<Row>)
    ensures |r| <= |rows|
  {
    if rows == [] then []
    else
      (if cursor.Some? && rows[0].digest <= cursor.value then [] else [rows[0]]) + Past(rows[1..], cursor)
  }

  function Page(rows: seq<Row>, cursor: Option<int>, limit: nat): seq<Row> {
    var past := Past(rows, cursor);
    if |past| <= limit then past else past[..limit]
  }

  lemma {:induction false} PastAll(rows: seq<Row>)
    ensures Past(rows, None) == rows
  {
    if rows != [] {
      PastAll(rows[1..]);
    }
  }

  lemma {:induction false} PastNone(rows: seq<Row>, d: int)
    requires forall i :: 0 <= i < |rows| ==> rows[i].digest > d
    ensures Past(rows, Some(d)) == rows
  {
    if rows != [] {
      PastNone(rows[1..], d);
    }
  }

  /** In an ordered table the rows past a cursor are a suffix. */
  lemma {:induction false} PastIsSuffix(rows: seq<Row>, d: int, k: nat)
    requires Ordered(rows) && k <= |rows|
    requires forall i :: 0 <= i < |rows| ==> (rows[i].digest > d <==> i >= k)
    ensures Past(rows, Some(d)) == rows[k..]
  {
    if k == 0 {
      PastNone(rows, d);
    } else {
      forall i | 0 <= i < |rows| - 1 ensures rows[1..][i].digest > d <==> i >= k - 1 {
        assert rows[1..][i] == rows[i + 1];
      }
      PastIsSuffix(rows[1..], d, k - 1);
      assert rows[0].digest <= d;
    }
  }

  /** A batch of a rebuild without failures: the page, and where the next one resumes. */
  datatype Batch = Batch(cursor: Option<int>, page: seq<Row>)

  ghost predicate Follows(rows: seq<Row>, limit: nat, b: Batch, c: Batch) {
    && b.page != [] && |b.page| == limit
    && c == Batch(Some(b.page[|b.page| - 1].digest), Page(rows, Some(b.page[|b.page| - 1].digest), limit))
  }

  /** The batches of a whole rebuild: the first has no cursor, each next one resumes, and the last one has no more. */
  ghost predicate Rebuild(rows: seq<Row>, limit: nat, run: seq<Batch>) {
    && run != [] && run[0] == Batch(None, Page(rows, None, limit))
    && (forall k :: 0 <= k < |run| - 1 ==> Follows(rows, limit, run[k], run[k + 1]))
    && |run[|run| - 1].page| != limit
  }

  ghost function Pages(run: seq<Batch>): seq<Row> {
    if run == [] then [] else Pages(run[..|run| - 1]) + run[|run| - 1].page
  }

  lemma PageFrom(rows: seq<Row>, limit: nat, at: nat)
    requires Ordered(rows) && DistinctDigests(rows) && 0 < at <= |rows|
    ensures Page(rows, Some(rows[at - 1].digest), limit) == rows[at..Min(at + limit, |rows|)]
  {
    PastIsSuffix(rows, rows[at - 1].digest, at);
  }

  lemma FirstPage(rows: seq<Row>, limit: nat)
    ensures Page(rows, None, limit) == rows[..Min(limit, |rows|)]
  {
    PastAll(rows);
  }

  lemma NextSlice(rows: seq<Row>, limit: nat, b: Batch, c: Batch, at: nat)
    requires Ordered(rows) && DistinctDigests(rows) && limit > 0 && Follows(rows, limit, b, c)
    requires at <= |rows| && b.page == rows[at..Min(at + limit, |rows|)]
    ensures at + limit <= |rows| && c.page == rows[at + limit..Min(at + limit + limit, |rows|)]
  {
    var next := at + limit;
    assert |b.page| == Min(next, |rows|) - at;
    assert next <= |rows| && b.page[|b.page| - 1] == rows[next - 1];
    PageFrom(rows, limit, next);
  }

  ghost function Start(limit: nat, k: nat): nat {
    if k == 0 then 0 else Start(limit, k - 1) + limit
  }

  lemma {:induction false} StartIsProduct(limit: nat, k: nat)
    ensures Start(limit, k) == k * limit
  {
    if k > 0 {
      StartIsProduct(limit, k - 1);
      assert k * limit == (k - 1) * limit + limit;
    } else {
      assert 0 * limit == 0;
    }
  }

  /** Batch `k` is the `k`-th slice of the table. */
  ghost predicate IsSlice(rows: seq<Row>, limit: nat, page: seq<Row>, at: nat) {
    at <= |rows| && page == rows[at..Min(at + limit, |rows|)]
  }

  lemma PagesMore(run: seq<Batch>, k: nat)
    requires k < |run|
    ensures Pages(run[..k + 1]) == Pages(run[..k]) + run[k].page
  {
    assert run[..k + 1][..k] == run[..k];
  }

  lemma {:induction false} BatchesAreSlices(rows: seq<Row>, limit: nat, run: seq<Batch>, k: nat)
    requires Ordered(rows) && DistinctDigests(rows) && limit > 0 && Rebuild(rows, limit, run) && k < |run|
    ensures IsSlice(rows, limit, run[k].page, Start(limit, k))
    decreases k
  {
    if k == 0 {
      FirstPage(rows, limit);
    } else {
      BatchesAreSlices(rows, limit, run, k - 1);
      assert Follows(rows, limit, run[k - 1], run[k - 1 + 1]);
      NextSlice(rows, limit, run[k - 1], run[k], Start(limit, k - 1));
    }
  }

  lemma JoinSlice(rows: seq<Row>, limit: nat, page: seq<Row>, at: nat)
    requires IsSlice(rows, limit, page, at)
    ensures rows[..at] + page == rows[..Min(at + limit, |rows|)]
  {
  }

  ghost predicate Slices(rows: seq<Row>, limit: nat, run: seq<Batch>, k: nat)
    requires k <= |run|
  {
    forall j: nat :: j < k ==> IsSlice(rows, limit, run[j].page, Start(limit, j))
  }

  lemma FewerSlices(rows: seq<Row>, limit: nat, run: seq<Batch>, k: nat)
    requires k < |run| && Slices(rows, limit, run, k + 1)
    ensures Slices(rows, limit, run, k) && IsSlice(rows, limit, run[k].page, Start(limit, k))
  {
  }

  lemma {:induction false} SlicesJoin(rows: seq<Row>, limit: nat, run: seq<Batch>, k: nat)
    requires k <= |run| && Slices(rows, limit, run, k)
    ensures Start(limit, if k == 0 then 0 else k - 1) <= |rows|
    ensures Pages(run[..k]) == rows[..Min(Start(limit, k), |rows|)]
    decreases k
  {
    if k > 0 {
      var j := k - 1;
      FewerSlices(rows, limit, run, j);
      SlicesJoin(rows, limit, run, j);
      PagesMore(run, j);
      JoinSlice(rows, limit, run[j].page, Start(limit, j));
    }
  }

  lemma LastBatchEnds(rows: seq<Row>, limit: nat, run: seq<Batch>)
    requires Ordered(rows) && DistinctDigests(rows) && limit > 0 && Rebuild(rows, limit, run)
    ensures Pages(run) == rows && Start(limit, |run| - 1) <= |rows| < Start(limit, |run| - 1) + limit
  {
    forall j: nat | j < |run| ensures IsSlice(rows, limit, run[j].page, Start(limit, j)) {
      BatchesAreSlices(rows, limit, run, j);
    }
    assert Slices(rows, limit, run, |run|);
    SlicesJoin(rows, limit, run, |run|);
    assert run[..|run|] == run;
    assert IsSlice(rows, limit, run[|run| - 1].page, Start(limit, |run| - 1));
  }

  /**
    For every limit the batches of a rebuild over a table with distinct digests are together one scan in digest
    order, and there is one batch more than the table has full pages.
   */
  lemma {:induction false} RebuildIsOneScan(rows: seq<Row>, limit: nat, run: seq<Batch>)
    requires Ordered(rows) && DistinctDigests(rows) && limit > 0 && Rebuild(rows, limit, run)
    ensures Pages(run) == rows && (|run| - 1) * limit <= |rows| < |run| * limit
  {
    LastBatchEnds(rows, limit, run);
    StartIsProduct(limit, |run| - 1);
    StartIsProduct(limit, |run|);
  }

  lemma {:induction false} PastShrinks(rows: seq<Row>, cursor: Option<int>, x: Row)
    requires x in Past(rows, cursor) && (cursor.Some? ==> cursor.value <= x.digest)
    ensures |Past(rows, Some(x.digest))| < |Past(rows, cursor)|
  {
    if rows[0] == x {
      PastNotLonger(rows[1..], cursor, x.digest);
      PastMembers(rows, cursor, x);
    } else {
      PastShrinks(rows[1..], cursor, x);
    }
  }

  lemma {:induction false} PastNotLonger(rows: seq<Row>, cursor: Option<int>, d: int)
    requires cursor.Some? ==> cursor.value <= d
    ensures |Past(rows, Some(d))| <= |Past(rows, cursor)|
  {
    if rows != [] {
      PastNotLonger(rows[1..], cursor, d);
    }
  }

  lemma {:induction false} PastMembers(rows: seq<Row>, cursor: Option<int>, x: Row)
    requires x in Past(rows, cursor)
    ensures cursor.Some? ==> cursor.value < x.digest
  {
    if !(rows[0] == x && (cursor.None? || cursor.value < x.digest)) {
      PastMembers(rows[1..], cursor, x);
    }
  }

  /** Every resumed batch has strictly fewer rows ahead, so following the cursors ends, whatever the digests. */
  lemma ResumingEnds(rows: seq<Row>, limit: nat, b: Batch, c: Batch)
    requires b.page == Page(rows, b.cursor, limit) && Follows(rows, limit, b, c)
    ensures |Past(rows, c.cursor)| < |Past(rows, b.cursor)| && c.page == Page(rows, c.cursor, limit)
  {
    var x := b.page[|b.page| - 1];
    assert x in Past(rows, b.cursor);
    PastMembers(rows, b.cursor, x);
    PastShrinks(rows, b.cursor, x);
  }

  /** The page, if it has rows at all, starts past the batch. */
  ghost predicate Beyond(b: Batch, page: seq<Row>) {
    page != [] ==> b.page != [] && forall i :: 0 <= i < |page| ==> page[i].digest > b.page[|b.page| - 1].digest
  }

  /** Batches that follow each other from `b` on; later pages hold only rows past it. */
  ghost predicate Chained(rows: seq<Row>, limit: nat, b: Batch, run: seq<Batch>) {
    && run != [] && run[0] == b
    && (forall k :: 0 <= k < |run| - 1 ==> Follows(rows, limit, run[k], run[k + 1]))
    && (forall k :: 1 <= k < |run| ==> Beyond(b, run[k].page))
  }

  lemma ChainedBefore(rows: seq<Row>, limit: nat, b: Batch, c: Batch, rest: seq<Batch>)
    requires limit > 0 && Follows(rows, limit, b, c) && Chained(rows, limit, c, rest)
    ensures Chained(rows, limit, b, [b] + rest)
  {
    var run, d := [b] + rest, b.page[|b.page| - 1].digest;
    forall i | 0 <= i < |c.page| ensures c.page[i].digest > d {
      assert c.page[i] in Past(rows, Some(d));
      PastMembers(rows, Some(d), c.page[i]);
    }
    forall k | 1 <= k < |run| ensures Beyond(b, run[k].page) {
      assert run[k] == rest[k - 1];
      if k > 1 {
        assert Beyond(c, rest[k - 1].page);
      }
    }
    forall k | 0 <= k < |run| - 1 ensures Follows(rows, limit, run[k], run[k + 1]) {
      assert run[k + 1] == rest[k];
      if k > 0 {
        assert Follows(rows, limit, rest[k - 1], rest[k - 1 + 1]);
      }
    }
  }

  /** Following the cursors from a batch to the end. */
  lemma {:induction false} FollowToEnd(rows: seq<Row>, limit: nat, b: Batch) returns (run: seq<Batch>)
    requires b.page == Page(rows, b.cursor, limit) && limit > 0
    ensures Chained(rows, limit, b, run) && |run[|run| - 1].page| != limit
    decreases |Past(rows, b.cursor)|
  {
    if |b.page| != limit {
      run := [b];
    } else {
      var d := b.page[|b.page| - 1].digest;
      var c := Batch(Some(d), Page(rows, Some(d), limit));
      ResumingEnds(rows, limit, b, c);
      var rest := FollowToEnd(rows, limit, c);
      ChainedBefore(rows, limit, b, c, rest);
      run := [b] + rest;
    }
  }

  lemma {:induction false} InSomePage(run: seq<Batch>, r: Row)
    requires r in Pages(run)
    ensures exists k :: 0 <= k < |run| && r in run[k].page
  {
    var n := |run| - 1;
    if r in run[n].page {
    } else {
      InSomePage(run[..n], r);
      var k :| 0 <= k < |run[..n]| && r in run[..n][k].page;
      assert r in run[k].page;
    }
  }

  /** Whenever two rows share a digest, some limit makes a rebuild lose a row. */
  lemma SharedDigestLosesARow(rows: seq<Row>, i: nat, j: nat) returns (limit: nat, run: seq<Batch>)
    requires Ordered(rows) && i < j < |rows| && rows[i].digest == rows[j].digest
    ensures limit > 0 && Rebuild(rows, limit, run) && Pages(run) != rows
  {
    limit := i + 1;
    var lost := rows[i + 1];
    assert lost.digest == rows[i].digest;
    run := FollowToEnd(rows, limit, Batch(None, Page(rows, None, limit)));
    FirstPage(rows, limit);
    assert run[0].page == rows[..i + 1];
    forall k | 0 <= k < |run| ensures lost !in run[k].page {
      assert k > 0 ==> Beyond(run[0], run[k].page);
    }
    if lost in Pages(run) {
      InSomePage(run, lost);
      assert false;
    }
    assert lost in rows;
  }

  /** Rebuilds are one scan for every limit exactly when no two documents share a digest. */
  lemma OneScanNeedsDistinctDigests(rows: seq<Row>)
    requires Ordered(rows)
    ensures DistinctDigests(rows)
       <==> forall limit: nat, run :: limit > 0 && Rebuild(rows, limit, run) ==> Pages(run) == rows
  {
    if DistinctDigests(rows) {
      forall limit: nat, run | limit > 0 && Rebuild(rows, limit, run) ensures Pages(run) == rows {
        RebuildIsOneScan(rows, limit, run);
      }
    } else {
      var i, j :| 0 <= i < j < |rows| && rows[i].digest == rows[j].digest;
      var limit, run := SharedDigestLosesARow(rows, i, j);
    }
  }

  // ----- One batch -----

  function EdgeKey(from: string, relationType: string, to: string): string {
    if relationType == "SAME_AS" && !AtMost(from, to) then to + "\U{001f}" + relationType + "\U{001f}" + from
    else from + "\U{001f}" + relationType + "\U{001f}" + to
  }

  /** A blank SAME_AS endpoint is refused, and so are equal ones. */
  predicate Refused(m: Mutation) {
    m.UpsertEdge? && m.relationType == "SAME_AS" && (m.from == m.to || Blank(m.from) || Blank(m.to))
  }

  ghost function NodesOf(ms: seq<Mutation>): set<string> {
    set i | 0 <= i < |ms| && ms[i].UpsertNode? :: ms[i].node
  }

  ghost function EdgesOf(ms: seq<Mutation>): set<string> {
    set i | 0 <= i < |ms| && ms[i].UpsertEdge? :: EdgeKey(ms[i].from, ms[i].relationType, ms[i].to)
  }

  /**
    What is carried out of a document's mutations: everything before the first refused one, which ends the document.
   */
  function CarriedOut(ms: seq<Mutation>): (r: seq<Mutation>)
    ensures r <= ms
    ensures forall i :: 0 <= i < |r| ==> !Refused(r[i])
    ensures r == ms || Refused(ms[|r|])
  {
    if ms == [] || Refused(ms[0]) then [] else [ms[0]] + CarriedOut(ms[1..])
  }

  /** SAME_AS is unordered: both directions share a key. */
  lemma SameAsIsUnordered(from: string, to: string)
    ensures EdgeKey(from, "SAME_AS", to) == EdgeKey(to, "SAME_AS", from)
  {
    LessIsTotal(from, to);
  }

  const SEPARATOR: char := '\U{001f}'

  ghost predicate Plain(s: string) {
    SEPARATOR !in s
  }

  lemma SeparatorInside(a: string, b: string, rest: string, more: string)
    requires |a| < |b| && a + [SEPARATOR] + rest == b + [SEPARATOR] + more
    ensures !Plain(b)
  {
    assert b[|a|] == (b + [SEPARATOR] + more)[|a|] == (a + [SEPARATOR] + rest)[|a|] == SEPARATOR;
  }

  /** The first separator ends the front. */
  lemma FrontIsUnique(a: string, b: string, rest: string, more: string)
    requires Plain(a) && Plain(b) && a + [SEPARATOR] + rest == b + [SEPARATOR] + more
    ensures a == b && rest == more
  {
    if |a| < |b| {
      SeparatorInside(a, b, rest, more);
    } else if |b| < |a| {
      SeparatorInside(b, a, more, rest);
    } else {
      var k := a + [SEPARATOR] + rest;
      assert a == k[..|a|] == b && rest == k[|a| + 1..] == more;
    }
  }

  lemma JoinedIsUnique(a: string, r: string, b: string, c: string, s: string, d: string)
    requires Plain(a) && Plain(r) && Plain(c) && Plain(s)
    requires a + [SEPARATOR] + r + [SEPARATOR] + b == c + [SEPARATOR] + s + [SEPARATOR] + d
    ensures a == c && r == s && b == d
  {
    assert a + [SEPARATOR] + r + [SEPARATOR] + b == a + [SEPARATOR] + (r + [SEPARATOR] + b);
    assert c + [SEPARATOR] + s + [SEPARATOR] + d == c + [SEPARATOR] + (s + [SEPARATOR] + d);
    FrontIsUnique(a, c, r + [SEPARATOR] + b, s + [SEPARATOR] + d);
    FrontIsUnique(r, s, b, d);
  }

  /** Without a separator in their parts, keys are equal exactly for the same edge; SAME_AS edges have no direction. */
  lemma EdgeKeysIdentifyEdges(a: string, r: string, b: string, c: string, s: string, d: string)
    requires Plain(a) && Plain(r) && Plain(b) && Plain(c) && Plain(s) && Plain(d)
    ensures EdgeKey(a, r, b) == EdgeKey(c, s, d)
       <==> r == s && ((a == c && b == d) || (r == "SAME_AS" && a == d && b == c))
  {
    LessIsTotal(a, b);
    LessIsTotal(c, d);
    var (x, y) := if r == "SAME_AS" && !AtMost(a, b) then (b, a) else (a, b);
    var (z, w) := if s == "SAME_AS" && !AtMost(c, d) then (d, c) else (c, d);
    if EdgeKey(a, r, b) == EdgeKey(c, s, d) {
      JoinedIsUnique(x, r, y, z, s, w);
    }
  }

  lemma OneMoreNode(ms: seq<Mutation>, m: Mutation)
    requires m.UpsertNode?
    ensures NodesOf(ms + [m]) == NodesOf(ms) + {m.node} && EdgesOf(ms + [m]) == EdgesOf(ms)
  {
    var more := ms + [m];
    assert forall i :: 0 <= i < |ms| ==> more[i] == ms[i];
    assert more[|ms|] == m;
    forall k ensures k in NodesOf(more) <==> k in NodesOf(ms) + {m.node} {
      if k in NodesOf(ms) {
        var i :| 0 <= i < |ms| && ms[i].UpsertNode? && ms[i].node == k;
        assert more[i].node == k;
      }
    }
    forall k ensures k in EdgesOf(more) <==> k in EdgesOf(ms) {
      if k in EdgesOf(ms) {
        var i :| 0 <= i < |ms| && ms[i].UpsertEdge? && EdgeKey(ms[i].from, ms[i].relationType, ms[i].to) == k;
        assert more[i] == ms[i];
      }
    }
  }

  lemma OneMoreEdge(ms: seq<Mutation>, m: Mutation)
    requires m.UpsertEdge?
    ensures NodesOf(ms + [m]) == NodesOf(ms)
    ensures EdgesOf(ms + [m]) == EdgesOf(ms) + {EdgeKey(m.from, m.relationType, m.to)}
  {
    var more := ms + [m];
    assert forall i :: 0 <= i < |ms| ==> more[i] == ms[i];
    assert more[|ms|] == m;
    forall k ensures k in NodesOf(more) <==> k in NodesOf(ms) {
      if k in NodesOf(ms) {
        var i :| 0 <= i < |ms| && ms[i].UpsertNode? && ms[i].node == k;
        assert more[i].node == k;
      }
    }
    forall k ensures k in EdgesOf(more) <==> k in EdgesOf(ms) + {EdgeKey(m.from, m.relationType, m.to)} {
      if k in EdgesOf(ms) {
        var i :| 0 <= i < |ms| && ms[i].UpsertEdge? && EdgeKey(ms[i].from, ms[i].relationType, ms[i].to) == k;
        assert more[i] == ms[i];
      }
    }
  }

  /** Counts the distinct nodes and edges of a batch, and the mutations that repeated one. */
  class Collector {
    var edges: set<string>
    var nodes: set<string>
    var duplicateAttempts: nat

    constructor ()
      ensures edges == {} && nodes == {} && duplicateAttempts == 0
    {
      edges, nodes, duplicateAttempts := {}, {}, 0;
    }

    /** What the collector holds after the mutations `ms` were carried out. */
    ghost predicate Holds(ms: seq<Mutation>)
      reads this
    {
      nodes == NodesOf(ms) && edges == EdgesOf(ms) && |nodes| + |edges| + duplicateAttempts == |ms|
    }

    /** Fails, and changes nothing, exactly for a refused mutation. */
    method Upsert(m: Mutation, ghost before: seq<Mutation>) returns (ok: bool)
      requires Holds(before)
      modifies this
      ensures !ok <==> m.UpsertEdge? && m.relationType == "SAME_AS" && (m.from == m.to || Blank(m.from) || Blank(m.to))
      ensures Holds(if ok then before + [m] else before)
    {
      match m {
        case UpsertNode(node) =>
          OneMoreNode(before, m);
          if node in nodes {
            assert nodes + {node} == nodes;
            duplicateAttempts := duplicateAttempts + 1;
          }
          nodes := nodes + {node};
        case UpsertEdge(from, relationType, to) =>
          OneMoreEdge(before, m);
          if Refused(m) {
            return false;
          }
          var key := EdgeKey(from, relationType, to);
          if key in edges {
            assert edges + {key} == edges;
            duplicateAttempts := duplicateAttempts + 1;
          }
          edges := edges + {key};
      }
      ok := true;
    }
  }

  /** The mutations that a document asks for, up to where it fails for another reason, if it does. */
  type Attempts = Row -> seq<Mutation>

  /** The mutations of a page that are carried out. */
  ghost function Mutations(page: seq<Row>, attempts: Attempts): seq<Mutation> {
    if page == [] then [] else Mutations(page[..|page| - 1], attempts) + CarriedOut(attempts(page[|page| - 1]))
  }

  /** A document fails when one of its mutations is refused, and for whatever reason `fails` stands for. */
  predicate Fails(row: Row, attempts: Attempts, fails: Row -> bool) {
    CarriedOut(attempts(row)) != attempts(row) || fails(row)
  }

  ghost function Failures(page: seq<Row>, attempts: Attempts, fails: Row -> bool): nat {
    if page == [] then 0
    else Failures(page[..|page| - 1], attempts, fails) + if Fails(page[|page| - 1], attempts, fails) then 1 else 0
  }

  // ----- What a page amounts to -----

  /** Mutation `j` of the document at `i` is carried out: no mutation up to it is refused. */
  ghost predicate CarriedAt(page: seq<Row>, attempts: Attempts, i: nat, j: nat) {
    i < |page| && j < |attempts(page[i])| && forall k :: 0 <= k <= j ==> !Refused(attempts(page[i])[k])
  }

  lemma CarriedUpTo(ms: seq<Mutation>, j: nat)
    requires j < |ms|
    ensures j < |CarriedOut(ms)| <==> forall k :: 0 <= k <= j ==> !Refused(ms[k])
  {
    var r := CarriedOut(ms);
    if j < |r| {
      forall k | 0 <= k <= j ensures !Refused(ms[k]) {
        assert r[k] == ms[k];
      }
    }
  }

  /** Some document of the page has the mutation carried out. */
  ghost predicate IsCarried(page: seq<Row>, attempts: Attempts, m: Mutation) {
    exists i: nat, j: nat :: CarriedAt(page, attempts, i, j) && attempts(page[i])[j] == m
  }

  lemma CarriedOfOne(ms: seq<Mutation>, m: Mutation)
    ensures m in CarriedOut(ms)
       <==> exists j: nat :: j < |ms| && ms[j] == m && forall k :: 0 <= k <= j ==> !Refused(ms[k])
  {
    if m in CarriedOut(ms) {
      var j :| 0 <= j < |CarriedOut(ms)| && CarriedOut(ms)[j] == m;
      CarriedUpTo(ms, j);
      assert ms[j] == m;
    }
    if j: nat :| j < |ms| && ms[j] == m && forall k :: 0 <= k <= j ==> !Refused(ms[k]) {
      CarriedUpTo(ms, j);
      assert CarriedOut(ms)[j] == m;
    }
  }

  lemma OneMoreDocument(page: seq<Row>, attempts: Attempts, m: Mutation)
    requires page != []
    ensures var n := |page| - 1;
            IsCarried(page, attempts, m) <==> IsCarried(page[..n], attempts, m) || m in CarriedOut(attempts(page[n]))
  {
    var n := |page| - 1;
    var front, last := page[..n], attempts(page[n]);
    CarriedOfOne(last, m);
    if IsCarried(front, attempts, m) {
      var i: nat, j: nat :| CarriedAt(front, attempts, i, j) && attempts(front[i])[j] == m;
      assert page[i] == front[i] && CarriedAt(page, attempts, i, j);
    }
    if m in CarriedOut(last) {
      var j: nat :| j < |last| && last[j] == m && forall k :: 0 <= k <= j ==> !Refused(last[k]);
      assert CarriedAt(page, attempts, n, j);
    }
    if IsCarried(page, attempts, m) {
      var i: nat, j: nat :| CarriedAt(page, attempts, i, j) && attempts(page[i])[j] == m;
      if i < n {
        assert page[i] == front[i] && CarriedAt(front, attempts, i, j);
      }
    }
  }

  /** The mutations of a page are those of its documents, each up to the first refused one. */
  lemma {:induction false} MutationsAreCarried(page: seq<Row>, attempts: Attempts, m: Mutation)
    ensures m in Mutations(page, attempts) <==> IsCarried(page, attempts, m)
  {
    if page != [] {
      MutationsAreCarried(page[..|page| - 1], attempts, m);
      OneMoreDocument(page, attempts, m);
    }
  }

  /** Where the carried mutations of a page stand: document and position in it. */
  ghost function CarriedPositions(page: seq<Row>, attempts: Attempts): set<(nat, nat)> {
    set i: nat, j: nat | i < |page| && j < |attempts(page[i])| && CarriedAt(page, attempts, i, j) :: (i, j)
  }

  lemma {:induction false} FirstPositions(i: nat, n: nat)
    ensures |set j: nat | j < n :: (i, j)| == n
  {
    var all := set j: nat | j < n :: (i, j);
    if n == 0 {
      assert all == {};
    } else {
      FirstPositions(i, n - 1);
      var before := set j: nat | j < n - 1 :: (i, j);
      assert all == before + {(i, n - 1)};
    }
  }

  /** There are as many mutations as carried positions, so none is counted twice. */
  lemma {:induction false} MutationsAreCounted(page: seq<Row>, attempts: Attempts)
    ensures |Mutations(page, attempts)| == |CarriedPositions(page, attempts)|
  {
    if page == [] {
      assert CarriedPositions(page, attempts) == {};
    } else {
      MutationsAreCounted(page[..|page| - 1], attempts);
      PositionsOfOneMore(page, attempts);
    }
  }

  lemma PositionsOfOneMore(page: seq<Row>, attempts: Attempts)
    requires page != []
    ensures var n := |page| - 1;
            |CarriedPositions(page, attempts)|
            == |CarriedPositions(page[..n], attempts)| + |CarriedOut(attempts(page[n]))|
  {
    var n := |page| - 1;
    var front, carried := page[..n], |CarriedOut(attempts(page[n]))|;
    var before, last := CarriedPositions(front, attempts), set j: nat | j < carried :: (n, j);
    forall i: nat, j: nat | i < n ensures CarriedAt(page, attempts, i, j) <==> CarriedAt(front, attempts, i, j) {
      assert page[i] == front[i];
    }
    forall j: nat ensures CarriedAt(page, attempts, n, j) <==> j < carried {
      if j < |attempts(page[n])| {
        CarriedUpTo(attempts(page[n]), j);
      }
    }
    assert CarriedPositions(page, attempts) == before + last;
    assert before !! last;
    FirstPositions(n, carried);
  }

  /** A document fails for a refused mutation, or for whatever other reason. */
  ghost function FailedRows(page: seq<Row>, attempts: Attempts, fails: Row -> bool): set<nat> {
    set i: nat | i < |page| && (fails(page[i]) || exists m :: m in attempts(page[i]) && Refused(m))
  }

  lemma FailsWhenRefused(row: Row, attempts: Attempts, fails: Row -> bool)
    ensures Fails(row, attempts, fails) <==> fails(row) || exists m :: m in attempts(row) && Refused(m)
  {
    var ms := attempts(row);
    if CarriedOut(ms) == ms {
      forall m | m in ms ensures !Refused(m) {
        var i :| 0 <= i < |ms| && ms[i] == m;
        assert !Refused(CarriedOut(ms)[i]);
      }
    } else {
      assert ms[|CarriedOut(ms)|] in ms;
    }
  }

  lemma {:induction false} FailuresAreFailedRows(page: seq<Row>, attempts: Attempts, fails: Row -> bool)
    ensures Failures(page, attempts, fails) == |FailedRows(page, attempts, fails)|
  {
    if page == [] {
      assert FailedRows(page, attempts, fails) == {};
    } else {
      var n := |page| - 1;
      var front := page[..n];
      FailuresAreFailedRows(front, attempts, fails);
      FailsWhenRefused(page[n], attempts, fails);
      assert forall i: nat :: i < n ==> front[i] == page[i];
      assert FailedRows(page, attempts, fails)
        == FailedRows(front, attempts, fails) + if Fails(page[n], attempts, fails) then {n} else {};
    }
  }

  function ResumeAfter(page: seq<Row>): Option<int> {
    if page == [] then None else Some(page[|page| - 1].digest)
  }

  lemma OneMoreOf<T>(before: seq<T>, s: seq<T>, i: nat)
    requires i < |s|
    ensures before + s[..i] + [s[i]] == before + s[..i + 1]
  {
  }

  ghost predicate Accepted(ms: seq<Mutation>, i: nat)
    requires i <= |ms|
  {
    forall j :: 0 <= j < i ==> !Refused(ms[j])
  }

  lemma {:induction false} CarriedPrefix(ms: seq<Mutation>, i: nat)
    requires i <= |ms| && Accepted(ms, i)
    ensures i <= |CarriedOut(ms)|
    ensures i < |ms| && Refused(ms[i]) ==> CarriedOut(ms) == ms[..i]
    ensures i == |ms| ==> CarriedOut(ms) == ms
  {
    if i > 0 {
      assert forall j :: 0 <= j < i - 1 ==> ms[1..][j] == ms[j + 1];
      CarriedPrefix(ms[1..], i - 1);
    }
  }

  lemma AcceptedNext(ms: seq<Mutation>, i: nat)
    requires i < |ms| && Accepted(ms, i) && !Refused(ms[i])
    ensures Accepted(ms, i + 1)
  {
  }

  /** One document: its mutations in order, until one of them throws. */
  method StoreDocument(collector: Collector, ms: seq<Mutation>, ghost before: seq<Mutation>) returns (ok: bool)
    requires collector.Holds(before)
    modifies collector
    ensures collector.Holds(before + CarriedOut(ms)) && (ok <==> CarriedOut(ms) == ms)
  {
    assert before + ms[..0] == before;
    for i := 0 to |ms|
      invariant collector.Holds(before + ms[..i]) && Accepted(ms, i)
    {
      var accepted := collector.Upsert(ms[i], before + ms[..i]);
      CarriedPrefix(ms, i);
      if !accepted {
        return false;
      }
      AcceptedNext(ms, i);
      OneMoreOf(before, ms, i);
    }
    CarriedPrefix(ms, |ms|);
    assert ms[..|ms|] == ms;
    ok := true;
  }

  /** The decisions of a page, in order, are counted by their failures. */
  method StorePage(collector: Collector, page: seq<Row>, attempts: Attempts, fails: Row -> bool) returns (failed: nat)
    requires collector.Holds([])
    modifies collector
    ensures collector.Holds(Mutations(page, attempts)) && failed == Failures(page, attempts, fails)
  {
    failed := 0;
    for i := 0 to |page|
      invariant collector.Holds(Mutations(page[..i], attempts)) && failed == Failures(page[..i], attempts, fails)
    {
      assert page[..i + 1][..i] == page[..i];
      var stored := StoreDocument(collector, attempts(page[i]), Mutations(page[..i], attempts));
      if !stored || fails(page[i]) {
        failed := failed + 1;
      }
    }
    assert page[..|page|] == page;
  }

  /**
    One batch: the page after the cursor, one decision for each of its documents in order. An execute batch with a
    failure is rolled back; a dry run with one reports more to do but no cursor.
   */
  method RunGraphRebuild(
    rows: seq<Row>, cursor: Option<int>, limit: nat, dryRun: bool, attempts: Attempts, fails: Row -> bool)
    returns (outcome: Outcome)
    ensures outcome.BatchFailed? <==> !dryRun && FailedRows(Page(rows, cursor, limit), attempts, fails) != {}
    ensures outcome.Done? ==>
              var page, r := Page(rows, cursor, limit), outcome.result;
              && r.processed == |page| && r.failed == |FailedRows(page, attempts, fails)|
              && r.hasMore == (r.failed > 0 || |page| == limit)
              && r.next == (if r.failed > 0 || page == [] then None else Some(page[|page| - 1].digest))
              && r.nodes == |NodesOf(Mutations(page, attempts))| && r.edges == |EdgesOf(Mutations(page, attempts))|
              && r.nodes + r.edges + r.duplicateAttempts == |CarriedPositions(page, attempts)|
  {
    var collector := new Collector();
    var page := Page(rows, cursor, limit);
    var failed := StorePage(collector, page, attempts, fails);
    FailuresAreFailedRows(page, attempts, fails);
    MutationsAreCounted(page, attempts);
    if !dryRun && failed > 0 {
      return BatchFailed;
    }
    var hasMore := failed > 0 || |page| == limit;
    var next := if failed > 0 then None else ResumeAfter(page);
    outcome := Done(
      RebuildResult(collector.duplicateAttempts, |collector.edges|, failed, hasMore, next, |collector.nodes|, |page|));
  }
}
