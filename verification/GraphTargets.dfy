/**
  Choosing the documents to index into the graph: pages of the candidate table, of each page first the documents
  that lack a node or are freshly parsed, then documents whose related-document edges are missing.
 */
module GraphTargets {
  import opened Collections

  const PAGE_MULTIPLIER := 10
  const PAGE_MINIMUM := 100

  /** `related` lists the source ids that the parsed text names as related documents. */
  datatype Target = Target(node: string, raw: int, parsed: bool, source: string, related: seq<string>)

  /** `documents` finds a document's node by source id; `edges` are the related-document edges that exist. */
  datatype Graph = Graph(nodes: set<string>, documents: map<string, string>, edges: set<(string, string)>)

  predicate Wants(g: Graph, t: Target) {
    t.node !in g.nodes || t.parsed
  }

  /** One plain scan for the documents that lack a node or are freshly parsed. */
  function Wanted(g: Graph, rows: seq<Target>): (r: seq<Target>)
    ensures |r| <= |rows|
  {
    if rows == [] then []
    else Wanted(g, rows[..|rows| - 1]) + if Wants(g, rows[|rows| - 1]) then [rows[|rows| - 1]] else []
  }

  ghost predicate DistinctRows(rows: seq<Target>) {
    forall i, j :: 0 <= i < j < |rows| ==> rows[i].raw != rows[j].raw
  }

  // ----- Related documents -----

  /** Rows of the page whose node exists and whose text names related documents. */
  function WithRelated(g: Graph, rows: seq<Target>): seq<Target> {
    if rows == [] then []
    else
      var t := rows[0];
      (if t.node in g.nodes && t.related != [] then [t] else []) + WithRelated(g, rows[1..])
  }

  /** The source ids kept for a node: those of its last row, without its own. */
  function SourceIds(rows: seq<Target>, node: string): set<string> {
    if rows == [] then {}
    else
      var t := rows[|rows| - 1];
      if t.node == node then set s | s in t.related && s != t.source else SourceIds(rows[..|rows| - 1], node)
  }

  /** The node names another known document that it has no edge to. */
  ghost predicate LacksRelatedEdge(g: Graph, rows: seq<Target>, node: string) {
    exists s :: s in SourceIds(rows, node) && s in g.documents && g.documents[s] != node
      && (node, g.documents[s]) !in g.edges
  }

  predicate LacksEdge(g: Graph, ids: set<string>, node: string) {
    exists s :: s in ids && s in g.documents && g.documents[s] != node && (node, g.documents[s]) !in g.edges
  }

  /** selectRelatedDocumentBackfillTargets before its slice. */
  function Lacking(g: Graph, all: seq<Target>, rows: seq<Target>): seq<Target> {
    if rows == [] then []
    else
      var t := rows[0];
      (if t.node in g.nodes && LacksEdge(g, SourceIds(all, t.node), t.node) then [t] else [])
        + Lacking(g, all, rows[1..])
  }

  lemma {:induction false} WithRelatedMembers(g: Graph, rows: seq<Target>, t: Target)
    ensures t in WithRelated(g, rows) <==> t in rows && t.node in g.nodes && t.related != []
  {
    if rows != [] {
      WithRelatedMembers(g, rows[1..], t);
      assert rows == [rows[0]] + rows[1..];
    }
  }

  lemma {:induction false} LackingMembers(g: Graph, all: seq<Target>, rows: seq<Target>, t: Target)
    ensures t in Lacking(g, all, rows) <==> t in rows && t.node in g.nodes && LacksRelatedEdge(g, all, t.node)
  {
    if rows != [] {
      LackingMembers(g, all, rows[1..], t);
      assert rows == [rows[0]] + rows[1..];
    }
  }

  /** A row of the page that is taken for its missing related-document edges. */
  ghost predicate Backfills(g: Graph, page: seq<Target>, t: Target) {
    t in page && t.node in g.nodes && t.related != [] && LacksRelatedEdge(g, WithRelated(g, page), t.node)
  }

  // ----- Selection from one page -----

  lemma {:induction false} WantedJoin(g: Graph, a: seq<Target>, b: seq<Target>)
    ensures Wanted(g, a + b) == Wanted(g, a) + Wanted(g, b)
  {
    if b == [] {
      assert a + b == a;
    } else {
      WantedJoin(g, a, b[..|b| - 1]);
      assert (a + b)[..|a + b| - 1] == a + b[..|b| - 1];
    }
  }

  lemma {:induction false} WantedMembers(g: Graph, rows: seq<Target>, t: Target)
    ensures t in Wanted(g, rows) <==> t in rows && Wants(g, t)
  {
    if rows != [] {
      WantedMembers(g, rows[..|rows| - 1], t);
      assert rows == rows[..|rows| - 1] + [rows[|rows| - 1]];
    }
  }

  lemma {:induction false} WantedDistinct(g: Graph, rows: seq<Target>)
    requires DistinctRows(rows)
    ensures DistinctRows(Wanted(g, rows))
  {
    if rows != [] {
      var front := rows[..|rows| - 1];
      WantedDistinct(g, front);
      forall t | t in Wanted(g, front) ensures t.raw != rows[|rows| - 1].raw {
        WantedMembers(g, front, t);
      }
    }
  }

  lemma {:induction false} NoneWanted(g: Graph, rows: seq<Target>)
    requires forall t :: t in rows ==> !Wants(g, t)
    ensures Wanted(g, rows) == []
  {
    if rows != [] {
      var front, last := rows[..|rows| - 1], rows[|rows| - 1];
      assert rows == front + [last];
      assert last in rows && forall t :: t in front ==> t in rows;
      NoneWanted(g, front);
    }
  }

  lemma {:induction false} AllWanted(g: Graph, rows: seq<Target>)
    requires forall t :: t in rows ==> Wants(g, t)
    ensures Wanted(g, rows) == rows
  {
    if rows != [] {
      var front, last := rows[..|rows| - 1], rows[|rows| - 1];
      assert rows == front + [last];
      assert last in rows && forall t :: t in front ==> t in rows;
      AllWanted(g, front);
    }
  }

  method SelectGraphIndexTargets(g: Graph, rows: seq<Target>, limit: nat) returns (selected: seq<Target>)
    requires limit > 0
    ensures selected == Take(Wanted(g, rows), limit)
    ensures forall t :: t in selected ==> t in rows && (t.node !in g.nodes || t.parsed)
    ensures |selected| < limit ==> forall t :: t in rows && (t.node !in g.nodes || t.parsed) ==> t in selected
  {
    selected := [];
    for i := 0 to |rows|
      invariant selected == Take(Wanted(g, rows[..i]), limit) && |Wanted(g, rows[..i])| <= limit
    {
      assert rows[..i + 1][..i] == rows[..i];
      WantedJoin(g, rows[..i], rows[i..]);
      assert rows[..i] + rows[i..] == rows;
      if |selected| >= limit {
        break;
      }
      if rows[i].node !in g.nodes || rows[i].parsed {
        selected := selected + [rows[i]];
      }
    }
    assert rows[..|rows|] == rows;
    FirstWanted(g, rows, limit);
  }

  lemma FirstWanted(g: Graph, rows: seq<Target>, limit: nat)
    ensures var selected := Take(Wanted(g, rows), limit);
            && (forall t :: t in selected ==> t in rows && (t.node !in g.nodes || t.parsed))
            && (|selected| < limit ==> forall t :: t in rows && (t.node !in g.nodes || t.parsed) ==> t in selected)
  {
    var selected := Take(Wanted(g, rows), limit);
    forall t | t in selected ensures t in rows && (t.node !in g.nodes || t.parsed) {
      assert t in Wanted(g, rows);
      WantedMembers(g, rows, t);
    }
    forall t | |selected| < limit && t in rows && (t.node !in g.nodes || t.parsed) ensures t in selected {
      WantedMembers(g, rows, t);
    }
  }

  ghost function NodesOf(rows: seq<Target>): set<string> {
    set i | 0 <= i < |rows| :: rows[i].node
  }

  lemma NodesOfMore(a: seq<Target>, b: seq<Target>)
    ensures NodesOf(a + b) == NodesOf(a) + NodesOf(b)
  {
    var all := a + b;
    forall n ensures n in NodesOf(all) <==> n in NodesOf(a) + NodesOf(b) {
      if n in NodesOf(all) {
        var i :| 0 <= i < |all| && all[i].node == n;
        assert if i < |a| then a[i] == all[i] else b[i - |a|] == all[i];
      }
      if n in NodesOf(a) {
        var i :| 0 <= i < |a| && a[i].node == n;
        assert all[i] == a[i];
      }
      if n in NodesOf(b) {
        var i :| 0 <= i < |b| && b[i].node == n;
        assert all[|a| + i] == b[i];
      }
    }
  }

  /** The candidates whose node is new, behind the selected rows, as long as there is room. */
  ghost function AddedRows(selected: seq<Target>, candidates: seq<Target>, limit: nat): seq<Target> {
    if candidates == [] then selected
    else
      var last := candidates[|candidates| - 1];
      var before := AddedRows(selected, candidates[..|candidates| - 1], limit);
      if |before| >= limit || last.node in NodesOf(before) then before else before + [last]
  }

  /** No row behind `taken` repeats a node of the rows in front of it. */
  ghost predicate AddsNewNodes(taken: seq<Target>, more: seq<Target>) {
    && taken <= more
    && forall i, j :: 0 <= i < j < |more| && |taken| <= j ==> more[i].node != more[j].node
  }

  lemma OneNewNode(taken: seq<Target>, more: seq<Target>, t: Target)
    requires AddsNewNodes(taken, more) && t.node !in NodesOf(more)
    ensures AddsNewNodes(taken, more + [t])
  {
    assert forall i :: 0 <= i < |more| ==> more[i].node in NodesOf(more);
  }

  lemma {:induction false} AddedRowsAreNew(selected: seq<Target>, candidates: seq<Target>, limit: nat)
    requires |selected| <= limit
    ensures var more := AddedRows(selected, candidates, limit);
            && |more| <= limit && |more| <= |selected| + |candidates| && AddsNewNodes(selected, more)
            && (forall i :: |selected| <= i < |more| ==> more[i] in candidates)
  {
    if candidates != [] {
      var n := |candidates| - 1;
      var before := AddedRows(selected, candidates[..n], limit);
      AddedRowsAreNew(selected, candidates[..n], limit);
      if candidates[n].node !in NodesOf(before) {
        OneNewNode(selected, before, candidates[n]);
      }
      assert candidates == candidates[..n] + [candidates[n]];
    }
  }

  /** With room for all candidates every one of their nodes ends up among the selected ones. */
  lemma {:induction false} AddedRowsCover(selected: seq<Target>, candidates: seq<Target>, limit: nat, k: nat)
    requires |selected| + |candidates| <= limit && k < |candidates|
    ensures candidates[k].node in NodesOf(AddedRows(selected, candidates, limit))
  {
    var n := |candidates| - 1;
    var before := AddedRows(selected, candidates[..n], limit);
    AddedRowsAreNew(selected, candidates[..n], limit);
    NodesOfMore(before, [candidates[n]]);
    assert [candidates[n]][0].node in NodesOf([candidates[n]]);
    if k < n {
      AddedRowsCover(selected, candidates[..n], limit, k);
    }
  }

  /** Adds rows whose node is not selected yet, as long as there is room. */
  method AddRelated(selected: seq<Target>, candidates: seq<Target>, limit: nat) returns (more: seq<Target>)
    requires |selected| <= limit
    ensures more == AddedRows(selected, candidates, limit)
    ensures |more| <= limit && AddsNewNodes(selected, more)
    ensures forall i :: |selected| <= i < |more| ==> more[i] in candidates
  {
    more := selected;
    for k := 0 to |candidates|
      invariant more == AddedRows(selected, candidates[..k], limit)
    {
      assert candidates[..k + 1][..k] == candidates[..k];
      if |more| >= limit {
        FullStaysFull(selected, candidates, limit, k);
        break;
      }
      if exists i :: 0 <= i < |more| && more[i].node == candidates[k].node {
        continue;
      }
      more := more + [candidates[k]];
    }
    assert candidates[..|candidates|] == candidates;
    AddedRowsAreNew(selected, candidates, limit);
  }

  lemma {:induction false} FullStaysFull(selected: seq<Target>, candidates: seq<Target>, limit: nat, k: nat)
    requires k <= |candidates| && |AddedRows(selected, candidates[..k], limit)| >= limit
    ensures AddedRows(selected, candidates, limit) == AddedRows(selected, candidates[..k], limit)
    decreases |candidates|
  {
    var n := |candidates| - 1;
    if k == |candidates| {
      assert candidates[..k] == candidates;
    } else {
      assert candidates[..n][..k] == candidates[..k];
      FullStaysFull(selected, candidates[..n], limit, k);
    }
  }

  /** What one more page adds to the selection. */
  ghost predicate PageAdds(g: Graph, page: seq<Target>, limit: nat, selected: seq<Target>, more: seq<Target>) {
    && |more| <= limit && selected <= more
    && (forall i :: |selected| <= i < |more| ==> more[i] in page && (Wants(g, more[i]) || Backfills(g, page, more[i])))
    && (forall i, j :: |selected| <= i < j < |more| ==> more[i].raw != more[j].raw)
    && Wanted(g, more[|selected|..]) == Take(Wanted(g, page), limit - |selected|)
  }

  lemma {:induction false} ChosenFromPage(
    g: Graph, page: seq<Target>, limit: nat, selected: seq<Target>, chosen: seq<Target>)
    requires |selected| <= limit && chosen == Take(Wanted(g, page), limit - |selected|) && DistinctRows(page)
    ensures PageAdds(g, page, limit, selected, selected + chosen)
  {
    WantedDistinct(g, page);
    forall t | t in chosen ensures t in page && Wants(g, t) {
      assert t in Wanted(g, page);
      WantedMembers(g, page, t);
    }
    AllWanted(g, chosen);
    assert (selected + chosen)[|selected|..] == chosen;
  }

  /** `more` is `taken` with rows of the page behind it that are taken for their missing edges. */
  ghost predicate AddsRelated(g: Graph, page: seq<Target>, taken: seq<Target>, more: seq<Target>) {
    AddsNewNodes(taken, more) && forall i :: |taken| <= i < |more| ==> Backfills(g, page, more[i])
  }

  lemma RawsDiffer(page: seq<Target>, a: Target, b: Target)
    requires DistinctRows(page) && a in page && b in page && a != b
    ensures a.raw != b.raw
  {
  }

  lemma RelatedAreDistinct(
    g: Graph, page: seq<Target>, limit: nat, selected: seq<Target>, taken: seq<Target>, more: seq<Target>)
    requires PageAdds(g, page, limit, selected, taken) && AddsRelated(g, page, taken, more) && DistinctRows(page)
    ensures forall i, j :: |selected| <= i < j < |more| ==> more[i].raw != more[j].raw
  {
    assert forall i :: 0 <= i < |taken| ==> taken[i] == more[i];
    forall i, j | |selected| <= i < j < |more| ensures more[i].raw != more[j].raw {
      if j >= |taken| {
        RawsDiffer(page, more[i], more[j]);
      }
    }
  }

  lemma AddedNoneWanted(g: Graph, page: seq<Target>, taken: seq<Target>, more: seq<Target>)
    requires AddsRelated(g, page, taken, more) && forall u :: u in page && Wants(g, u) ==> u in taken
    ensures Wanted(g, more[|taken|..]) == []
  {
    var added := more[|taken|..];
    forall t | t in added ensures !Wants(g, t) {
      var j :| 0 <= j < |added| && added[j] == t;
    }
    NoneWanted(g, added);
  }

  lemma TailSplits<T>(a: seq<T>, b: seq<T>, c: seq<T>)
    requires a <= b <= c
    ensures c[|a|..] == b[|a|..] + c[|b|..]
  {
  }

  lemma RelatedAddNothingWanted(
    g: Graph, page: seq<Target>, selected: seq<Target>, taken: seq<Target>, more: seq<Target>)
    requires selected <= taken && AddsRelated(g, page, taken, more)
    requires forall u :: u in page && Wants(g, u) ==> u in taken
    ensures Wanted(g, more[|selected|..]) == Wanted(g, taken[|selected|..])
  {
    AddedNoneWanted(g, page, taken, more);
    WantedJoin(g, taken[|selected|..], more[|taken|..]);
    TailSplits(selected, taken, more);
  }

  lemma RelatedFromPage(
    g: Graph, page: seq<Target>, limit: nat, selected: seq<Target>, taken: seq<Target>, more: seq<Target>)
    requires PageAdds(g, page, limit, selected, taken) && AddsRelated(g, page, taken, more) && DistinctRows(page)
    requires |more| <= limit && forall u :: u in page && Wants(g, u) ==> u in taken
    ensures PageAdds(g, page, limit, selected, more)
  {
    RelatedAreDistinct(g, page, limit, selected, taken, more);
    RelatedAddNothingWanted(g, page, selected, taken, more);
    forall i | |selected| <= i < |more| ensures more[i] in page && (Wants(g, more[i]) || Backfills(g, page, more[i])) {
      if i < |taken| {
        assert more[i] == taken[i];
      }
    }
  }

  lemma AllWantedTaken(g: Graph, page: seq<Target>, limit: nat, selected: seq<Target>, u: Target)
    requires |selected| <= limit && |Take(Wanted(g, page), limit - |selected|)| < limit - |selected|
    requires u in page && Wants(g, u)
    ensures u in selected + Take(Wanted(g, page), limit - |selected|)
  {
    WantedMembers(g, page, u);
  }

  /** The rows of the page that lack a related-document edge, in order. */
  function Lackers(g: Graph, page: seq<Target>): seq<Target> {
    Lacking(g, WithRelated(g, page), WithRelated(g, page))
  }

  lemma LackersBackfill(g: Graph, page: seq<Target>, t: Target)
    ensures t in Lackers(g, page) <==> Backfills(g, page, t)
  {
    WithRelatedMembers(g, page, t);
    LackingMembers(g, WithRelated(g, page), WithRelated(g, page), t);
  }

  predicate NamesRelated(g: Graph, t: Target) {
    t.node in g.nodes && t.related != []
  }

  lemma {:induction false} OneMoreRelated(g: Graph, rows: seq<Target>, last: Target)
    ensures WithRelated(g, rows + [last]) == WithRelated(g, rows) + if NamesRelated(g, last) then [last] else []
  {
    if rows == [] {
      assert rows + [last] == [last] && [last][1..] == [];
    } else {
      OneMoreRelated(g, rows[1..], last);
      assert (rows + [last])[1..] == rows[1..] + [last] && (rows + [last])[0] == rows[0];
      RelatedUnfolds(g, rows);
      RelatedUnfolds(g, rows + [last]);
    }
  }

  lemma RelatedUnfolds(g: Graph, rows: seq<Target>)
    requires rows != []
    ensures WithRelated(g, rows) == (if NamesRelated(g, rows[0]) then [rows[0]] else []) + WithRelated(g, rows[1..])
  {
  }

  /**
    The last row of the node that names related documents names this one, and is not the row of the document itself.
   */
  ghost predicate NamedLast(page: seq<Target>, node: string, j: nat, s: string) {
    && j < |page| && page[j].node == node && s in page[j].related && s != page[j].source
    && forall i :: j < i < |page| && page[i].node == node ==> page[i].related == []
  }

  ghost predicate Named(page: seq<Target>, node: string, s: string) {
    exists j: nat :: NamedLast(page, node, j, s)
  }

  lemma NamedByOneMore(page: seq<Target>, last: Target, node: string, s: string)
    ensures Named(page + [last], node, s)
       <==> if last.node == node && last.related != [] then s in last.related && s != last.source
            else Named(page, node, s)
  {
    var all, n := page + [last], |page|;
    assert all[n] == last && forall i :: 0 <= i < n ==> all[i] == page[i];
    if Named(all, node, s) {
      var j: nat :| NamedLast(all, node, j, s);
      if j < n {
        assert NamedLast(page, node, j, s);
      }
    }
    if last.node == node && last.related != [] {
      if s in last.related && s != last.source {
        assert NamedLast(all, node, n, s);
      }
    } else if Named(page, node, s) {
      var j: nat :| NamedLast(page, node, j, s);
      assert NamedLast(all, node, j, s);
    }
  }

  lemma {:induction false} SourceIdsAreNamed(g: Graph, page: seq<Target>, node: string, s: string)
    requires node in g.nodes
    ensures s in SourceIds(WithRelated(g, page), node) <==> Named(page, node, s)
  {
    if page != [] {
      var front, last := page[..|page| - 1], page[|page| - 1];
      assert page == front + [last];
      SourceIdsAreNamed(g, front, node, s);
      NamedByOneMore(front, last, node, s);
      OneMoreRelated(g, front, last);
      if NamesRelated(g, last) {
        OneMoreSource(WithRelated(g, front), last, node, s);
      } else {
        assert WithRelated(g, page) == WithRelated(g, front);
      }
    }
  }

  lemma OneMoreSource(rows: seq<Target>, last: Target, node: string, s: string)
    ensures s in SourceIds(rows + [last], node)
       <==> if last.node == node then s in last.related && s != last.source else s in SourceIds(rows, node)
  {
    assert (rows + [last])[..|rows|] == rows;
  }

  /**
    What a lacking row is: its node exists, its text names related documents, and the last such text of its node names
    another known document to which no edge leads.
   */
  lemma LackersNameAMissingEdge(g: Graph, page: seq<Target>, t: Target)
    ensures t in Lackers(g, page)
       <==> (&& t in page && t.node in g.nodes && t.related != []
             && exists s :: Named(page, t.node, s) && s in g.documents && g.documents[s] != t.node
                            && (t.node, g.documents[s]) !in g.edges)
  {
    LackersBackfill(g, page, t);
    if t.node in g.nodes {
      forall s ensures s in SourceIds(WithRelated(g, page), t.node) <==> Named(page, t.node, s) {
        SourceIdsAreNamed(g, page, t.node, s);
      }
    }
  }

  /** The rows selected from the page for their own sake, behind those selected before. */
  function TakenFrom(g: Graph, page: seq<Target>, limit: nat, selected: seq<Target>): seq<Target>
    requires |selected| <= limit
  {
    selected + Take(Wanted(g, page), limit - |selected|)
  }

  /** The turn of the loop for one page: lacking rows are cut to the free room, then those already selected removed. */
  ghost function Turn(g: Graph, page: seq<Target>, limit: nat, related: bool, selected: seq<Target>): (r: seq<Target>)
    requires |selected| <= limit
    ensures |r| <= limit && selected <= r
  {
    var taken := TakenFrom(g, page, limit, selected);
    if |taken| >= limit || !related then taken
    else
      var candidates := WithoutNodes(Take(Lackers(g, page), limit - |taken|), taken);
      AddedRowsAreNew(taken, candidates, limit);
      AddedRows(taken, candidates, limit)
  }

  /**
    With room left, the nodes added for missing edges are those of the first lacking rows, as many as there is room,
    and each new one is added once.
   */
  ghost predicate CutToTheRoom(g: Graph, page: seq<Target>, limit: nat, selected: seq<Target>, more: seq<Target>)
    requires |selected| <= limit
  {
    var taken := TakenFrom(g, page, limit, selected);
    |taken| < limit ==>
      && NodesOf(more) == NodesOf(taken) + NodesOf(Take(Lackers(g, page), limit - |taken|))
      && AddsNewNodes(taken, more)
  }

  lemma {:induction false} AddedNodes(
    taken: seq<Target>, candidates: seq<Target>, unselected: seq<Target>, more: seq<Target>)
    requires taken <= more && unselected == WithoutNodes(candidates, taken)
    requires forall i :: |taken| <= i < |more| ==> more[i] in unselected
    requires forall k :: 0 <= k < |unselected| ==> unselected[k].node in NodesOf(more)
    ensures NodesOf(more) == NodesOf(taken) + NodesOf(candidates)
  {
    assert more == taken + more[|taken|..];
    NodesOfMore(taken, more[|taken|..]);
    forall n | n in NodesOf(more[|taken|..]) ensures n in NodesOf(candidates) {
      var i :| 0 <= i < |more[|taken|..]| && more[|taken|..][i].node == n;
      WithoutNodesMembers(candidates, taken, more[|taken| + i]);
    }
    forall n | n in NodesOf(candidates) ensures n in NodesOf(more) {
      var k :| 0 <= k < |candidates| && candidates[k].node == n;
      KeptOrTaken(candidates, taken, k);
    }
  }

  lemma {:induction false} KeptOrTaken(rows: seq<Target>, selected: seq<Target>, k: nat)
    requires k < |rows|
    ensures rows[k].node in NodesOf(selected) || rows[k] in WithoutNodes(rows, selected)
  {
    if k > 0 {
      KeptOrTaken(rows[1..], selected, k - 1);
    }
  }

  lemma LackingAdded(
    g: Graph, page: seq<Target>, limit: nat, selected: seq<Target>, taken: seq<Target>, more: seq<Target>)
    requires |selected| <= limit && |taken| < limit && DistinctRows(page) && PageAdds(g, page, limit, selected, taken)
    requires forall u :: u in page && Wants(g, u) ==> u in taken
    requires more == AddedRows(taken, WithoutNodes(Take(Lackers(g, page), limit - |taken|), taken), limit)
    ensures PageAdds(g, page, limit, selected, more) && AddsNewNodes(taken, more)
    ensures NodesOf(more) == NodesOf(taken) + NodesOf(Take(Lackers(g, page), limit - |taken|))
  {
    var candidates := Take(Lackers(g, page), limit - |taken|);
    var unselected := WithoutNodes(candidates, taken);
    AddedRowsAreNew(taken, unselected, limit);
    forall k | 0 <= k < |unselected| ensures unselected[k].node in NodesOf(more) {
      AddedRowsCover(taken, unselected, limit, k);
    }
    AddedNodes(taken, candidates, unselected, more);
    forall i | |taken| <= i < |more| ensures Backfills(g, page, more[i]) {
      WithoutNodesMembers(candidates, taken, more[i]);
      LackersBackfill(g, page, more[i]);
    }
    RelatedFromPage(g, page, limit, selected, taken, more);
  }

  lemma TurnIsAdded(g: Graph, page: seq<Target>, limit: nat, selected: seq<Target>)
    requires |selected| <= limit && |TakenFrom(g, page, limit, selected)| < limit
    ensures var taken := TakenFrom(g, page, limit, selected);
            Turn(g, page, limit, true, selected)
            == AddedRows(taken, WithoutNodes(Take(Lackers(g, page), limit - |taken|), taken), limit)
  {
  }

  lemma WantedAreTaken(g: Graph, page: seq<Target>, limit: nat, selected: seq<Target>)
    requires |selected| <= limit && |TakenFrom(g, page, limit, selected)| < limit
    ensures forall u :: u in page && Wants(g, u) ==> u in TakenFrom(g, page, limit, selected)
  {
    forall u | u in page && Wants(g, u) ensures u in TakenFrom(g, page, limit, selected) {
      AllWantedTaken(g, page, limit, selected, u);
    }
  }

  lemma TurnWithRoom(g: Graph, page: seq<Target>, limit: nat, selected: seq<Target>, taken: seq<Target>)
    requires |selected| < limit && DistinctRows(page)
    requires taken == TakenFrom(g, page, limit, selected) && |taken| < limit
    ensures PageAdds(g, page, limit, selected, Turn(g, page, limit, true, selected))
    ensures CutToTheRoom(g, page, limit, selected, Turn(g, page, limit, true, selected))
  {
    ChosenFromPage(g, page, limit, selected, Take(Wanted(g, page), limit - |selected|));
    WantedAreTaken(g, page, limit, selected);
    TurnIsAdded(g, page, limit, selected);
    LackingAdded(g, page, limit, selected, taken, Turn(g, page, limit, true, selected));
  }

  lemma TurnWithoutMore(g: Graph, page: seq<Target>, limit: nat, related: bool, selected: seq<Target>)
    requires |selected| <= limit && (|TakenFrom(g, page, limit, selected)| >= limit || !related)
    ensures Turn(g, page, limit, related, selected) == TakenFrom(g, page, limit, selected)
  {
  }

  lemma TurnAdds(g: Graph, page: seq<Target>, limit: nat, related: bool, selected: seq<Target>)
    requires |selected| < limit && DistinctRows(page)
    ensures PageAdds(g, page, limit, selected, Turn(g, page, limit, related, selected))
    ensures related ==> CutToTheRoom(g, page, limit, selected, Turn(g, page, limit, related, selected))
  {
    var taken := TakenFrom(g, page, limit, selected);
    if |taken| < limit && related {
      TurnWithRoom(g, page, limit, selected, taken);
    } else {
      ChosenFromPage(g, page, limit, selected, Take(Wanted(g, page), limit - |selected|));
      TurnWithoutMore(g, page, limit, related, selected);
    }
  }

  /** `related` says whether there is a graph to look for missing edges in. */
  method SelectFromPage(g: Graph, page: seq<Target>, limit: nat, related: bool, selected: seq<Target>)
    returns (more: seq<Target>)
    requires |selected| < limit && DistinctRows(page)
    ensures more == Turn(g, page, limit, related, selected)
    ensures PageAdds(g, page, limit, selected, more)
    ensures related ==> CutToTheRoom(g, page, limit, selected, more)
  {
    var chosen := SelectGraphIndexTargets(g, page, limit - |selected|);
    more := AddLacking(g, page, limit, related, selected, selected + chosen);
    TurnAdds(g, page, limit, related, selected);
  }

  /** The related part of the turn. */
  method AddLacking(
    g: Graph, page: seq<Target>, limit: nat, related: bool, selected: seq<Target>, taken: seq<Target>)
    returns (more: seq<Target>)
    requires |selected| <= limit && taken == TakenFrom(g, page, limit, selected)
    ensures more == Turn(g, page, limit, related, selected)
  {
    if |taken| >= limit || !related {
      return taken;
    }
    var candidates := Take(Lackers(g, page), limit - |taken|);
    more := AddRelated(taken, WithoutNodes(candidates, taken), limit);
  }

  // ----- Lacking rows that are left behind -----

  /** The nodes of `rows` are new to `known`, and none is repeated. */
  ghost predicate AllNew(rows: seq<Target>, known: set<string>) {
    && (forall i :: 0 <= i < |rows| ==> rows[i].node !in known)
    && (forall i, j :: 0 <= i < j < |rows| ==> rows[i].node != rows[j].node)
  }

  lemma NodesOfOne(t: Target)
    ensures NodesOf([t]) == {t.node}
  {
    assert [t][0].node in NodesOf([t]);
  }

  /** New nodes are at most as many as the rows that bring them, and as many exactly if none is known or repeated. */
  lemma {:induction false} CountNewNodes(rows: seq<Target>, known: set<string>)
    ensures |NodesOf(rows) - known| <= |rows|
    ensures |NodesOf(rows) - known| == |rows| <==> AllNew(rows, known)
  {
    if rows == [] {
      assert NodesOf(rows) == {};
    } else {
      var front, t := rows[..|rows| - 1], rows[|rows| - 1];
      assert rows == front + [t];
      NodesOfMore(front, [t]);
      NodesOfOne(t);
      CountNewNodes(front, known);
      var before := NodesOf(front) - known;
      if t.node in known || t.node in NodesOf(front) {
        assert NodesOf(rows) - known == before;
      } else {
        assert NodesOf(rows) - known == before + {t.node};
        assert forall i :: 0 <= i < |front| ==> front[i].node in NodesOf(front);
      }
      LastIsNew(front, t, known);
    }
  }

  lemma LastIsNew(front: seq<Target>, t: Target, known: set<string>)
    ensures AllNew(front + [t], known) <==> AllNew(front, known) && t.node !in known && t.node !in NodesOf(front)
  {
    var rows := front + [t];
    if AllNew(rows, known) {
      assert forall i :: 0 <= i < |front| ==> rows[i] == front[i];
      assert rows[|front|] == t;
    }
  }

  lemma AddedAreNew(taken: seq<Target>, more: seq<Target>)
    requires AddsNewNodes(taken, more)
    ensures AllNew(more[|taken|..], NodesOf(taken))
  {
    var added := more[|taken|..];
    forall k | 0 <= k < |added| ensures added[k].node !in NodesOf(taken) {
      forall i | 0 <= i < |taken| ensures taken[i].node != added[k].node {
        assert more[i] == taken[i] && more[|taken| + k] == added[k];
      }
    }
    forall i, j | 0 <= i < j < |added| ensures added[i].node != added[j].node {
      assert more[|taken| + i] == added[i] && more[|taken| + j] == added[j];
    }
  }

  /** A turn adds as many rows as the first lacking rows have new nodes. */
  lemma AddedAreTheNewNodes(taken: seq<Target>, more: seq<Target>, nodes: set<string>)
    requires AddsNewNodes(taken, more) && NodesOf(more) == NodesOf(taken) + nodes
    ensures |more| == |taken| + |nodes - NodesOf(taken)|
  {
    var added := more[|taken|..];
    assert more == taken + added;
    NodesOfMore(taken, added);
    AddedAreNew(taken, more);
    CountNewNodes(added, NodesOf(taken));
    assert NodesOf(added) - NodesOf(taken) == nodes - NodesOf(taken);
  }

  /**
    The page overlooks a lacking row: its node is new, the lacking rows in front of it fill the room that is left for
    them, and some of these bring a node that is selected already or repeated.
   */
  ghost predicate Overlooks(g: Graph, page: seq<Target>, limit: nat, selected: seq<Target>, t: Target)
    requires |selected| <= limit
  {
    var taken := TakenFrom(g, page, limit, selected);
    && |taken| < limit
    && (var first := Take(Lackers(g, page), limit - |taken|);
        && t in Lackers(g, page) && t.node !in NodesOf(taken) && t.node !in NodesOf(first)
        && !AllNew(first, NodesOf(taken)))
  }

  /** The same for any rows cut to the room, whatever they are. */
  lemma RowsLeftBehind(taken: seq<Target>, rows: seq<Target>, limit: nat, more: seq<Target>, t: Target)
    requires |taken| < limit && AddsNewNodes(taken, more) && t in rows
    requires NodesOf(more) == NodesOf(taken) + NodesOf(Take(rows, limit - |taken|))
    ensures var first := Take(rows, limit - |taken|);
            |more| < limit && t.node !in NodesOf(more)
            <==> t.node !in NodesOf(taken) && t.node !in NodesOf(first) && !AllNew(first, NodesOf(taken))
    ensures t.node !in NodesOf(Take(rows, limit - |taken|)) ==> |taken| + |rows| > limit
  {
    var first := Take(rows, limit - |taken|);
    AddedAreTheNewNodes(taken, more, NodesOf(first));
    CountNewNodes(first, NodesOf(taken));
    if |rows| <= limit - |taken| {
      NodeOfRow(rows, t);
    }
  }

  lemma NodeOfRow(rows: seq<Target>, t: Target)
    requires t in rows
    ensures t.node in NodesOf(rows)
  {
    var i :| 0 <= i < |rows| && rows[i] == t;
  }

  /**
    A turn ends with room left and yet without the node of a lacking row exactly if the page overlooks the row; so there
    were more lacking rows than room.
   */
  lemma LackingRowsLeftBehind(g: Graph, page: seq<Target>, limit: nat, selected: seq<Target>, t: Target)
    requires |selected| < limit && DistinctRows(page) && t in Lackers(g, page)
    ensures var more := Turn(g, page, limit, true, selected);
            |more| < limit && t.node !in NodesOf(more) <==> Overlooks(g, page, limit, selected, t)
    ensures Overlooks(g, page, limit, selected, t) ==>
              |TakenFrom(g, page, limit, selected)| + |Lackers(g, page)| > limit
  {
    TurnAdds(g, page, limit, true, selected);
    if |TakenFrom(g, page, limit, selected)| >= limit {
      TurnWithoutMore(g, page, limit, true, selected);
    }
    OverlookedWithRoom(g, page, limit, selected, Turn(g, page, limit, true, selected), t);
  }

  lemma OverlookedWithRoom(
    g: Graph, page: seq<Target>, limit: nat, selected: seq<Target>, more: seq<Target>, t: Target)
    requires |selected| < limit && t in Lackers(g, page) && CutToTheRoom(g, page, limit, selected, more)
    requires |TakenFrom(g, page, limit, selected)| >= limit ==> more == TakenFrom(g, page, limit, selected)
    ensures |more| < limit && t.node !in NodesOf(more) <==> Overlooks(g, page, limit, selected, t)
    ensures Overlooks(g, page, limit, selected, t) ==>
              |TakenFrom(g, page, limit, selected)| + |Lackers(g, page)| > limit
  {
    var taken := TakenFrom(g, page, limit, selected);
    if |taken| < limit {
      RowsLeftBehind(taken, Lackers(g, page), limit, more, t);
    }
  }

  /** The rows whose node is not among the selected ones; the slice to the free room comes before this filter. */
  function WithoutNodes(rows: seq<Target>, selected: seq<Target>): (r: seq<Target>)
    ensures |r| <= |rows|
  {
    if rows == [] then []
    else
      (if exists i :: 0 <= i < |selected| && selected[i].node == rows[0].node then [] else [rows[0]])
      + WithoutNodes(rows[1..], selected)
  }

  lemma {:induction false} WithoutNodesMembers(rows: seq<Target>, selected: seq<Target>, t: Target)
    requires t in WithoutNodes(rows, selected)
    ensures t in rows
  {
    if t in WithoutNodes(rows[1..], selected) {
      WithoutNodesMembers(rows[1..], selected, t);
    }
  }

  // ----- All pages -----

  function PageSize(limit: nat): (n: nat)
    ensures n >= 100 && n >= 10 * limit && (n == 100 || n == 10 * limit)
  {
    if limit * PAGE_MULTIPLIER < PAGE_MINIMUM then PAGE_MINIMUM else limit * PAGE_MULTIPLIER
  }

  /** LIMIT size OFFSET offset. */
  function PageAt(table: seq<Target>, offset: nat, size: nat): (r: seq<Target>)
    requires offset <= |table| && size > 0
    ensures offset + |r| <= |table| && r == table[offset..offset + |r|]
    ensures |r| < size ==> offset + |r| == |table|
    ensures r == [] ==> offset == |table|
  {
    if offset + size >= |table| then table[offset..] else table[offset..offset + size]
  }

  /** Some page of the table gave the row, for its own sake or for its missing edges. */
  ghost predicate Qualifies(g: Graph, table: seq<Target>, t: Target) {
    t in table && (Wants(g, t) || exists a: nat, b: nat :: a <= b <= |table| && Backfills(g, table[a..b], t))
  }

  /** The state of the loop once the rows before `offset` were looked at. */
  ghost predicate Scanned(g: Graph, table: seq<Target>, limit: nat, offset: nat, selected: seq<Target>) {
    && offset <= |table| && |selected| <= limit && DistinctRows(selected)
    && (forall i :: 0 <= i < |selected| ==> selected[i] in table[..offset] && Qualifies(g, table, selected[i]))
    && Wanted(g, selected) <= Wanted(g, table)
    && (|selected| < limit ==> Wanted(g, selected) == Wanted(g, table[..offset]))
  }

  lemma PrefixOfTaken<T>(a: seq<T>, b: seq<T>, c: seq<T>, n: nat)
    ensures a + Take(b, n) <= a + b + c
  {
  }

  lemma WantedOfTable(g: Graph, table: seq<Target>, a: nat, b: nat)
    requires a <= b <= |table|
    ensures Wanted(g, table[..b]) == Wanted(g, table[..a]) + Wanted(g, table[a..b])
    ensures Wanted(g, table) == Wanted(g, table[..b]) + Wanted(g, table[b..])
  {
    WantedJoin(g, table[..a], table[a..b]);
    assert table[..b] == table[..a] + table[a..b];
    WantedJoin(g, table[..b], table[b..]);
    assert table == table[..b] + table[b..];
  }

  lemma {:induction false} ScannedWanted(
    g: Graph, table: seq<Target>, limit: nat, a: nat, b: nat, selected: seq<Target>, more: seq<Target>)
    requires a <= b <= |table| && |selected| < limit && Wanted(g, selected) == Wanted(g, table[..a])
    requires PageAdds(g, table[a..b], limit, selected, more)
    ensures Wanted(g, more) <= Wanted(g, table)
    ensures |more| < limit ==> Wanted(g, more) == Wanted(g, table[..b])
  {
    WantedOfTable(g, table, a, b);
    assert more == selected + more[|selected|..];
    WantedJoin(g, selected, more[|selected|..]);
    PrefixOfTaken(Wanted(g, selected), Wanted(g, table[a..b]), Wanted(g, table[b..]), limit - |selected|);
  }

  lemma PageRowsAreNew(table: seq<Target>, a: nat, b: nat, x: Target, y: Target)
    requires DistinctRows(table) && a <= b <= |table| && x in table[..a] && y in table[a..b]
    ensures x.raw != y.raw
  {
    var i :| 0 <= i < a && table[..a][i] == x;
    var j :| 0 <= j < b - a && table[a..b][j] == y;
    assert table[i] == x && table[a + j] == y;
  }

  lemma ScannedRows(g: Graph, table: seq<Target>, limit: nat, a: nat, b: nat, selected: seq<Target>, more: seq<Target>)
    requires a <= b <= |table| && DistinctRows(table) && Scanned(g, table, limit, a, selected)
    requires PageAdds(g, table[a..b], limit, selected, more)
    ensures DistinctRows(more)
    ensures forall i :: 0 <= i < |more| ==> more[i] in table[..b] && Qualifies(g, table, more[i])
  {
    forall i | 0 <= i < |more| ensures more[i] in table[..b] && Qualifies(g, table, more[i]) {
      if i < |selected| {
        assert more[i] == selected[i];
        assert table[..a] <= table[..b];
      } else {
        assert more[i] in table[a..b];
        assert table[..b] == table[..a] + table[a..b];
        assert table == table[..b] + table[b..];
      }
    }
    forall i, j | 0 <= i < j < |more| ensures more[i].raw != more[j].raw {
      if j < |selected| {
        assert more[i] == selected[i] && more[j] == selected[j];
      } else if i < |selected| {
        assert more[i] == selected[i];
        PageRowsAreNew(table, a, b, more[i], more[j]);
      }
    }
  }

  lemma ScannedMore(g: Graph, table: seq<Target>, limit: nat, a: nat, b: nat, selected: seq<Target>, more: seq<Target>)
    requires a <= b <= |table| && DistinctRows(table) && |selected| < limit && Scanned(g, table, limit, a, selected)
    requires PageAdds(g, table[a..b], limit, selected, more)
    ensures Scanned(g, table, limit, b, more)
  {
    ScannedRows(g, table, limit, a, b, selected, more);
    ScannedWanted(g, table, limit, a, b, selected, more);
  }

  /** What the scan promises. */
  ghost predicate Selects(g: Graph, table: seq<Target>, limit: nat, selected: seq<Target>) {
    && |selected| <= limit && DistinctRows(selected) && (forall t :: t in selected ==> Qualifies(g, table, t))
    && Wanted(g, selected) <= Wanted(g, table)
    && (|selected| < limit ==> Wanted(g, selected) == Wanted(g, table)
                               && forall t :: t in table && Wants(g, t) ==> t in selected)
  }

  lemma ScanEnds(g: Graph, table: seq<Target>, limit: nat, offset: nat, selected: seq<Target>)
    requires Scanned(g, table, limit, offset, selected) && (|selected| >= limit || offset == |table|)
    ensures Selects(g, table, limit, selected)
  {
    if |selected| < limit {
      assert table[..offset] == table;
      forall t | t in table && Wants(g, t) ensures t in selected {
        WantedMembers(g, table, t);
        WantedMembers(g, selected, t);
      }
    }
  }

  lemma DistinctSlice(table: seq<Target>, a: nat, b: nat)
    requires DistinctRows(table) && a <= b <= |table|
    ensures DistinctRows(table[a..b])
  {
  }

  /** Where page `k` starts. */
  function OffsetOf(table: seq<Target>, limit: nat, k: nat): (r: nat)
    ensures r <= |table| && (r == |table| || r >= k)
  {
    if k == 0 then 0 else Min(OffsetOf(table, limit, k - 1) + PageSize(limit), |table|)
  }

  function PageNo(table: seq<Target>, limit: nat, k: nat): seq<Target> {
    PageAt(table, OffsetOf(table, limit, k), PageSize(limit))
  }

  /** The selection after page `k`, if `before` was selected when the scan came to it. */
  ghost function AfterPage(
    g: Graph, table: seq<Target>, limit: nat, related: bool, k: nat, before: seq<Target>): (r: seq<Target>)
    ensures before <= r
    ensures |before| >= limit || PageNo(table, limit, k) == [] ==> r == before
  {
    if |before| >= limit || PageNo(table, limit, k) == [] then before
    else Turn(g, PageNo(table, limit, k), limit, related, before)
  }

  type PageStep = (nat, seq<Target>) -> seq<Target>

  /** The selection after the first `k` pages, whatever each page adds. */
  ghost function Pages(step: PageStep, k: nat): seq<Target> {
    if k == 0 then [] else step(k - 1, Pages(step, k - 1))
  }

  lemma {:induction false} PagesGrow(step: PageStep, k: nat, n: nat)
    requires k <= n && forall j: nat, s :: s <= step(j, s)
    ensures Pages(step, k) <= Pages(step, n)
  {
    if k < n {
      PagesGrow(step, k, n - 1);
      assert Pages(step, n - 1) <= step(n - 1, Pages(step, n - 1));
    }
  }

  lemma {:induction false} PagesStay(step: PageStep, k: nat, n: nat)
    requires k <= n && forall j: nat :: j >= k ==> step(j, Pages(step, k)) == Pages(step, k)
    ensures Pages(step, n) == Pages(step, k)
  {
    if k < n {
      PagesStay(step, k, n - 1);
    }
  }

  ghost function Steps(g: Graph, table: seq<Target>, limit: nat, related: bool): PageStep {
    (k: nat, before: seq<Target>) => AfterPage(g, table, limit, related, k, before)
  }

  /** What is selected when the scan comes to page `k`. */
  ghost function SelectedBefore(g: Graph, table: seq<Target>, limit: nat, related: bool, k: nat): seq<Target> {
    Pages(Steps(g, table, limit, related), k)
  }

  lemma NextSelection(g: Graph, table: seq<Target>, limit: nat, related: bool, k: nat)
    ensures SelectedBefore(g, table, limit, related, k + 1)
         == AfterPage(g, table, limit, related, k, SelectedBefore(g, table, limit, related, k))
  {
  }

  /** The whole scan: no table has more pages than rows. */
  ghost function ScanResult(g: Graph, table: seq<Target>, limit: nat, related: bool): seq<Target> {
    SelectedBefore(g, table, limit, related, |table|)
  }

  lemma {:induction false} NoMorePages(table: seq<Target>, limit: nat, k: nat, n: nat)
    requires k <= n && OffsetOf(table, limit, k) == |table|
    ensures OffsetOf(table, limit, n) == |table| && PageNo(table, limit, n) == []
  {
    if k < n {
      NoMorePages(table, limit, k, n - 1);
    }
  }

  lemma ScanStays(g: Graph, table: seq<Target>, limit: nat, related: bool, k: nat, n: nat)
    requires k <= n
    requires |SelectedBefore(g, table, limit, related, k)| >= limit || OffsetOf(table, limit, k) == |table|
    ensures SelectedBefore(g, table, limit, related, n) == SelectedBefore(g, table, limit, related, k)
  {
    var step, s := Steps(g, table, limit, related), SelectedBefore(g, table, limit, related, k);
    forall j: nat | j >= k ensures step(j, s) == s {
      if |s| < limit {
        NoMorePages(table, limit, k, j);
      }
    }
    PagesStay(step, k, n);
  }

  lemma ScanEndsWith(g: Graph, table: seq<Target>, limit: nat, related: bool, k: nat)
    requires |SelectedBefore(g, table, limit, related, k)| >= limit || OffsetOf(table, limit, k) == |table|
    ensures SelectedBefore(g, table, limit, related, k) == ScanResult(g, table, limit, related)
  {
    if k <= |table| {
      ScanStays(g, table, limit, related, k, |table|);
    } else {
      ScanStays(g, table, limit, related, |table|, k);
    }
  }

  lemma SelectionGrows(g: Graph, table: seq<Target>, limit: nat, related: bool, k: nat, n: nat)
    requires k <= n
    ensures SelectedBefore(g, table, limit, related, k) <= SelectedBefore(g, table, limit, related, n)
  {
    PagesGrow(Steps(g, table, limit, related), k, n);
  }

  /** Page `k` overlooks the row, and no later page selects its node. */
  ghost predicate LeftBehind(g: Graph, table: seq<Target>, limit: nat, k: nat, t: Target) {
    var before, after := SelectedBefore(g, table, limit, true, k), SelectedBefore(g, table, limit, true, k + 1);
    var result := ScanResult(g, table, limit, true);
    && |before| < limit && Overlooks(g, PageNo(table, limit, k), limit, before, t)
    && after <= result && t.node !in NodesOf(result[|after|..])
  }

  /**
    A scan that ends with room left misses the node of a lacking row exactly if the row's page overlooks it and no later
    page makes up for it.
   */
  lemma ScanLeavesBehind(g: Graph, table: seq<Target>, limit: nat, k: nat, t: Target)
    requires DistinctRows(table) && k < |table| && t in Lackers(g, PageNo(table, limit, k))
    requires |ScanResult(g, table, limit, true)| < limit
    ensures t.node !in NodesOf(ScanResult(g, table, limit, true)) <==> LeftBehind(g, table, limit, k, t)
  {
    var before, after := SelectedBefore(g, table, limit, true, k), SelectedBefore(g, table, limit, true, k + 1);
    SelectionGrows(g, table, limit, true, k, k + 1);
    SelectionGrows(g, table, limit, true, k + 1, |table|);
    PageOfLacker(g, table, limit, k, t);
    NextTurn(g, table, limit, true, k);
    PageLeavesBehind(g, PageNo(table, limit, k), limit, before, after, ScanResult(g, table, limit, true), t);
  }

  lemma PageOfLacker(g: Graph, table: seq<Target>, limit: nat, k: nat, t: Target)
    requires DistinctRows(table) && t in Lackers(g, PageNo(table, limit, k))
    ensures PageNo(table, limit, k) != [] && DistinctRows(PageNo(table, limit, k))
  {
    var page := PageNo(table, limit, k);
    DistinctSlice(table, OffsetOf(table, limit, k), OffsetOf(table, limit, k) + |page|);
    LackersBackfill(g, page, t);
  }

  lemma NextTurn(g: Graph, table: seq<Target>, limit: nat, related: bool, k: nat)
    requires |SelectedBefore(g, table, limit, related, k)| < limit && PageNo(table, limit, k) != []
    ensures SelectedBefore(g, table, limit, related, k + 1)
         == Turn(g, PageNo(table, limit, k), limit, related, SelectedBefore(g, table, limit, related, k))
  {
    NextSelection(g, table, limit, related, k);
    TurnOfPage(g, table, limit, related, k, SelectedBefore(g, table, limit, related, k));
  }

  lemma PageLeavesBehind(
    g: Graph, page: seq<Target>, limit: nat, before: seq<Target>, after: seq<Target>, result: seq<Target>, t: Target)
    requires DistinctRows(page) && t in Lackers(g, page) && before <= after <= result
    requires |result| < limit && after == Turn(g, page, limit, true, before)
    ensures t.node !in NodesOf(result)
            <==> Overlooks(g, page, limit, before, t) && t.node !in NodesOf(result[|after|..])
  {
    LackingRowsLeftBehind(g, page, limit, before, t);
    assert result == after + result[|after|..];
    NodesOfMore(after, result[|after|..]);
  }

  lemma TurnOfPage(g: Graph, table: seq<Target>, limit: nat, related: bool, k: nat, before: seq<Target>)
    requires |before| < limit
    ensures PageNo(table, limit, k) != [] ==> AfterPage(g, table, limit, related, k, before)
                                              == Turn(g, PageNo(table, limit, k), limit, related, before)
  {
  }

  lemma LackersOfTwo(g: Graph, a: Target, b: Target)
    requires a.node != b.node && {a.node, b.node} <= g.nodes && a.related == b.related == ["sc"]
    requires a.source != "sc" && b.source != "sc" && "sc" in g.documents && g.documents["sc"] !in {a.node, b.node}
    requires g.edges == {}
    ensures Lackers(g, [a, b]) == [a, b]
  {
    var rows := [a, b];
    assert rows[1..] == [b] && rows[..1] == [a] && [b][1..] == [];
    assert WithRelated(g, [b]) == [b] && WithRelated(g, rows) == rows;
    assert "sc" in SourceIds(rows, b.node);
    assert SourceIds(rows, a.node) == SourceIds([a], a.node) && "sc" in SourceIds([a], a.node);
    assert Lacking(g, rows, [b]) == [b];
  }

  lemma FirstIsTaken(g: Graph, a: Target, b: Target)
    requires Wanted(g, [a, b]) == [a] && Lackers(g, [a, b]) == [a, b]
    ensures TakenFrom(g, [a, b], 2, []) == [a] && Take(Lackers(g, [a, b]), 1) == [a]
  {
  }

  lemma OneTurn(g: Graph, a: Target, b: Target)
    requires Wanted(g, [a, b]) == [a] && Lackers(g, [a, b]) == [a, b]
    ensures Turn(g, [a, b], 2, true, []) == [a]
  {
    FirstIsTaken(g, a, b);
    TurnIsAdded(g, [a, b], 2, []);
    assert [a][1..] == [] && [a][0].node == a.node;
    assert WithoutNodes([a], [a]) == [];
  }

  lemma SecondIsOverlooked(g: Graph, a: Target, b: Target)
    requires a.node != b.node && Wanted(g, [a, b]) == [a] && Lackers(g, [a, b]) == [a, b]
    ensures Overlooks(g, [a, b], 2, [], b)
  {
    FirstIsTaken(g, a, b);
    NodesOfOne(a);
    assert [a][0].node in NodesOf([a]) && b in Lackers(g, [a, b]);
  }

  /** Two rows that lack an edge, the first also parsed anew: with room for two, only the first is selected. */
  lemma RowLeftBehind()
    ensures var a, b := Target("a", 1, true, "sa", ["sc"]), Target("b", 2, false, "sb", ["sc"]);
            var g, table := Graph({"a", "b"}, map["sc" := "c"], {}), [a, b];
            ScanResult(g, table, 2, true) == [a] && b in Lackers(g, PageNo(table, 2, 0))
              && LeftBehind(g, table, 2, 0, b)
  {
    var a, b := Target("a", 1, true, "sa", ["sc"]), Target("b", 2, false, "sb", ["sc"]);
    var g, table := Graph({"a", "b"}, map["sc" := "c"], {}), [a, b];
    var page := PageNo(table, 2, 0);
    assert page == table;
    assert Wanted(g, table) == [a] by {
      assert table[..1] == [a] && [a][..0] == [];
    }
    assert Lackers(g, table) == [a, b] by {
      LackersOfTwo(g, a, b);
    }
    OneTurn(g, a, b);
    SecondIsOverlooked(g, a, b);
    NextSelection(g, table, 2, true, 0);
    assert OffsetOf(table, 2, 1) == |table|;
    ScanEndsWith(g, table, 2, true, 1);
    NodesOfOne(a);
  }

  method SelectAt(
    g: Graph, table: seq<Target>, limit: nat, related: bool, offset: nat, next: nat, rows: seq<Target>,
    selected: seq<Target>)
    returns (more: seq<Target>)
    requires DistinctRows(table) && |selected| < limit && Scanned(g, table, limit, offset, selected)
    requires offset <= next <= |table| && rows == table[offset..next]
    ensures Scanned(g, table, limit, next, more) && more == Turn(g, rows, limit, related, selected)
  {
    DistinctSlice(table, offset, next);
    more := SelectFromPage(g, rows, limit, related, selected);
    ScannedMore(g, table, limit, offset, next, selected, more);
  }

  lemma NextOffset(table: seq<Target>, limit: nat, k: nat)
    ensures OffsetOf(table, limit, k + 1) == OffsetOf(table, limit, k) + |PageNo(table, limit, k)|
  {
  }

  /** Reads the page at `offset` and selects from it; `last` when no page can follow. */
  method ScanPage(g: Graph, table: seq<Target>, limit: nat, related: bool, offset: nat, selected: seq<Target>)
    returns (more: seq<Target>, next: nat, last: bool)
    requires DistinctRows(table) && |selected| < limit && Scanned(g, table, limit, offset, selected)
    ensures Scanned(g, table, limit, next, more)
    ensures var rows := PageAt(table, offset, PageSize(limit));
            next == offset + |rows| && more == if rows == [] then selected else Turn(g, rows, limit, related, selected)
    ensures if last then next == |table| else next > offset
  {
    var pageSize := PageSize(limit);
    var rows := PageAt(table, offset, pageSize);
    if |rows| == 0 {
      return selected, offset, true;
    }
    next, last := offset + |rows|, |rows| < pageSize;
    more := SelectAt(g, table, limit, related, offset, next, rows, selected);
  }

  /**
    The whole scan over a stable table. The wanted rows come back in table order without a gap, and all of them if
    there is room left; no row is repeated, and every row qualifies.
   */
  method ReadGraphTargets(g: Graph, table: seq<Target>, limit: nat, related: bool) returns (selected: seq<Target>)
    requires DistinctRows(table)
    ensures Selects(g, table, limit, selected) && selected == ScanResult(g, table, limit, related)
  {
    selected := [];
    var offset := 0;
    ghost var k := 0;
    while |selected| < limit
      invariant Scanned(g, table, limit, offset, selected)
      invariant offset == OffsetOf(table, limit, k) && selected == SelectedBefore(g, table, limit, related, k)
      decreases |table| - offset
    {
      var last;
      selected, offset, last := ScanPage(g, table, limit, related, offset, selected);
      NextOffset(table, limit, k);
      NextSelection(g, table, limit, related, k);
      k := k + 1;
      if last {
        break;
      }
    }
    ScanEndsWith(g, table, limit, related, k);
    ScanEnds(g, table, limit, offset, selected);
  }

  /** Related documents aside, paging is one plain scan cut off at the limit. */
  lemma PlainScan(g: Graph, table: seq<Target>, limit: nat, selected: seq<Target>)
    requires Selects(g, table, limit, selected) && forall t :: t in selected ==> Wants(g, t)
    ensures selected == Take(Wanted(g, table), limit)
  {
    AllWanted(g, selected);
  }
}
