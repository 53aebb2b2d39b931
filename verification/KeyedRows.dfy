/** Rows indexed by a string key, as a `Map` that keeps the first row of every key sees them. */
module KeyedRows {
  datatype Keyed<+T> = Keyed(key: string, row: T)

  function MapSeq<A, B>(f: A -> B, s: seq<A>): (r: seq<B>)
    ensures |r| == |s| && forall i :: 0 <= i < |s| ==> r[i] == f(s[i])
  {
    seq(|s|, i requires 0 <= i < |s| => f(s[i]))
  }

  function Count<T>(s: seq<T>, p: T -> bool): nat {
    if s == [] then 0 else Count(s[..|s| - 1], p) + if p(s[|s| - 1]) then 1 else 0
  }

  ghost function Image<A, B>(f: A -> B, s: seq<A>): set<B> {
    set i | 0 <= i < |s| :: f(s[i])
  }

  ghost function KeySet<T>(t: seq<Keyed<T>>): set<string> {
    set i | 0 <= i < |t| :: t[i].key
  }

  ghost function RowSet<T>(t: seq<Keyed<T>>): set<Keyed<T>> {
    set i | 0 <= i < |t| :: t[i]
  }

  ghost predicate UniqueKeys<T>(t: seq<Keyed<T>>) {
    forall i, j :: 0 <= i < j < |t| ==> t[i].key != t[j].key
  }

  ghost function First<T>(t: seq<Keyed<T>>, k: string): (r: T)
    requires k in KeySet(t)
    ensures Keyed(k, r) in t
  {
    if t[0].key == k then t[0].row
    else
      assert exists i :: 1 <= i < |t| && t[i].key == k;
      assert k in KeySet(t[1..]) by { KeySetDrop(t, k); }
      First(t[1..], k)
  }

  /** Of rows that share a key, the first one counts. */
  lemma {:induction false} FirstIsTheFirst<T>(t: seq<Keyed<T>>, i: nat)
    requires i < |t| && forall j :: 0 <= j < i ==> t[j].key != t[i].key
    ensures t[i].key in KeySet(t) && First(t, t[i].key) == t[i].row
  {
    if i > 0 {
      assert forall j :: 0 <= j < i - 1 ==> t[1..][j].key == t[j + 1].key;
      FirstIsTheFirst(t[1..], i - 1);
    }
  }

  lemma KeySetDrop<T>(t: seq<Keyed<T>>, k: string)
    requires k in KeySet(t) && t[0].key != k
    ensures k in KeySet(t[1..])
  {
    var i :| 0 <= i < |t| && t[i].key == k;
    assert t[1..][i - 1].key == k;
  }

  lemma KeySetGrows<T>(t: seq<Keyed<T>>)
    requires t != []
    ensures KeySet(t) == KeySet(t[..|t| - 1]) + {t[|t| - 1].key}
  {
    var front := t[..|t| - 1];
    forall k | k in KeySet(t) ensures k in KeySet(front) + {t[|t| - 1].key} {
      var i :| 0 <= i < |t| && t[i].key == k;
      if i < |t| - 1 {
        assert front[i].key == k;
      }
    }
    forall k | k in KeySet(front) ensures k in KeySet(t) {
      var i :| 0 <= i < |front| && front[i].key == k;
      assert t[i].key == k;
    }
  }

  lemma UniqueGrows<T>(t: seq<Keyed<T>>)
    requires t != []
    ensures UniqueKeys(t) <==> UniqueKeys(t[..|t| - 1]) && t[|t| - 1].key !in KeySet(t[..|t| - 1])
  {
    var front := t[..|t| - 1];
    assert t == front + [t[|t| - 1]];
    if t[|t| - 1].key in KeySet(front) {
      var i :| 0 <= i < |front| && front[i].key == t[|t| - 1].key;
      assert t[i].key == t[|t| - 1].key;
    }
    if UniqueKeys(front) && t[|t| - 1].key !in KeySet(front) {
      forall i, j | 0 <= i < j < |t| ensures t[i].key != t[j].key {
        if j == |t| - 1 {
          assert front[i].key in KeySet(front);
        } else {
          assert front[i].key != front[j].key;
        }
      }
    }
  }

  /** There are at most as many keys as rows, and exactly as many when no key repeats. */
  lemma {:induction false} KeySetSize<T>(t: seq<Keyed<T>>)
    ensures |KeySet(t)| <= |t|
    ensures |KeySet(t)| == |t| <==> UniqueKeys(t)
  {
    if t != [] {
      KeySetSize(t[..|t| - 1]);
      KeySetGrows(t);
      UniqueGrows(t);
    }
  }

  lemma {:induction false} FirstOfUnique<T>(t: seq<Keyed<T>>, i: nat)
    requires i < |t| && UniqueKeys(t)
    ensures t[i].key in KeySet(t) && First(t, t[i].key) == t[i].row
  {
    var k := t[i].key;
    assert k in KeySet(t);
    var j :| 0 <= j < |t| && t[j] == Keyed(k, First(t, k));
    assert i == j;
  }

  lemma SameRowsSameKeys<T>(a: seq<Keyed<T>>, b: seq<Keyed<T>>)
    requires RowSet(a) <= RowSet(b)
    ensures KeySet(a) <= KeySet(b)
  {
    forall k | k in KeySet(a) ensures k in KeySet(b) {
      var i :| 0 <= i < |a| && a[i].key == k;
      assert a[i] in RowSet(b);
    }
  }

  lemma SameRowsSameFirst<T>(a: seq<Keyed<T>>, b: seq<Keyed<T>>, k: string)
    requires UniqueKeys(b) && RowSet(a) <= RowSet(b) && k in KeySet(a)
    ensures k in KeySet(b) && First(a, k) == First(b, k)
  {
    assert Keyed(k, First(a, k)) in RowSet(a);
    var j :| 0 <= j < |b| && b[j] == Keyed(k, First(a, k));
    FirstOfUnique(b, j);
  }

  lemma AgreeingIsIncluded<T>(a: seq<Keyed<T>>, b: seq<Keyed<T>>)
    requires UniqueKeys(a) && KeySet(a) <= KeySet(b)
    requires forall k :: k in KeySet(a) ==> First(a, k) == First(b, k)
    ensures RowSet(a) <= RowSet(b)
  {
    forall r | r in RowSet(a) ensures r in RowSet(b) {
      var i :| 0 <= i < |a| && a[i] == r;
      FirstOfUnique(a, i);
      assert Keyed(r.key, First(b, r.key)) in b;
    }
  }

  /** Tables without repeated keys hold the same rows exactly when they agree key by key. */
  lemma SameRows<T>(a: seq<Keyed<T>>, b: seq<Keyed<T>>)
    requires UniqueKeys(a) && UniqueKeys(b)
    ensures RowSet(a) == RowSet(b)
       <==> KeySet(a) == KeySet(b) && forall k :: k in KeySet(a) && k in KeySet(b) ==> First(a, k) == First(b, k)
  {
    if RowSet(a) == RowSet(b) {
      SameRowsSameKeys(a, b);
      SameRowsSameKeys(b, a);
      forall k | k in KeySet(a) && k in KeySet(b) ensures First(a, k) == First(b, k) {
        SameRowsSameFirst(a, b, k);
      }
    } else if KeySet(a) == KeySet(b) && forall k :: k in KeySet(a) && k in KeySet(b) ==> First(a, k) == First(b, k) {
      AgreeingIsIncluded(a, b);
      AgreeingIsIncluded(b, a);
    }
  }

  /** Two readings that identify the same rows compare two tables alike. */
  lemma SameImages<A, B, C>(f: A -> B, g: A -> C, a: seq<A>, b: seq<A>)
    requires forall i, j :: 0 <= i < |a| && 0 <= j < |b| ==> (f(a[i]) == f(b[j]) <==> g(a[i]) == g(b[j]))
    ensures Image(f, a) == Image(f, b) <==> Image(g, a) == Image(g, b)
  {
    if Image(f, a) == Image(f, b) {
      ImageFollows(f, g, a, b);
      ImageFollows(f, g, b, a);
    }
    if Image(g, a) == Image(g, b) {
      ImageFollows(g, f, a, b);
      ImageFollows(g, f, b, a);
    }
  }

  lemma ImageFollows<A, B, C>(f: A -> B, g: A -> C, a: seq<A>, b: seq<A>)
    requires forall i, j :: 0 <= i < |a| && 0 <= j < |b| && f(a[i]) == f(b[j]) ==> g(a[i]) == g(b[j])
    requires Image(f, a) <= Image(f, b)
    ensures Image(g, a) <= Image(g, b)
  {
    forall y | y in Image(g, a) ensures y in Image(g, b) {
      var i :| 0 <= i < |a| && g(a[i]) == y;
      assert f(a[i]) in Image(f, b);
      var j :| 0 <= j < |b| && f(b[j]) == f(a[i]);
      assert g(b[j]) == y;
    }
  }

  lemma {:induction false} CountZero<T>(s: seq<T>, p: T -> bool)
    ensures Count(s, p) == 0 <==> forall i :: 0 <= i < |s| ==> !p(s[i])
  {
    if s != [] {
      CountZero(s[..|s| - 1], p);
      assert forall i :: 0 <= i < |s| ==> i == |s| - 1 || s[i] == s[..|s| - 1][i];
    }
  }

  // ----- Rearrangement -----

  /** `b` without the row at `j`. */
  function Without<T>(b: seq<T>, j: nat): seq<T>
    requires j < |b|
  {
    b[..j] + b[j + 1..]
  }

  lemma WithoutMultiset<T>(b: seq<T>, j: nat)
    requires j < |b|
    ensures multiset(b) == multiset(Without(b, j)) + multiset{b[j]}
  {
    assert b == b[..j] + [b[j]] + b[j + 1..];
  }

  lemma RearrangedShorter<T>(a: seq<T>, b: seq<T>) returns (j: nat)
    requires a != [] && multiset(a) == multiset(b)
    ensures j < |b| && b[j] == a[|a| - 1] && multiset(a[..|a| - 1]) == multiset(Without(b, j))
  {
    var x := a[|a| - 1];
    assert a == a[..|a| - 1] + [x];
    assert x in multiset(b);
    j :| 0 <= j < |b| && b[j] == x;
    WithoutMultiset(b, j);
    assert multiset(a[..|a| - 1]) == multiset(a) - multiset{x};
    assert multiset(Without(b, j)) == multiset(b) - multiset{x};
  }

  lemma {:induction false} CountSplits<T>(a: seq<T>, b: seq<T>, p: T -> bool)
    ensures Count(a + b, p) == Count(a, p) + Count(b, p)
  {
    if b == [] {
      assert a + b == a;
    } else {
      CountSplits(a, b[..|b| - 1], p);
      assert (a + b)[..|a + b| - 1] == a + b[..|b| - 1];
    }
  }

  lemma CountLast<T>(a: seq<T>, x: T, p: T -> bool)
    ensures Count(a + [x], p) == Count(a, p) + if p(x) then 1 else 0
  {
    assert (a + [x])[..|a + [x]| - 1] == a;
  }

  lemma SplitAround<T>(b: seq<T>, j: nat)
    requires j < |b|
    ensures b == b[..j] + [b[j]] + b[j + 1..]
  {
  }

  lemma CountAround<T>(front: seq<T>, x: T, back: seq<T>, p: T -> bool)
    ensures Count(front + [x] + back, p) == Count(front + back, p) + if p(x) then 1 else 0
  {
    CountSplits(front, back, p);
    CountSplits(front + [x], back, p);
    CountLast(front, x, p);
  }

  lemma CountWithout<T>(b: seq<T>, j: nat, p: T -> bool)
    requires j < |b|
    ensures Count(b, p) == Count(Without(b, j), p) + if p(b[j]) then 1 else 0
  {
    SplitAround(b, j);
    CountAround(b[..j], b[j], b[j + 1..], p);
  }

  lemma {:induction false} RearrangedCounts<T>(a: seq<T>, b: seq<T>, p: T -> bool)
    requires multiset(a) == multiset(b)
    ensures Count(a, p) == Count(b, p)
    decreases |a|
  {
    if a == [] {
      assert |multiset(b)| == 0;
    } else {
      var j := RearrangedShorter(a, b);
      RearrangedCounts(a[..|a| - 1], Without(b, j), p);
      CountWithout(b, j, p);
    }
  }

  lemma {:induction false} RearrangedMaps<A, B>(f: A -> B, a: seq<A>, b: seq<A>)
    requires multiset(a) == multiset(b)
    ensures multiset(MapSeq(f, a)) == multiset(MapSeq(f, b))
    decreases |a|
  {
    if a == [] {
      assert |multiset(b)| == 0;
    } else {
      var n := |a| - 1;
      var j := RearrangedShorter(a, b);
      RearrangedMaps(f, a[..n], Without(b, j));
      assert MapSeq(f, Without(b, j)) == Without(MapSeq(f, b), j);
      WithoutMultiset(MapSeq(f, b), j);
      assert MapSeq(f, a) == MapSeq(f, a[..n]) + [f(a[n])];
    }
  }

  lemma RearrangedRows<T>(a: seq<Keyed<T>>, b: seq<Keyed<T>>)
    requires multiset(a) == multiset(b)
    ensures RowSet(a) == RowSet(b) && KeySet(a) == KeySet(b) && |a| == |b|
  {
    assert |a| == |multiset(a)| == |multiset(b)| == |b|;
    forall r ensures r in RowSet(a) <==> r in RowSet(b) {
      assert r in RowSet(a) <==> r in multiset(a);
      assert r in RowSet(b) <==> r in multiset(b);
    }
    SameRowsSameKeys(a, b);
    SameRowsSameKeys(b, a);
  }
}
