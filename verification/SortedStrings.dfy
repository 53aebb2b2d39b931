/** Strings in lexicographic order of their code units, and sets of strings as sorted lists. */
module SortedStrings {
  import opened Collections

  predicate Less(a: string, b: string) {
    b != [] && (a == [] || a[0] < b[0] || (a[0] == b[0] && Less(a[1..], b[1..])))
  }

  predicate AtMost(a: string, b: string) {
    a == b || Less(a, b)
  }

  lemma {:induction false} LessIsTotal(a: string, b: string)
    ensures Less(a, b) || Less(b, a) || a == b
    ensures !(Less(a, b) && Less(b, a)) && !Less(a, a)
  {
    if a != [] && b != [] && a[0] == b[0] {
      LessIsTotal(a[1..], b[1..]);
      assert a == [a[0]] + a[1..] && b == [b[0]] + b[1..];
      LessIsTotal(a[1..], a[1..]);
    } else if a != [] {
      LessIsTotal(a[1..], a[1..]);
    }
  }

  /** The strings agree up to `k`, and there the first one ends or has the smaller character. */
  ghost predicate DecidedAt(a: string, b: string, k: nat) {
    && k <= |a| && k < |b| && (forall i :: 0 <= i < k ==> a[i] == b[i])
    && (k == |a| || a[k] < b[k])
  }

  lemma {:induction false} LessIsLexicographic(a: string, b: string)
    ensures Less(a, b) <==> exists k: nat :: DecidedAt(a, b, k)
  {
    if b != [] && a != [] && a[0] == b[0] {
      LessIsLexicographic(a[1..], b[1..]);
      if k: nat :| DecidedAt(a[1..], b[1..], k) {
        assert DecidedAt(a, b, k + 1);
      }
      if k: nat :| DecidedAt(a, b, k) {
        assert DecidedAt(a[1..], b[1..], k - 1);
      }
    } else if b != [] {
      assert a == [] || a[0] < b[0] ==> DecidedAt(a, b, 0);
    }
  }

  lemma {:induction false} LessIsTransitive(a: string, b: string, c: string)
    requires Less(a, b) && Less(b, c)
    ensures Less(a, c)
  {
    if a != [] && a[0] == b[0] && b[0] == c[0] {
      LessIsTransitive(a[1..], b[1..], c[1..]);
    }
  }

  /** Adds `x` to a sorted set unless it is there. */
  function Insert(x: string, s: seq<string>): seq<string> {
    if s == [] || Less(x, s[0]) then [x] + s
    else if x == s[0] then s
    else [s[0]] + Insert(x, s[1..])
  }

  /** The distinct values, sorted. */
  function SortedSet(values: seq<string>): seq<string> {
    if values == [] then [] else Insert(values[0], SortedSet(values[1..]))
  }

  ghost predicate Increasing(s: seq<string>) {
    forall i, j :: 0 <= i < j < |s| ==> Less(s[i], s[j])
  }

  lemma ConsElements(h: string, t: seq<string>)
    ensures Elements([h] + t) == {h} + Elements(t)
  {
  }

  lemma {:induction false} InsertElements(x: string, s: seq<string>)
    ensures Elements(Insert(x, s)) == Elements(s) + {x}
  {
    if s == [] || Less(x, s[0]) {
      ConsElements(x, s);
    } else {
      assert s == [s[0]] + s[1..];
      ConsElements(s[0], s[1..]);
      if x != s[0] {
        InsertElements(x, s[1..]);
        ConsElements(s[0], Insert(x, s[1..]));
      }
    }
  }

  lemma {:induction false} InsertIncreases(x: string, s: seq<string>)
    requires Increasing(s)
    ensures Increasing(Insert(x, s))
  {
    if s == [] {
    } else if Less(x, s[0]) {
      forall j | 0 < j < |s| ensures Less(x, s[j]) {
        LessIsTransitive(x, s[0], s[j]);
      }
    } else if x != s[0] {
      var rest := Insert(x, s[1..]);
      InsertIncreases(x, s[1..]);
      InsertElements(x, s[1..]);
      LessIsTotal(x, s[0]);
      forall j | 0 <= j < |rest| ensures Less(s[0], rest[j]) {
        assert rest[j] in Elements(rest);
      }
    }
  }

  lemma {:induction false} SortedSetSorts(values: seq<string>)
    ensures Elements(SortedSet(values)) == Elements(values) && Increasing(SortedSet(values))
  {
    if values != [] {
      SortedSetSorts(values[1..]);
      InsertElements(values[0], SortedSet(values[1..]));
      InsertIncreases(values[0], SortedSet(values[1..]));
      assert values == [values[0]] + values[1..];
    }
  }

  /** An increasing list is determined by its elements. */
  lemma {:induction false} IncreasingIsUnique(a: seq<string>, b: seq<string>)
    requires Increasing(a) && Increasing(b) && Elements(a) == Elements(b)
    ensures a == b
  {
    if a != [] {
      assert a[0] in Elements(b);
      assert b[0] in Elements(a);
      LessIsTotal(a[0], b[0]);
      forall x ensures x in Elements(a[1..]) <==> x in Elements(b[1..]) {
        TailElements(a, x);
        TailElements(b, x);
      }
      IncreasingIsUnique(a[1..], b[1..]);
      assert a == [a[0]] + a[1..] && b == [b[0]] + b[1..];
    } else {
      NoElements(b);
    }
  }

  lemma NoElements(s: seq<string>)
    ensures Elements(s) == {} <==> s == []
  {
    assert s != [] ==> s[0] in Elements(s);
  }

  lemma TailElements(s: seq<string>, x: string)
    requires s != [] && Increasing(s)
    ensures x in Elements(s[1..]) <==> x in Elements(s) && x != s[0]
  {
    assert s == [s[0]] + s[1..];
    LessIsTotal(s[0], s[0]);
  }

  /** Two normalized lists are equal exactly when their sources hold the same strings. */
  lemma SortedSetsCompare(a: seq<string>, b: seq<string>)
    ensures SortedSet(a) == SortedSet(b) <==> Elements(a) == Elements(b)
  {
    SortedSetSorts(a);
    SortedSetSorts(b);
    if Elements(a) == Elements(b) {
      IncreasingIsUnique(SortedSet(a), SortedSet(b));
    }
  }
}
