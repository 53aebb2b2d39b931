/**
  Document-level retrieval metrics: recall, truncated MRR and graded nDCG.

  Floats are modelled by `real`, and the logarithmic discount by any positive strictly
  decreasing function of the rank, so that every result below holds for `1 / log2(i + 2)`.
 */
module RankMetrics {
  import opened Collections
  import opened Options

  /** One entry of the judgment record: a document and its relevance grade. */
  datatype Judgment = Judgment(id: string, grade: nat)

  predicate DistinctIds(grades: seq<Judgment>) {
    forall i, j :: 0 <= i < j < |grades| ==> grades[i].id != grades[j].id
  }

  /** A record holds one value per key. */
  type Grades = grades: seq<Judgment> | DistinctIds(grades)

  type Discount = nat -> real

  ghost predicate Discounting(d: Discount) {
    && (forall i: nat :: d(i) > 0.0)
    && (forall i: nat, j: nat :: i < j ==> d(i) > d(j))
  }

  /** `Unjudged` is the triple of nulls; a missing nDCG is the NaN of `0 / 0`. */
  datatype Metrics = Unjudged | Scored(recall: real, mrr: real, ndcg: Option<real>)

  /** `grades[id] ?? 0` */
  function GradeOf(grades: seq<Judgment>, id: string): nat {
    if grades == [] then 0
    else if grades[0].id == id then grades[0].grade
    else GradeOf(grades[1..], id)
  }

  function GradesOf(grades: seq<Judgment>, ids: seq<string>): (r: seq<nat>)
    ensures |r| == |ids|
  {
    seq(|ids|, i requires 0 <= i < |ids| => GradeOf(grades, ids[i]))
  }

  function Values(grades: seq<Judgment>): (r: seq<nat>)
    ensures |r| == |grades|
  {
    seq(|grades|, i requires 0 <= i < |grades| => grades[i].grade)
  }

  /** Insertion order of a set built from a list: the first occurrence of every element. */
  function FirstOccurrences(s: seq<string>): (r: seq<string>)
    ensures NoRepeats(r)
    ensures forall x :: x in r <==> x in s
  {
    if s == [] then []
    else
      var last := s[|s| - 1];
      var r := FirstOccurrences(s[..|s| - 1]);
      assert s == s[..|s| - 1] + [last];
      if last in r then r else r + [last]
  }

  function Ranked(documents: seq<string>, k: nat): seq<string> {
    Take(FirstOccurrences(documents), k)
  }

  /** The ids of `ids` whose grade is positive, in order. */
  function RelevantIn(grades: seq<Judgment>, ids: seq<string>): (r: seq<string>)
    ensures forall x :: x in r <==> x in ids && GradeOf(grades, x) > 0
  {
    if ids == [] then []
    else
      var last := ids[|ids| - 1];
      var r := RelevantIn(grades, ids[..|ids| - 1]);
      assert ids == ids[..|ids| - 1] + [last];
      if GradeOf(grades, last) > 0 then r + [last] else r
  }

  function Ids(grades: seq<Judgment>): (r: seq<string>)
    ensures |r| == |grades|
  {
    seq(|grades|, i requires 0 <= i < |grades| => grades[i].id)
  }

  function Insert(x: nat, s: seq<nat>): seq<nat> {
    if s == [] || s[0] <= x then [x] + s else [s[0]] + Insert(x, s[1..])
  }

  function SortDown(s: seq<nat>): seq<nat> {
    if s == [] then [] else Insert(s[0], SortDown(s[1..]))
  }

  function Ideal(grades: Grades, k: nat): seq<nat> {
    Take(SortDown(Values(grades)), k)
  }

  function Pow2(n: nat): nat {
    if n == 0 then 1 else 2 * Pow2(n - 1)
  }

  function Gain(grade: nat): real {
    Pow2(grade) as real - 1.0
  }

  /** What a grade adds at a rank of this weight. */
  function Share(grade: nat, weight: real): real {
    Gain(grade) * weight
  }

  function Dcg(values: seq<nat>, d: Discount): real {
    if values == [] then 0.0
    else
      var n := |values| - 1;
      Dcg(values[..n], d) + Share(values[n], d(n))
  }

  function FirstRelevant(grades: seq<Judgment>, ids: seq<string>): Option<nat> {
    if ids == [] then None
    else if GradeOf(grades, ids[0]) > 0 then Some(0)
    else match FirstRelevant(grades, ids[1..])
      case None => None
      case Some(i) => Some(i + 1)
  }

  function ReciprocalRank(first: Option<nat>): real {
    match first
    case None => 0.0
    case Some(i) => 1.0 / (i + 1) as real
  }

  function Quotient(a: real, b: real): Option<real> {
    if b == 0.0 then None else Some(a / b)
  }

  function Evaluate(documents: seq<string>, grades: Grades, k: nat, d: Discount): Metrics {
    var ranked := Ranked(documents, k);
    var relevant := RelevantIn(grades, Ids(grades));
    if relevant == [] then Unjudged
    else
      Scored(|RelevantIn(grades, ranked)| as real / |relevant| as real,
             ReciprocalRank(FirstRelevant(grades, ranked)),
             Quotient(Dcg(GradesOf(grades, ranked), d), Dcg(Ideal(grades, k), d)))
  }

  // ----- Judgments -----

  lemma {:induction false} GradeAt(grades: seq<Judgment>, j: nat)
    requires DistinctIds(grades) && j < |grades|
    ensures GradeOf(grades, grades[j].id) == grades[j].grade
  {
    if j > 0 {
      GradeAt(grades[1..], j - 1);
    }
  }

  lemma {:induction false} GradeAbsent(grades: seq<Judgment>, id: string)
    ensures GradeOf(grades, id) > 0 ==> exists j :: 0 <= j < |grades| && grades[j].id == id
  {
    if grades != [] && grades[0].id != id {
      GradeAbsent(grades[1..], id);
      if GradeOf(grades, id) > 0 {
        var j :| 0 <= j < |grades[1..]| && grades[1..][j].id == id;
        assert grades[j + 1].id == id;
      }
    }
  }

  lemma {:induction false} GradeElsewhere(grades: seq<Judgment>, j: nat, id: string)
    requires j < |grades| && grades[j].id != id
    ensures GradeOf(grades[..j] + grades[j + 1..], id) == GradeOf(grades, id)
  {
    if j > 0 {
      GradeElsewhere(grades[1..], j - 1, id);
      assert (grades[..j] + grades[j + 1..])[1..] == grades[1..][..j - 1] + grades[1..][j..];
    } else {
      assert grades[..j] + grades[j + 1..] == grades[1..];
    }
  }

  lemma WithoutJudgment(grades: seq<Judgment>, j: nat, v: nat)
    requires j < |grades|
    ensures multiset(Values(grades))[v]
         == multiset(Values(grades[..j] + grades[j + 1..]))[v] + (if grades[j].grade == v then 1 else 0)
  {
    var all := Values(grades);
    assert all == all[..j] + [grades[j].grade] + all[j + 1..];
    assert Values(grades[..j] + grades[j + 1..]) == all[..j] + all[j + 1..];
  }

  lemma JudgmentOf(grades: seq<Judgment>, id: string) returns (j: nat)
    requires DistinctIds(grades) && GradeOf(grades, id) > 0
    ensures j < |grades| && grades[j] == Judgment(id, GradeOf(grades, id))
  {
    GradeAbsent(grades, id);
    j :| 0 <= j < |grades| && grades[j].id == id;
    GradeAt(grades, j);
  }

  /** Distinct documents use every positive grade at most as often as the judgments hold it. */
  lemma {:induction false} PositiveGradesAreJudged(ids: seq<string>, grades: seq<Judgment>, v: nat)
    requires NoRepeats(ids) && DistinctIds(grades) && v > 0
    ensures multiset(GradesOf(grades, ids))[v] <= multiset(Values(grades))[v]
  {
    if ids != [] {
      var n := |ids| - 1;
      var id, front := ids[n], ids[..n];
      var g := GradeOf(grades, id);
      assert GradesOf(grades, ids) == GradesOf(grades, front) + [g];
      if g > 0 {
        var j := JudgmentOf(grades, id);
        var rest := grades[..j] + grades[j + 1..];
        forall i | 0 <= i < n ensures GradeOf(rest, front[i]) == GradeOf(grades, front[i]) {
          GradeElsewhere(grades, j, front[i]);
        }
        assert GradesOf(rest, front) == GradesOf(grades, front);
        PositiveGradesAreJudged(front, rest, v);
        WithoutJudgment(grades, j, v);
      } else {
        PositiveGradesAreJudged(front, grades, v);
      }
    }
  }

  // ----- Sorting and top sums -----

  ghost predicate Descending(s: seq<nat>) {
    forall i, j :: 0 <= i < j < |s| ==> s[i] >= s[j]
  }

  lemma {:induction false} InsertKeepsValues(x: nat, s: seq<nat>)
    ensures multiset(Insert(x, s)) == multiset(s) + multiset{x}
  {
    if s != [] && s[0] > x {
      InsertKeepsValues(x, s[1..]);
      assert s == [s[0]] + s[1..];
    }
  }

  lemma {:induction false} InsertSorts(x: nat, s: seq<nat>, bound: nat)
    requires Descending(s) && x <= bound && (s != [] ==> s[0] <= bound)
    ensures Descending(Insert(x, s)) && Insert(x, s)[0] <= bound
  {
    if s != [] && s[0] > x {
      InsertSorts(x, s[1..], s[0]);
    }
  }

  lemma {:induction false} SortDownKeepsValues(s: seq<nat>)
    ensures multiset(SortDown(s)) == multiset(s)
  {
    if s != [] {
      SortDownKeepsValues(s[1..]);
      InsertKeepsValues(s[0], SortDown(s[1..]));
      assert s == [s[0]] + s[1..];
    }
  }

  lemma {:induction false} SortDownDescends(s: seq<nat>)
    ensures Descending(SortDown(s))
  {
    if s != [] {
      SortDownDescends(s[1..]);
      var rest := SortDown(s[1..]);
      InsertSorts(s[0], rest, if rest != [] && rest[0] > s[0] then rest[0] else s[0]);
    }
  }

  lemma {:induction false} SortDownSorts(s: seq<nat>)
    ensures Descending(SortDown(s)) && multiset(SortDown(s)) == multiset(s)
    ensures |SortDown(s)| == |s|
  {
    SortDownDescends(s);
    SortDownKeepsValues(s);
    assert |multiset(SortDown(s))| == |multiset(s)|;
  }

  lemma {:induction false} Pow2Increasing(a: nat, b: nat)
    requires a < b
    ensures 1 <= Pow2(a) < Pow2(b)
  {
    if a + 1 < b {
      Pow2Increasing(a, b - 1);
    } else if a > 0 {
      Pow2Increasing(a - 1, a);
    }
  }

  lemma GainOrder(a: nat, b: nat)
    ensures Gain(a) >= 0.0
    ensures Gain(a) < Gain(b) <==> a < b
  {
    Pow2Increasing(a, a + 1);
    if a < b {
      Pow2Increasing(a, b);
    } else if b < a {
      Pow2Increasing(b, a);
    }
  }

  function GainSum(s: seq<nat>): real {
    if s == [] then 0.0 else GainSum(s[..|s| - 1]) + Gain(s[|s| - 1])
  }

  lemma {:induction false} GainSumWithout(s: seq<nat>, j: nat)
    requires j < |s|
    ensures GainSum(s) == GainSum(s[..j] + s[j + 1..]) + Gain(s[j])
  {
    var n := |s| - 1;
    if j < n {
      GainSumWithout(s[..n], j);
      var t := s[..j] + s[j + 1..];
      assert t[..n - 1] == s[..n][..j] + s[..n][j + 1..];
    } else {
      assert s[..j] + s[j + 1..] == s[..n];
    }
  }

  lemma InclusionSizes(a: multiset<nat>, b: multiset<nat>)
    requires a <= b
    ensures |a| <= |b|
  {
    assert b == a + (b - a);
  }

  /** Values above the last one of a descending prefix are counted before it. */
  lemma LargeValuesComeEarly(y: seq<nat>, m: nat, v: nat)
    requires Descending(y) && 1 <= m <= |y| && v > y[m - 1]
    ensures multiset(y)[v] == multiset(y[..m - 1])[v]
  {
    assert y == y[..m - 1] + y[m - 1..];
    assert v !in y[m - 1..];
  }

  /** Not every one of m values drawn from a sorted list can beat its m-th value. */
  lemma SomeValueIsSmall(x: seq<nat>, y: seq<nat>) returns (j: nat)
    requires x != [] && |x| <= |y| && Descending(y) && multiset(x) <= multiset(y)
    ensures j < |x| && x[j] <= y[|x| - 1]
  {
    var m := |x|;
    if forall i :: 0 <= i < m ==> x[i] > y[m - 1] {
      forall v | v in multiset(x) ensures multiset(x)[v] <= multiset(y[..m - 1])[v] {
        LargeValuesComeEarly(y, m, v);
      }
      InclusionSizes(multiset(x), multiset(y[..m - 1]));
      assert false;
    }
    j :| 0 <= j < m && x[j] <= y[m - 1];
  }

  lemma WithoutKeepsInclusion(x: seq<nat>, j: nat, y: multiset<nat>)
    requires j < |x| && multiset(x) <= y
    ensures multiset(x[..j] + x[j + 1..]) <= y
  {
    assert x == x[..j] + [x[j]] + x[j + 1..];
  }

  lemma {:induction false} TopValuesHaveTheGreatestSum(x: seq<nat>, y: seq<nat>)
    requires Descending(y) && multiset(x) <= multiset(y) && |x| <= |y|
    ensures GainSum(x) <= GainSum(y[..|x|])
    decreases |x|
  {
    if x != [] {
      var m := |x|;
      var j := SomeValueIsSmall(x, y);
      var rest := x[..j] + x[j + 1..];
      WithoutKeepsInclusion(x, j, multiset(y));
      TopValuesHaveTheGreatestSum(rest, y);
      GainSumWithout(x, j);
      assert GainSum(y[..m]) == GainSum(y[..m - 1]) + Gain(y[m - 1]) by {
        assert y[..m][..m - 1] == y[..m - 1];
      }
      GainOrder(y[m - 1], x[j]);
    }
  }

  // ----- Summation by parts -----

  /** Every prefix of x gains at most as much as the same prefix of y. */
  ghost predicate Dominated(x: seq<nat>, y: seq<nat>)
  {
    |x| == |y| && forall m :: 0 <= m <= |x| ==> GainSum(x[..m]) <= GainSum(y[..m])
  }

  ghost function Gap(x: seq<nat>, y: seq<nat>, m: nat): real
    requires m <= |x| == |y|
  {
    GainSum(y[..m]) - GainSum(x[..m])
  }

  ghost function Slack(x: seq<nat>, y: seq<nat>, d: Discount, m: nat): real
    requires m <= |x| == |y|
  {
    Dcg(y[..m], d) - Dcg(x[..m], d)
  }

  lemma PartsStep(slack: real, gap: real, next: real, before: real, here: real)
    requires before > here > 0.0 && gap >= 0.0 && slack >= before * gap
    ensures slack + here * (next - gap) >= here * next
    ensures slack + here * (next - gap) == here * next ==> gap == 0.0 && slack == before * gap
  {
    assert here * (next - gap) == here * next - here * gap;
    assert before * gap - here * gap == (before - here) * gap;
    if gap > 0.0 {
      assert (before - here) * gap > 0.0;
    }
  }

  lemma PartsUnfold(x: seq<nat>, y: seq<nat>, d: Discount, n: nat)
    requires n < |x| == |y|
    ensures Gap(x, y, n + 1) == Gap(x, y, n) + (Gain(y[n]) - Gain(x[n]))
    ensures Slack(x, y, d, n + 1) == Slack(x, y, d, n) + d(n) * (Gap(x, y, n + 1) - Gap(x, y, n))
  {
    assert x[..n + 1][..n] == x[..n] && y[..n + 1][..n] == y[..n];
    var gx, gy, here := Gain(x[n]), Gain(y[n]), d(n);
    assert here * (gy - gx) == gy * here - gx * here;
  }

  lemma PartsBase(x: seq<nat>, y: seq<nat>, d: Discount)
    requires 1 <= |x| == |y|
    ensures Slack(x, y, d, 1) == d(0) * Gap(x, y, 1) && Gap(x, y, 0) == 0.0
  {
    PartsUnfold(x, y, d, 0);
  }

  /** The weight of the last gap: the discount of the last rank times the gap up to it. */
  ghost function Weight(x: seq<nat>, y: seq<nat>, d: Discount, m: nat): real
    requires 1 <= m <= |x| == |y|
  {
    d(m - 1) * Gap(x, y, m)
  }

  lemma PartsSigns(x: seq<nat>, y: seq<nat>, d: Discount, m: nat)
    requires Dominated(x, y) && Discounting(d) && 1 < m <= |x|
    ensures d(m - 2) > d(m - 1) > 0.0 && Gap(x, y, m - 1) >= 0.0
  {
  }

  lemma PartsGrow(x: seq<nat>, y: seq<nat>, d: Discount, m: nat)
    requires 1 < m <= |x| == |y| && d(m - 2) > d(m - 1) > 0.0 && Gap(x, y, m - 1) >= 0.0
    requires Slack(x, y, d, m - 1) >= Weight(x, y, d, m - 1)
    ensures Slack(x, y, d, m) >= Weight(x, y, d, m)
    ensures Slack(x, y, d, m) == Weight(x, y, d, m) ==>
              Gap(x, y, m - 1) == 0.0 && Slack(x, y, d, m - 1) == Weight(x, y, d, m - 1)
  {
    PartsUnfold(x, y, d, m - 1);
    PartsStep(Slack(x, y, d, m - 1), Gap(x, y, m - 1), Gap(x, y, m), d(m - 2), d(m - 1));
  }

  ghost predicate NoGaps(x: seq<nat>, y: seq<nat>, m: nat)
    requires m <= |x| == |y|
  {
    forall j :: 0 <= j < m ==> Gap(x, y, j) == 0.0
  }

  lemma NoGapsNext(x: seq<nat>, y: seq<nat>, m: nat)
    requires 1 < m <= |x| == |y| && NoGaps(x, y, m - 1) && Gap(x, y, m - 1) == 0.0
    ensures NoGaps(x, y, m)
  {
  }

  lemma {:induction false} SummationByParts(x: seq<nat>, y: seq<nat>, d: Discount, m: nat)
    requires Dominated(x, y) && Discounting(d) && 1 <= m <= |x|
    ensures Slack(x, y, d, m) >= Weight(x, y, d, m)
    ensures Slack(x, y, d, m) == Weight(x, y, d, m) ==> NoGaps(x, y, m)
  {
    if m == 1 {
      PartsBase(x, y, d);
    } else {
      SummationByParts(x, y, d, m - 1);
      PartsSigns(x, y, d, m);
      PartsGrow(x, y, d, m);
      if Slack(x, y, d, m) == Weight(x, y, d, m) {
        NoGapsNext(x, y, m);
      }
    }
  }

  lemma NoGapsMeansEqual(x: seq<nat>, y: seq<nat>)
    requires |x| == |y| && NoGaps(x, y, |x|) && Gap(x, y, |x|) == 0.0
    ensures x == y
  {
    forall i | 0 <= i < |x| ensures x[i] == y[i] {
      assert Gap(x, y, i) == 0.0 && Gap(x, y, i + 1) == 0.0;
      assert x[..i + 1][..i] == x[..i] && y[..i + 1][..i] == y[..i];
      GainOrder(x[i], y[i]);
      GainOrder(y[i], x[i]);
    }
  }

  lemma WeightSign(x: seq<nat>, y: seq<nat>, d: Discount, m: nat)
    requires Dominated(x, y) && Discounting(d) && 1 <= m <= |x|
    ensures Weight(x, y, d, m) >= 0.0 && (Weight(x, y, d, m) == 0.0 ==> Gap(x, y, m) == 0.0)
  {
    SignOfProduct(d(m - 1), Gap(x, y, m));
  }

  lemma SignOfProduct(a: real, b: real)
    requires a > 0.0 && b >= 0.0
    ensures a * b >= 0.0 && (a * b == 0.0 ==> b == 0.0)
  {
  }

  lemma NoSlackMeansEqual(x: seq<nat>, y: seq<nat>, d: Discount)
    requires Dominated(x, y) && Discounting(d) && x != []
    ensures Slack(x, y, d, |x|) >= 0.0 && (Slack(x, y, d, |x|) == 0.0 ==> x == y)
  {
    SummationByParts(x, y, d, |x|);
    WeightSign(x, y, d, |x|);
    if Slack(x, y, d, |x|) == 0.0 {
      NoGapsMeansEqual(x, y);
    }
  }

  /** A list dominated prefix by prefix has the smaller discounted gain, strictly unless equal. */
  lemma DominatedGainsLess(x: seq<nat>, y: seq<nat>, d: Discount)
    requires Dominated(x, y) && Discounting(d)
    ensures Dcg(x, d) <= Dcg(y, d)
    ensures Dcg(x, d) == Dcg(y, d) <==> x == y
  {
    if x != [] {
      assert x[..|x|] == x && y[..|x|] == y;
      NoSlackMeansEqual(x, y, d);
    }
  }

  // ----- Padding -----

  function Zeros(n: nat): (z: seq<nat>)
    ensures |z| == n && forall i :: 0 <= i < n ==> z[i] == 0
  {
    seq(n, _ => 0)
  }

  function Padded(s: seq<nat>, k: nat): seq<nat>
    requires |s| <= k
  {
    s + Zeros(k - |s|)
  }

  lemma DcgOfLonger(s: seq<nat>, x: nat, d: Discount)
    ensures Dcg(s + [x], d) == Dcg(s, d) + Share(x, d(|s|))
  {
    var t := s + [x];
    assert t[..|t| - 1] == s && t[|t| - 1] == x;
  }

  lemma ZeroGains(weight: real)
    ensures Share(0, weight) == 0.0
  {
  }

  lemma {:induction false} PaddingGainsNothing(s: seq<nat>, n: nat, d: Discount)
    ensures Dcg(s + Zeros(n), d) == Dcg(s, d)
  {
    if n == 0 {
      assert s + Zeros(0) == s;
    } else {
      PaddingGainsNothing(s, n - 1, d);
      DcgOfLonger(s + Zeros(n - 1), 0, d);
      ZeroGains(d(|s| + n - 1));
      assert s + Zeros(n) == s + Zeros(n - 1) + [0];
    }
  }

  lemma {:induction false} ZeroCount(s: seq<nat>, v: nat)
    requires forall i :: 0 <= i < |s| ==> s[i] == 0
    ensures multiset(s)[v] == if v == 0 then |s| else 0
  {
    if s != [] {
      ZeroCount(s[1..], v);
      assert s == [0] + s[1..];
    }
  }

  lemma CountAtMostLength(s: seq<nat>, v: nat)
    ensures multiset(s)[v] <= |s|
  {
    var m := multiset(s);
    assert m == m[v := 0] + multiset{}[v := m[v]];
    assert |m| == |m[v := 0]| + |multiset{}[v := m[v]]|;
  }

  lemma RankedCount(ids: seq<string>, grades: Grades, k: nat, m: nat, v: nat)
    requires NoRepeats(ids) && |ids| <= k && m <= k
    ensures multiset(Padded(GradesOf(grades, ids), k)[..m])[v] <= multiset(SortDown(Values(grades)) + Zeros(k))[v]
  {
    var x := Padded(GradesOf(grades, ids), k);
    SortDownSorts(Values(grades));
    ZeroCount(Zeros(k), v);
    if v == 0 {
      CountAtMostLength(x[..m], v);
    } else {
      PrefixCount(x, m, v);
      ZeroCount(Zeros(k - |ids|), v);
      PositiveGradesAreJudged(ids, grades, v);
    }
  }

  lemma IdealPrefix(grades: Grades, k: nat, m: nat)
    requires m <= k
    ensures Descending(SortDown(Values(grades)) + Zeros(k))
    ensures |Ideal(grades, k)| <= k && Padded(Ideal(grades, k), k)[..m] == (SortDown(Values(grades)) + Zeros(k))[..m]
  {
    SortDownSorts(Values(grades));
  }

  /** The ranked grades, padded, are dominated by the sorted judged grades, padded. */
  lemma RankedIsDominated(ids: seq<string>, grades: Grades, k: nat)
    requires NoRepeats(ids) && |ids| <= k
    ensures Dominated(Padded(GradesOf(grades, ids), k), Padded(Ideal(grades, k), k))
  {
    forall m | 0 <= m <= k
      ensures GainSum(Padded(GradesOf(grades, ids), k)[..m]) <= GainSum(Padded(Ideal(grades, k), k)[..m])
    {
      var x := Padded(GradesOf(grades, ids), k)[..m];
      var all := SortDown(Values(grades)) + Zeros(k);
      forall v ensures multiset(x)[v] <= multiset(all)[v] {
        RankedCount(ids, grades, k, m, v);
      }
      IdealPrefix(grades, k, m);
      TopValuesHaveTheGreatestSum(x, all);
    }
  }

  lemma PrefixCount(s: seq<nat>, m: nat, v: nat)
    requires m <= |s|
    ensures multiset(s[..m])[v] <= multiset(s)[v]
  {
    assert s == s[..m] + s[m..];
  }

  // ----- Main results -----

  /** Some judgment has a positive grade. */
  ghost predicate SomeRelevant(grades: Grades) {
    exists j :: 0 <= j < |grades| && grades[j].grade > 0
  }

  lemma SomeRelevantGrade(grades: Grades) returns (j: nat)
    requires RelevantIn(grades, Ids(grades)) != []
    ensures j < |grades| && grades[j].grade > 0
  {
    var id := RelevantIn(grades, Ids(grades))[0];
    assert id in RelevantIn(grades, Ids(grades));
    j :| 0 <= j < |Ids(grades)| && Ids(grades)[j] == id;
    GradeAt(grades, j);
  }

  lemma {:induction false} DcgNonNegative(s: seq<nat>, d: Discount)
    requires Discounting(d)
    ensures Dcg(s, d) >= 0.0
    ensures s != [] && s[0] > 0 ==> Dcg(s, d) > 0.0
  {
    if s != [] {
      var n := |s| - 1;
      DcgNonNegative(s[..n], d);
      GainOrder(s[n], 0);
      GainOrder(0, s[n]);
      assert Gain(s[n]) * d(n) >= 0.0;
      assert n == 0 && s[0] > 0 ==> Gain(s[n]) * d(n) > 0.0;
    }
  }

  lemma IdealIsPositive(grades: Grades, k: nat, d: Discount)
    requires RelevantIn(grades, Ids(grades)) != [] && Discounting(d)
    ensures Dcg(Ideal(grades, k), d) > 0.0 <==> k > 0
  {
    var j := SomeRelevantGrade(grades);
    var sorted := SortDown(Values(grades));
    SortDownSorts(Values(grades));
    assert Values(grades)[j] in multiset(sorted);
    DcgNonNegative(Ideal(grades, k), d);
  }

  /** Reordering or replacing ranked documents never beats the ideal order of the judgments. */
  lemma IdealIsBest(ids: seq<string>, grades: Grades, k: nat, d: Discount)
    requires NoRepeats(ids) && |ids| <= k && Discounting(d)
    ensures |Ideal(grades, k)| <= k
    ensures Dcg(GradesOf(grades, ids), d) <= Dcg(Ideal(grades, k), d)
    ensures Dcg(GradesOf(grades, ids), d) == Dcg(Ideal(grades, k), d)
       <==> Padded(GradesOf(grades, ids), k) == Padded(Ideal(grades, k), k)
  {
    var actual, ideal := GradesOf(grades, ids), Ideal(grades, k);
    RankedIsDominated(ids, grades, k);
    DominatedGainsLess(Padded(actual, k), Padded(ideal, k), d);
    PaddingGainsNothing(actual, k - |actual|, d);
    PaddingGainsNothing(ideal, k - |ideal|, d);
  }

  /**
    nDCG exists exactly for a positive cut-off, lies in [0, 1], and is 1 exactly when the
    ranked grades, padded with zeros, are the best grades sorted downwards.
   */
  lemma NdcgIsNormalized(documents: seq<string>, grades: Grades, k: nat, d: Discount)
    requires Discounting(d) && SomeRelevant(grades)
    ensures Evaluate(documents, grades, k, d).Scored?
    ensures var ndcg := Evaluate(documents, grades, k, d).ndcg;
            && (ndcg.Some? <==> k > 0)
            && (ndcg.Some? ==>
                 && 0.0 <= ndcg.value <= 1.0
                 && |Ranked(documents, k)| <= k && |Ideal(grades, k)| <= k
                 && (ndcg.value == 1.0 <==>
                      Padded(GradesOf(grades, Ranked(documents, k)), k) == Padded(Ideal(grades, k), k)))
  {
    var ranked := Ranked(documents, k);
    ScoredWhenJudgedRelevant(documents, grades, k, d);
    IdealIsPositive(grades, k, d);
    IdealIsBest(ranked, grades, k, d);
    DcgNonNegative(Ideal(grades, k), d);
    DcgNonNegative(GradesOf(grades, ranked), d);
    if k > 0 {
      QuotientInUnit(Dcg(GradesOf(grades, ranked), d), Dcg(Ideal(grades, k), d));
    }
  }

  // ----- The weight of a grade -----

  /** What makes a function the powers of two: its values at 0 and 1, and that it turns sums into products. */
  ghost predicate PowersOfTwo(p: nat -> nat) {
    p(0) == 1 && p(1) == 2 && forall a: nat, b: nat :: TurnsSumIntoProduct(p, a, b)
  }

  ghost predicate TurnsSumIntoProduct(p: nat -> nat, a: nat, b: nat) {
    p(a + b) == p(a) * p(b)
  }

  /** A gain is one less than the power of two at its grade, whatever function gives the powers. */
  lemma {:induction false} GainIsPowerLessOne(grade: nat, p: nat -> nat)
    requires PowersOfTwo(p)
    ensures Gain(grade) == p(grade) as real - 1.0
  {
    if grade > 0 {
      GainIsPowerLessOne(grade - 1, p);
      assert TurnsSumIntoProduct(p, grade - 1, 1);
      GainsDouble(grade - 1);
    } else {
      GainsDouble(0);
    }
  }

  /** The gain of grade 0 is 0, and one more than the gain doubles from grade to grade. */
  lemma GainsDouble(grade: nat)
    ensures Gain(0) == 0.0
    ensures Gain(grade + 1) + 1.0 == 2.0 * (Gain(grade) + 1.0)
  {
    assert Pow2(grade + 1) == 2 * Pow2(grade);
  }

  lemma {:induction false} PowersOfSums(a: nat, b: nat)
    ensures Pow2(a + b) == Pow2(a) * Pow2(b)
  {
    if a > 0 {
      PowersOfSums(a - 1, b);
      assert Pow2(a + b) == 2 * Pow2((a - 1) + b);
      assert (2 * Pow2(a - 1)) * Pow2(b) == 2 * (Pow2(a - 1) * Pow2(b));
    }
  }

  lemma ThereArePowersOfTwo() returns (p: nat -> nat)
    ensures PowersOfTwo(p)
  {
    p := n => Pow2(n);
    forall a: nat, b: nat ensures TurnsSumIntoProduct(p, a, b) {
      PowersOfSums(a, b);
    }
  }

  /** The sum over the ranks of the grade's power of two, less one, times the discount of the rank. */
  ghost function DiscountedSum(values: seq<nat>, n: nat, p: nat -> nat, d: Discount): real
    requires n <= |values|
  {
    if n == 0 then 0.0 else DiscountedSum(values, n - 1, p, d) + Discounted(p(values[n - 1]), d(n - 1))
  }

  ghost function Discounted(power: nat, weight: real): real {
    (power as real - 1.0) * weight
  }

  lemma {:induction false} DcgIsTheDiscountedSum(values: seq<nat>, n: nat, p: nat -> nat, d: Discount)
    requires PowersOfTwo(p) && n <= |values|
    ensures Dcg(values[..n], d) == DiscountedSum(values, n, p, d)
  {
    if n > 0 {
      DcgIsTheDiscountedSum(values, n - 1, p, d);
      GainIsPowerLessOne(values[n - 1], p);
      assert values[..n][..n - 1] == values[..n - 1];
    }
  }

  /** The metric times the ideal sum is the sum of the ranked documents. */
  ghost predicate Normalizes(ndcg: Option<real>, ideal: real, ranked: real) {
    ndcg.Some? && ideal > 0.0 && ndcg.value * ideal == ranked
  }

  /** nDCG times the discounted sum of 2^grade - 1 over the ideal order is that sum over the ranked documents. */
  lemma NdcgWeighsByPowersOfTwo(documents: seq<string>, grades: Grades, k: nat, d: Discount, p: nat -> nat)
    requires Discounting(d) && SomeRelevant(grades) && k > 0 && PowersOfTwo(p)
    ensures Evaluate(documents, grades, k, d).Scored?
    ensures var ranked, ideal := GradesOf(grades, Ranked(documents, k)), Ideal(grades, k);
            Normalizes(Evaluate(documents, grades, k, d).ndcg, DiscountedSum(ideal, |ideal|, p, d),
                       DiscountedSum(ranked, |ranked|, p, d))
  {
    NdcgDivides(documents, grades, k, d);
    WholeSum(GradesOf(grades, Ranked(documents, k)), p, d);
    WholeSum(Ideal(grades, k), p, d);
  }

  lemma WholeSum(values: seq<nat>, p: nat -> nat, d: Discount)
    requires PowersOfTwo(p)
    ensures Dcg(values, d) == DiscountedSum(values, |values|, p, d)
  {
    DcgIsTheDiscountedSum(values, |values|, p, d);
    assert values[..|values|] == values;
  }

  lemma NdcgDivides(documents: seq<string>, grades: Grades, k: nat, d: Discount)
    requires Discounting(d) && SomeRelevant(grades) && k > 0
    ensures Evaluate(documents, grades, k, d).Scored?
    ensures Normalizes(Evaluate(documents, grades, k, d).ndcg, Dcg(Ideal(grades, k), d),
                       Dcg(GradesOf(grades, Ranked(documents, k)), d))
  {
    ScoredWhenJudgedRelevant(documents, grades, k, d);
    IdealIsPositive(grades, k, d);
    QuotientNormalizes(Dcg(GradesOf(grades, Ranked(documents, k)), d), Dcg(Ideal(grades, k), d));
  }

  lemma QuotientNormalizes(a: real, b: real)
    requires b > 0.0
    ensures Normalizes(Quotient(a, b), b, a)
  {
    TimesDivided(a, b);
  }

  lemma TimesDivided(a: real, b: real)
    requires b > 0.0
    ensures (a / b) * b == a
  {
  }

  /** Two judged documents of grades 1 and 2 in the wrong order weigh 1 and 3, not 1 and 2. */
  lemma TwoInTheWrongOrder(a: string, b: string, k: nat, d: Discount)
    requires Discounting(d) && a != b && k >= 2
    ensures var result := Evaluate([a, b], [Judgment(a, 1), Judgment(b, 2)], k, d);
            && result.Scored? && result.ndcg.Some?
            && result.ndcg.value * (3.0 * d(0) + d(1)) == d(0) + 3.0 * d(1)
  {
    var grades: Grades := [Judgment(a, 1), Judgment(b, 2)];
    TwoRanked(a, b, k);
    TwoIdeal(a, b, k);
    assert grades[0].grade > 0;
    ScoredWhenJudgedRelevant([a, b], grades, k, d);
    IdealIsPositive(grades, k, d);
    TwoGains(1, 2, d);
    TwoGains(2, 1, d);
    TimesDivided(Dcg([1, 2], d), Dcg([2, 1], d));
  }

  lemma TwoRanked(a: string, b: string, k: nat)
    requires a != b && k >= 2
    ensures GradesOf([Judgment(a, 1), Judgment(b, 2)], Ranked([a, b], k)) == [1, 2]
  {
    var grades := [Judgment(a, 1), Judgment(b, 2)];
    assert [a, b][..1] == [a];
    assert FirstOccurrences([a]) == [a] by {
      assert [a][..0] == [];
    }
    assert Ranked([a, b], k) == [a, b];
    assert grades[1..] == [Judgment(b, 2)];
    assert GradeOf(grades, a) == 1 && GradeOf(grades, b) == 2;
  }

  lemma TwoIdeal(a: string, b: string, k: nat)
    requires a != b && k >= 2
    ensures Ideal([Judgment(a, 1), Judgment(b, 2)], k) == [2, 1]
  {
    assert Values([Judgment(a, 1), Judgment(b, 2)]) == [1, 2];
    assert [1, 2][1..] == [2] && [2][1..] == [];
    assert SortDown([2]) == [2];
    assert Insert(1, [2]) == [2] + Insert(1, [2][1..]);
  }

  lemma TwoGains(x: nat, y: nat, d: Discount)
    ensures Dcg([x, y], d) == Gain(x) * d(0) + Gain(y) * d(1)
    ensures Gain(1) == 1.0 && Gain(2) == 3.0
  {
    DcgOfLonger([], x, d);
    DcgOfLonger([x], y, d);
    assert [] + [x] == [x] && [x] + [y] == [x, y];
    GainsDouble(0);
    GainsDouble(1);
  }

  /** The set of documents keeps the order of first occurrence. */
  lemma {:induction false} FirstOccurrencesInOrder(s: seq<string>, i: nat, j: nat)
    requires i < j < |FirstOccurrences(s)|
    ensures exists p :: 0 <= p < |s| && s[p] == FirstOccurrences(s)[i] && FirstOccurrences(s)[j] !in s[..p + 1]
  {
    var n := |s| - 1;
    var front, r := s[..n], FirstOccurrences(s[..n]);
    assert s == front + [s[n]];
    if j < |r| {
      FirstOccurrencesInOrder(front, i, j);
      var p :| 0 <= p < n && front[p] == r[i] && r[j] !in front[..p + 1];
      assert front[..p + 1] == s[..p + 1];
    } else {
      assert r[i] in r;
      var p :| 0 <= p < n && front[p] == r[i];
      assert s[p] == r[i] && s[n] !in front;
    }
  }

  /** Metrics are reported exactly when some judgment is relevant. */
  lemma ScoredWhenJudgedRelevant(documents: seq<string>, grades: Grades, k: nat, d: Discount)
    ensures Evaluate(documents, grades, k, d).Scored? <==> SomeRelevant(grades)
  {
    if j :| 0 <= j < |grades| && grades[j].grade > 0 {
      GradeAt(grades, j);
      RelevantMembers(grades, grades[j].id);
    }
    if RelevantIn(grades, Ids(grades)) != [] {
      var j := SomeRelevantGrade(grades);
    }
  }

  lemma QuotientInUnit(a: real, b: real)
    requires 0.0 <= a <= b && b > 0.0
    ensures 0.0 <= a / b <= 1.0 && (a / b == 1.0 <==> a == b)
  {
    assert (a / b) * b == a;
  }

  lemma {:induction false} CountElements(s: seq<string>)
    requires NoRepeats(s)
    ensures |Elements(s)| == |s|
  {
    if s != [] {
      var n := |s| - 1;
      CountElements(s[..n]);
      assert Elements(s) == Elements(s[..n]) + {s[n]};
      assert s[n] !in s[..n];
    }
  }

  lemma {:induction false} RelevantHasNoRepeats(grades: seq<Judgment>, ids: seq<string>)
    requires NoRepeats(ids)
    ensures NoRepeats(RelevantIn(grades, ids))
  {
    if ids != [] {
      RelevantHasNoRepeats(grades, ids[..|ids| - 1]);
    }
  }

  lemma {:induction false} RelevantMembers(grades: Grades, x: string)
    ensures x in RelevantIn(grades, Ids(grades)) <==> GradeOf(grades, x) > 0
  {
    if GradeOf(grades, x) > 0 {
      var j := JudgmentOf(grades, x);
      assert Ids(grades)[j] == x;
    }
  }

  lemma AllRelevantRanked(grades: Grades, ranked: seq<string>)
    ensures Elements(RelevantIn(grades, ranked)) == Elements(RelevantIn(grades, Ids(grades)))
       <==> forall j :: 0 <= j < |grades| && grades[j].grade > 0 ==> grades[j].id in ranked
  {
    var hits, relevant := RelevantIn(grades, ranked), RelevantIn(grades, Ids(grades));
    forall x ensures x in Elements(relevant) <==> GradeOf(grades, x) > 0 {
      RelevantMembers(grades, x);
    }
    if Elements(hits) == Elements(relevant) {
      forall j | 0 <= j < |grades| && grades[j].grade > 0 ensures grades[j].id in ranked {
        GradeAt(grades, j);
        assert grades[j].id in Elements(relevant);
      }
    }
    if forall j :: 0 <= j < |grades| && grades[j].grade > 0 ==> grades[j].id in ranked {
      forall x | x in Elements(relevant) ensures x in Elements(hits) {
        var j := JudgmentOf(grades, x);
      }
    }
  }

  /** Recall lies in [0, 1], and is 1 exactly when every relevant document is in the top k. */
  lemma RecallIsComplete(documents: seq<string>, grades: Grades, k: nat, d: Discount)
    requires SomeRelevant(grades)
    ensures Evaluate(documents, grades, k, d).Scored?
    ensures var recall := Evaluate(documents, grades, k, d).recall;
            && 0.0 <= recall <= 1.0
            && (recall == 1.0 <==>
                 forall j :: 0 <= j < |grades| && grades[j].grade > 0 ==> grades[j].id in Ranked(documents, k))
            && Normalizes(Some(recall), |PositiveJudgments(grades)| as real,
                          |PositiveRanks(grades, Ranked(documents, k))| as real)
  {
    var ranked := Ranked(documents, k);
    ScoredWhenJudgedRelevant(documents, grades, k, d);
    var hits, relevant := RelevantIn(grades, ranked), RelevantIn(grades, Ids(grades));
    RelevantHasNoRepeats(grades, ranked);
    RelevantHasNoRepeats(grades, Ids(grades));
    CountElements(hits);
    CountElements(relevant);
    forall x | x in Elements(hits) ensures x in Elements(relevant) {
      RelevantMembers(grades, x);
    }
    SubsetCount(Elements(hits), Elements(relevant));
    QuotientInUnit(|hits| as real, |relevant| as real);
    AllRelevantRanked(grades, ranked);
    RelevantAreCounted(grades, ranked);
    JudgmentsAreCounted(grades);
    QuotientNormalizes(|hits| as real, |relevant| as real);
  }

  /** The judgments with a positive grade, and the ranks whose document has one. */
  ghost function PositiveJudgments(grades: seq<Judgment>): set<nat> {
    set j: nat | j < |grades| && grades[j].grade > 0
  }

  ghost function PositiveRanks(grades: seq<Judgment>, ids: seq<string>): set<nat> {
    set i: nat | i < |ids| && GradeOf(grades, ids[i]) > 0
  }

  lemma OneMoreRank(grades: seq<Judgment>, ids: seq<string>)
    requires ids != []
    ensures var n := |ids| - 1;
            && n !in PositiveRanks(grades, ids[..n])
            && PositiveRanks(grades, ids)
               == PositiveRanks(grades, ids[..n]) + if GradeOf(grades, ids[n]) > 0 then {n} else {}
  {
    assert forall i: nat :: i < |ids| - 1 ==> ids[..|ids| - 1][i] == ids[i];
  }

  lemma {:induction false} RelevantAreCounted(grades: seq<Judgment>, ids: seq<string>)
    ensures |RelevantIn(grades, ids)| == |PositiveRanks(grades, ids)|
  {
    if ids == [] {
      assert PositiveRanks(grades, ids) == {};
    } else {
      RelevantAreCounted(grades, ids[..|ids| - 1]);
      OneMoreRank(grades, ids);
    }
  }

  lemma JudgmentsAreCounted(grades: Grades)
    ensures |RelevantIn(grades, Ids(grades))| == |PositiveJudgments(grades)|
  {
    RelevantAreCounted(grades, Ids(grades));
    forall j: nat | j < |grades| ensures GradeOf(grades, Ids(grades)[j]) == grades[j].grade {
      GradeAt(grades, j);
    }
    assert PositiveRanks(grades, Ids(grades)) == PositiveJudgments(grades);
  }

  lemma SubsetCount(a: set<string>, b: set<string>)
    requires a <= b
    ensures |a| <= |b| && (|a| == |b| <==> a == b)
  {
    assert b == a + (b - a);
    assert |b| == |a| + |b - a|;
  }

  lemma {:induction false} FirstRelevantIsFirst(grades: seq<Judgment>, ids: seq<string>)
    ensures match FirstRelevant(grades, ids)
            case None => forall i :: 0 <= i < |ids| ==> GradeOf(grades, ids[i]) == 0
            case Some(f) => f < |ids| && GradeOf(grades, ids[f]) > 0
                            && forall i :: 0 <= i < f ==> GradeOf(grades, ids[i]) == 0
  {
    if ids != [] {
      FirstRelevantIsFirst(grades, ids[1..]);
      assert forall i :: 1 <= i < |ids| ==> ids[i] == ids[1..][i - 1];
    }
  }

  lemma ReciprocalInUnit(first: Option<nat>)
    ensures 0.0 <= ReciprocalRank(first) <= 1.0
    ensures ReciprocalRank(first) == 0.0 <==> first.None?
  {
    if first.Some? {
      var n := (first.value + 1) as real;
      assert n >= 1.0;
      assert (1.0 / n) * n == 1.0;
    }
  }

  lemma ReciprocalOfFirst(grades: Grades, ranked: seq<string>)
    ensures var mrr := ReciprocalRank(FirstRelevant(grades, ranked));
            && 0.0 <= mrr <= 1.0
            && (mrr == 0.0 <==> forall i :: 0 <= i < |ranked| ==> GradeOf(grades, ranked[i]) == 0)
            && (forall f :: 0 <= f < |ranked| && GradeOf(grades, ranked[f]) > 0
                   && (forall i :: 0 <= i < f ==> GradeOf(grades, ranked[i]) == 0)
                   ==> mrr == 1.0 / (f + 1) as real)
  {
    var first := FirstRelevant(grades, ranked);
    FirstRelevantIsFirst(grades, ranked);
    ReciprocalInUnit(first);
    forall f | 0 <= f < |ranked| && GradeOf(grades, ranked[f]) > 0
        && (forall i :: 0 <= i < f ==> GradeOf(grades, ranked[i]) == 0)
      ensures first == Some(f) {
    }
  }

  /** MRR is 1/(i + 1) exactly when rank i holds the first relevant document, and 0 when none does. */
  lemma MrrIsReciprocalRank(documents: seq<string>, grades: Grades, k: nat, d: Discount)
    requires SomeRelevant(grades)
    ensures Evaluate(documents, grades, k, d).Scored?
    ensures var mrr, ranked := Evaluate(documents, grades, k, d).mrr, Ranked(documents, k);
            && 0.0 <= mrr <= 1.0
            && (mrr == 0.0 <==> forall i :: 0 <= i < |ranked| ==> GradeOf(grades, ranked[i]) == 0)
            && (forall f :: 0 <= f < |ranked| && GradeOf(grades, ranked[f]) > 0
                   && (forall i :: 0 <= i < f ==> GradeOf(grades, ranked[i]) == 0)
                   ==> mrr == 1.0 / (f + 1) as real)
  {
    ScoredWhenJudgedRelevant(documents, grades, k, d);
    ReciprocalOfFirst(grades, Ranked(documents, k));
  }
}
