/**
 The view projection of the task list: the status and search filter, the
 three-key display order, and the dashboard counters.
 */
module View {
  import opened Types
  import Seqs
  import Text
  import Due

  // ---------------------------------------------------------------------
  // Filtering

  /** The status filter: `All` keeps everything, `Active` the open tasks,
      `Completed` the finished ones. */
  predicate MatchesFilter(t: Task, f: TaskFilter) {
    f == All || (f == Active && !t.completed) || (f == Completed && t.completed)
  }

  /** The search: the lower-cased title includes the lower-cased query. */
  predicate MatchesSearch(t: Task, query: string) {
    Text.Includes(Text.Lower(t.title), Text.Lower(query))
  }

  predicate Matches(t: Task, f: TaskFilter, query: string) {
    MatchesFilter(t, f) && MatchesSearch(t, query)
  }

  /** Each status filter keeps exactly the tasks its name promises. */
  lemma MatchesFilterCases(t: Task, f: TaskFilter)
    ensures f == All ==> MatchesFilter(t, f)
    ensures f == Active ==> (MatchesFilter(t, f) <==> !t.completed)
    ensures f == Completed ==> (MatchesFilter(t, f) <==> t.completed)
  {
  }

  /** An empty query matches every task. */
  lemma EmptyQueryMatchesAll(t: Task)
    ensures MatchesSearch(t, "")
  {
    Text.IncludesEmpty(Text.Lower(t.title));
  }

  /** The search ignores the case of the query: queries that agree once
      lower-cased select the same tasks. */
  lemma SearchIgnoresCase(t: Task, q1: string, q2: string)
    requires Text.Lower(q1) == Text.Lower(q2)
    ensures MatchesSearch(t, q1) <==> MatchesSearch(t, q2)
  {
  }

  /** ... and it ignores the case of the title. */
  lemma SearchIgnoresTitleCase(t: Task, query: string)
    ensures MatchesSearch(t, query) <==> MatchesSearch(t.(title := Text.Lower(t.title)), query)
  {
    Text.LowerIdempotent(t.title);
  }

  // ---------------------------------------------------------------------
  // Ordering

  /** The sort comparator, sign for sign: open before completed, then the
      earlier due instant (an undated task counts as +infinity, and two
      undated tasks tie on it), then the newer `createdAt`. Negative means
      `a` is shown first. */
  function Compare(a: Task, b: Task): int {
    if a.completed != b.completed then (if a.completed then 1 else -1)
    else
      match (Due.SortInstant(a), Due.SortInstant(b))
      case (Some(x), Some(y)) => if x != y then x - y else b.createdAt - a.createdAt
      case (Some(_), None) => -1
      case (None, Some(_)) => 1
      case (None, None) => b.createdAt - a.createdAt
  }

  /** `x` is strictly earlier than `y`, where `None` is +infinity. */
  predicate EarlierDue(x: Option<int>, y: Option<int>) {
    match (x, y)
    case (Some(u), Some(v)) => u < v
    case (Some(_), None) => true
    case (None, _) => false
  }

  /** The three-key order, stated as a lexicographic comparison:
      completed flag, then due instant, then newest creation first. */
  predicate NotAfter(a: Task, b: Task) {
    || (!a.completed && b.completed)
    || (a.completed == b.completed
        && (|| EarlierDue(Due.SortInstant(a), Due.SortInstant(b))
            || (Due.SortInstant(a) == Due.SortInstant(b) && a.createdAt >= b.createdAt)))
  }

  /** The comparator agrees with the lexicographic three-key order. */
  lemma CompareMeansNotAfter(a: Task, b: Task)
    ensures Compare(a, b) <= 0 <==> NotAfter(a, b)
  {
  }

  /** The comparator is total ... */
  lemma CompareTotal(a: Task, b: Task)
    ensures Compare(a, b) <= 0 || Compare(b, a) <= 0
  {
    CompareMeansNotAfter(a, b);
    CompareMeansNotAfter(b, a);
  }

  /** ... and transitive, so it is a consistent comparator for `sort`. */
  lemma CompareTransitive(a: Task, b: Task, c: Task)
    requires Compare(a, b) <= 0 && Compare(b, c) <= 0
    ensures Compare(a, c) <= 0
  {
    CompareMeansNotAfter(a, b);
    CompareMeansNotAfter(b, c);
    CompareMeansNotAfter(a, c);
  }

  predicate Sorted(s: seq<Task>) {
    forall i, j :: 0 <= i < j < |s| ==> Compare(s[i], s[j]) <= 0
  }

  /** `t` placed before the first element it does not come after; ties keep
      `t` in front, which makes the sort below stable. */
  function Insert(t: Task, s: seq<Task>): (r: seq<Task>)
    requires Sorted(s)
    ensures Sorted(r)
    ensures multiset(r) == multiset(s) + multiset{t}
    decreases |s|
  {
    if |s| == 0 then [t]
    else if Compare(t, s[0]) <= 0 then
      SortedCons(t, s);
      [t] + s
    else
      assert Sorted(s[1..]) by {
        forall i, j | 0 <= i < j < |s| - 1
          ensures Compare(s[1..][i], s[1..][j]) <= 0
        {
          assert s[1..][i] == s[i + 1] && s[1..][j] == s[j + 1];
        }
      }
      var rest := Insert(t, s[1..]);
      CompareTotal(t, s[0]);
      HeadBeforeInsert(t, s, rest);
      [s[0]] + rest
  }

  /** A task that comes no later than the head of a sorted list comes no
      later than any of it. */
  lemma SortedCons(t: Task, s: seq<Task>)
    requires Sorted(s) && |s| > 0 && Compare(t, s[0]) <= 0
    ensures Sorted([t] + s)
  {
    var r := [t] + s;
    forall i, j | 0 <= i < j < |r|
      ensures Compare(r[i], r[j]) <= 0
    {
      if i == 0 && j > 1 {
        CompareTransitive(t, s[0], s[j - 1]);
      } else if i > 0 {
        assert r[i] == s[i - 1] && r[j] == s[j - 1];
      }
    }
  }

  /** The head of a sorted list that `t` comes after stays in front once `t`
      is inserted into the tail. */
  lemma HeadBeforeInsert(t: Task, s: seq<Task>, rest: seq<Task>)
    requires Sorted(s) && |s| > 0 && Compare(s[0], t) <= 0
    requires Sorted(rest) && multiset(rest) == multiset(s[1..]) + multiset{t}
    ensures Sorted([s[0]] + rest)
    ensures multiset([s[0]] + rest) == multiset(s) + multiset{t}
  {
    assert s == [s[0]] + s[1..];
    var r := [s[0]] + rest;
    forall i, j | 0 <= i < j < |r|
      ensures Compare(r[i], r[j]) <= 0
    {
      if i == 0 {
        var x := rest[j - 1];
        assert x in multiset(rest);
        if x != t {
          assert x in multiset(s[1..]);
          var k :| 0 <= k < |s[1..]| && s[1..][k] == x;
          assert s[k + 1] == x;
        }
      } else {
        assert r[i] == rest[i - 1] && r[j] == rest[j - 1];
      }
    }
  }

  /** The display order: a sorted permutation of its input. */
  function SortTasks(s: seq<Task>): (r: seq<Task>)
    ensures Sorted(r)
    ensures multiset(r) == multiset(s)
    decreases |s|
  {
    if |s| == 0 then []
    else
      assert s == [s[0]] + s[1..];
      Insert(s[0], SortTasks(s[1..]))
  }

  /** `filteredTasks`: the matching tasks, every copy of each, in display
      order. */
  function FilteredTasks(s: seq<Task>, f: TaskFilter, query: string): (r: seq<Task>)
    ensures Sorted(r)
    ensures forall t :: multiset(r)[t] == if Matches(t, f, query) then multiset(s)[t] else 0
    ensures forall t :: t in r <==> t in s && Matches(t, f, query)
  {
    var kept := Seqs.Filter(t => Matches(t, f, query), s);
    Seqs.FilterMultiset(t => Matches(t, f, query), s);
    var r := SortTasks(kept);
    assert forall t :: t in r <==> t in multiset(kept);
    r
  }

  /** What the three keys mean for the displayed list: every open task is
      shown before every completed one; within a status, dated tasks come
      before undated ones and in ascending due instant; tasks that tie on
      both come newest first. */
  lemma DisplayOrder(s: seq<Task>, f: TaskFilter, query: string)
    ensures var r := FilteredTasks(s, f, query);
      forall i, j :: 0 <= i < j < |r| ==> KeysInOrder(r[i], r[j])
  {
    var r := FilteredTasks(s, f, query);
    forall i, j | 0 <= i < j < |r|
      ensures KeysInOrder(r[i], r[j])
    {
      PairInOrder(r[i], r[j]);
    }
  }

  /** The three keys of a pair shown as `a` then `b`, one by one. */
  predicate KeysInOrder(a: Task, b: Task) {
    && !(a.completed && !b.completed)
    && (a.completed == b.completed && a.date.None? ==> b.date.None?)
    && (a.completed == b.completed && a.date.Some? && b.date.Some?
        ==> Due.SortInstant(a).value <= Due.SortInstant(b).value)
    && (a.completed == b.completed && Due.SortInstant(a) == Due.SortInstant(b)
        ==> a.createdAt >= b.createdAt)
  }

  lemma PairInOrder(a: Task, b: Task)
    requires Compare(a, b) <= 0
    ensures KeysInOrder(a, b)
  {
    CompareMeansNotAfter(a, b);
  }

  /** With filter `All` and an empty query the view shows every task. */
  lemma ShowAll(s: seq<Task>)
    ensures multiset(FilteredTasks(s, All, "")) == multiset(s)
  {
    var r := FilteredTasks(s, All, "");
    forall t
      ensures multiset(r)[t] == multiset(s)[t]
    {
      EmptyQueryMatchesAll(t);
    }
    assert multiset(r) == multiset(s);
  }

  // ---------------------------------------------------------------------
  // Dashboard

  datatype Dashboard = Dashboard(total: nat, active: nat, completed: nat, efficiency: nat)

  /** `Math.round(c / t * 100)`, or 0 when `t` is 0: the integer nearest to
      the percentage `100 * c / t`, halves rounded up. */
  function Percent(c: nat, t: nat): (r: nat)
    ensures t == 0 ==> r == 0
    ensures t > 0 ==> 2 * t * r <= 200 * c + t < 2 * t * r + 2 * t
    ensures c <= t ==> r <= 100
    ensures c == 0 ==> r == 0
    ensures 0 < c == t ==> r == 100
  {
    if t == 0 then 0
    else
      var r := (200 * c + t) / (2 * t);
      NearestPercent(c, t, r);
      PercentRange(c, t, r);
      r
  }

  /** Euclidean division by `2t` puts `200c + t` between the two multiples
      of `2t` around it. */
  lemma NearestPercent(c: nat, t: nat, r: nat)
    requires t > 0 && r == (200 * c + t) / (2 * t)
    ensures 2 * t * r <= 200 * c + t < 2 * t * r + 2 * t
  {
    var d := 2 * t;
    var m := (200 * c + t) % d;
    assert d * r + m == 200 * c + t;
    assert 2 * t * r == d * r;
  }

  /** `a * x <= a * y` for a positive `a` exactly when `x <= y`. */
  lemma ScaleOrder(a: int, x: int, y: int)
    requires a > 0
    ensures a * x <= a * y <==> x <= y
  {
    if x <= y {
      assert a * y - a * x == a * (y - x);
    } else {
      assert a * x - a * y == a * (x - y);
    }
  }

  /** The rounded percentage of a part of a whole lies in 0..100 and hits
      the endpoints for none and all. */
  lemma PercentRange(c: nat, t: nat, r: nat)
    requires t > 0 && 2 * t * r <= 200 * c + t < 2 * t * r + 2 * t
    ensures c <= t ==> r <= 100
    ensures c == 0 ==> r == 0
    ensures 0 < c == t ==> r == 100
  {
    var d := 2 * t;
    assert d * r <= 200 * c + t < d * r + d;
    if c <= t {
      PercentAtMost(d, r, 200 * c + t, 101);
    }
    if c == 0 {
      PercentAtMost(d, r, t, 1);
    }
    if 0 < c == t {
      PercentAtMost(d, r, 200 * c + t, 101);
      PercentAtLeast(d, r, 200 * c + t, 100);
    }
  }

  /** If `d * r <= n < d * k` then `r < k`. */
  lemma PercentAtMost(d: int, r: int, n: int, k: int)
    requires d > 0 && d * r <= n < d * k
    ensures r < k
  {
    ScaleOrder(d, k, r);
  }

  /** If `d * k <= n < d * r + d` then `k <= r`. */
  lemma PercentAtLeast(d: int, r: int, n: int, k: int)
    requires d > 0 && d * k <= n < d * r + d
    ensures k <= r
  {
    assert d * r + d == d * (r + 1);
    ScaleOrder(d, r + 1, k);
  }

  /** The four dashboard figures, counted over the whole collection,
      whatever the filter and the query. */
  function Stats(s: seq<Task>): (d: Dashboard)
    ensures d.total == |s|
    ensures d.completed == CompletedCount(s)
    ensures d.active == |Seqs.Filter(IsPending, s)|
    ensures d.active + d.completed == d.total
    ensures d.efficiency == Percent(d.completed, d.total)
    ensures d.efficiency <= 100
    ensures |s| == 0 ==> d.efficiency == 0
    ensures d.completed == 0 ==> d.efficiency == 0
    ensures 0 < d.completed == d.total ==> d.efficiency == 100
  {
    var total := |s|;
    var completed := CompletedCount(s);
    Seqs.FilterPartition(IsDone, IsPending, s);
    Dashboard(total, total - completed, completed, Percent(completed, total))
  }
}
