/** The assessment of a finished stage (`nearest_rank`, `summarize`, `assess`), and what it can
    still reject once `run_stage` has returned normally. */
module Assessment {
  import opened Common
  import opened Sorting
  import opened LoadStage

  // ---- nearest-rank percentiles ---------------------------------------------------------------------

  function AtMost(x: real, y: real): bool { x <= y }

  lemma AtMostIsTotal()
    ensures TotalPreorder(AtMost)
  {
  }

  /** ceil(percent / 100 * n), the rank of a percentile among `n` values. */
  function Rank(percent: nat, n: nat): (m: nat) {
    (percent * n + 99) / 100
  }

  /** The position that the source reads: max(0, rank - 1). */
  function Position(percent: nat, n: nat): (k: nat)
    requires percent <= 100 && n > 0
    ensures k < n && (if Rank(percent, n) == 0 then k == 0 else k == Rank(percent, n) - 1)
  {
    RankMonotone(percent, 100, n);
    if Rank(percent, n) == 0 then 0 else Rank(percent, n) - 1
  }

  /** `nearest_rank`; `None` where the source raises on an empty list. */
  function NearestRank(values: seq<real>, percent: nat): (r: Option<real>)
    requires percent <= 100
    ensures r.Some? <==> values != []
  {
    if values == [] then None else Some(Sort(values, AtMost)[Position(percent, |values|)])
  }

  lemma RankMonotone(p: nat, q: nat, n: nat)
    requires p <= q
    ensures Rank(p, n) <= Rank(q, n)
  {
    Product(p, q, n);
  }

  lemma Product(p: nat, q: nat, n: nat)
    requires p <= q
    ensures p * n <= q * n
  {
  }

  function UpTo(r: real): real -> bool { v => v <= r }

  function Under(r: real): real -> bool { v => v < r }

  /** `r` is a value such that at least `m` values lie at or below it and fewer than `m` below. */
  ghost predicate HasRank(values: seq<real>, r: real, m: nat) {
    r in values && Count(values, UpTo(r)) >= m && Count(values, Under(r)) < (if m == 0 then 1 else m)
  }

  lemma {:induction false} CountSortedPrefix(s: seq<real>, k: nat, p: real -> bool)
    requires k <= |s| && forall i :: 0 <= i < k ==> p(s[i])
    ensures Count(s, p) >= k
  {
    if k > 0 {
      CountSortedPrefix(s[1..], k - 1, p);
    }
  }

  lemma {:induction false} CountSortedSuffix(s: seq<real>, k: nat, p: real -> bool)
    requires k <= |s| && forall i :: k <= i < |s| ==> !p(s[i])
    ensures Count(s, p) <= k
  {
    if s != [] {
      CountSortedSuffix(s[1..], if k == 0 then 0 else k - 1, p);
    }
  }

  lemma SortedPosition(s: seq<real>, k: nat)
    requires Sorted(s, AtMost) && k < |s|
    ensures Count(s, UpTo(s[k])) >= k + 1 && Count(s, Under(s[k])) <= k
  {
    var below := UpTo(s[k]);
    var under := Under(s[k]);
    forall i | 0 <= i < k + 1 ensures below(s[i]) { if i < k { assert AtMost(s[i], s[k]); } }
    forall i | k <= i < |s| ensures !under(s[i]) { if k < i { assert AtMost(s[k], s[i]); } }
    CountSortedPrefix(s, k + 1, below);
    CountSortedSuffix(s, k, under);
  }

  /** The rank is the ceiling of percent / 100 * n. */
  lemma RankIsCeiling(percent: nat, n: nat)
    ensures percent * n <= 100 * Rank(percent, n) < percent * n + 100
  {
  }

  lemma SortedRank(values: seq<real>, percent: nat)
    requires values != [] && percent <= 100
    ensures HasRank(values, NearestRank(values, percent).value, Rank(percent, |values|))
  {
    hide Rank;
    var s, k := Sort(values, AtMost), Position(percent, |values|);
    var r := s[k];
    assert Sorted(s, AtMost) by {
      AtMostIsTotal();
      SortSorts(values, AtMost);
    }
    SortedPosition(s, k);
    CountSort(values, AtMost, UpTo(r));
    CountSort(values, AtMost, Under(r));
    assert r in values by { assert r in multiset(s); }
  }

  /** The nearest rank is a value such that at least the given share of the values are at or below it
      and less than that share strictly below; for no share at all it is the least value. */
  lemma NearestRankHasRank(values: seq<real>, percent: nat)
    requires values != [] && percent <= 100
    ensures var r := NearestRank(values, percent).value;
            && r in values && 100 * Count(values, UpTo(r)) >= percent * |values|
            && (if percent > 0 then 100 * Count(values,
                                                Under(r)) < percent * |values| else Count(values, Under(r)) == 0)
  {
    hide Rank, Count, NearestRank;
    SortedRank(values, percent);
    RankIsCeiling(percent, |values|);
    if percent > 0 { Product(1, percent, |values|); }
  }

  lemma {:induction false} CountMonotone(s: seq<real>, p: real -> bool, q: real -> bool)
    requires forall v :: p(v) ==> q(v)
    ensures Count(s, p) <= Count(s, q)
  {
    if s != [] { CountMonotone(s[1..], p, q); }
  }

  /** Having a rank determines the value, and a larger rank a value at least as large. */
  lemma RankDetermines(values: seq<real>, r: real, m: nat, r': real, m': nat)
    requires HasRank(values, r, m) && HasRank(values, r', m') && 0 < m <= m'
    ensures r <= r'
    ensures m == m' ==> r == r'
  {
    if r' < r {
      CountMonotone(values, UpTo(r'), Under(r));
      assert false;
    }
    if m == m' && r < r' {
      CountMonotone(values, UpTo(r), Under(r'));
      assert false;
    }
  }

  function Maximum(values: seq<real>): (m: real)
    requires values != []
    ensures m in values && forall v :: v in values ==> v <= m
  {
    if |values| == 1 then values[0]
    else
      var rest := Maximum(values[1..]);
      assert values == [values[0]] + values[1..];
      if values[0] > rest then values[0] else rest
  }

  /** The reported percentiles are ordered: median <= p95 <= p99 <= max. */
  lemma PercentilesOrdered(values: seq<real>)
    requires values != []
    ensures NearestRank(values, 50).value <= NearestRank(values, 95).value
    ensures NearestRank(values, 95).value <= NearestRank(values, 99).value
    ensures NearestRank(values, 99).value <= Maximum(values)
  {
    var n := |values|;
    SortedRank(values, 50);
    SortedRank(values, 95);
    SortedRank(values, 99);
    RankDetermines(values, NearestRank(values, 50).value, Rank(50, n), NearestRank(values, 95).value, Rank(95, n));
    RankDetermines(values, NearestRank(values, 95).value, Rank(95, n), NearestRank(values, 99).value, Rank(99, n));
  }

  /** What a group reports of its values: how many there are, the least one with half of them at or
      below it, the same for nineteen of twenty and for 99 of a hundred, and the greatest. */
  lemma GroupReports(values: seq<real>)
    requires values != []
    ensures var g, n := GroupOf(values), |values|;
            && g.correct == n && {g.median, g.p95, g.p99, g.max} <= set v | v in values
            && 2 * Count(values, UpTo(g.median)) >= n && 2 * Count(values, Under(g.median)) < n
            && 20 * Count(values, UpTo(g.p95)) >= 19 * n && 20 * Count(values, Under(g.p95)) < 19 * n
            && 100 * Count(values, UpTo(g.p99)) >= 99 * n && 100 * Count(values, Under(g.p99)) < 99 * n
            && forall v :: v in values ==> v <= g.max
  {
    hide NearestRank, Count;
    NearestRankHasRank(values, 50);
    NearestRankHasRank(values, 95);
    NearestRankHasRank(values, 99);
  }

  /** Every request of the schedule so far is counted once: attempted or unserved. */
  lemma {:induction false} TotalsAddUp(samples: seq<Sample>, responses: map<nat, Response>,
                                       admissions: map<nat, Admission>, rate: nat)
    requires rate > 0 && forall i :: 0 <= i < |samples| ==> ToldOne(samples[i], responses, admissions, rate)
    ensures Count(samples, IsAttempted()) + Count(samples, IsUnserved()) == |samples|
    ensures Count(samples, IsCorrect()) <= Count(samples, IsCompleted()) <= Count(samples, IsAttempted())
  {
    if samples != [] {
      assert ToldOne(samples[0], responses, admissions, rate);
      TotalsAddUp(samples[1..], responses, admissions, rate);
    }
  }

  // ---- summary and verdict ---------------------------------------------------------------------------

  datatype Group = Group(correct: nat, median: real, p95: real, p99: real, max: real)

  datatype Summary = Summary(planned: nat, scheduled: nat, attempted: nat, completed: nat, unserved: nat,
                             achievedRate: real, operations: map<string, Group>)

  datatype Verdict = Accepted(summary: Summary) | Incomplete | LimitFailed(operation: string)

  /** The latencies of the correct samples of one operation. */
  function Latencies(samples: seq<Sample>, name: string): seq<real> {
    if samples == [] then []
    else if samples[0].operation == name && samples[0].correct && samples[0].latency.Some?
    then [samples[0].latency.value] + Latencies(samples[1..], name)
    else Latencies(samples[1..], name)
  }

  function GroupOf(values: seq<real>): Group
    requires values != []
  {
    Group(|values|, NearestRank(values, 50).value, NearestRank(values, 95).value, NearestRank(values, 99).value,
          Maximum(values))
  }

  function Groups(samples: seq<Sample>, names: seq<string>): map<string, Group> {
    map name | name in names && Latencies(samples, name) != [] :: GroupOf(Latencies(samples, name))
  }

  function IsAttempted(): Sample -> bool { (s: Sample) => s.attempted }
  function IsCompleted(): Sample -> bool { (s: Sample) => s.completedAt.Some? }
  function IsUnserved(): Sample -> bool { (s: Sample) => s.error == Some("unserved") }
  function IsCorrect(): Sample -> bool { (s: Sample) => s.correct }

  function SummaryOf(samples: seq<Sample>, count: nat, duration: nat): Summary
    requires duration > 0
  {
    Summary(count, |samples|, Count(samples, IsAttempted()), Count(samples, IsCompleted()),
            Count(samples, IsUnserved()), Count(samples, IsCorrect()) as real / duration as real,
            Groups(samples, OPERATIONS))
  }

  /** `summarize`: one group for each operation that has a correct sample. */
  method Summarize(samples: seq<Sample>, count: nat, duration: nat) returns (result: Summary)
    requires duration > 0
    ensures result == SummaryOf(samples, count, duration)
  {
    hide Latencies, GroupOf;
    var operations: map<string, Group> := map[];
    var i := 0;
    while i < |OPERATIONS|
      invariant 0 <= i <= |OPERATIONS|
      invariant operations == Groups(samples, OPERATIONS[..i])
    {
      var values := Latencies(samples, OPERATIONS[i]);
      GroupsStep(samples, OPERATIONS, i);
      if values != [] {
        operations := operations[OPERATIONS[i] := GroupOf(values)];
      }
      i := i + 1;
    }
    assert OPERATIONS[..i] == OPERATIONS;
    return Summary(count, |samples|, Count(samples, IsAttempted()), Count(samples, IsCompleted()),
                   Count(samples, IsUnserved()), Count(samples, IsCorrect()) as real / duration as real, operations);
  }

  lemma GroupsStep(samples: seq<Sample>, names: seq<string>, i: nat)
    requires i < |names|
    ensures var values := Latencies(samples, names[i]);
            Groups(samples, names[..i + 1]) ==
            if values == [] then Groups(samples,
                                        names[..i]) else Groups(samples, names[..i])[names[i] := GroupOf(values)]
  {
    hide Latencies, GroupOf;
    assert names[..i + 1] == names[..i] + [names[i]];
  }

  function ByIndex(a: Sample, b: Sample): bool { a.index <= b.index }

  /** The structural half of `assess`: the schedule is complete, on time, and every request correct. */
  predicate Structured(samples: seq<Sample>, expected: nat, duration: nat)
    requires duration > 0
  {
    var ordered := Sort(samples, ByIndex);
    && |samples| == expected
    && (forall i :: 0 <= i < |ordered| ==> ordered[i].index == i)
    && (forall i :: 0 <= i < |ordered| ==> ordered[i].operation == OperationName(ordered[i].index))
    && (forall i :: 0 <= i < |ordered| ==>
          OnTime(ordered[i].scheduledAt, ordered[0].scheduledAt, ordered[i].index, expected, duration))
    && Count(samples, IsAttempted()) == expected
    && Count(samples, IsCompleted()) == expected
    && (forall i :: 0 <= i < |samples| ==> samples[i].correct)
  }

  /** Within ten milliseconds of `first + index / rate`. */
  predicate OnTime(at: real, first: real, index: nat, expected: nat, duration: nat)
    requires duration > 0 && expected > 0
  {
    -0.01 <= at - (first + index as real / (expected as real / duration as real)) <= 0.01
  }

  predicate WithinLimits(operations: map<string, Group>, name: string, expected: nat) {
    && name in operations
    && operations[name].correct == expected / |OPERATIONS|
    && operations[name].p95 <= 500.0 && operations[name].p99 <= 1000.0
  }

  function FirstFailing(operations: map<string, Group>, names: seq<string>, expected: nat): (r: Option<string>)
    ensures r.None? <==> forall i :: 0 <= i < |names| ==> WithinLimits(operations, names[i], expected)
  {
    if names == [] then None
    else if !WithinLimits(operations, names[0], expected) then Some(names[0])
    else FirstFailing(operations, names[1..], expected)
  }

  /** `assess`. */
  function Assess(samples: seq<Sample>, expected: nat, duration: nat): Verdict
    requires duration > 0
  {
    if !Structured(samples, expected, duration) then Incomplete
    else
      var summary := SummaryOf(samples, expected, duration);
      match FirstFailing(summary.operations, OPERATIONS, expected)
      case Some(name) => LimitFailed(name)
      case None => Accepted(summary)
  }

  // ---- what a normal return of the stage leaves to reject -----------------------------------------------

  ghost predicate DistinctIndices(s: seq<Sample>) {
    forall i, j :: 0 <= i < j < |s| ==> s[i].index != s[j].index
  }

  lemma ByIndexIsTotal()
    ensures TotalPreorder(ByIndex)
  {
  }

  /** Sorting an account by index lists the schedule in order. */
  lemma OrderedAccount(samples: seq<Sample>, n: nat)
    requires IsPrefix(Indices(samples), n)
    requires DistinctIndices(samples)
    ensures |samples| == n
    ensures var ordered := Sort(samples, ByIndex); forall i :: 0 <= i < n ==> ordered[i].index == i
  {
    var ordered := Sort(samples, ByIndex);
    ByIndexIsTotal();
    SortSorts(samples, ByIndex);
    SortKeepsDistinct(samples);
    SameIndices(samples, ordered);
    StrictlyIncreasing(ordered, n, 0);
  }

  lemma SameIndices(samples: seq<Sample>, ordered: seq<Sample>)
    requires multiset(samples) == multiset(ordered)
    ensures Indices(samples) == Indices(ordered)
  {
    assert forall s :: s in samples <==> s in multiset(samples);
    assert forall s :: s in ordered <==> s in multiset(ordered);
  }

  lemma SortKeepsDistinct(samples: seq<Sample>)
    requires DistinctIndices(samples)
    ensures DistinctIndices(Sort(samples, ByIndex))
  {
    var ordered := Sort(samples, ByIndex);
    forall i, j | 0 <= i < j < |ordered| ensures ordered[i].index != ordered[j].index {
      if ordered[i].index == ordered[j].index {
        CountIndexSorted(ordered, i, j);
        CountIndexDistinct(samples, ordered[i].index);
        CountSort(samples, ByIndex, HasIndex(ordered[i].index));
        assert false;
      }
    }
  }

  function HasIndex(k: nat): Sample -> bool { (s: Sample) => s.index == k }

  lemma {:induction false} CountIndexDistinct(samples: seq<Sample>, k: nat)
    requires DistinctIndices(samples)
    ensures Count(samples, HasIndex(k)) <= 1
  {
    if samples != [] {
      CountIndexDistinct(samples[1..], k);
      if samples[0].index == k {
        CountNone(samples[1..], k);
      }
    }
  }

  lemma {:induction false} CountNone(samples: seq<Sample>, k: nat)
    requires forall i :: 0 <= i < |samples| ==> samples[i].index != k
    ensures Count(samples, HasIndex(k)) == 0
  {
    if samples != [] { CountNone(samples[1..], k); }
  }

  lemma CountIndexSorted(s: seq<Sample>, i: nat, j: nat)
    requires i < j < |s| && s[i].index == s[j].index
    ensures Count(s, HasIndex(s[i].index)) >= 2
  {
    var p := HasIndex(s[i].index);
    assert s == s[..j] + s[j..];
    assert s[..j] == s[..i] + s[i..j];
    CountAppend(s[..j], s[j..], p);
    CountAppend(s[..i], s[i..j], p);
    assert s[j..][0] == s[j] && s[i..j][0] == s[i];
  }

  lemma {:induction false} StrictlyIncreasing(ordered: seq<Sample>, n: nat, k: nat)
    requires Sorted(ordered, ByIndex) && IsPrefix(Indices(ordered), n) && k <= |ordered| && k <= n
    requires DistinctIndices(ordered)
    requires forall i :: 0 <= i < k ==> ordered[i].index == i
    ensures |ordered| == n && forall i :: 0 <= i < n ==> ordered[i].index == i
    decreases |ordered| - k
  {
    if k < n {
      assert k in Indices(ordered);
      var s :| s in ordered && s.index == k;
      var p :| 0 <= p < |ordered| && ordered[p] == s;
      assert ordered[k] in ordered;
      assert ByIndex(ordered[k], ordered[p]);
      if k > 0 { assert ByIndex(ordered[k - 1], ordered[k]); }
      StrictlyIncreasing(ordered, n, k + 1);
    } else {
      NotLonger(ordered, n, k);
    }
  }

  lemma NotLonger(ordered: seq<Sample>, n: nat, k: nat)
    requires Sorted(ordered, ByIndex) && IsPrefix(Indices(ordered), n) && DistinctIndices(ordered)
    requires k <= |ordered| && forall i :: 0 <= i < k ==> ordered[i].index == i
    ensures k < |ordered| ==> k < n
  {
    if k < |ordered| {
      IndexBelow(ordered, n, k);
      if k > 0 { assert ByIndex(ordered[k - 1], ordered[k]); }
    }
  }

  lemma IndexBelow(samples: seq<Sample>, n: nat, k: nat)
    requires IsPrefix(Indices(samples), n) && k < |samples|
    ensures samples[k].index < n
  {
    assert samples[k] in samples;
    assert samples[k].index in Indices(samples);
  }

  // operations are dealt round robin, so a multiple of five arrivals gives each the same number

  lemma OperationsDistinct(i: nat, j: nat)
    requires j < |OPERATIONS|
    ensures OperationName(i) == OPERATIONS[j] <==> i % |OPERATIONS| == j
  {
    assert OPERATIONS[0][0] == 'l' && OPERATIONS[1][0] == 'C' && OPERATIONS[2][0] == 'F'
        && OPERATIONS[3][0] == 'H' && OPERATIONS[4][0] == 'T';
  }

  function OfOperation(name: string): Sample -> bool { (s: Sample) => s.operation == name }

  function LatencyOf(name: string, p: real -> bool): Sample -> bool {
    (s: Sample) => s.operation == name && s.correct && s.latency.Some? && p(s.latency.value)
  }

  /** The latencies of an operation are those of its correct samples, each as often as it occurs. */
  lemma {:induction false} LatenciesAreTheCorrectOnes(samples: seq<Sample>, name: string, p: real -> bool)
    ensures Count(Latencies(samples, name), p) == Count(samples, LatencyOf(name, p))
  {
    if samples != [] {
      LatenciesAreTheCorrectOnes(samples[1..], name, p);
      var rest := Latencies(samples[1..], name);
      if samples[0].operation == name && samples[0].correct && samples[0].latency.Some? {
        assert ([samples[0].latency.value] + rest)[1..] == rest;
      }
    }
  }

  lemma {:induction false} LatenciesCount(samples: seq<Sample>, name: string)
    requires forall i :: 0 <= i < |samples| ==> samples[i].correct && samples[i].latency.Some?
    ensures |Latencies(samples, name)| == Count(samples, OfOperation(name))
  {
    if samples != [] { LatenciesCount(samples[1..], name); }
  }

  lemma {:induction false} CountResidue(ordered: seq<Sample>, j: nat)
    requires j < |OPERATIONS|
    requires forall i :: 0 <= i < |ordered| ==> ordered[i].operation == OperationName(i)
    ensures Count(ordered, OfOperation(OPERATIONS[j])) == (|ordered| + 4 - j) / 5
  {
    hide OperationName;
    if ordered != [] {
      var k := |ordered| - 1;
      var p := OfOperation(OPERATIONS[j]);
      CountResidue(ordered[..k], j);
      assert ordered == ordered[..k] + [ordered[k]];
      CountAppend(ordered[..k], [ordered[k]], p);
      OperationsDistinct(k, j);
    }
  }

  /** In the order of their indices, the samples of an account are the schedule. */
  lemma OrderedSchedule(samples: seq<Sample>, n: nat, stage: string, start: real, rate: nat)
    requires rate > 0 && Covers(samples, n, stage, start, rate)
    ensures var ordered := Sort(samples, ByIndex);
            |samples| == n && forall i :: 0 <= i < n ==>
              && ordered[i].index == i && ordered[i].operation == OperationName(i)
              && ordered[i].scheduledAt == Due(start, rate, i)
  {
    hide Due, OperationName;
    var ordered := Sort(samples, ByIndex);
    OrderedAccount(samples, n);
    forall i | 0 <= i < n ensures OnSchedule(ordered[i], stage, start, rate) {
      assert ordered[i] in multiset(samples);
    }
  }

  /** How many of the first `n` arrivals are of each operation. */
  lemma AccountPerOperation(samples: seq<Sample>, n: nat, stage: string, start: real, rate: nat, j: nat)
    requires rate > 0 && Covers(samples, n, stage, start, rate) && j < |OPERATIONS| && ServedAll(samples)
    ensures |samples| == n && |Latencies(samples, OPERATIONS[j])| == (n + 4 - j) / 5
  {
    hide Sort, Latencies, Count, Covers, Due;
    OrderedSchedule(samples, n, stage, start, rate);
    CountResidue(Sort(samples, ByIndex), j);
    CountSort(samples, ByIndex, OfOperation(OPERATIONS[j]));
    LatenciesCount(samples, OPERATIONS[j]);
  }

  lemma RateRecovered(seconds: nat, rate: nat)
    requires seconds > 0
    ensures (seconds * rate) as real / seconds as real == rate as real
  {
    assert (seconds * rate) as real == seconds as real * rate as real;
  }

  /** Everything structural holds of a stage that returned normally. */
  lemma NormalReturnIsStructured(samples: seq<Sample>, seconds: nat, rate: nat, stage: string, start: real)
    requires seconds > 0 && rate > 0 && Covers(samples, seconds * rate, stage, start, rate)
    requires ServedAll(samples)
    ensures Structured(samples, seconds * rate, seconds)
  {
    hide Sort, Count, Covers;
    var n, ordered := seconds * rate, Sort(samples, ByIndex);
    OrderedSchedule(samples, n, stage, start, rate);
    RateRecovered(seconds, rate);
    CountAll(samples, IsAttempted());
    CountAll(samples, IsCompleted());
    forall i | 0 <= i < n ensures OnTime(ordered[i].scheduledAt, ordered[0].scheduledAt, i, n, seconds) {
      assert ordered[0].scheduledAt == Due(start, rate, 0) == start;
    }
  }

  /** The latency limits, for every operation. */
  ghost predicate FastEnough(samples: seq<Sample>) {
    forall j :: 0 <= j < |OPERATIONS| ==>
      var values := Latencies(samples, OPERATIONS[j]);
      values != [] && NearestRank(values, 95).value <= 500.0 && NearestRank(values, 99).value <= 1000.0
  }

  /** Every arrival of the schedule has exactly one sample: of its operation, due when it should be, and
      served. */
  ghost predicate CompleteSchedule(samples: seq<Sample>, expected: nat, duration: nat)
    requires duration > 0
  {
    && IsPrefix(Indices(samples), expected) && DistinctIndices(samples)
    && (forall s :: s in samples ==>
          s.operation == OPERATIONS[s.index % 5] && s.attempted && s.completedAt.Some? && s.correct)
    && forall s, first :: s in samples && first in samples && first.index == 0 ==>
         -0.01 <= s.scheduledAt - first.scheduledAt - Offset(s.index, expected, duration) <= 0.01
  }

  /** How long after the first request a request is due. */
  function Offset(index: nat, expected: nat, duration: nat): real {
    if expected == 0 then 0.0 else (index * duration) as real / expected as real
  }

  lemma OffsetIsPeriods(index: nat, expected: nat, duration: nat)
    requires expected > 0 && duration > 0
    ensures index as real / (expected as real / duration as real) == Offset(index, expected, duration)
  {
    var i, e, d := index as real, expected as real, duration as real;
    assert (index * duration) as real == i * d;
    var q := e / d;
    assert q * d == e;
    assert i * d == (i / q) * (q * d);
  }

  /** The structural half of `assess` accepts exactly the complete schedules. */
  lemma StructuredExact(samples: seq<Sample>, expected: nat, duration: nat)
    requires duration > 0
    ensures Structured(samples, expected, duration) <==> CompleteSchedule(samples, expected, duration)
  {
    hide *;
    if CompleteSchedule(samples, expected, duration) { CompleteIsStructured(samples, expected, duration); }
    if Structured(samples, expected, duration) { StructuredIsComplete(samples, expected, duration); }
  }

  lemma SortedMembers(samples: seq<Sample>)
    ensures var ordered := Sort(samples, ByIndex);
            |ordered| == |samples| && forall s :: s in ordered <==> s in samples
  {
    hide Sort;
    var ordered := Sort(samples, ByIndex);
    assert |multiset(ordered)| == |multiset(samples)|;
    assert forall s :: s in ordered <==> s in multiset(ordered);
    assert forall s :: s in samples <==> s in multiset(samples);
  }

  lemma CompleteIsStructured(samples: seq<Sample>, expected: nat, duration: nat)
    requires duration > 0 && CompleteSchedule(samples, expected, duration)
    ensures Structured(samples, expected, duration)
  {
    hide Sort, Count, IsPrefix, Indices, DistinctIndices;
    var ordered := Sort(samples, ByIndex);
    SortedMembers(samples);
    OrderedAccount(samples, expected);
    CountAll(samples, IsAttempted());
    CountAll(samples, IsCompleted());
    forall i | 0 <= i < expected
      ensures ordered[i].operation == OperationName(i)
      ensures OnTime(ordered[i].scheduledAt, ordered[0].scheduledAt, i, expected, duration)
    {
      assert ordered[i] in samples && ordered[0] in samples;
      OffsetIsPeriods(i, expected, duration);
    }
  }

  lemma StructuredIsComplete(samples: seq<Sample>, expected: nat, duration: nat)
    requires duration > 0 && Structured(samples, expected, duration)
    ensures CompleteSchedule(samples, expected, duration)
  {
    hide Sort, Count, IsPrefix, Indices, DistinctIndices;
    var ordered := Sort(samples, ByIndex);
    SortedMembers(samples);
    OrderedMeansPrefix(samples, ordered, expected);
    CountAll(samples, IsAttempted());
    CountAll(samples, IsCompleted());
    forall s, first | s in samples && first in samples && first.index == 0
      ensures s.operation == OPERATIONS[s.index % 5] && s.attempted && s.completedAt.Some? && s.correct
      ensures -0.01 <= s.scheduledAt - first.scheduledAt - Offset(s.index, expected, duration) <= 0.01
    {
      var i :| 0 <= i < |ordered| && ordered[i] == s;
      var j :| 0 <= j < |ordered| && ordered[j] == first;
      OffsetIsPeriods(i, expected, duration);
    }
    forall s | s in samples ensures s.operation == OPERATIONS[s.index % 5] {
      var i :| 0 <= i < |ordered| && ordered[i] == s;
    }
  }

  lemma OrderedMeansPrefix(samples: seq<Sample>, ordered: seq<Sample>, n: nat)
    requires multiset(ordered) == multiset(samples) && |ordered| == n
    requires forall i :: 0 <= i < n ==> ordered[i].index == i
    ensures IsPrefix(Indices(samples), n) && DistinctIndices(samples)
  {
    SameIndices(samples, ordered);
    forall i: nat | i < n ensures i in Indices(ordered) { assert ordered[i] in ordered; }
    forall i, j | 0 <= i < j < |samples| ensures samples[i].index != samples[j].index {
      if samples[i].index == samples[j].index {
        assert DistinctIndices(ordered);
        CountIndexSorted(samples, i, j);
        CountIndexDistinct(ordered, samples[i].index);
        SameCounts(samples, ordered, HasIndex(samples[i].index));
        assert false;
      }
    }
  }

  lemma {:induction false} SameCounts(s: seq<Sample>, t: seq<Sample>, p: Sample -> bool)
    requires multiset(s) == multiset(t)
    ensures Count(s, p) == Count(t, p)
  {
    if s == [] {
      assert |t| == |multiset(t)| == 0;
    } else {
      assert s[0] in multiset(t);
      var j :| 0 <= j < |t| && t[j] == s[0];
      DropSame(s, t, j);
      SameCounts(s[1..], Without(t, j), p);
      CountWithout(t, j, p);
    }
  }

  lemma CountWithout(t: seq<Sample>, j: nat, p: Sample -> bool)
    requires j < |t|
    ensures Count(t, p) == Count(Without(t, j), p) + if p(t[j]) then 1 else 0
  {
    hide *;
    WithoutParts(t, j);
    CountParts(t[..j], t[j], t[j + 1..], p);
  }

  lemma WithoutParts(t: seq<Sample>, j: nat)
    requires j < |t|
    ensures Without(t, j) == t[..j] + t[j + 1..]
    ensures t == t[..j] + [t[j]] + t[j + 1..]
  {
  }

  lemma CountParts(front: seq<Sample>, x: Sample, back: seq<Sample>, p: Sample -> bool)
    ensures Count(front + [x] + back, p) == Count(front + back, p) + if p(x) then 1 else 0
  {
    hide Count;
    CountAppend(front + [x], back, p);
    CountAppend(front, [x], p);
    CountAppend(front, back, p);
    CountSingle(x, p);
  }

  lemma CountSingle(x: Sample, p: Sample -> bool)
    ensures Count([x], p) == if p(x) then 1 else 0
  {
  }

  /** `assess` accepts exactly the complete schedules in which every operation has its fifth of the
      requests, with the 95th and 99th percentile of its latencies within half a second and a second. */
  lemma AssessExact(samples: seq<Sample>, expected: nat, duration: nat)
    requires duration > 0
    ensures Assess(samples, expected, duration).Accepted? <==>
              && CompleteSchedule(samples, expected, duration) && FastEnough(samples)
              && forall j :: 0 <= j < |OPERATIONS| ==> |Latencies(samples, OPERATIONS[j])| == expected / 5
    ensures Assess(samples, expected, duration).Incomplete? <==> !CompleteSchedule(samples, expected, duration)
  {
    hide Structured, CompleteSchedule, Latencies, NearestRank, Maximum;
    StructuredExact(samples, expected, duration);
    var operations := Groups(samples, OPERATIONS);
    forall j | 0 <= j < |OPERATIONS|
      ensures WithinLimits(operations, OPERATIONS[j], expected) <==>
                var values := Latencies(samples, OPERATIONS[j]);
                && values != [] && |values| == expected / 5
                && NearestRank(values, 95).value <= 500.0 && NearestRank(values, 99).value <= 1000.0
    {
    }
  }

  /** `assess` after a normal return of `run_stage` rejects on latency only, provided that the
      operations divide the count; otherwise it rejects whatever the latencies were. */
  lemma AssessAfterNormalReturn(samples: seq<Sample>, seconds: nat, rate: nat, stage: string, start: real)
    requires seconds > 0 && rate > 0 && Covers(samples, seconds * rate, stage, start, rate)
    requires ServedAll(samples)
    ensures !Assess(samples, seconds * rate, seconds).Incomplete?
    ensures Assess(samples, seconds * rate, seconds).Accepted? <==>
              (seconds * rate) % |OPERATIONS| == 0 && FastEnough(samples)
  {
    hide Sort, Count, Latencies, NearestRank, Maximum, Structured, Covers, ServedAll;
    var n := seconds * rate;
    NormalReturnIsStructured(samples, seconds, rate, stage, start);
    var operations := Groups(samples, OPERATIONS);
    forall j | 0 <= j < |OPERATIONS|
      ensures |Latencies(samples, OPERATIONS[j])| == (n + 4 - j) / 5
      ensures WithinLimits(operations, OPERATIONS[j], n) <==>
                var values := Latencies(samples, OPERATIONS[j]);
                && values != [] && |values| == n / 5
                && NearestRank(values, 95).value <= 500.0 && NearestRank(values, 99).value <= 1000.0
    {
      AccountPerOperation(samples, n, stage, start, rate, j);
    }
    assert n % 5 != 0 ==> |Latencies(samples, OPERATIONS[0])| != n / 5;
  }

  /** A measured stage followed by its assessment: nothing but latency, or a count that the
      operations do not divide, can be held against a stage that returned normally. */
  method RunAndAssess(stage: Stage, seconds: nat, patience: nat) returns (exit: StageExit, verdict: Verdict)
    requires stage.inFlight == map[] && stage.samples == [] && stage.futures == 0
    requires stage.responses == map[] && stage.admissions == map[]
    requires seconds > 0 && stage.rate > 0
    modifies stage
    ensures verdict == Assess(stage.samples, seconds * stage.rate, seconds)
    ensures exit == Completed ==>
              && !verdict.Incomplete?
              && (verdict.Accepted? <==> (seconds * stage.rate) % |OPERATIONS| == 0 && FastEnough(stage.samples))
  {
    hide Structured, Covers, ServedAll, FastEnough, Assess;
    exit := stage.Run(seconds, patience);
    verdict := Assess(stage.samples, seconds * stage.rate, seconds);
    if exit == Completed {
      AssessAfterNormalReturn(stage.samples, seconds, stage.rate, stage.name, stage.start);
    }
  }
}
