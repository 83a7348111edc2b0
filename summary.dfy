/** The winner tally over the collected runs: for each of pp512 and tg128,
    group the successful runs by model, find each model's best mean, and
    count every backend label within tolerance of it. */
module Summary {
  import opened Basics
  import opened Dicts
  import opened Extractor
  import Stats

  const ToleranceMultiplier: real := 1.0

  /** within_tolerance: the contender's mean is no lower than the best mean
      less the scaled std of the best; the contender's own std is not used. */
  predicate WithinTolerance(bestMean: real, bestStd: real, mean: real, std: real) {
    mean >= bestMean - ToleranceMultiplier * bestStd
  }

  /** Tolerance is monotone in the contender's mean, ignores the contender's
      std, and admits the best itself exactly when its std is non-negative. */
  lemma WithinToleranceSpec(bestMean: real, bestStd: real, mean: real, std: real, mean2: real, std2: real)
    ensures WithinTolerance(bestMean, bestStd, mean, std) && mean <= mean2 ==> WithinTolerance(bestMean, bestStd, mean2, std2)
    ensures WithinTolerance(bestMean, bestStd, bestMean, std) <==> bestStd >= 0.0
  {
  }

  // ---------------------------------------------------------------------------
  // Grouping into insertion-ordered lists

  /** `d[k].append(x)` on a defaultdict(list). */
  function Append<T>(d: Dict<string, seq<T>>, k: string, x: T): Dict<string, seq<T>> {
    Put(d, k, Get(d, k).GetOr([]) + [x])
  }

  /** The elements under key `k`, in order. */
  function Under<T>(xs: seq<T>, key: T -> string, k: string): (r: seq<T>)
    ensures |r| <= |xs|
    ensures forall x :: x in r ==> x in xs && key(x) == k
  {
    if xs == [] then []
    else
      var pre := xs[..|xs| - 1];
      var x := xs[|xs| - 1];
      assert forall y :: y in pre ==> y in xs;
      Under(pre, key, k) + (if key(x) == k then [x] else [])
  }

  /** The loop that appends each element to the list under its key. */
  function GroupBy<T>(xs: seq<T>, key: T -> string): Dict<string, seq<T>> {
    if xs == [] then []
    else Append(GroupBy(xs[..|xs| - 1], key), key(xs[|xs| - 1]), xs[|xs| - 1])
  }

  /** The keys are distinct. */
  lemma {:induction false} GroupByValid<T>(xs: seq<T>, key: T -> string)
    ensures ValidDict(GroupBy(xs, key))
  {
    if xs != [] {
      var pre := xs[..|xs| - 1];
      var x := xs[|xs| - 1];
      GroupByValid(pre, key);
      PutGet(GroupBy(pre, key), key(x), Get(GroupBy(pre, key), key(x)).GetOr([]) + [x], key(x));
    }
  }

  /** The keys are the keys of the elements. */
  lemma {:induction false} GroupByKeys<T>(xs: seq<T>, key: T -> string)
    ensures forall k :: k in Keys(GroupBy(xs, key)) <==> exists i :: 0 <= i < |xs| && key(xs[i]) == k
  {
    if xs != [] {
      var pre := xs[..|xs| - 1];
      var x := xs[|xs| - 1];
      var g := GroupBy(pre, key);
      GroupByKeys(pre, key);
      assert Keys(GroupBy(xs, key)) == if key(x) in Keys(g) then Keys(g) else Keys(g) + [key(x)];
      forall k | k in Keys(GroupBy(xs, key)) ensures exists i :: 0 <= i < |xs| && key(xs[i]) == k {
        if k != key(x) {
          assert k in Keys(g);
          var i :| 0 <= i < |pre| && key(pre[i]) == k;
          assert xs[i] == pre[i];
        }
      }
      forall k | exists i :: 0 <= i < |xs| && key(xs[i]) == k ensures k in Keys(GroupBy(xs, key)) {
        var i :| 0 <= i < |xs| && key(xs[i]) == k;
        if i < |pre| {
          assert pre[i] == xs[i];
        }
      }
    }
  }

  /** Some element has key `k`. */
  ghost predicate HasKey<T>(xs: seq<T>, key: T -> string, k: string) {
    exists i :: 0 <= i < |xs| && key(xs[i]) == k
  }

  lemma HasKeySnoc<T>(xs: seq<T>, key: T -> string, k: string)
    requires xs != []
    ensures HasKey(xs, key, k) <==> HasKey(xs[..|xs| - 1], key, k) || key(xs[|xs| - 1]) == k
  {
    var pre := xs[..|xs| - 1];
    if HasKey(pre, key, k) {
      var i :| 0 <= i < |pre| && key(pre[i]) == k;
      assert xs[i] == pre[i];
    }
    if HasKey(xs, key, k) && key(xs[|xs| - 1]) != k {
      var i :| 0 <= i < |xs| && key(xs[i]) == k;
      assert pre[i] == xs[i];
    }
  }

  /** Each key's list holds exactly the elements with that key, in order. */
  lemma {:induction false} GroupByList<T>(xs: seq<T>, key: T -> string, k: string)
    ensures Get(GroupBy(xs, key), k) == if HasKey(xs, key, k) then Some(Under(xs, key, k)) else None
  {
    if xs != [] {
      var pre := xs[..|xs| - 1];
      var x := xs[|xs| - 1];
      var g := GroupBy(pre, key);
      GroupByList(pre, key, k);
      GroupByValid(pre, key);
      HasKeySnoc(xs, key, k);
      var v := Get(g, key(x)).GetOr([]) + [x];
      PutGet(g, key(x), v, k);
      var r := Get(GroupBy(xs, key), k);
      if k != key(x) {
        assert r == Get(g, k);
        assert Under(xs, key, k) == Under(pre, key, k);
      } else if HasKey(pre, key, k) {
        assert r == Some(v);
        assert v == Under(pre, key, k) + [x];
      } else {
        assert r == Some(v);
        UnderNoKey(pre, key, k);
        assert v == [x];
        assert Under(xs, key, k) == [] + [x];
      }
    }
  }

  /** The keys are the distinct keys of the elements, each once, and each
      key's list holds exactly the elements with that key, in order. */
  lemma GroupBySpec<T>(xs: seq<T>, key: T -> string)
    ensures ValidDict(GroupBy(xs, key))
    ensures forall k :: k in Keys(GroupBy(xs, key)) <==> exists i :: 0 <= i < |xs| && key(xs[i]) == k
    ensures forall k :: k in Keys(GroupBy(xs, key)) ==> Get(GroupBy(xs, key), k) == Some(Under(xs, key, k))
  {
    GroupByValid(xs, key);
    GroupByKeys(xs, key);
    forall k | k in Keys(GroupBy(xs, key)) ensures Get(GroupBy(xs, key), k) == Some(Under(xs, key, k)) {
      GroupByList(xs, key, k);
      assert HasKey(xs, key, k);
    }
  }

  lemma {:induction false} UnderNoKey<T>(xs: seq<T>, key: T -> string, k: string)
    requires !HasKey(xs, key, k)
    ensures Under(xs, key, k) == []
  {
    if xs != [] {
      HasKeySnoc(xs, key, k);
      UnderNoKey(xs[..|xs| - 1], key, k);
    }
  }

  /** The lengths of all the lists. */
  function Sizes<T>(d: Dict<string, seq<T>>): nat {
    if d == [] then 0 else Sizes(d[..|d| - 1]) + |d[|d| - 1].1|
  }

  lemma {:induction false} SizesUpdate<T>(d: Dict<string, seq<T>>, i: nat, k: string, v: seq<T>)
    requires i < |d|
    ensures Sizes(d[i := (k, v)]) + |d[i].1| == Sizes(d) + |v|
  {
    if i < |d| - 1 {
      SizesUpdate(d[..|d| - 1], i, k, v);
      assert d[i := (k, v)][..|d| - 1] == d[..|d| - 1][i := (k, v)];
    } else {
      assert d[i := (k, v)][..|d| - 1] == d[..|d| - 1];
    }
  }

  /** Every element lands in exactly one list. */
  lemma {:induction false} GroupBySizes<T>(xs: seq<T>, key: T -> string)
    ensures Sizes(GroupBy(xs, key)) == |xs|
  {
    if xs != [] {
      var pre := xs[..|xs| - 1];
      var x := xs[|xs| - 1];
      var g := GroupBy(pre, key);
      GroupBySizes(pre, key);
      match Find(g, key(x))
      case None =>
        assert (g + [(key(x), [x])])[..|g|] == g;
      case Some(i) =>
        SizesUpdate(g, i, key(x), g[i].1 + [x]);
    }
  }

  /** A list in a grouping is never empty. */
  lemma {:induction false} GroupByNonEmpty<T>(xs: seq<T>, key: T -> string)
    ensures forall i :: 0 <= i < |GroupBy(xs, key)| ==> GroupBy(xs, key)[i].1 != []
  {
    if xs != [] {
      var pre := xs[..|xs| - 1];
      GroupByNonEmpty(pre, key);
    }
  }

  // ---------------------------------------------------------------------------
  // One model's winners

  function Label(r: Run): string {
    r.env + if r.fa then " (FA on)" else " (FA off)"
  }

  predicate Unmeasured(r: Run) {
    r.tpsMean.None?
  }

  function MeansOf(entries: seq<Run>): (r: seq<real>)
    requires forall i :: 0 <= i < |entries| ==> entries[i].tpsMean.Some?
    ensures |r| == |entries| && forall i :: 0 <= i < |entries| ==> r[i] == entries[i].tpsMean.value
  {
    seq(|entries|, i requires 0 <= i < |entries| => entries[i].tpsMean.value)
  }

  /** `max(entries, key=tps_mean)`: None when it raises, which it does on an
      empty list and, with two or more entries, when some mean is None. */
  function BestIndex(entries: seq<Run>): (r: Option<nat>)
    ensures r.None? <==> entries == [] || (|entries| >= 2 && exists i :: 0 <= i < |entries| && Unmeasured(entries[i]))
    ensures r.Some? ==> r.value < |entries|
    ensures r.Some? && |entries| >= 2 ==> forall i :: 0 <= i < |entries| ==> (entries[i].tpsMean.Some?
      && entries[i].tpsMean.value <= entries[r.value].tpsMean.value)
    ensures r.Some? && |entries| >= 2 ==> forall i :: 0 <= i < r.value ==> entries[i].tpsMean.value < entries[r.value].tpsMean.value
  {
    if entries == [] then None
    else if |entries| == 1 then Some(0)
    else if exists i :: 0 <= i < |entries| && Unmeasured(entries[i]) then None
    else
      var b := Stats.ArgMax(MeansOf(entries));
      assert forall i :: 0 <= i < |entries| ==> MeansOf(entries)[i] <= MeansOf(entries)[b];
      Some(b)
  }

  /** The labels the inner loop counts, in order: each measured entry within
      tolerance of the best. */
  function Counted(entries: seq<Run>, bestMean: real, bestStd: real): (r: seq<string>)
    ensures |r| <= |entries|
  {
    if entries == [] then []
    else
      var pre := Counted(entries[..|entries| - 1], bestMean, bestStd);
      var e := entries[|entries| - 1];
      if e.tpsMean.Some? && WithinTolerance(bestMean, bestStd, e.tpsMean.value, e.tpsStd.GetOr(0.0)) then pre + [Label(e)]
      else pre
  }

  /** A label is counted exactly when some measured entry with that label is
      within tolerance. */
  lemma {:induction false} CountedSpec(entries: seq<Run>, bestMean: real, bestStd: real)
    ensures forall l :: l in Counted(entries, bestMean, bestStd) <==> exists i :: (0 <= i < |entries| && Label(entries[i]) == l
      && entries[i].tpsMean.Some? && WithinTolerance(bestMean, bestStd, entries[i].tpsMean.value, 0.0))
  {
    if entries != [] {
      var pre := entries[..|entries| - 1];
      CountedSpec(pre, bestMean, bestStd);
      assert forall i :: 0 <= i < |pre| ==> pre[i] == entries[i];
    }
  }

  /** What one model adds to the tally; None when `max` raises. */
  function ModelWinners(entries: seq<Run>): Option<seq<string>> {
    match BestIndex(entries)
    case None => None
    case Some(b) =>
      if entries[b].tpsMean.None? then Some([])
      else Some(Counted(entries, entries[b].tpsMean.value, entries[b].tpsStd.GetOr(0.0)))
  }

  /** A model adds at most one count per entry, and its best entry is
      counted whenever its std is non-negative. */
  lemma ModelWinnersSpec(entries: seq<Run>)
    ensures ModelWinners(entries).Some? ==> |ModelWinners(entries).value| <= |entries|
    ensures ModelWinners(entries).Some? && entries[BestIndex(entries).value].tpsMean.Some?
      && entries[BestIndex(entries).value].tpsStd.GetOr(0.0) >= 0.0
      ==> Label(entries[BestIndex(entries).value]) in ModelWinners(entries).value
  {
    if ModelWinners(entries).Some? {
      var b := BestIndex(entries).value;
      if entries[b].tpsMean.Some? {
        CountedSpec(entries, entries[b].tpsMean.value, entries[b].tpsStd.GetOr(0.0));
        assert WithinTolerance(entries[b].tpsMean.value, entries[b].tpsStd.GetOr(0.0), entries[b].tpsMean.value, 0.0) <==>
          entries[b].tpsStd.GetOr(0.0) >= 0.0;
      }
    }
  }

  // ---------------------------------------------------------------------------
  // The tally

  /** `winners_count[label] += 1`. */
  function Bump(d: Dict<string, nat>, k: string): Dict<string, nat> {
    Put(d, k, Get(d, k).GetOr(0) + 1)
  }

  function BumpAll(d: Dict<string, nat>, labels: seq<string>): Dict<string, nat>
    decreases |labels|
  {
    if labels == [] then d else BumpAll(Bump(d, labels[0]), labels[1..])
  }

  /** The sum of the counts. */
  function Total(d: Dict<string, nat>): nat {
    if d == [] then 0 else Total(d[..|d| - 1]) + d[|d| - 1].1
  }

  lemma {:induction false} TotalUpdate(d: Dict<string, nat>, i: nat, k: string, v: nat)
    requires i < |d|
    ensures Total(d[i := (k, v)]) + d[i].1 == Total(d) + v
  {
    if i < |d| - 1 {
      TotalUpdate(d[..|d| - 1], i, k, v);
      assert d[i := (k, v)][..|d| - 1] == d[..|d| - 1][i := (k, v)];
    } else {
      assert d[i := (k, v)][..|d| - 1] == d[..|d| - 1];
    }
  }

  /** A bump adds one to the total. */
  lemma BumpTotal(d: Dict<string, nat>, k: string)
    ensures Total(Bump(d, k)) == Total(d) + 1
  {
    match Find(d, k)
    case None =>
      assert (d + [(k, 1)])[..|d|] == d;
    case Some(i) =>
      assert Get(d, k) == Some(d[i].1);
      TotalUpdate(d, i, k, d[i].1 + 1);
  }

  /** Each bump adds one to the total. */
  lemma {:induction false} BumpAllTotal(d: Dict<string, nat>, labels: seq<string>)
    ensures Total(BumpAll(d, labels)) == Total(d) + |labels|
    decreases |labels|
  {
    if labels != [] {
      BumpTotal(d, labels[0]);
      BumpAllTotal(Bump(d, labels[0]), labels[1..]);
    }
  }

  /** The counts after the loop over the models; None when `max` raises. */
  function TallyOf(models: Dict<string, seq<Run>>): Option<Dict<string, nat>> {
    if models == [] then Some([])
    else
      match TallyOf(models[..|models| - 1])
      case None => None
      case Some(c) =>
        match ModelWinners(models[|models| - 1].1)
        case None => None
        case Some(labels) => Some(BumpAll(c, labels))
  }

  /** The counts add up to at most the number of entries. */
  lemma {:induction false} TallyBound(models: Dict<string, seq<Run>>)
    requires TallyOf(models).Some?
    ensures Total(TallyOf(models).value) <= Sizes(models)
  {
    if models != [] {
      var pre := models[..|models| - 1];
      TallyBound(pre);
      ModelWinnersSpec(models[|models| - 1].1);
      BumpAllTotal(TallyOf(pre).value, ModelWinners(models[|models| - 1].1).value);
    }
  }

  datatype BenchSummary = BenchSummary(winners: Dict<string, nat>, totalModels: nat)

  function ModelKey(r: Run): string {
    r.modelClean
  }

  function TestKey(r: Run): string {
    r.test.GetOr("")
  }

  /** The summary of one test's runs; None when `max` raises. */
  function SummaryOf(results: seq<Run>): Option<BenchSummary> {
    var models := GroupBy(results, ModelKey);
    match TallyOf(models)
    case None => None
    case Some(c) => Some(BenchSummary(c, |models|))
  }

  /** `total_models` counts each distinct model once, and the winner counts
      add up to at most the number of runs. */
  lemma SummaryOfSpec(results: seq<Run>)
    requires SummaryOf(results).Some?
    ensures SummaryOf(results).value.totalModels == |Keys(GroupBy(results, ModelKey))|
    ensures Distinct(Keys(GroupBy(results, ModelKey)))
    ensures forall m :: m in Keys(GroupBy(results, ModelKey)) <==> exists i :: 0 <= i < |results| && results[i].modelClean == m
    ensures Total(SummaryOf(results).value.winners) <= |results|
  {
    GroupBySpec(results, ModelKey);
    GroupBySizes(results, ModelKey);
    TallyBound(GroupBy(results, ModelKey));
  }

  /** The runs the first loop keeps: successful pp512 and tg128 runs. */
  predicate Benchmarked(r: Run) {
    !r.error && r.test.Some? && (r.test.value == "pp512" || r.test.value == "tg128")
  }

  /** The elements that satisfy `keep`, in order. */
  function Filter<T>(xs: seq<T>, keep: T -> bool): (r: seq<T>)
    ensures forall x :: x in r ==> x in xs && keep(x)
    ensures forall i :: 0 <= i < |xs| && keep(xs[i]) ==> xs[i] in r
  {
    if xs == [] then []
    else
      var pre := xs[..|xs| - 1];
      assert forall i :: 0 <= i < |pre| ==> pre[i] == xs[i];
      Filter(pre, keep) + if keep(xs[|xs| - 1]) then [xs[|xs| - 1]] else []
  }

  function Kept(runs: seq<Run>): seq<Run> {
    Filter(runs, Benchmarked)
  }

  /** `benchmarks`: the kept runs by test. */
  function Benchmarks(runs: seq<Run>): Dict<string, seq<Run>> {
    GroupBy(Kept(runs), TestKey)
  }

  /** Only pp512 and tg128 are keys, and each holds exactly its successful runs. */
  lemma BenchmarksSpec(runs: seq<Run>)
    ensures forall t :: t in Keys(Benchmarks(runs)) ==> t == "pp512" || t == "tg128"
    ensures forall t :: t in Keys(Benchmarks(runs)) ==> Get(Benchmarks(runs), t) == Some(Under(Kept(runs), TestKey, t))
    ensures forall t, x :: t in Keys(Benchmarks(runs)) && x in Under(Kept(runs), TestKey, t) ==> Benchmarked(x) && x.test == Some(t)
  {
    GroupBySpec(Kept(runs), TestKey);
    forall t | t in Keys(Benchmarks(runs)) ensures t == "pp512" || t == "tg128" {
      var i :| 0 <= i < |Kept(runs)| && TestKey(Kept(runs)[i]) == t;
      assert Kept(runs)[i] in Kept(runs);
    }
  }

  /** The summary per test, in the order the tests first appear; None when `max` raises. */
  function SummarizeAll(bench: Dict<string, seq<Run>>): Option<Dict<string, BenchSummary>> {
    if bench == [] then Some([])
    else
      match SummarizeAll(bench[..|bench| - 1])
      case None => None
      case Some(d) =>
        match SummaryOf(bench[|bench| - 1].1)
        case None => None
        case Some(s) => Some(Put(d, bench[|bench| - 1].0, s))
  }

  // ---------------------------------------------------------------------------
  // The loops

  lemma GroupBySnoc<T>(xs: seq<T>, key: T -> string, i: nat)
    requires i < |xs|
    ensures GroupBy(xs[..i + 1], key) == Append(GroupBy(xs[..i], key), key(xs[i]), xs[i])
  {
    assert xs[..i + 1][..i] == xs[..i];
  }

  lemma FilterSnoc<T>(xs: seq<T>, keep: T -> bool, i: nat)
    requires i < |xs|
    ensures Filter(xs[..i + 1], keep) == Filter(xs[..i], keep) + if keep(xs[i]) then [xs[i]] else []
  {
    assert xs[..i + 1][..i] == xs[..i];
  }

  lemma GroupByAppend<T>(xs: seq<T>, x: T, key: T -> string)
    ensures GroupBy(xs + [x], key) == Append(GroupBy(xs, key), key(x), x)
  {
    assert (xs + [x])[..|xs|] == xs;
  }

  /** The loop that groups the successful pp512 and tg128 runs by test. */
  method GroupBenchmarks(runs: seq<Run>) returns (bench: Dict<string, seq<Run>>)
    ensures bench == Benchmarks(runs)
  {
    bench := [];
    var i := 0;
    while i < |runs|
      invariant i <= |runs|
      invariant bench == GroupBy(Filter(runs[..i], Benchmarked), TestKey)
    {
      FilterSnoc(runs, Benchmarked, i);
      var r := runs[i];
      if !r.error && r.test.Some? && (r.test.value == "pp512" || r.test.value == "tg128") {
        GroupByAppend(Filter(runs[..i], Benchmarked), r, TestKey);
        assert Filter(runs[..i + 1], Benchmarked) == Filter(runs[..i], Benchmarked) + [r];
        assert TestKey(r) == r.test.value;
        bench := Append(bench, r.test.value, r);
        assert bench == GroupBy(Filter(runs[..i + 1], Benchmarked), TestKey);
      } else {
        assert !Benchmarked(r);
        assert Filter(runs[..i + 1], Benchmarked) == Filter(runs[..i], Benchmarked);
      }
      i := i + 1;
    }
    assert runs[..i] == runs;
  }

  /** The loop that groups one test's runs by model. */
  method GroupModels(results: seq<Run>) returns (models: Dict<string, seq<Run>>)
    ensures models == GroupBy(results, ModelKey)
  {
    models := [];
    var i := 0;
    while i < |results|
      invariant i <= |results|
      invariant models == GroupBy(results[..i], ModelKey)
    {
      GroupBySnoc(results, ModelKey, i);
      models := Append(models, results[i].modelClean, results[i]);
      i := i + 1;
    }
    assert results[..i] == results;
  }

  lemma CountedSnoc(entries: seq<Run>, bestMean: real, bestStd: real, i: nat)
    requires i < |entries|
    ensures Counted(entries[..i + 1], bestMean, bestStd) == Counted(entries[..i], bestMean, bestStd)
      + if entries[i].tpsMean.Some? && WithinTolerance(bestMean, bestStd, entries[i].tpsMean.value, entries[i].tpsStd.GetOr(0.0))
        then [Label(entries[i])] else []
  {
    assert entries[..i + 1][..i] == entries[..i];
  }

  lemma {:induction false} BumpAllSnoc(d: Dict<string, nat>, labels: seq<string>, l: string)
    ensures BumpAll(d, labels + [l]) == Bump(BumpAll(d, labels), l)
    decreases |labels|
  {
    if labels != [] {
      assert (labels + [l])[1..] == labels[1..] + [l];
      BumpAllSnoc(Bump(d, labels[0]), labels[1..], l);
    }
  }

  /** The inner loop: count each measured entry within tolerance. */
  method CountWithin(counts: Dict<string, nat>, entries: seq<Run>, bestMean: real, bestStd: real)
    returns (r: Dict<string, nat>)
    ensures r == BumpAll(counts, Counted(entries, bestMean, bestStd))
  {
    r := counts;
    var i := 0;
    while i < |entries|
      invariant i <= |entries|
      invariant r == BumpAll(counts, Counted(entries[..i], bestMean, bestStd))
    {
      CountedSnoc(entries, bestMean, bestStd, i);
      var e := entries[i];
      if e.tpsMean.Some? && WithinTolerance(bestMean, bestStd, e.tpsMean.value, e.tpsStd.GetOr(0.0)) {
        BumpAllSnoc(counts, Counted(entries[..i], bestMean, bestStd), Label(e));
        assert Counted(entries[..i + 1], bestMean, bestStd) == Counted(entries[..i], bestMean, bestStd) + [Label(e)];
        r := Bump(r, Label(e));
        assert r == BumpAll(counts, Counted(entries[..i], bestMean, bestStd) + [Label(e)]);
      } else {
        assert Counted(entries[..i + 1], bestMean, bestStd) == Counted(entries[..i], bestMean, bestStd);
      }
      i := i + 1;
    }
    assert entries[..i] == entries;
  }

  lemma TallySnoc(models: Dict<string, seq<Run>>, i: nat)
    requires i < |models|
    ensures TallyOf(models[..i + 1]) == match TallyOf(models[..i])
      case None => None
      case Some(c) => (match ModelWinners(models[i].1) case None => None case Some(labels) => Some(BumpAll(c, labels)))
  {
    assert models[..i + 1][..i] == models[..i];
  }

  lemma {:induction false} TallyRaised(models: Dict<string, seq<Run>>, n: nat)
    requires n <= |models| && TallyOf(models[..n]).None?
    ensures TallyOf(models).None?
    decreases |models| - n
  {
    if n < |models| {
      TallySnoc(models, n);
      TallyRaised(models, n + 1);
    } else {
      assert models[..n] == models;
    }
  }

  /** The body of the loop over the tests: group by model, then for each
      model find the best entry and count the entries within tolerance. */
  method SummarizeBench(results: seq<Run>) returns (s: Option<BenchSummary>)
    ensures s == SummaryOf(results)
  {
    var models := GroupModels(results);
    var counts: Dict<string, nat> := [];
    var i := 0;
    while i < |models|
      invariant i <= |models|
      invariant TallyOf(models[..i]) == Some(counts)
    {
      TallySnoc(models, i);
      var entries := models[i].1;
      var best := BestIndex(entries);
      if best.None? {
        TallyRaised(models, i + 1);
        return None;
      }
      var bestEntry := entries[best.value];
      if bestEntry.tpsMean.Some? {
        counts := CountWithin(counts, entries, bestEntry.tpsMean.value, bestEntry.tpsStd.GetOr(0.0));
      }
      i := i + 1;
    }
    assert models[..i] == models;
    return Some(BenchSummary(counts, |models|));
  }

  lemma SummarizeSnoc(bench: Dict<string, seq<Run>>, i: nat)
    requires i < |bench|
    ensures SummarizeAll(bench[..i + 1]) == match SummarizeAll(bench[..i])
      case None => None
      case Some(d) => (match SummaryOf(bench[i].1) case None => None case Some(s) => Some(Put(d, bench[i].0, s)))
  {
    assert bench[..i + 1][..i] == bench[..i];
  }

  lemma {:induction false} SummarizeRaised(bench: Dict<string, seq<Run>>, n: nat)
    requires n <= |bench| && SummarizeAll(bench[..n]).None?
    ensures SummarizeAll(bench).None?
    decreases |bench| - n
  {
    if n < |bench| {
      SummarizeSnoc(bench, n);
      SummarizeRaised(bench, n + 1);
    } else {
      assert bench[..n] == bench;
    }
  }

  /** The script's computation: group, then summarise each test. */
  method Summarize(runs: seq<Run>) returns (summary: Option<Dict<string, BenchSummary>>)
    ensures summary == SummarizeAll(Benchmarks(runs))
  {
    var bench := GroupBenchmarks(runs);
    var d: Dict<string, BenchSummary> := [];
    var i := 0;
    while i < |bench|
      invariant i <= |bench|
      invariant SummarizeAll(bench[..i]) == Some(d)
    {
      SummarizeSnoc(bench, i);
      var s := SummarizeBench(bench[i].1);
      if s.None? {
        SummarizeRaised(bench, i + 1);
        return None;
      }
      d := Put(d, bench[i].0, s.value);
      i := i + 1;
    }
    assert bench[..i] == bench;
    return Some(d);
  }
}
