/** Margin-aware placements: for every (model, quant) pair the environments
    are ranked 1..3 by their median throughput, and environments whose
    intervals [median - margin, median + margin] overlap the leader of a
    round share its rank. */
module Ranking {
  import opened Basics
  import opened Dicts
  import opened Stats
  import opened Extractor

  /** The keys of ENV_LABEL, in their declaration order. */
  const EnvLabelKeys: seq<string> := [
    "rocm7_rc-rocwmma", "rocm7_rc", "rocm7_rc-hblt0", "rocm7_rc-rocwmma-hblt0",
    "rocm6_4_4", "rocm6_4_4-hblt0", "rocm6_4_4-rocwmma", "rocm6_4_4-rocwmma-hblt0",
    "vulkan_amdvlk", "vulkan_radv"]

  /** The environments some record names (an empty name does not count). */
  function PresentEnvs(runs: seq<Run>): set<string> {
    set r | r in runs && r.env != "" :: r.env
  }

  /** The labelled environments kept by envs_present, in label order; an empty
      `onlyEnv` stands for an absent option. */
  function KeepEnvs(keys: seq<string>, present: set<string>, onlyEnv: seq<string>, includeAll: bool): (r: seq<string>)
    ensures forall e :: e in r <==> e in keys && (includeAll || e in present) && (onlyEnv == [] || e in onlyEnv)
    ensures |r| <= |keys|
  {
    if keys == [] then []
    else
      var e := keys[|keys| - 1];
      var rest := KeepEnvs(keys[..|keys| - 1], present, onlyEnv, includeAll);
      assert keys == keys[..|keys| - 1] + [e];
      if (includeAll || e in present) && (onlyEnv == [] || e in onlyEnv) then rest + [e] else rest
  }

  /** envs_present. */
  function EnvsPresent(runs: seq<Run>, onlyEnv: seq<string>, includeAll: bool): (r: seq<string>)
    ensures forall e :: e in r <==> e in EnvLabelKeys && (includeAll || e in PresentEnvs(runs)) && (onlyEnv == [] || e in onlyEnv)
  {
    KeepEnvs(EnvLabelKeys, PresentEnvs(runs), onlyEnv, includeAll)
  }

  /** The environments envs_present lists come in label order without repeats. */
  lemma {:induction false} KeepEnvsOrdered(keys: seq<string>, present: set<string>, onlyEnv: seq<string>, includeAll: bool)
    requires Distinct(keys)
    ensures Distinct(KeepEnvs(keys, present, onlyEnv, includeAll))
  {
    if keys != [] {
      var p := keys[..|keys| - 1];
      assert Distinct(p) by {
        forall i, j | 0 <= i < j < |p| ensures p[i] != p[j] {
          assert p[i] == keys[i] && p[j] == keys[j];
        }
      }
      KeepEnvsOrdered(p, present, onlyEnv, includeAll);
      assert keys[|keys| - 1] !in p;
    }
  }

  // ---------------------------------------------------------------------------
  // --fa

  datatype FaChoice = Filter(fa: Option<bool>) | ValueError

  /** fa_to_filter: "on", "off" or "any", case-insensitive, around blanks. */
  function FaToFilter(fa: string): (r: FaChoice)
    ensures r == Filter(Some(true)) <==> Strip(Lower(fa)) == "on"
    ensures r == Filter(Some(false)) <==> Strip(Lower(fa)) == "off"
    ensures r == Filter(None) <==> Strip(Lower(fa)) == "any"
    ensures r == ValueError <==> Strip(Lower(fa)) !in {"on", "off", "any"}
  {
    var f := Strip(Lower(fa));
    if f == "on" then Filter(Some(true))
    else if f == "off" then Filter(Some(false))
    else if f == "any" then Filter(None)
    else ValueError
  }

  // ---------------------------------------------------------------------------
  // Grouping

  datatype Key = Key(model: string, quant: Option<string>)

  function KeyOf(r: Run): Key { Key(r.modelClean, r.quant) }

  /** The records margin_aware_placements keeps. */
  predicate Eligible(r: Run, envs: seq<string>, test: string, faFilter: Option<bool>) {
    !r.error && r.test == Some(test) && (faFilter.None? || r.fa == faFilter.value) && r.env in envs
  }

  /** `grouped`: eligible records by (model, quant), keys in first-seen order. */
  function GroupRuns(runs: seq<Run>, envs: seq<string>, test: string, faFilter: Option<bool>): Dict<Key, seq<Run>> {
    if runs == [] then []
    else
      var d := GroupRuns(runs[..|runs| - 1], envs, test, faFilter);
      var r := runs[|runs| - 1];
      if !Eligible(r, envs, test, faFilter) then d
      else Put(d, KeyOf(r), Get(d, KeyOf(r)).GetOr([]) + [r])
  }

  /** Every record of `rs` is eligible and has the key `k`. */
  predicate Holds(rs: seq<Run>, k: Key, envs: seq<string>, test: string, faFilter: Option<bool>) {
    forall j :: 0 <= j < |rs| ==> Eligible(rs[j], envs, test, faFilter) && KeyOf(rs[j]) == k
  }

  /** Every record of `g` is eligible and sits under its own key. */
  predicate GroupsHold(g: Dict<Key, seq<Run>>, envs: seq<string>, test: string, faFilter: Option<bool>) {
    forall i :: 0 <= i < |g| ==> Holds(g[i].1, g[i].0, envs, test, faFilter)
  }

  /** Every grouped record is eligible and sits under its own key, and no
      key is repeated. */
  lemma {:induction false} GroupedEligible(runs: seq<Run>, envs: seq<string>, test: string, faFilter: Option<bool>)
    ensures ValidDict(GroupRuns(runs, envs, test, faFilter))
    ensures GroupsHold(GroupRuns(runs, envs, test, faFilter), envs, test, faFilter)
  {
    if runs != [] {
      var p := runs[..|runs| - 1];
      GroupedEligible(p, envs, test, faFilter);
      var d := GroupRuns(p, envs, test, faFilter);
      var r := runs[|runs| - 1];
      if Eligible(r, envs, test, faFilter) {
        GroupStep(d, r, envs, test, faFilter);
      }
    }
  }

  /** The records already grouped under a key all hold for it. */
  lemma GroupAt(d: Dict<Key, seq<Run>>, k: Key, envs: seq<string>, test: string, faFilter: Option<bool>)
    requires GroupsHold(d, envs, test, faFilter)
    ensures Holds(Get(d, k).GetOr([]), k, envs, test, faFilter)
  {
    match Find(d, k)
    case None =>
    case Some(i) => assert Get(d, k).GetOr([]) == d[i].1 && d[i].0 == k;
  }

  lemma GroupStep(d: Dict<Key, seq<Run>>, r: Run, envs: seq<string>, test: string, faFilter: Option<bool>)
    requires ValidDict(d) && GroupsHold(d, envs, test, faFilter) && Eligible(r, envs, test, faFilter)
    ensures var g := Put(d, KeyOf(r), Get(d, KeyOf(r)).GetOr([]) + [r]);
      ValidDict(g) && GroupsHold(g, envs, test, faFilter)
  {
    var k := KeyOf(r);
    var v := Get(d, k).GetOr([]);
    GroupAt(d, k, envs, test, faFilter);
    assert Holds(v + [r], k, envs, test, faFilter);
    PutHolds(d, k, v + [r], envs, test, faFilter);
  }

  /** Storing records that hold for their key keeps every group holding. */
  lemma PutHolds(d: Dict<Key, seq<Run>>, k: Key, w: seq<Run>, envs: seq<string>, test: string, faFilter: Option<bool>)
    requires ValidDict(d) && GroupsHold(d, envs, test, faFilter) && Holds(w, k, envs, test, faFilter)
    ensures ValidDict(Put(d, k, w)) && GroupsHold(Put(d, k, w), envs, test, faFilter)
  {
    PutGet(d, k, w, k);
    var g := Put(d, k, w);
    forall i | 0 <= i < |g|
      ensures Holds(g[i].1, g[i].0, envs, test, faFilter)
    {
      if g[i].0 != k {
        assert Keys(g)[i] != k;
        assert i < |d|;
        assert g[i] == d[i];
      } else {
        FindUnique(g, k);
      }
    }
  }

  // ---------------------------------------------------------------------------
  // Per-environment statistics

  /** `x.get("tps_err", 0.0) or 0.0`. The records the extractor writes carry
      their spread under "tps_std" and have no "tps_err" key, so every margin
      read here is the default. */
  function TpsErr(r: Run): real { 0.0 }

  datatype Interval = Interval(low: real, high: real, mid: real)

  /** The non-None means of a group's records for one environment. */
  function MeansOf(entries: seq<Run>, env: string): seq<real> {
    if entries == [] then []
    else
      var x := entries[|entries| - 1];
      MeansOf(entries[..|entries| - 1], env) + (if x.env == env && x.tpsMean.Some? then [x.tpsMean.value] else [])
  }

  /** The margins of a group's records for one environment. */
  function ErrsOf(entries: seq<Run>, env: string): (r: seq<real>)
    ensures forall i :: 0 <= i < |r| ==> r[i] == 0.0
  {
    if entries == [] then []
    else
      var x := entries[|entries| - 1];
      ErrsOf(entries[..|entries| - 1], env) + (if x.env == env then [TpsErr(x)] else [])
  }

  predicate HasEnv(entries: seq<Run>, env: string) {
    exists x :: x in entries && x.env == env
  }

  /** `env_list`: the requested environments the group has records for. */
  function EnvList(entries: seq<Run>, envs: seq<string>): seq<string> {
    if envs == [] then []
    else
      var e := envs[|envs| - 1];
      EnvList(entries, envs[..|envs| - 1]) + (if HasEnv(entries, e) then [e] else [])
  }

  lemma {:induction false} EnvListMembers(entries: seq<Run>, envs: seq<string>)
    ensures forall e :: e in EnvList(entries, envs) <==> e in envs && HasEnv(entries, e)
  {
    if envs != [] {
      EnvListMembers(entries, envs[..|envs| - 1]);
      assert forall x :: x in envs <==> x in envs[..|envs| - 1] || x == envs[|envs| - 1];
    }
  }

  /** The interval of one environment: median of means widened by the median margin. */
  function EnvInterval(entries: seq<Run>, env: string): Interval
    requires |MeansOf(entries, env)| > 0
  {
    var m := Median(MeansOf(entries, env));
    var errs := ErrsOf(entries, env);
    var e := if |errs| > 0 then Median(errs) else 0.0;
    Interval(m - e, m + e, m)
  }

  /** `summary`, built in `env_list` order. */
  function Summarize(entries: seq<Run>, envList: seq<string>): Dict<string, Interval> {
    if envList == [] then []
    else
      var d := Summarize(entries, envList[..|envList| - 1]);
      var e := envList[|envList| - 1];
      if |MeansOf(entries, e)| == 0 then d else Put(d, e, EnvInterval(entries, e))
  }

  /** Every entry of `d` is the interval of an environment with a mean. */
  predicate SummaryEntries(entries: seq<Run>, d: Dict<string, Interval>) {
    forall i :: 0 <= i < |d| ==> |MeansOf(entries, d[i].0)| > 0 && d[i].1 == EnvInterval(entries, d[i].0)
  }

  /** The summary only holds intervals of its own environments, without repeats. */
  lemma {:induction false} SummarizeValid(entries: seq<Run>, envList: seq<string>)
    ensures var d := Summarize(entries, envList);
      && ValidDict(d)
      && (forall e :: e in Keys(d) <==> e in envList && |MeansOf(entries, e)| > 0)
      && SummaryEntries(entries, d)
  {
    if envList != [] {
      var p := envList[..|envList| - 1];
      SummarizeValid(entries, p);
      var d := Summarize(entries, p);
      var e := envList[|envList| - 1];
      assert forall x :: x in envList <==> x in p || x == e;
      if |MeansOf(entries, e)| > 0 {
        PutGet(d, e, EnvInterval(entries, e), e);
        SummarizeStep(entries, d, e);
      }
    }
  }

  lemma SummarizeStep(entries: seq<Run>, d: Dict<string, Interval>, e: string)
    requires |MeansOf(entries, e)| > 0 && ValidDict(d) && SummaryEntries(entries, d)
    ensures SummaryEntries(entries, Put(d, e, EnvInterval(entries, e)))
  {
    var d2 := Put(d, e, EnvInterval(entries, e));
    PutGet(d, e, EnvInterval(entries, e), e);
    forall i | 0 <= i < |d2| ensures |MeansOf(entries, d2[i].0)| > 0 && d2[i].1 == EnvInterval(entries, d2[i].0) {
      if d2[i].0 != e {
        assert Keys(d2)[i] != e;
        assert i < |d|;
        assert d2[i] == d[i];
      } else {
        FindUnique(d2, e);
      }
    }
  }

  /** With the extractor's records every margin is 0: an interval is the
      single point of its median. */
  lemma ZeroMargins(entries: seq<Run>, env: string)
    requires |MeansOf(entries, env)| > 0
    ensures EnvInterval(entries, env).low == EnvInterval(entries, env).mid == EnvInterval(entries, env).high
  {
    var errs := ErrsOf(entries, env);
    if |errs| > 0 {
      MedianConstant(errs, 0.0);
    }
  }

  // ---------------------------------------------------------------------------
  // Ranking one group

  /** `summary[e]`: only keys of the summary are ever looked up. */
  function Iv(sm: Dict<string, Interval>, e: string): Interval {
    Get(sm, e).GetOr(Interval(0.0, 0.0, 0.0))
  }

  /** Insert `x` after every element whose key is at least its own. */
  function InsertDesc(x: string, s: seq<string>, key: string -> real): (r: seq<string>)
    ensures multiset(r) == multiset(s) + multiset{x}
    ensures |r| == |s| + 1
  {
    if s == [] then [x]
    else if key(s[0]) >= key(x) then
      assert s == [s[0]] + s[1..];
      [s[0]] + InsertDesc(x, s[1..], key)
    else [x] + s
  }

  /** `sorted(xs, key=key, reverse=True)`: stable, highest key first. */
  function SortDesc(xs: seq<string>, key: string -> real): (r: seq<string>)
    ensures multiset(r) == multiset(xs)
    ensures |r| == |xs|
  {
    if xs == [] then []
    else
      assert xs == xs[..|xs| - 1] + [xs[|xs| - 1]];
      InsertDesc(xs[|xs| - 1], SortDesc(xs[..|xs| - 1], key), key)
  }

  predicate Descending(s: seq<string>, key: string -> real) {
    forall i, j :: 0 <= i < j < |s| ==> key(s[i]) >= key(s[j])
  }

  /** Inserting adds `x` and keeps every other element. */
  lemma InsertDescMembers(x: string, s: seq<string>, key: string -> real)
    ensures forall y :: y in InsertDesc(x, s, key) <==> y == x || y in s
  {
    var r := InsertDesc(x, s, key);
    forall y ensures y in r <==> y == x || y in s {
      assert y in r <==> y in multiset(r);
      assert y in s <==> y in multiset(s);
    }
  }

  lemma {:induction false} InsertDescSorted(x: string, s: seq<string>, key: string -> real)
    requires Descending(s, key)
    ensures Descending(InsertDesc(x, s, key), key)
    decreases |s|
  {
    if s != [] && key(s[0]) >= key(x) {
      var t := InsertDesc(x, s[1..], key);
      InsertDescSorted(x, s[1..], key);
      InsertDescMembers(x, s[1..], key);
      forall y | y in t ensures key(s[0]) >= key(y) {
        if y != x {
          var i :| 0 <= i < |s[1..]| && s[1..][i] == y;
          assert s[i + 1] == y;
        }
      }
      assert InsertDesc(x, s, key) == [s[0]] + t;
    }
  }

  /** The sorted elements run from highest key to lowest. */
  lemma {:induction false} SortDescSorted(xs: seq<string>, key: string -> real)
    ensures Descending(SortDesc(xs, key), key)
  {
    if xs != [] {
      SortDescSorted(xs[..|xs| - 1], key);
      InsertDescSorted(xs[|xs| - 1], SortDesc(xs[..|xs| - 1], key), key);
    }
  }

  /** The median of each summarised environment, the sort key of the ranking. */
  function Mid(sm: Dict<string, Interval>): string -> real {
    e => Iv(sm, e).mid
  }

  /** `not (low > high0 or high < low0)`. */
  predicate Overlap(a: Interval, b: Interval) {
    !(a.low > b.high || a.high < b.low)
  }

  /** The environments after the pivot whose interval overlaps the pivot's, in order. */
  function Overlapping(p: string, rs: seq<string>, sm: Dict<string, Interval>): seq<string> {
    if rs == [] then []
    else
      var e := rs[|rs| - 1];
      Overlapping(p, rs[..|rs| - 1], sm) + (if Overlap(Iv(sm, e), Iv(sm, p)) then [e] else [])
  }

  lemma {:induction false} OverlappingMembers(p: string, rs: seq<string>, sm: Dict<string, Interval>)
    ensures forall e :: e in Overlapping(p, rs, sm) <==> e in rs && Overlap(Iv(sm, e), Iv(sm, p))
  {
    if rs != [] {
      OverlappingMembers(p, rs[..|rs| - 1], sm);
      assert forall x :: x in rs <==> x in rs[..|rs| - 1] || x == rs[|rs| - 1];
    }
  }

  /** `[e for e in remaining if e not in tied]`. */
  function FilterOut(rs: seq<string>, tied: seq<string>): (r: seq<string>)
    ensures |r| <= |rs|
    ensures |rs| > 0 && rs[0] in tied ==> |r| < |rs|
  {
    if rs == [] then []
    else (if rs[0] in tied then [] else [rs[0]]) + FilterOut(rs[1..], tied)
  }

  lemma {:induction false} FilterOutMembers(rs: seq<string>, tied: seq<string>)
    ensures forall e :: e in FilterOut(rs, tied) <==> e in rs && e !in tied
  {
    if rs != [] {
      FilterOutMembers(rs[1..], tied);
      assert forall x :: x in rs <==> x == rs[0] || x in rs[1..];
    }
  }

  /** `for env in tied: assigned[env] = current_rank`. */
  function Round(tied: seq<string>, rank: nat): (r: seq<(string, nat)>)
    ensures |r| == |tied|
    ensures forall i :: 0 <= i < |r| ==> r[i] == (tied[i], rank)
  {
    seq(|tied|, i requires 0 <= i < |tied| => (tied[i], rank))
  }

  /** The rank each environment receives, round by round, in assignment order. */
  function RankRounds(remaining: seq<string>, sm: Dict<string, Interval>, rank: nat): (r: seq<(string, nat)>)
    ensures forall k :: 0 <= k < |r| ==> rank <= r[k].1 <= 3
    decreases |remaining|
  {
    if remaining == [] || rank > 3 then []
    else
      var p := remaining[0];
      var tied := [p] + Overlapping(p, remaining[1..], sm);
      Round(tied, rank) + RankRounds(FilterOut(remaining, tied), sm, rank + 1)
  }

  /** Only environments still to be ranked are placed. */
  lemma {:induction false} RankRoundsMembers(remaining: seq<string>, sm: Dict<string, Interval>, rank: nat)
    ensures forall k :: 0 <= k < |RankRounds(remaining, sm, rank)| ==> RankRounds(remaining, sm, rank)[k].0 in remaining
    decreases |remaining|
  {
    if remaining != [] && rank <= 3 {
      var p := remaining[0];
      var tied := [p] + Overlapping(p, remaining[1..], sm);
      var rest := FilterOut(remaining, tied);
      RankRoundsMembers(rest, sm, rank + 1);
      OverlappingMembers(p, remaining[1..], sm);
      FilterOutMembers(remaining, tied);
      var head := Round(tied, rank);
      var tail := RankRounds(rest, sm, rank + 1);
      var r := RankRounds(remaining, sm, rank);
      assert r == head + tail;
      forall k | 0 <= k < |r| ensures r[k].0 in remaining {
        if k < |head| {
          assert r[k].0 == tied[k];
          assert tied[k] == p || tied[k] in remaining[1..];
        } else {
          assert r[k] == tail[k - |head|];
        }
      }
    }
  }

  /** Each environment is placed at most once per group. */
  lemma {:induction false} RankRoundsDistinct(remaining: seq<string>, sm: Dict<string, Interval>, rank: nat)
    requires Distinct(remaining)
    ensures Distinct(Keys(RankRounds(remaining, sm, rank)))
    decreases |remaining|
  {
    if remaining != [] && rank <= 3 {
      var p := remaining[0];
      var tied := [p] + Overlapping(p, remaining[1..], sm);
      var rest := FilterOut(remaining, tied);
      DistinctFilterOut(remaining, tied);
      RankRoundsDistinct(rest, sm, rank + 1);
      RankRoundsMembers(rest, sm, rank + 1);
      FilterOutMembers(remaining, tied);
      assert remaining == [p] + remaining[1..];
      SubseqDistinct(p, remaining[1..], sm);
      DistinctAppend(Round(tied, rank), RankRounds(rest, sm, rank + 1));
    }
  }

  /** Two placement lists without repeats and without common environments
      make one without repeats. */
  lemma DistinctAppend(a: seq<(string, nat)>, b: seq<(string, nat)>)
    requires Distinct(Keys(a)) && Distinct(Keys(b))
    requires forall i, j :: 0 <= i < |a| && 0 <= j < |b| ==> a[i].0 != b[j].0
    ensures Distinct(Keys(a + b))
  {
    var r := a + b;
    forall i, j | 0 <= i < j < |r| ensures Keys(r)[i] != Keys(r)[j] {
      if j < |a| {
        assert Keys(r)[i] == Keys(a)[i] && Keys(r)[j] == Keys(a)[j];
      } else if i >= |a| {
        assert Keys(r)[i] == Keys(b)[i - |a|] && Keys(r)[j] == Keys(b)[j - |a|];
      } else {
        assert Keys(r)[i] == a[i].0 && Keys(r)[j] == b[j - |a|].0;
      }
    }
  }

  lemma {:induction false} SubseqDistinct(p: string, rs: seq<string>, sm: Dict<string, Interval>)
    requires Distinct([p] + rs)
    ensures Distinct([p] + Overlapping(p, rs, sm))
    decreases |rs|
  {
    if rs != [] {
      var q := rs[..|rs| - 1];
      var e := rs[|rs| - 1];
      assert Distinct([p] + q) by {
        forall i, j | 0 <= i < j < |[p] + q| ensures ([p] + q)[i] != ([p] + q)[j] {
          assert ([p] + q)[i] == ([p] + rs)[i] && ([p] + q)[j] == ([p] + rs)[j];
        }
      }
      SubseqDistinct(p, q, sm);
      OverlappingMembers(p, q, sm);
      var a := [p] + Overlapping(p, q, sm);
      if Overlap(Iv(sm, e), Iv(sm, p)) {
        assert e !in [p] + q by {
          forall i | 0 <= i < |[p] + q| ensures ([p] + q)[i] != e {
            assert ([p] + q)[i] == ([p] + rs)[i] && e == ([p] + rs)[|rs|];
          }
        }
        assert e != p && e !in Overlapping(p, q, sm);
        DistinctSnoc(a, e);
        assert [p] + Overlapping(p, rs, sm) == a + [e];
      } else {
        assert [p] + Overlapping(p, rs, sm) == a;
      }
    }
  }

  lemma {:induction false} DistinctFilterOut(rs: seq<string>, tied: seq<string>)
    requires Distinct(rs)
    ensures Distinct(FilterOut(rs, tied))
    decreases |rs|
  {
    if rs != [] {
      assert Distinct(rs[1..]) by {
        forall i, j | 0 <= i < j < |rs[1..]| ensures rs[1..][i] != rs[1..][j] {
          assert rs[1..][i] == rs[i + 1] && rs[1..][j] == rs[j + 1];
        }
      }
      DistinctFilterOut(rs[1..], tied);
      FilterOutMembers(rs[1..], tied);
      assert rs[0] !in rs[1..];
      var t := FilterOut(rs[1..], tied);
      if rs[0] !in tied {
        assert FilterOut(rs, tied) == [rs[0]] + t;
        forall i, j | 0 <= i < j < |[rs[0]] + t| ensures ([rs[0]] + t)[i] != ([rs[0]] + t)[j] {
          if i == 0 {
            assert ([rs[0]] + t)[j] == t[j - 1];
            assert t[j - 1] in t;
          }
        }
      }
    }
  }

  /** Any round: the first environment still to be ranked, and exactly the
      others whose intervals overlap its interval, get the current rank. */
  lemma RoundAt(remaining: seq<string>, sm: Dict<string, Interval>, rank: nat)
    requires remaining != [] && rank <= 3
    ensures var r := RankRounds(remaining, sm, rank);
      && (remaining[0], rank) in r
      && forall e :: e in remaining[1..] && e != remaining[0] ==> ((e, rank) in r <==> Overlap(Iv(sm, e), Iv(sm, remaining[0])))
  {
    var p := remaining[0];
    var tied := [p] + Overlapping(p, remaining[1..], sm);
    var rest := FilterOut(remaining, tied);
    var head := Round(tied, rank);
    var tail := RankRounds(rest, sm, rank + 1);
    var r := RankRounds(remaining, sm, rank);
    assert r == head + tail;
    assert r[0] == (p, rank);
    forall e | e in remaining[1..] && e != p ensures (e, rank) in r <==> Overlap(Iv(sm, e), Iv(sm, p)) {
      RoundMember(p, remaining[1..], sm, rank, e, head, tail);
    }
  }

  lemma RoundMember(p: string, rs: seq<string>, sm: Dict<string, Interval>, rank: nat, e: string, head: seq<(string, nat)>, tail: seq<(string, nat)>)
    requires head == Round([p] + Overlapping(p, rs, sm), rank)
    requires forall k :: 0 <= k < |tail| ==> tail[k].1 > rank
    requires e in rs && e != p
    ensures (e, rank) in head + tail <==> Overlap(Iv(sm, e), Iv(sm, p))
  {
    var tied := [p] + Overlapping(p, rs, sm);
    var r := head + tail;
    OverlappingMembers(p, rs, sm);
    if Overlap(Iv(sm, e), Iv(sm, p)) {
      assert e in Overlapping(p, rs, sm);
      assert e in tied;
      var i :| 0 <= i < |tied| && tied[i] == e;
      assert r[i] == (e, rank);
    }
    if (e, rank) in r {
      var k :| 0 <= k < |r| && r[k] == (e, rank);
      assert k < |head|;
      assert tied[k] == e && k > 0;
      assert Overlapping(p, rs, sm)[k - 1] == e;
    }
  }

  /** After a round, exactly the environments that neither led it nor
      overlapped its leader remain, still in falling order of medians, so
      the next round is led by the highest median not yet ranked; the
      ranks of the later rounds are all kept. */
  lemma NextRound(remaining: seq<string>, sm: Dict<string, Interval>, rank: nat)
    requires remaining != [] && rank <= 3
    ensures var p := remaining[0];
      var rest := FilterOut(remaining, [p] + Overlapping(p, remaining[1..], sm));
      && (forall e :: e in rest <==> e in remaining && e != p && !Overlap(Iv(sm, e), Iv(sm, p)))
      && (Descending(remaining, Mid(sm)) ==> Descending(rest, Mid(sm)))
      && (Descending(remaining, Mid(sm)) && rest != [] ==> forall e :: e in rest ==> Iv(sm, e).mid <= Iv(sm, rest[0]).mid)
      && forall x :: x in RankRounds(rest, sm, rank + 1) ==> x in RankRounds(remaining, sm, rank)
  {
    var p := remaining[0];
    var tied := [p] + Overlapping(p, remaining[1..], sm);
    var rest := FilterOut(remaining, tied);
    RestMembers(remaining, sm);
    if Descending(remaining, Mid(sm)) {
      FilterOutDescending(remaining, tied, Mid(sm));
      HeadHighest(rest, Mid(sm));
    }
    assert RankRounds(remaining, sm, rank) == Round(tied, rank) + RankRounds(rest, sm, rank + 1);
  }

  /** Who is left for the next round. */
  lemma RestMembers(remaining: seq<string>, sm: Dict<string, Interval>)
    requires remaining != []
    ensures var p := remaining[0];
      forall e :: e in FilterOut(remaining, [p] + Overlapping(p, remaining[1..], sm)) <==> e in remaining && e != p && !Overlap(Iv(sm, e), Iv(sm, p))
  {
    var p := remaining[0];
    var tied := [p] + Overlapping(p, remaining[1..], sm);
    FilterOutMembers(remaining, tied);
    OverlappingMembers(p, remaining[1..], sm);
    forall e ensures e in tied <==> e == p || (e in remaining[1..] && Overlap(Iv(sm, e), Iv(sm, p))) {
      assert e in tied <==> e == p || e in Overlapping(p, remaining[1..], sm);
    }
    forall e | e in remaining && e != p ensures e in remaining[1..] {
      var j :| 0 <= j < |remaining| && remaining[j] == e;
      assert remaining[1..][j - 1] == e;
    }
  }

  /** The first of a falling sequence has the highest key. */
  lemma HeadHighest(s: seq<string>, key: string -> real)
    requires Descending(s, key)
    ensures s != [] ==> forall e :: e in s ==> key(e) <= key(s[0])
  {
    forall e | e in s ensures key(e) <= key(s[0]) {
      var j :| 0 <= j < |s| && s[j] == e;
      if j > 0 {
        assert key(s[0]) >= key(s[j]);
      }
    }
  }

  /** Dropping environments keeps the others in falling order. */
  lemma {:induction false} FilterOutDescending(rs: seq<string>, tied: seq<string>, key: string -> real)
    requires Descending(rs, key)
    ensures Descending(FilterOut(rs, tied), key)
    decreases |rs|
  {
    if rs != [] {
      var t := FilterOut(rs[1..], tied);
      assert Descending(rs[1..], key) by {
        forall i, j | 0 <= i < j < |rs[1..]| ensures key(rs[1..][i]) >= key(rs[1..][j]) {
          assert rs[1..][i] == rs[i + 1] && rs[1..][j] == rs[j + 1];
        }
      }
      FilterOutDescending(rs[1..], tied, key);
      if rs[0] !in tied {
        FilterOutMembers(rs[1..], tied);
        assert FilterOut(rs, tied) == [rs[0]] + t;
        forall i, j | 0 <= i < j < |[rs[0]] + t| ensures key(([rs[0]] + t)[i]) >= key(([rs[0]] + t)[j]) {
          if i == 0 {
            assert ([rs[0]] + t)[j] == t[j - 1];
            assert t[j - 1] in rs[1..];
            var k :| 0 <= k < |rs[1..]| && rs[1..][k] == t[j - 1];
            assert rs[k + 1] == t[j - 1];
          } else {
            assert ([rs[0]] + t)[i] == t[i - 1] && ([rs[0]] + t)[j] == t[j - 1];
          }
        }
      }
    }
  }

  /** Two environments: the one with the higher median (the first on a tie)
      gets rank 1, and the other shares rank 1 when the intervals overlap
      and gets rank 2 otherwise. */
  lemma TwoEnvRanks(sm: Dict<string, Interval>)
    requires ValidDict(sm) && |sm| == 2
    ensures RankSummary(sm).Some?
    ensures var e0, e1 := sm[0].0, sm[1].0;
      var hi, lo := if Iv(sm, e0).mid >= Iv(sm, e1).mid then e0 else e1, if Iv(sm, e0).mid >= Iv(sm, e1).mid then e1 else e0;
      RankSummary(sm).value == if Overlap(Iv(sm, lo), Iv(sm, hi)) then [(hi, 1), (lo, 1)] else [(hi, 1), (lo, 2)]
  {
    var e0, e1 := sm[0].0, sm[1].0;
    var hi, lo := if Iv(sm, e0).mid >= Iv(sm, e1).mid then e0 else e1, if Iv(sm, e0).mid >= Iv(sm, e1).mid then e1 else e0;
    assert Keys(sm) == [e0, e1];
    assert e0 != e1 by {
      assert Keys(sm)[0] != Keys(sm)[1];
    }
    assert [e0, e1][..1] == [e0];
    assert SortDesc([e0], Mid(sm)) == [e0];
    assert SortDesc(Keys(sm), Mid(sm)) == [hi, lo];
    assert RankSummary(sm) == Some(RankRounds([hi, lo], sm, 1));
    RanksOfTwo(hi, lo, sm);
  }

  /** The rounds over two distinct environments in order. */
  lemma RanksOfTwo(hi: string, lo: string, sm: Dict<string, Interval>)
    requires hi != lo
    ensures RankRounds([hi, lo], sm, 1) == if Overlap(Iv(sm, lo), Iv(sm, hi)) then [(hi, 1), (lo, 1)] else [(hi, 1), (lo, 2)]
  {
    var tied := [hi] + Overlapping(hi, [hi, lo][1..], sm);
    assert [hi, lo][1..] == [lo] && [lo][..0] == [];
    assert Overlapping(hi, [lo], sm) == if Overlap(Iv(sm, lo), Iv(sm, hi)) then [lo] else [];
    var rest := FilterOut([hi, lo], tied);
    assert RankRounds([hi, lo], sm, 1) == Round(tied, 1) + RankRounds(rest, sm, 2);
    if Overlap(Iv(sm, lo), Iv(sm, hi)) {
      assert rest == [];
      assert Round(tied, 1) == [(hi, 1), (lo, 1)];
    } else {
      assert tied == [hi] && [lo][1..] == [];
      assert FilterOut([lo], tied) == [lo];
      assert rest == [lo];
      LoneRound(lo, sm, 2);
      assert Round(tied, 1) == [(hi, 1)];
    }
  }

  /** A single environment left gets the current rank. */
  lemma LoneRound(e: string, sm: Dict<string, Interval>, rank: nat)
    requires rank <= 3
    ensures RankRounds([e], sm, rank) == [(e, rank)]
  {
    assert [e][1..] == [];
    assert FilterOut([e], [e]) == [];
  }

  /** The `while remaining and current_rank <= 3` loop. */
  method AssignRanks(ordered: seq<string>, sm: Dict<string, Interval>) returns (ranks: seq<(string, nat)>)
    ensures ranks == RankRounds(ordered, sm, 1)
  {
    var remaining := ordered;
    ranks := [];
    var currentRank := 1;
    while remaining != [] && currentRank <= 3
      invariant ranks + RankRounds(remaining, sm, currentRank) == RankRounds(ordered, sm, 1)
      decreases |remaining|
    {
      var tied := TiedWith(remaining, sm);
      RankRoundsStep(ranks, remaining, sm, currentRank);
      ranks := AppendRound(ranks, tied, currentRank);
      remaining := FilterOut(remaining, tied);
      currentRank := currentRank + 1;
    }
  }

  /** One round of the loop moves the round's ranks from the rounds still to
      come onto the ranks assigned so far. */
  lemma RankRoundsStep(ranks: seq<(string, nat)>, remaining: seq<string>, sm: Dict<string, Interval>, rank: nat)
    requires remaining != [] && rank <= 3
    ensures var tied := [remaining[0]] + Overlapping(remaining[0], remaining[1..], sm);
      ranks + RankRounds(remaining, sm, rank) == (ranks + Round(tied, rank)) + RankRounds(FilterOut(remaining, tied), sm, rank + 1)
  {
    var tied := [remaining[0]] + Overlapping(remaining[0], remaining[1..], sm);
    var a := Round(tied, rank);
    var b := RankRounds(FilterOut(remaining, tied), sm, rank + 1);
    assert RankRounds(remaining, sm, rank) == a + b;
    assert ranks + (a + b) == (ranks + a) + b;
  }

  /** `tied = [env0]` and the loop over `remaining[1:]` that extends it. */
  method TiedWith(remaining: seq<string>, sm: Dict<string, Interval>) returns (tied: seq<string>)
    requires remaining != []
    ensures tied == [remaining[0]] + Overlapping(remaining[0], remaining[1..], sm)
  {
    var env0 := remaining[0];
    var iv0 := Iv(sm, env0);
    tied := [env0];
    var j := 1;
    while j < |remaining|
      invariant 1 <= j <= |remaining|
      invariant tied == [env0] + Overlapping(env0, remaining[1..j], sm)
    {
      assert remaining[1..j + 1][..j - 1] == remaining[1..j];
      var iv := Iv(sm, remaining[j]);
      if !(iv.low > iv0.high || iv.high < iv0.low) {
        tied := tied + [remaining[j]];
      }
      j := j + 1;
    }
    assert remaining[1..j] == remaining[1..];
  }

  /** `for env in tied: assigned[env] = current_rank`. */
  method AppendRound(before: seq<(string, nat)>, tied: seq<string>, rank: nat) returns (ranks: seq<(string, nat)>)
    ensures ranks == before + Round(tied, rank)
  {
    ranks := before;
    var k := 0;
    while k < |tied|
      invariant k <= |tied|
      invariant ranks == before + Round(tied, rank)[..k]
    {
      assert Round(tied, rank)[..k + 1] == Round(tied, rank)[..k] + [(tied[k], rank)];
      ranks := ranks + [(tied[k], rank)];
      k := k + 1;
    }
    assert Round(tied, rank)[..k] == Round(tied, rank);
  }

  // ---------------------------------------------------------------------------
  // Placements

  datatype Counts = Counts(first: nat, second: nat, third: nat)

  /** The counts of `e` so far; an environment not yet placed has none. */
  function CountsOf(pl: Dict<string, Counts>, e: string): Counts {
    Get(pl, e).GetOr(Counts(0, 0, 0))
  }

  /** `placements[env][slot] += 1` for rank 1, 2 or 3. */
  function Bump(pl: Dict<string, Counts>, env: string, rk: nat): Dict<string, Counts> {
    var c := CountsOf(pl, env);
    if rk == 1 then Put(pl, env, c.(first := c.first + 1))
    else if rk == 2 then Put(pl, env, c.(second := c.second + 1))
    else if rk == 3 then Put(pl, env, c.(third := c.third + 1))
    else pl
  }

  function BumpAll(pl: Dict<string, Counts>, ranks: seq<(string, nat)>): Dict<string, Counts> {
    if ranks == [] then pl
    else
      var a := ranks[|ranks| - 1];
      Bump(BumpAll(pl, ranks[..|ranks| - 1]), a.0, a.1)
  }

  /** The ranks of one group, or None when fewer than two environments can be compared. */
  function RankGroup(entries: seq<Run>, envs: seq<string>): Option<seq<(string, nat)>> {
    var envList := EnvList(entries, envs);
    if |envList| < 2 then None else RankSummary(Summarize(entries, envList))
  }

  /** The ranks of a summary, highest median first, or None when it holds
      fewer than two environments. */
  function RankSummary(summary: Dict<string, Interval>): Option<seq<(string, nat)>> {
    if |summary| < 2 then None
    else Some(RankRounds(SortDesc(Keys(summary), Mid(summary)), summary, 1))
  }

  /** `placements` and `samples` as margin_aware_placements accumulates them. */
  datatype Tally = Tally(placements: Dict<string, Counts>, samples: nat)

  /** One group's contribution: nothing when it is skipped, otherwise its
      ranks are counted and it is one more sample. */
  function Tallied(t: Tally, ranked: Option<seq<(string, nat)>>): Tally {
    match ranked
    case None => t
    case Some(ranks) => Tally(BumpAll(t.placements, ranks), t.samples + 1)
  }

  /** The placement table and sample count after the given groups. */
  function PlacementsOf(groups: Dict<Key, seq<Run>>, envs: seq<string>): Tally {
    if groups == [] then Tally([], 0)
    else Tallied(PlacementsOf(groups[..|groups| - 1], envs), RankGroup(groups[|groups| - 1].1, envs))
  }

  /** What margin_aware_placements returns. */
  function Placements(runs: seq<Run>, envs: seq<string>, test: string, faFilter: Option<bool>): Tally {
    PlacementsOf(GroupRuns(runs, envs, test, faFilter), envs)
  }

  /** margin_aware_placements, loop by loop. */
  method MarginAwarePlacements(runs: seq<Run>, envs: seq<string>, test: string, faFilter: Option<bool>)
    returns (placements: Dict<string, Counts>, samples: nat)
    ensures Tally(placements, samples) == Placements(runs, envs, test, faFilter)
    ensures var groups := GroupRuns(runs, envs, test, faFilter);
      && samples == |IndicesWhere(groups, RankedIn(envs))|
      && forall e :: var c := CountsOf(placements, e);
        && c.first == |IndicesWhere(groups, PlacedAt(envs, e, 1))|
        && c.second == |IndicesWhere(groups, PlacedAt(envs, e, 2))|
        && c.third == |IndicesWhere(groups, PlacedAt(envs, e, 3))|
        && c.first + c.second + c.third <= samples
  {
    var grouped := GroupEligible(runs, envs, test, faFilter);
    placements := [];
    samples := 0;
    var g := 0;
    while g < |grouped|
      invariant g <= |grouped|
      invariant Tally(placements, samples) == PlacementsOf(grouped[..g], envs)
    {
      assert grouped[..g + 1][..g] == grouped[..g];
      var ranked := RankEntries(grouped[g].1, envs);
      assert PlacementsOf(grouped[..g + 1], envs) == Tallied(PlacementsOf(grouped[..g], envs), ranked);
      if ranked.Some? {
        samples := samples + 1;
        placements := BumpRanks(placements, ranked.value);
      }
      g := g + 1;
    }
    assert grouped[..g] == grouped;
    PlacementsSpec(grouped, envs);
  }

  /** The sample count is the number of ranked groups, and each environment's
      first, second and third places are the numbers of groups that place it
      there, together at most the sample count. */
  lemma PlacementsSpec(groups: Dict<Key, seq<Run>>, envs: seq<string>)
    ensures var t := PlacementsOf(groups, envs);
      && t.samples == |IndicesWhere(groups, RankedIn(envs))|
      && forall e :: var c := CountsOf(t.placements, e);
        && c.first == |IndicesWhere(groups, PlacedAt(envs, e, 1))|
        && c.second == |IndicesWhere(groups, PlacedAt(envs, e, 2))|
        && c.third == |IndicesWhere(groups, PlacedAt(envs, e, 3))|
        && c.first + c.second + c.third <= t.samples
  {
    var t := PlacementsOf(groups, envs);
    SamplesCount(groups, envs);
    forall e ensures var c := CountsOf(t.placements, e);
      && c.first == |IndicesWhere(groups, PlacedAt(envs, e, 1))|
      && c.second == |IndicesWhere(groups, PlacedAt(envs, e, 2))|
      && c.third == |IndicesWhere(groups, PlacedAt(envs, e, 3))|
      && c.first + c.second + c.third <= t.samples
    {
      PlacementCounts(groups, envs, e);
      PlacedWithinSamples(groups, envs, e);
    }
  }

  /** The loop that fills `grouped`. */
  method GroupEligible(runs: seq<Run>, envs: seq<string>, test: string, faFilter: Option<bool>)
    returns (grouped: Dict<Key, seq<Run>>)
    ensures grouped == GroupRuns(runs, envs, test, faFilter)
  {
    grouped := [];
    var i := 0;
    while i < |runs|
      invariant i <= |runs|
      invariant grouped == GroupRuns(runs[..i], envs, test, faFilter)
    {
      assert runs[..i + 1][..i] == runs[..i];
      var r := runs[i];
      if Eligible(r, envs, test, faFilter) {
        var key := KeyOf(r);
        grouped := Put(grouped, key, Get(grouped, key).GetOr([]) + [r]);
      }
      i := i + 1;
    }
    assert runs[..i] == runs;
  }

  /** The `for env, rk in assigned.items()` loop. */
  method BumpRanks(before: Dict<string, Counts>, ranks: seq<(string, nat)>) returns (placements: Dict<string, Counts>)
    ensures placements == BumpAll(before, ranks)
  {
    placements := before;
    var k := 0;
    while k < |ranks|
      invariant k <= |ranks|
      invariant placements == BumpAll(before, ranks[..k])
    {
      assert ranks[..k + 1][..k] == ranks[..k];
      placements := Bump(placements, ranks[k].0, ranks[k].1);
      k := k + 1;
    }
    assert ranks[..k] == ranks;
  }

  /** The body of the per-group loop: summary, order and rank assignment. */
  method RankEntries(entries: seq<Run>, envs: seq<string>) returns (r: Option<seq<(string, nat)>>)
    ensures r == RankGroup(entries, envs)
  {
    var envList := EnvList(entries, envs);
    if |envList| < 2 {
      return None;
    }
    var summary := SummarizeEnvs(entries, envList);
    if |summary| < 2 {
      return None;
    }
    var ordered := SortDesc(Keys(summary), Mid(summary));
    var ranks := AssignRanks(ordered, summary);
    return Some(ranks);
  }

  /** Summarising one more environment. */
  lemma SummarizeSnoc(entries: seq<Run>, envList: seq<string>, i: nat)
    requires i < |envList|
    ensures var e := envList[i];
      Summarize(entries, envList[..i + 1])
      == if |MeansOf(entries, e)| == 0 then Summarize(entries, envList[..i]) else Put(Summarize(entries, envList[..i]), e, EnvInterval(entries, e))
  {
    assert envList[..i + 1][..i] == envList[..i];
  }

  /** The `for env in env_list` loop that fills `summary`. */
  method SummarizeEnvs(entries: seq<Run>, envList: seq<string>) returns (summary: Dict<string, Interval>)
    ensures summary == Summarize(entries, envList)
  {
    summary := [];
    var i := 0;
    while i < |envList|
      invariant i <= |envList|
      invariant summary == Summarize(entries, envList[..i])
    {
      SummarizeSnoc(entries, envList, i);
      var env := envList[i];
      var means := MeansOf(entries, env);
      if |means| > 0 {
        summary := Put(summary, env, EnvInterval(entries, env));
      }
      i := i + 1;
    }
    assert envList[..i] == envList;
  }

  // ---------------------------------------------------------------------------
  // Properties

  /** A record that fails any of the filters changes nothing. */
  lemma IneligibleIgnored(runs: seq<Run>, r: Run, envs: seq<string>, test: string, faFilter: Option<bool>)
    requires !Eligible(r, envs, test, faFilter)
    ensures Placements(runs + [r], envs, test, faFilter) == Placements(runs, envs, test, faFilter)
  {
    assert (runs + [r])[..|runs|] == runs;
  }

  /** The sample count is the number of groups that were ranked, so it never
      exceeds the number of (model, quant) groups. */
  lemma SamplesBound(groups: Dict<Key, seq<Run>>, envs: seq<string>)
    ensures PlacementsOf(groups, envs).samples == |set g | 0 <= g < |groups| && RankGroup(groups[g].1, envs).Some?|
    ensures PlacementsOf(groups, envs).samples <= |groups|
  {
    SamplesCount(groups, envs);
    assert (set g | 0 <= g < |groups| && RankGroup(groups[g].1, envs).Some?) == IndicesWhere(groups, RankedIn(envs));
  }

  /** Whether a (model, quant) group gets ranked. */
  function RankedIn(envs: seq<string>): ((Key, seq<Run>)) -> bool {
    (e: (Key, seq<Run>)) => RankGroup(e.1, envs).Some?
  }

  /** The sample count is the number of ranked groups, counted by position. */
  lemma {:induction false} SamplesCount(groups: Dict<Key, seq<Run>>, envs: seq<string>)
    ensures PlacementsOf(groups, envs).samples == |IndicesWhere(groups, RankedIn(envs))| <= |groups|
  {
    if groups != [] {
      SamplesCount(groups[..|groups| - 1], envs);
      IndicesWhereSnoc(groups, RankedIn(envs));
    }
  }

  /** One bump adds one to the slot of its own environment and rank, and
      leaves every other count alone. */
  lemma BumpCounts(pl: Dict<string, Counts>, env: string, rk: nat, e: string)
    requires ValidDict(pl)
    ensures ValidDict(Bump(pl, env, rk))
    ensures var c, c0 := CountsOf(Bump(pl, env, rk), e), CountsOf(pl, e);
      && c.first == c0.first + (if (env, rk) == (e, 1) then 1 else 0)
      && c.second == c0.second + (if (env, rk) == (e, 2) then 1 else 0)
      && c.third == c0.third + (if (env, rk) == (e, 3) then 1 else 0)
  {
    var c := CountsOf(pl, env);
    if rk == 1 {
      var d := c.(first := c.first + 1);
      assert Bump(pl, env, rk) == Put(pl, env, d);
      PutGet(pl, env, d, e);
    } else if rk == 2 {
      var d := c.(second := c.second + 1);
      assert Bump(pl, env, rk) == Put(pl, env, d);
      PutGet(pl, env, d, e);
    } else if rk == 3 {
      var d := c.(third := c.third + 1);
      assert Bump(pl, env, rk) == Put(pl, env, d);
      PutGet(pl, env, d, e);
    }
  }

  /** Counting a group's ranks adds, to each slot of `e`, the number of
      times `e` is placed at that rank. */
  lemma {:induction false} BumpAllCounts(pl: Dict<string, Counts>, ranks: seq<(string, nat)>, e: string)
    requires ValidDict(pl)
    ensures ValidDict(BumpAll(pl, ranks))
    ensures var c, c0 := CountsOf(BumpAll(pl, ranks), e), CountsOf(pl, e);
      && c.first == c0.first + multiset(ranks)[(e, 1)]
      && c.second == c0.second + multiset(ranks)[(e, 2)]
      && c.third == c0.third + multiset(ranks)[(e, 3)]
  {
    if ranks != [] {
      var n := |ranks| - 1;
      var p, x := ranks[..n], ranks[n];
      assert ranks == p + [x];
      assert multiset(ranks) == multiset(p) + multiset{x};
      BumpAllCounts(pl, p, e);
      BumpCounts(BumpAll(pl, p), x.0, x.1, e);
      assert BumpAll(pl, ranks) == Bump(BumpAll(pl, p), x.0, x.1);
    }
  }

  /** In ranks without a repeated environment each placement occurs once. */
  lemma {:induction false} PlacedOnce(ranks: seq<(string, nat)>, x: (string, nat))
    requires Distinct(Keys(ranks))
    ensures multiset(ranks)[x] == if x in ranks then 1 else 0
  {
    if ranks != [] {
      var n := |ranks| - 1;
      var p := ranks[..n];
      assert ranks == p + [ranks[n]];
      assert Distinct(Keys(p)) by {
        forall i, j | 0 <= i < j < |p| ensures Keys(p)[i] != Keys(p)[j] {
          assert Keys(p)[i] == Keys(ranks)[i] && Keys(p)[j] == Keys(ranks)[j];
        }
      }
      PlacedOnce(p, x);
      if ranks[n] == x {
        forall i | 0 <= i < n ensures p[i] != x {
          assert Keys(ranks)[i] != Keys(ranks)[n];
        }
      }
    }
  }

  /** An environment holds at most one of the three ranks of a group. */
  lemma OnePlace(ranks: seq<(string, nat)>, e: string)
    requires Distinct(Keys(ranks))
    ensures (if (e, 1) in ranks then 1 else 0) + (if (e, 2) in ranks then 1 else 0) + (if (e, 3) in ranks then 1 else 0) <= 1
  {
    forall i, j | 0 <= i < |ranks| && 0 <= j < |ranks| && ranks[i].0 == ranks[j].0 ensures ranks[i] == ranks[j] {
      assert Keys(ranks)[i] == Keys(ranks)[j];
      SameKeySameIndex(Keys(ranks), i, j);
    }
  }

  /** A ranked group places environments without repeats, at ranks 1 to 3. */
  lemma GroupRanksDistinct(entries: seq<Run>, envs: seq<string>)
    ensures RankGroup(entries, envs).Some? ==>
      var ranks := RankGroup(entries, envs).value;
      && Distinct(Keys(ranks))
      && forall k :: 0 <= k < |ranks| ==> 1 <= ranks[k].1 <= 3
  {
    var envList := EnvList(entries, envs);
    var sm := Summarize(entries, envList);
    if |envList| >= 2 && |sm| >= 2 {
      var ordered := SortDesc(Keys(sm), Mid(sm));
      SummarizeValid(entries, envList);
      SortedKeys(sm, ordered);
      RankRoundsDistinct(ordered, sm, 1);
      assert RankGroup(entries, envs) == Some(RankRounds(ordered, sm, 1));
    }
  }

  /** Counting one group: each slot of `e` grows by one exactly when the
      group places `e` at that rank, and by at most one sample in all. */
  lemma TalliedCounts(t: Tally, ranked: Option<seq<(string, nat)>>, e: string)
    requires ValidDict(t.placements)
    requires ranked.Some? ==> Distinct(Keys(ranked.value))
    ensures ValidDict(Tallied(t, ranked).placements)
    ensures var c, c0 := CountsOf(Tallied(t, ranked).placements, e), CountsOf(t.placements, e);
      && c.first == c0.first + (if ranked.Some? && (e, 1) in ranked.value then 1 else 0)
      && c.second == c0.second + (if ranked.Some? && (e, 2) in ranked.value then 1 else 0)
      && c.third == c0.third + (if ranked.Some? && (e, 3) in ranked.value then 1 else 0)
      && c.first + c.second + c.third <= c0.first + c0.second + c0.third + Tallied(t, ranked).samples - t.samples
  {
    if ranked.Some? {
      BumpAllCounts(t.placements, ranked.value, e);
      PlacedOnce(ranked.value, (e, 1));
      PlacedOnce(ranked.value, (e, 2));
      PlacedOnce(ranked.value, (e, 3));
      OnePlace(ranked.value, e);
    }
  }

  /** Whether a group is ranked and places `e` at rank `rk`. */
  function PlacedAt(envs: seq<string>, e: string, rk: nat): ((Key, seq<Run>)) -> bool {
    (g: (Key, seq<Run>)) => RankGroup(g.1, envs).Some? && (e, rk) in RankGroup(g.1, envs).value
  }

  /** The first, second and third places of `e` are the numbers of groups
      whose ranking places `e` first, second and third. */
  lemma {:induction false} PlacementCounts(groups: Dict<Key, seq<Run>>, envs: seq<string>, e: string)
    ensures ValidDict(PlacementsOf(groups, envs).placements)
    ensures var c := CountsOf(PlacementsOf(groups, envs).placements, e);
      && c.first == |IndicesWhere(groups, PlacedAt(envs, e, 1))|
      && c.second == |IndicesWhere(groups, PlacedAt(envs, e, 2))|
      && c.third == |IndicesWhere(groups, PlacedAt(envs, e, 3))|
  {
    if groups != [] {
      var n := |groups| - 1;
      var p := groups[..n];
      PlacementCounts(p, envs, e);
      IndicesWhereSnoc(groups, PlacedAt(envs, e, 1));
      IndicesWhereSnoc(groups, PlacedAt(envs, e, 2));
      IndicesWhereSnoc(groups, PlacedAt(envs, e, 3));
      GroupRanksDistinct(groups[n].1, envs);
      TalliedCounts(PlacementsOf(p, envs), RankGroup(groups[n].1, envs), e);
    }
  }

  /** An environment is placed at most once per sample, so its placements
      never outnumber the samples. */
  lemma {:induction false} PlacedWithinSamples(groups: Dict<Key, seq<Run>>, envs: seq<string>, e: string)
    ensures ValidDict(PlacementsOf(groups, envs).placements)
    ensures var c := CountsOf(PlacementsOf(groups, envs).placements, e);
      c.first + c.second + c.third <= PlacementsOf(groups, envs).samples
  {
    if groups != [] {
      var n := |groups| - 1;
      var p := groups[..n];
      PlacedWithinSamples(p, envs, e);
      GroupRanksDistinct(groups[n].1, envs);
      TalliedCounts(PlacementsOf(p, envs), RankGroup(groups[n].1, envs), e);
    }
  }

  /** The positions of `xs` whose element satisfies `p`. */
  ghost function IndicesWhere<T>(xs: seq<T>, p: T -> bool): set<nat> {
    set g | 0 <= g < |xs| && p(xs[g])
  }

  /** One more element adds its position exactly when it satisfies `p`. */
  lemma IndicesWhereSnoc<T>(xs: seq<T>, p: T -> bool)
    requires xs != []
    ensures |IndicesWhere(xs, p)| == |IndicesWhere(xs[..|xs| - 1], p)| + (if p(xs[|xs| - 1]) then 1 else 0)
  {
    var n := |xs| - 1;
    if p(xs[n]) {
      assert IndicesWhere(xs, p) == IndicesWhere(xs[..n], p) + {n};
    } else {
      assert IndicesWhere(xs, p) == IndicesWhere(xs[..n], p);
    }
  }

  /** `lead` has rank 1 and the highest median of the summary, and shares
      rank 1 exactly with the environments whose intervals overlap its own. */
  predicate Leads(sm: Dict<string, Interval>, ranks: seq<(string, nat)>, lead: string) {
    && lead in Keys(sm) && (lead, 1) in ranks
    && (forall e :: e in Keys(sm) ==> Iv(sm, e).mid <= Iv(sm, lead).mid)
    && (forall e :: e in Keys(sm) && e != lead ==> ((e, 1) in ranks <==> Overlap(Iv(sm, e), Iv(sm, lead))))
  }

  /** An environment with a mean in the group has a record in it. */
  lemma {:induction false} MeansImpliesHasEnv(entries: seq<Run>, env: string)
    requires |MeansOf(entries, env)| > 0
    ensures HasEnv(entries, env)
  {
    var p := entries[..|entries| - 1];
    var x := entries[|entries| - 1];
    if x.env == env && x.tpsMean.Some? {
      assert x in entries;
    } else {
      MeansImpliesHasEnv(p, env);
      var y :| y in p && y.env == env;
      assert y in entries;
    }
  }

  /** What the summary of a group holds: one entry per requested environment
      with at least one mean, without repeats, each the median of its means
      widened by its median margin. */
  lemma SummaryMeaning(entries: seq<Run>, envs: seq<string>)
    ensures var sm := Summarize(entries, EnvList(entries, envs));
      && ValidDict(sm)
      && (forall e :: e in Keys(sm) <==> e in envs && |MeansOf(entries, e)| > 0)
      && forall e :: e in Keys(sm) ==> |MeansOf(entries, e)| > 0 && Iv(sm, e) == EnvInterval(entries, e)
  {
    var envList := EnvList(entries, envs);
    var sm := Summarize(entries, envList);
    EnvListMembers(entries, envs);
    SummarizeValid(entries, envList);
    SummaryIntervals(entries, sm);
    forall e | e in envs && |MeansOf(entries, e)| > 0 ensures e in Keys(sm) {
      MeansImpliesHasEnv(entries, e);
    }
  }

  /** A summary is ranked exactly when it holds at least two environments;
      then ranks lie in 1..3, only summarised environments are placed, none
      twice, and the one with the highest median leads. */
  lemma RankSummarySpec(sm: Dict<string, Interval>)
    requires ValidDict(sm)
    ensures RankSummary(sm).Some? <==> |Keys(sm)| >= 2
    ensures RankSummary(sm).Some? ==>
      var ranks := RankSummary(sm).value;
      && Distinct(Keys(ranks))
      && (forall k :: 0 <= k < |ranks| ==> 1 <= ranks[k].1 <= 3 && ranks[k].0 in Keys(sm))
      && exists lead :: Leads(sm, ranks, lead)
  {
    if |sm| >= 2 {
      RankedOrder(sm, SortDesc(Keys(sm), Mid(sm)));
    }
  }

  /** The ranking of a summary in order of falling medians: ranks are in
      1..3, only summarised environments are placed, none twice, and the
      first one leads. */
  lemma RankedOrder(sm: Dict<string, Interval>, ordered: seq<string>)
    requires |sm| >= 1 && ValidDict(sm) && ordered == SortDesc(Keys(sm), Mid(sm))
    ensures var ranks := RankRounds(ordered, sm, 1);
      && Distinct(Keys(ranks))
      && (forall k :: 0 <= k < |ranks| ==> ranks[k].0 in Keys(sm))
      && Leads(sm, ranks, ordered[0])
  {
    SortedKeys(sm, ordered);
    RankRoundsDistinct(ordered, sm, 1);
    RankRoundsMembers(ordered, sm, 1);
    LeadHighest(sm, ordered);
    LeadTies(sm, ordered);
  }

  /** The first of the sorted environments has the highest median. */
  lemma LeadHighest(sm: Dict<string, Interval>, ordered: seq<string>)
    requires |sm| >= 1 && ordered == SortDesc(Keys(sm), Mid(sm))
    requires forall e :: e in ordered <==> e in Keys(sm)
    ensures forall e :: e in Keys(sm) ==> Iv(sm, e).mid <= Iv(sm, ordered[0]).mid
  {
    SortDescSorted(Keys(sm), Mid(sm));
    forall e | e in Keys(sm) ensures Iv(sm, e).mid <= Iv(sm, ordered[0]).mid {
      var j :| 0 <= j < |ordered| && ordered[j] == e;
      if j > 0 {
        assert Mid(sm)(ordered[0]) >= Mid(sm)(ordered[j]);
      }
    }
  }

  /** Rank 1 goes to the first environment and to exactly those others whose
      intervals overlap its own. */
  lemma LeadTies(sm: Dict<string, Interval>, ordered: seq<string>)
    requires ordered != []
    requires forall e :: e in ordered <==> e in Keys(sm)
    ensures var ranks := RankRounds(ordered, sm, 1);
      && (ordered[0], 1) in ranks
      && forall e :: e in Keys(sm) && e != ordered[0] ==> ((e, 1) in ranks <==> Overlap(Iv(sm, e), Iv(sm, ordered[0])))
  {
    var ranks := RankRounds(ordered, sm, 1);
    RoundAt(ordered, sm, 1);
    forall e | e in Keys(sm) && e != ordered[0]
      ensures (e, 1) in ranks <==> Overlap(Iv(sm, e), Iv(sm, ordered[0]))
    {
      assert e in ordered;
      var j :| 0 <= j < |ordered| && ordered[j] == e;
      assert ordered[1..][j - 1] == e;
    }
  }

  /** Every key's interval is the environment's own. */
  lemma SummaryIntervals(entries: seq<Run>, summary: Dict<string, Interval>)
    requires ValidDict(summary) && SummaryEntries(entries, summary)
    ensures forall e :: e in Keys(summary) ==> |MeansOf(entries, e)| > 0 && Iv(summary, e) == EnvInterval(entries, e)
  {
    var ks := Keys(summary);
    forall e | e in ks ensures |MeansOf(entries, e)| > 0 && Iv(summary, e) == EnvInterval(entries, e) {
      var i :| 0 <= i < |ks| && ks[i] == e;
      FindUnique(summary, e);
    }
  }

  /** Sorting the keys neither adds, drops nor repeats an environment. */
  lemma SortedKeys(summary: Dict<string, Interval>, ordered: seq<string>)
    requires ValidDict(summary) && ordered == SortDesc(Keys(summary), Mid(summary))
    ensures forall e :: e in ordered <==> e in Keys(summary)
    ensures Distinct(ordered)
  {
    var ks := Keys(summary);
    forall e ensures e in ordered <==> e in ks {
      assert e in ordered <==> e in multiset(ordered);
      assert e in ks <==> e in multiset(ks);
    }
    forall i, j | 0 <= i < j < |ordered| ensures ordered[i] != ordered[j] {
      if ordered[i] == ordered[j] {
        TwiceCount(ordered, i, j);
        DistinctCount(ks, ordered[i]);
      }
    }
  }

  /** An element at two positions has multiplicity at least two. */
  lemma TwiceCount(s: seq<string>, i: int, j: int)
    requires 0 <= i < j < |s| && s[i] == s[j]
    ensures multiset(s)[s[i]] >= 2
  {
    assert s == s[..j] + s[j..];
    assert s[i] in s[..j] && s[j] in s[j..];
    assert multiset(s)[s[i]] == multiset(s[..j])[s[i]] + multiset(s[j..])[s[i]];
  }

  /** A key that occurs once in a distinct sequence has multiplicity one. */
  lemma {:induction false} DistinctCount(ks: seq<string>, e: string)
    requires Distinct(ks)
    ensures multiset(ks)[e] <= 1
  {
    if ks != [] {
      var p := ks[..|ks| - 1];
      assert ks == p + [ks[|ks| - 1]];
      assert Distinct(p) by {
        forall i, j | 0 <= i < j < |p| ensures p[i] != p[j] {
          assert p[i] == ks[i] && p[j] == ks[j];
        }
      }
      DistinctCount(p, e);
      if ks[|ks| - 1] == e {
        assert e !in p;
      }
    }
  }

  /** With the extractor's records all margins are 0, so two environments
      share a rank only when their medians are equal. */
  lemma OverlapIsEquality(entries: seq<Run>, e1: string, e2: string)
    requires |MeansOf(entries, e1)| > 0 && |MeansOf(entries, e2)| > 0
    ensures Overlap(EnvInterval(entries, e1), EnvInterval(entries, e2)) <==> Median(MeansOf(entries, e1)) == Median(MeansOf(entries, e2))
  {
    ZeroMargins(entries, e1);
    ZeroMargins(entries, e2);
  }
}
