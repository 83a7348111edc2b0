/** Head-to-head counts between two environments, the average placement of
    each environment and the environments with the most placements of a
    kind: the remaining summaries of the markdown generator. */
module Pairwise {
  import opened Basics
  import opened Dicts
  import opened Extractor
  import opened Ranking

  // ---------------------------------------------------------------------------
  // pairwise_win_counts

  /** A record takes part in a head-to-head comparison for `test`. */
  predicate Compared(r: Run, test: string, faFilter: Option<bool>) {
    !r.error && r.test == Some(test) && (faFilter.None? || r.fa == faFilter.value)
  }

  /** `A` (or `B`): the mean of the last compared record of `env` for every
      (model, quant); a later record overwrites an earlier one. */
  function LatestOf(runs: seq<Run>, env: string, test: string, faFilter: Option<bool>): Dict<Key, Option<real>> {
    if runs == [] then []
    else
      var d := LatestOf(runs[..|runs| - 1], env, test, faFilter);
      var r := runs[|runs| - 1];
      if Compared(r, test, faFilter) && r.env == env then Put(d, KeyOf(r), r.tpsMean) else d
  }

  lemma {:induction false} LatestValid(runs: seq<Run>, env: string, test: string, faFilter: Option<bool>)
    ensures ValidDict(LatestOf(runs, env, test, faFilter))
  {
    if runs != [] {
      var d := LatestOf(runs[..|runs| - 1], env, test, faFilter);
      LatestValid(runs[..|runs| - 1], env, test, faFilter);
      var r := runs[|runs| - 1];
      PutGet(d, KeyOf(r), r.tpsMean, KeyOf(r));
    }
  }

  /** Record `r` is a compared record of `env` stored under key `k`. */
  predicate Contributes(r: Run, env: string, test: string, faFilter: Option<bool>, k: Key) {
    Compared(r, test, faFilter) && r.env == env && KeyOf(r) == k
  }

  /** The keys of `A` are the (model, quant) pairs of the compared records of `env`. */
  lemma {:induction false} LatestKeys(runs: seq<Run>, env: string, test: string, faFilter: Option<bool>, k: Key)
    ensures k in Keys(LatestOf(runs, env, test, faFilter))
        <==> exists i :: 0 <= i < |runs| && Contributes(runs[i], env, test, faFilter, k)
  {
    if runs != [] {
      LatestKeys(runs[..|runs| - 1], env, test, faFilter, k);
      ContributesSnoc(runs, runs[..|runs| - 1], env, test, faFilter, k);
    }
  }

  lemma ContributesSnoc(runs: seq<Run>, p: seq<Run>, env: string, test: string, faFilter: Option<bool>, k: Key)
    requires runs != [] && p == runs[..|runs| - 1]
    ensures (exists i :: 0 <= i < |runs| && Contributes(runs[i], env, test, faFilter, k))
        <==> (exists i :: 0 <= i < |p| && Contributes(p[i], env, test, faFilter, k))
             || Contributes(runs[|runs| - 1], env, test, faFilter, k)
  {
    assert forall i :: 0 <= i < |p| ==> p[i] == runs[i];
  }

  /** A compared record of `env` leaves its own mean under its key, and
      leaves every other key's mean as it was. */
  lemma LatestOverwrites(runs: seq<Run>, r: Run, env: string, test: string, faFilter: Option<bool>, k: Key)
    requires Compared(r, test, faFilter) && r.env == env
    ensures Get(LatestOf(runs + [r], env, test, faFilter), k)
         == if k == KeyOf(r) then Some(r.tpsMean) else Get(LatestOf(runs, env, test, faFilter), k)
  {
    assert (runs + [r])[..|runs|] == runs;
    LatestValid(runs, env, test, faFilter);
    PutGet(LatestOf(runs, env, test, faFilter), KeyOf(r), r.tpsMean, k);
  }

  /** The keys of `ka` that `b` also holds, in the order of `ka`: `set(A) & set(B)`. */
  function Shared<V>(ka: seq<Key>, b: Dict<Key, V>): (r: seq<Key>)
    ensures forall k :: k in r <==> k in ka && k in Keys(b)
  {
    if ka == [] then []
    else
      var rest := Shared(ka[..|ka| - 1], b);
      assert ka == ka[..|ka| - 1] + [ka[|ka| - 1]];
      if ka[|ka| - 1] in Keys(b) then rest + [ka[|ka| - 1]] else rest
  }

  lemma {:induction false} SharedDistinct<V>(ka: seq<Key>, b: Dict<Key, V>)
    requires Distinct(ka)
    ensures Distinct(Shared(ka, b))
  {
    if ka != [] {
      var p := ka[..|ka| - 1];
      assert Distinct(p) by {
        forall i, j | 0 <= i < j < |p| ensures p[i] != p[j] {
          assert p[i] == ka[i] && p[j] == ka[j];
        }
      }
      SharedDistinct(p, b);
      if ka[|ka| - 1] in Keys(b) {
        assert ka[|ka| - 1] !in p;
        DistinctSnoc(Shared(p, b), ka[|ka| - 1]);
      }
    }
  }

  datatype WinCounts = WinCounts(winsA: nat, winsB: nat, ties: nat, total: nat)

  /** A mean of None cannot be compared: `None > x` raises TypeError. */
  predicate Incomparable(a: Dict<Key, Option<real>>, b: Dict<Key, Option<real>>, k: Key) {
    Get(a, k) == Some(None) || Get(b, k) == Some(None)
  }

  /** One comparison of the counting loop: the larger mean wins, equal means tie. */
  function Tick(c: WinCounts, x: real, y: real): (r: WinCounts)
    ensures r.total == c.total + 1
    ensures r.winsA + r.winsB + r.ties == c.winsA + c.winsB + c.ties + 1
  {
    if x > y then c.(winsA := c.winsA + 1, total := c.total + 1)
    else if y > x then c.(winsB := c.winsB + 1, total := c.total + 1)
    else c.(ties := c.ties + 1, total := c.total + 1)
  }

  /** Reading and comparing the two means of `k` raises: `A[k]` raises
      KeyError for a missing key, and a mean of None cannot be compared. */
  predicate Unreadable(a: Dict<Key, Option<real>>, b: Dict<Key, Option<real>>, k: Key) {
    Get(a, k).None? || Get(a, k).value.None? || Get(b, k).None? || Get(b, k).value.None?
  }

  /** The counting loop from position `j` of `ks` on, starting from the
      counts `c`; None when a lookup or a comparison raises. */
  function CountFrom(a: Dict<Key, Option<real>>, b: Dict<Key, Option<real>>, ks: seq<Key>, j: nat, c: WinCounts): Option<WinCounts>
    requires j <= |ks|
    decreases |ks| - j
  {
    if j == |ks| then Some(c)
    else if Unreadable(a, b, ks[j]) then None
    else CountFrom(a, b, ks, j + 1, Tick(c, Get(a, ks[j]).value.value, Get(b, ks[j]).value.value))
  }

  /** One step of the count past a readable key. */
  lemma CountFromStep(a: Dict<Key, Option<real>>, b: Dict<Key, Option<real>>, ks: seq<Key>, j: nat, c: WinCounts)
    requires j < |ks| && !Unreadable(a, b, ks[j])
    ensures CountFrom(a, b, ks, j, c) == CountFrom(a, b, ks, j + 1, Tick(c, Get(a, ks[j]).value.value, Get(b, ks[j]).value.value))
  {
  }

  /** The counting loop over the keys `ks`, or None when a lookup or a comparison raises. */
  function CountWins(a: Dict<Key, Option<real>>, b: Dict<Key, Option<real>>, ks: seq<Key>): (r: Option<WinCounts>)
    ensures r.None? <==> exists k :: k in ks && Unreadable(a, b, k)
    ensures r.Some? ==> r.value.total == r.value.winsA + r.value.winsB + r.value.ties == |ks|
    ensures r.Some? ==>
      && r.value.winsA == |PositionsFrom(ks, 0, Beats(a, b))|
      && r.value.winsB == |PositionsFrom(ks, 0, Beats(b, a))|
      && r.value.ties == |PositionsFrom(ks, 0, Level(a, b))|
  {
    CountFromSpec(a, b, ks, 0, WinCounts(0, 0, 0, 0));
    CountFrom(a, b, ks, 0, WinCounts(0, 0, 0, 0))
  }

  /** Counting on from key `j` raises exactly when one of the keys from `j`
      on is unreadable; otherwise A wins at the keys where its mean is
      strictly greater, B at the keys where B's is, the remaining keys are
      ties, and each key adds one to the total. */
  lemma CountFromSpec(a: Dict<Key, Option<real>>, b: Dict<Key, Option<real>>, ks: seq<Key>, j: nat, c: WinCounts)
    requires j <= |ks|
    ensures CountFrom(a, b, ks, j, c).None? <==> exists i :: j <= i < |ks| && Unreadable(a, b, ks[i])
    ensures j == 0 ==> (CountFrom(a, b, ks, j, c).None? <==> exists k :: k in ks && Unreadable(a, b, k))
    ensures CountFrom(a, b, ks, j, c).Some? ==>
      var r := CountFrom(a, b, ks, j, c).value;
      && r.total == c.total + |ks| - j
      && r.winsA + r.winsB + r.ties == c.winsA + c.winsB + c.ties + |ks| - j
    ensures CountFrom(a, b, ks, j, c).Some? ==>
      var r := CountFrom(a, b, ks, j, c).value;
      && r.winsA == c.winsA + |PositionsFrom(ks, j, Beats(a, b))|
      && r.winsB == c.winsB + |PositionsFrom(ks, j, Beats(b, a))|
      && r.ties == c.ties + |PositionsFrom(ks, j, Level(a, b))|
  {
    CountFromTotals(a, b, ks, j, c);
    CountFromCounts(a, b, ks, j, c);
  }

  /** When the count raises, and how far the totals grow otherwise. */
  lemma {:induction false} CountFromTotals(a: Dict<Key, Option<real>>, b: Dict<Key, Option<real>>, ks: seq<Key>, j: nat, c: WinCounts)
    requires j <= |ks|
    ensures CountFrom(a, b, ks, j, c).None? <==> exists i :: j <= i < |ks| && Unreadable(a, b, ks[i])
    ensures j == 0 ==> (CountFrom(a, b, ks, j, c).None? <==> exists k :: k in ks && Unreadable(a, b, k))
    ensures CountFrom(a, b, ks, j, c).Some? ==>
      var r := CountFrom(a, b, ks, j, c).value;
      && r.total == c.total + |ks| - j
      && r.winsA + r.winsB + r.ties == c.winsA + c.winsB + c.ties + |ks| - j
    decreases |ks| - j
  {
    if j < |ks| && !Unreadable(a, b, ks[j]) {
      CountFromTotals(a, b, ks, j + 1, Tick(c, Get(a, ks[j]).value.value, Get(b, ks[j]).value.value));
    }
    if j == 0 {
      assert forall k :: k in ks <==> exists i :: 0 <= i < |ks| && ks[i] == k;
    }
  }

  /** The mean stored under `k`; 0.0 stands in where there is none, which
      the counts never read. */
  function MeanOf(d: Dict<Key, Option<real>>, k: Key): real {
    var v := Get(d, k);
    if v.Some? && v.value.Some? then v.value.value else 0.0
  }

  /** `A[k] > B[k]`: the first side's mean of `k` is strictly greater. */
  function Beats(a: Dict<Key, Option<real>>, b: Dict<Key, Option<real>>): Key -> bool {
    k => MeanOf(a, k) > MeanOf(b, k)
  }

  /** Neither mean of `k` is greater than the other. */
  function Level(a: Dict<Key, Option<real>>, b: Dict<Key, Option<real>>): Key -> bool {
    k => MeanOf(a, k) == MeanOf(b, k)
  }

  /** The positions of `ks` from `j` on whose key satisfies `p`. */
  ghost function PositionsFrom(ks: seq<Key>, j: nat, p: Key -> bool): set<nat> {
    set i | j <= i < |ks| && p(ks[i])
  }

  /** Position `j` is counted exactly when its key satisfies `p`. */
  lemma PositionsStep(ks: seq<Key>, j: nat, p: Key -> bool)
    requires j < |ks|
    ensures |PositionsFrom(ks, j, p)| == |PositionsFrom(ks, j + 1, p)| + (if p(ks[j]) then 1 else 0)
  {
    if p(ks[j]) {
      assert PositionsFrom(ks, j, p) == PositionsFrom(ks, j + 1, p) + {j};
    } else {
      assert PositionsFrom(ks, j, p) == PositionsFrom(ks, j + 1, p);
    }
  }

  /** From `j` on, A wins at the keys where its mean is strictly greater,
      B wins where B's is, and the other keys are ties. */
  lemma {:induction false} CountFromCounts(a: Dict<Key, Option<real>>, b: Dict<Key, Option<real>>, ks: seq<Key>, j: nat, c: WinCounts)
    requires j <= |ks|
    ensures CountFrom(a, b, ks, j, c).Some? ==>
      var r := CountFrom(a, b, ks, j, c).value;
      && r.winsA == c.winsA + |PositionsFrom(ks, j, Beats(a, b))|
      && r.winsB == c.winsB + |PositionsFrom(ks, j, Beats(b, a))|
      && r.ties == c.ties + |PositionsFrom(ks, j, Level(a, b))|
    decreases |ks| - j
  {
    if j == |ks| {
      assert PositionsFrom(ks, j, Beats(a, b)) == {};
      assert PositionsFrom(ks, j, Beats(b, a)) == {};
      assert PositionsFrom(ks, j, Level(a, b)) == {};
    } else if !Unreadable(a, b, ks[j]) {
      var x, y := Get(a, ks[j]).value.value, Get(b, ks[j]).value.value;
      assert MeanOf(a, ks[j]) == x && MeanOf(b, ks[j]) == y;
      CountFromCounts(a, b, ks, j + 1, Tick(c, x, y));
      PositionsStep(ks, j, Beats(a, b));
      PositionsStep(ks, j, Beats(b, a));
      PositionsStep(ks, j, Level(a, b));
    }
  }

  /** Over keys without repeats, counting positions is counting keys. */
  lemma {:induction false} PositionsAsKeys(ks: seq<Key>, j: nat, p: Key -> bool)
    requires Distinct(ks) && j <= |ks|
    ensures |PositionsFrom(ks, j, p)| == |set k | k in ks[j..] && p(k)|
    decreases |ks| - j
  {
    if j == |ks| {
      assert PositionsFrom(ks, j, p) == {};
      assert (set k | k in ks[j..] && p(k)) == {};
    } else {
      PositionsAsKeys(ks, j + 1, p);
      PositionsStep(ks, j, p);
      KeysStep(ks, j, p);
    }
  }

  /** Key `j` is counted exactly when it satisfies `p`, since it does not recur later. */
  lemma KeysStep(ks: seq<Key>, j: nat, p: Key -> bool)
    requires Distinct(ks) && j < |ks|
    ensures |set k | k in ks[j..] && p(k)| == |set k | k in ks[j + 1..] && p(k)| + (if p(ks[j]) then 1 else 0)
  {
    var x := ks[j];
    var later := set k | k in ks[j + 1..] && p(k);
    assert x !in later by {
      forall i | j + 1 <= i < |ks| ensures ks[i] != x {
        assert ks[j] != ks[i];
      }
    }
    assert ks[j..] == [x] + ks[j + 1..];
    if p(x) {
      assert (set k | k in ks[j..] && p(k)) == later + {x};
    } else {
      assert (set k | k in ks[j..] && p(k)) == later;
    }
  }

  /** The counts seen from the other side. */
  function Swapped(c: WinCounts): WinCounts {
    WinCounts(c.winsB, c.winsA, c.ties, c.total)
  }

  /** Counting from the other side gives the swapped counts. */
  lemma {:induction false} CountFromSwap(a: Dict<Key, Option<real>>, b: Dict<Key, Option<real>>, ks: seq<Key>, j: nat, c: WinCounts)
    requires j <= |ks|
    ensures CountFrom(b, a, ks, j, Swapped(c)).Some? <==> CountFrom(a, b, ks, j, c).Some?
    ensures CountFrom(a, b, ks, j, c).Some? ==>
      CountFrom(b, a, ks, j, Swapped(c)).value == Swapped(CountFrom(a, b, ks, j, c).value)
    decreases |ks| - j
  {
    if j < |ks| && !Unreadable(a, b, ks[j]) {
      var x, y := Get(a, ks[j]).value.value, Get(b, ks[j]).value.value;
      assert Tick(Swapped(c), y, x) == Swapped(Tick(c, x, y));
      CountFromSwap(a, b, ks, j + 1, Tick(c, x, y));
    }
  }

  /** Exchanging the two sides exchanges the two win counts. */
  lemma CountWinsSwap(a: Dict<Key, Option<real>>, b: Dict<Key, Option<real>>, ks: seq<Key>)
    ensures CountWins(b, a, ks).Some? <==> CountWins(a, b, ks).Some?
    ensures CountWins(a, b, ks).Some? ==>
      var c := CountWins(a, b, ks).value;
      CountWins(b, a, ks).value == WinCounts(c.winsB, c.winsA, c.ties, c.total)
  {
    CountFromSwap(a, b, ks, 0, WinCounts(0, 0, 0, 0));
  }

  /** What pairwise_win_counts returns, or None when it raises. */
  function PairwiseWins(runs: seq<Run>, envA: string, envB: string, test: string, faFilter: Option<bool>): Option<WinCounts> {
    var a := LatestOf(runs, envA, test, faFilter);
    var b := if envA == envB then [] else LatestOf(runs, envB, test, faFilter);
    CountWins(a, b, Shared(Keys(a), b))
  }

  /** The counts cover exactly the (model, quant) pairs both environments
      have, each once, and add up to the total; A wins the pairs where its
      mean is strictly greater, B those where B's is, and the rest are ties;
      the call raises exactly when one of those pairs has no mean. */
  lemma PairwiseWinsSpec(runs: seq<Run>, envA: string, envB: string, test: string, faFilter: Option<bool>)
    ensures
      var a := LatestOf(runs, envA, test, faFilter);
      var b := if envA == envB then [] else LatestOf(runs, envB, test, faFilter);
      var ks := Shared(Keys(a), b);
      var r := PairwiseWins(runs, envA, envB, test, faFilter);
      && Distinct(ks)
      && (forall k :: k in ks <==> k in Keys(a) && k in Keys(b))
      && (r.None? <==> exists k :: k in ks && Incomparable(a, b, k))
      && (r.Some? ==> r.value.total == r.value.winsA + r.value.winsB + r.value.ties == |ks|)
    ensures
      var a := LatestOf(runs, envA, test, faFilter);
      var b := if envA == envB then [] else LatestOf(runs, envB, test, faFilter);
      var r := PairwiseWins(runs, envA, envB, test, faFilter);
      r.Some? ==>
        && r.value.winsA == |set k | k in Keys(a) && k in Keys(b) && MeanOf(a, k) > MeanOf(b, k)|
        && r.value.winsB == |set k | k in Keys(a) && k in Keys(b) && MeanOf(b, k) > MeanOf(a, k)|
        && r.value.ties == |set k | k in Keys(a) && k in Keys(b) && MeanOf(a, k) == MeanOf(b, k)|
  {
    var a := LatestOf(runs, envA, test, faFilter);
    var b := if envA == envB then [] else LatestOf(runs, envB, test, faFilter);
    forall k | k in Shared(Keys(a), b) ensures Unreadable(a, b, k) <==> Incomparable(a, b, k) {
    }
    LatestValid(runs, envA, test, faFilter);
    SharedDistinct(Keys(LatestOf(runs, envA, test, faFilter)), if envA == envB then [] else LatestOf(runs, envB, test, faFilter));
    SharedCounts(a, b, Shared(Keys(a), b));
  }

  /** The counts over the shared keys, as numbers of keys. */
  lemma SharedCounts(a: Dict<Key, Option<real>>, b: Dict<Key, Option<real>>, ks: seq<Key>)
    requires Distinct(ks) && forall k :: k in ks <==> k in Keys(a) && k in Keys(b)
    ensures CountWins(a, b, ks).Some? ==>
      var r := CountWins(a, b, ks).value;
      && r.winsA == |set k | k in Keys(a) && k in Keys(b) && MeanOf(a, k) > MeanOf(b, k)|
      && r.winsB == |set k | k in Keys(a) && k in Keys(b) && MeanOf(b, k) > MeanOf(a, k)|
      && r.ties == |set k | k in Keys(a) && k in Keys(b) && MeanOf(a, k) == MeanOf(b, k)|
  {
    assert ks[0..] == ks;
    PositionsAsKeys(ks, 0, Beats(a, b));
    PositionsAsKeys(ks, 0, Beats(b, a));
    PositionsAsKeys(ks, 0, Level(a, b));
    assert (set k | k in ks && Beats(a, b)(k)) == (set k | k in Keys(a) && k in Keys(b) && MeanOf(a, k) > MeanOf(b, k));
    assert (set k | k in ks && Beats(b, a)(k)) == (set k | k in Keys(a) && k in Keys(b) && MeanOf(b, k) > MeanOf(a, k));
    assert (set k | k in ks && Level(a, b)(k)) == (set k | k in Keys(a) && k in Keys(b) && MeanOf(a, k) == MeanOf(b, k));
  }

  lemma LatestSnoc(runs: seq<Run>, i: nat, env: string, test: string, faFilter: Option<bool>)
    requires i < |runs|
    ensures LatestOf(runs[..i + 1], env, test, faFilter)
         == if Compared(runs[i], test, faFilter) && runs[i].env == env
            then Put(LatestOf(runs[..i], env, test, faFilter), KeyOf(runs[i]), runs[i].tpsMean)
            else LatestOf(runs[..i], env, test, faFilter)
  {
    assert runs[..i + 1][..i] == runs[..i];
  }

  /** pairwise_win_counts, loop by loop; None when a comparison raises TypeError. */
  method PairwiseWinCounts(runs: seq<Run>, envA: string, envB: string, test: string, faFilter: Option<bool>)
    returns (r: Option<WinCounts>)
    ensures r == PairwiseWins(runs, envA, envB, test, faFilter)
  {
    var a: Dict<Key, Option<real>> := [];
    var b: Dict<Key, Option<real>> := [];
    var i := 0;
    while i < |runs|
      invariant i <= |runs|
      invariant a == LatestOf(runs[..i], envA, test, faFilter)
      invariant b == if envA == envB then [] else LatestOf(runs[..i], envB, test, faFilter)
    {
      LatestSnoc(runs, i, envA, test, faFilter);
      LatestSnoc(runs, i, envB, test, faFilter);
      var run := runs[i];
      if Compared(run, test, faFilter) {
        if run.env == envA {
          a := Put(a, KeyOf(run), run.tpsMean);
        } else if run.env == envB {
          b := Put(b, KeyOf(run), run.tpsMean);
        }
      }
      i := i + 1;
    }
    assert runs[..i] == runs;
    var ks := Shared(Keys(a), b);
    r := CountShared(a, b, ks);
  }

  /** The `for k in (set(A) & set(B))` loop. */
  method CountShared(a: Dict<Key, Option<real>>, b: Dict<Key, Option<real>>, ks: seq<Key>) returns (r: Option<WinCounts>)
    ensures r == CountWins(a, b, ks)
  {
    var winsA, winsB, ties := 0, 0, 0;
    var j := 0;
    ghost var goal := CountFrom(a, b, ks, 0, WinCounts(0, 0, 0, 0));
    while j < |ks|
      invariant j <= |ks|
      invariant CountFrom(a, b, ks, j, WinCounts(winsA, winsB, ties, winsA + winsB + ties)) == goal
    {
      var k := ks[j];
      if Unreadable(a, b, k) {
        assert goal == CountWins(a, b, ks);
        return None;
      }
      var x := Get(a, k).value.value;
      var y := Get(b, k).value.value;
      ghost var before := WinCounts(winsA, winsB, ties, winsA + winsB + ties);
      CountFromStep(a, b, ks, j, before);
      if x > y {
        winsA := winsA + 1;
      } else if y > x {
        winsB := winsB + 1;
      } else {
        ties := ties + 1;
      }
      assert WinCounts(winsA, winsB, ties, winsA + winsB + ties) == Tick(before, x, y);
      j := j + 1;
    }
    assert goal == CountWins(a, b, ks);
    return Some(WinCounts(winsA, winsB, ties, winsA + winsB + ties));
  }

  // ---------------------------------------------------------------------------
  // average_ranks

  function Placed(c: Counts): nat { c.first + c.second + c.third }

  /** The mean placement of one environment, before rounding; None without placements. */
  function AverageRank(c: Counts): (r: Option<real>)
    ensures r.None? <==> Placed(c) == 0
    ensures r.Some? ==> 1.0 <= r.value <= 3.0
  {
    var total := Placed(c);
    if total == 0 then None
    else
      var num := (c.first + 2 * c.second + 3 * c.third) as real;
      QuotientBounds(num, total as real);
      Some(num / total as real)
  }

  lemma QuotientBounds(num: real, t: real)
    requires t > 0.0 && t <= num <= 3.0 * t
    ensures 1.0 <= num / t <= 3.0
  {
    var q := num / t;
    assert q * t == num;
    if q < 1.0 {
      PositiveProduct(1.0 - q, t);
    }
    if q > 3.0 {
      PositiveProduct(q - 3.0, t);
      assert false;
    }
  }

  lemma PositiveProduct(x: real, y: real)
    requires x > 0.0 && y > 0.0
    ensures x * y > 0.0
  {
  }

  /** average_ranks: one average per environment, in the same order. */
  function AverageRanks(place: Dict<string, Counts>): (r: Dict<string, Option<real>>)
    ensures Keys(r) == Keys(place)
    ensures forall i :: 0 <= i < |r| ==> (r[i].1.None? <==> Placed(place[i].1) == 0)
    ensures forall i :: 0 <= i < |r| ==> r[i].1.Some? ==> 1.0 <= r[i].1.value <= 3.0
  {
    seq(|place|, i requires 0 <= i < |place| => (place[i].0, AverageRank(place[i].1)))
  }

  /** Every environment in a placement table was placed at least once. */
  ghost predicate AllPlaced(pl: Dict<string, Counts>) {
    ValidDict(pl) && forall i :: 0 <= i < |pl| ==> Placed(pl[i].1) > 0
  }

  /** Storing a placed count keeps every environment placed. */
  lemma PutPlaced(pl: Dict<string, Counts>, env: string, c: Counts)
    requires AllPlaced(pl) && Placed(c) > 0
    ensures AllPlaced(Put(pl, env, c))
  {
    var r := Put(pl, env, c);
    PutGet(pl, env, c, env);
    FindUnique(r, env);
    forall i | 0 <= i < |r| ensures Placed(r[i].1) > 0 {
      assert Keys(r)[i] == r[i].0;
      if r[i].0 != env {
        assert i < |pl|;
      }
    }
  }

  lemma BumpPlaced(pl: Dict<string, Counts>, env: string, rk: nat)
    requires AllPlaced(pl) && 1 <= rk <= 3
    ensures AllPlaced(Bump(pl, env, rk))
  {
    var c := Get(pl, env).GetOr(Counts(0, 0, 0));
    if rk == 1 {
      PutPlaced(pl, env, c.(first := c.first + 1));
    } else if rk == 2 {
      PutPlaced(pl, env, c.(second := c.second + 1));
    } else {
      PutPlaced(pl, env, c.(third := c.third + 1));
    }
  }

  lemma {:induction false} BumpAllPlaced(pl: Dict<string, Counts>, ranks: seq<(string, nat)>)
    requires AllPlaced(pl)
    requires forall k :: 0 <= k < |ranks| ==> 1 <= ranks[k].1 <= 3
    ensures AllPlaced(BumpAll(pl, ranks))
  {
    if ranks != [] {
      BumpAllPlaced(pl, ranks[..|ranks| - 1]);
      BumpPlaced(BumpAll(pl, ranks[..|ranks| - 1]), ranks[|ranks| - 1].0, ranks[|ranks| - 1].1);
    }
  }

  /** A group's ranks lie in 1..3. */
  lemma RankGroupInRange(entries: seq<Run>, envs: seq<string>)
    ensures RankGroup(entries, envs).Some? ==>
      forall k :: 0 <= k < |RankGroup(entries, envs).value| ==> 1 <= RankGroup(entries, envs).value[k].1 <= 3
  {
  }

  lemma {:induction false} PlacementsPlaced(groups: Dict<Key, seq<Run>>, envs: seq<string>)
    ensures AllPlaced(PlacementsOf(groups, envs).placements)
  {
    if groups != [] {
      var prev := PlacementsOf(groups[..|groups| - 1], envs);
      PlacementsPlaced(groups[..|groups| - 1], envs);
      var rg := RankGroup(groups[|groups| - 1].1, envs);
      RankGroupInRange(groups[|groups| - 1].1, envs);
      if rg.Some? {
        BumpAllPlaced(prev.placements, rg.value);
      }
      assert PlacementsOf(groups, envs) == Tallied(prev, rg);
    }
  }

  /** average_ranks never reports None for an environment that
      margin_aware_placements lists: every listed environment was placed. */
  lemma AveragesDefined(runs: seq<Run>, envs: seq<string>, test: string, faFilter: Option<bool>)
    ensures var avg := AverageRanks(Placements(runs, envs, test, faFilter).placements);
      forall i :: 0 <= i < |avg| ==> avg[i].1.Some?
  {
    PlacementsPlaced(GroupRuns(runs, envs, test, faFilter), envs);
  }

  // ---------------------------------------------------------------------------
  // winners

  datatype Slot = First | Second | Third

  /** `c.get(slot, 0)`. */
  function SlotCount(c: Counts, slot: Slot): nat {
    match slot
    case First => c.first
    case Second => c.second
    case Third => c.third
  }

  /** `max((c.get(slot, 0) for c in place_dict.values()), default=0)`. */
  function MaxCount(place: Dict<string, Counts>, slot: Slot): (m: nat)
    ensures forall i :: 0 <= i < |place| ==> SlotCount(place[i].1, slot) <= m
    ensures m == 0 || exists i :: 0 <= i < |place| && SlotCount(place[i].1, slot) == m
  {
    if place == [] then 0
    else
      var rest := MaxCount(place[..|place| - 1], slot);
      var c := SlotCount(place[|place| - 1].1, slot);
      assert forall i :: 0 <= i < |place| - 1 ==> place[..|place| - 1][i] == place[i];
      if c > rest then c else rest
  }

  /** The environments whose count equals `m`, in table order, when `m > 0`. */
  function WithCount(place: Dict<string, Counts>, slot: Slot, m: nat): (r: seq<string>)
    ensures forall e :: e in r <==> m > 0 && exists i :: 0 <= i < |place| && place[i].0 == e && SlotCount(place[i].1, slot) == m
  {
    if place == [] then []
    else
      var p := place[..|place| - 1];
      var last := place[|place| - 1];
      var rest := WithCount(p, slot, m);
      assert forall i :: 0 <= i < |p| ==> p[i] == place[i];
      if SlotCount(last.1, slot) == m && m > 0 then rest + [last.0] else rest
  }

  /** winners: every environment with the best count of the slot, and that
      count; no environment when the best count is 0. */
  function Winners(place: Dict<string, Counts>, slot: Slot): (r: (seq<string>, nat))
    ensures forall i :: 0 <= i < |place| ==> SlotCount(place[i].1, slot) <= r.1
    ensures forall e :: e in r.0 <==> r.1 > 0 && exists i :: 0 <= i < |place| && place[i].0 == e && SlotCount(place[i].1, slot) == r.1
    ensures r.0 == [] <==> r.1 == 0
  {
    var m := MaxCount(place, slot);
    var w := WithCount(place, slot, m);
    BestPresent(place, slot, m);
    (w, m)
  }

  lemma BestPresent(place: Dict<string, Counts>, slot: Slot, m: nat)
    requires m == 0 || exists i :: 0 <= i < |place| && SlotCount(place[i].1, slot) == m
    ensures m > 0 <==> WithCount(place, slot, m) != []
  {
    if m > 0 {
      var i :| 0 <= i < |place| && SlotCount(place[i].1, slot) == m;
      assert place[i].0 in WithCount(place, slot, m);
    }
  }
}
