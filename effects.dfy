/** Feature effects: how much turning flash attention, ROCWMMA or hipBLASLt
    on changes throughput, measured over (model, quant) pairs that were run
    in both states. Percentages are kept unrounded. */
module Effects {
  import opened Basics
  import opened Dicts
  import opened Stats
  import opened Extractor
  import opened Ranking
  import opened Pairwise

  /** TESTS. */
  const Tests: seq<string> := ["pp512", "tg128"]

  // ---------------------------------------------------------------------------
  // flash_attention_effect

  datatype Effect = Effect(nPairs: nat, medianPct: real, min: real, max: real)

  /** The throughput of one (model, quant) per flash-attention state. */
  type FaValues = Dict<bool, real>

  /** `model_pairs`: (env, test) -> (model, quant) -> fa -> mean. */
  type ModelPairs = Dict<(string, string), Dict<Key, FaValues>>

  /** A record flash_attention_effect pairs up. */
  predicate FaUsable(r: Run, envs: seq<string>) {
    !r.error && r.tpsMean.Some? && r.test.Some? && r.test.value in Tests && r.env in envs
  }

  /** `model_pairs[(env, test)][model_key][fa] = tps_mean`. */
  function Record(mp: ModelPairs, r: Run): ModelPairs
    requires r.tpsMean.Some? && r.test.Some?
  {
    var g := (r.env, r.test.value);
    var inner := Get(mp, g).GetOr([]);
    var vals := Get(inner, KeyOf(r)).GetOr([]);
    Put(mp, g, Put(inner, KeyOf(r), Put(vals, r.fa, r.tpsMean.value)))
  }

  function PairsOf(runs: seq<Run>, envs: seq<string>): ModelPairs {
    if runs == [] then []
    else
      var mp := PairsOf(runs[..|runs| - 1], envs);
      var r := runs[|runs| - 1];
      if FaUsable(r, envs) then Record(mp, r) else mp
  }

  lemma {:induction false} PairsValid(runs: seq<Run>, envs: seq<string>)
    ensures ValidDict(PairsOf(runs, envs))
  {
    if runs != [] {
      var mp := PairsOf(runs[..|runs| - 1], envs);
      PairsValid(runs[..|runs| - 1], envs);
      var r := runs[|runs| - 1];
      if FaUsable(r, envs) {
        var g := (r.env, r.test.value);
        var inner := Get(mp, g).GetOr([]);
        var vals := Get(inner, KeyOf(r)).GetOr([]);
        PutGet(mp, g, Put(inner, KeyOf(r), Put(vals, r.fa, r.tpsMean.value)), g);
      }
    }
  }

  /** Recording a measurement adds its (env, test) group and no other. */
  lemma RecordKeys(mp: ModelPairs, r: Run)
    requires r.tpsMean.Some? && r.test.Some?
    ensures forall g :: g in Keys(Record(mp, r)) <==> g in Keys(mp) || g == (r.env, r.test.value)
  {
  }

  /** Some usable record of `runs` belongs to the (env, test) group `g`. */
  predicate HasUsable(runs: seq<Run>, envs: seq<string>, g: (string, string)) {
    runs != [] && (HasUsable(runs[..|runs| - 1], envs, g)
      || (FaUsable(runs[|runs| - 1], envs) && (runs[|runs| - 1].env, runs[|runs| - 1].test.value) == g))
  }

  lemma {:induction false} HasUsableIff(runs: seq<Run>, envs: seq<string>, g: (string, string))
    ensures HasUsable(runs, envs, g)
        <==> exists i :: 0 <= i < |runs| && FaUsable(runs[i], envs) && (runs[i].env, runs[i].test.value) == g
  {
    if runs != [] {
      var p := runs[..|runs| - 1];
      HasUsableIff(p, envs, g);
      if exists i :: 0 <= i < |p| && FaUsable(p[i], envs) && (p[i].env, p[i].test.value) == g {
        var i :| 0 <= i < |p| && FaUsable(p[i], envs) && (p[i].env, p[i].test.value) == g;
        assert runs[i] == p[i];
      }
      if exists i :: 0 <= i < |runs| && FaUsable(runs[i], envs) && (runs[i].env, runs[i].test.value) == g {
        var i :| 0 <= i < |runs| && FaUsable(runs[i], envs) && (runs[i].env, runs[i].test.value) == g;
        if i < |p| {
          assert p[i] == runs[i];
        }
      }
    }
  }

  lemma {:induction false} PairsHasUsable(runs: seq<Run>, envs: seq<string>, g: (string, string))
    ensures g in Keys(PairsOf(runs, envs)) <==> HasUsable(runs, envs, g)
  {
    if runs != [] {
      var p := runs[..|runs| - 1];
      var r := runs[|runs| - 1];
      PairsHasUsable(p, envs, g);
      if FaUsable(r, envs) {
        RecordKeys(PairsOf(p, envs), r);
      }
    }
  }

  /** The groups are the (env, test) pairs of the usable records. */
  lemma PairsKeys(runs: seq<Run>, envs: seq<string>, g: (string, string))
    ensures g in Keys(PairsOf(runs, envs))
        <==> exists i :: 0 <= i < |runs| && FaUsable(runs[i], envs) && (runs[i].env, runs[i].test.value) == g
  {
    PairsHasUsable(runs, envs, g);
    HasUsableIff(runs, envs, g);
  }

  /** Both states were measured and the off state is positive. */
  predicate Paired(v: FaValues) {
    true in Keys(v) && false in Keys(v) && Get(v, false).value > 0.0
  }

  /** The change in percent from off to on. */
  function Delta(v: FaValues): real
    requires Paired(v)
  {
    (Get(v, true).value - Get(v, false).value) / Get(v, false).value * 100.0
  }

  /** `deltas` of one (env, test) group, in (model, quant) order. */
  function Deltas(d: Dict<Key, FaValues>): seq<real> {
    if d == [] then []
    else
      var rest := Deltas(d[..|d| - 1]);
      var v := d[|d| - 1].1;
      if Paired(v) then rest + [Delta(v)] else rest
  }

  /** A delta comes from a paired (model, quant), and every paired one gives one. */
  lemma {:induction false} DeltasMembers(d: Dict<Key, FaValues>)
    ensures |Deltas(d)| <= |d|
    ensures forall x :: x in Deltas(d) <==> exists i :: 0 <= i < |d| && Paired(d[i].1) && x == Delta(d[i].1)
  {
    if d != [] {
      var p := d[..|d| - 1];
      DeltasMembers(p);
      assert forall i :: 0 <= i < |p| ==> p[i] == d[i];
      forall x | x in Deltas(d) ensures exists i :: 0 <= i < |d| && Paired(d[i].1) && x == Delta(d[i].1) {
        if x !in Deltas(p) {
          assert Paired(d[|d| - 1].1) && x == Delta(d[|d| - 1].1);
        }
      }
    }
  }

  /** The entry of one (env, test) group: None without deltas; otherwise the
      number of deltas and their median, smallest and largest. */
  function EffectOf(ds: seq<real>): (r: Option<Effect>)
    ensures r.None? <==> ds == []
    ensures r.Some? ==> r.value.nPairs == |ds| > 0 && r.value.min <= r.value.medianPct <= r.value.max
    ensures r.Some? ==> r.value.min in ds && r.value.max in ds
    ensures r.Some? ==> forall i :: 0 <= i < |ds| ==> r.value.min <= ds[i] <= r.value.max
  {
    if ds == [] then None
    else
      MedianBounds(ds);
      Some(Effect(|ds|, Median(ds), Min(ds), Max(ds)))
  }

  /** The entry of one group of `model_pairs`. */
  function GroupEffect(d: Dict<Key, FaValues>): Option<Effect> {
    EffectOf(Deltas(d))
  }

  /** The summary loop for a per-group computation `eff`: the groups for
      which it yields something, with what it yields, in group order. */
  function Summary<G(==), D, E>(mp: Dict<G, D>, eff: D -> Option<E>): Dict<G, E> {
    if mp == [] then []
    else
      var s := Summary(mp[..|mp| - 1], eff);
      var e := eff(mp[|mp| - 1].1);
      if e.Some? then Put(s, mp[|mp| - 1].0, e.value) else s
  }

  /** What flash_attention_effect returns, flattened to (env, test) keys in
      the order the groups were formed. */
  function FlashEffects(runs: seq<Run>, envs: seq<string>): Dict<(string, string), Effect> {
    Summary(PairsOf(runs, envs), GroupEffect)
  }

  /** The i-th group yields `x.1` under the key `x.0`. */
  ghost predicate SummaryEntry<G, D, E>(mp: Dict<G, D>, eff: D -> Option<E>, x: (G, E)) {
    exists i :: 0 <= i < |mp| && mp[i].0 == x.0 && eff(mp[i].1) == Some(x.1)
  }

  /** With distinct groups, the summary holds exactly the entries the groups yield. */
  lemma {:induction false} SummaryEntries<G, D, E>(mp: Dict<G, D>, eff: D -> Option<E>)
    requires ValidDict(mp)
    ensures forall x :: x in Summary(mp, eff) <==> SummaryEntry(mp, eff, x)
  {
    if mp != [] {
      var p := mp[..|mp| - 1];
      var last := mp[|mp| - 1];
      assert ValidDict(p) by {
        forall i, j | 0 <= i < j < |p| ensures Keys(p)[i] != Keys(p)[j] {
          assert Keys(p)[i] == Keys(mp)[i] && Keys(p)[j] == Keys(mp)[j];
        }
      }
      SummaryEntries(p, eff);
      var s := Summary(p, eff);
      var e := eff(last.1);
      if e.Some? {
        forall n | 0 <= n < |s| ensures Keys(s)[n] != last.0 {
          assert s[n] in s && SummaryEntry(p, eff, s[n]);
          var i :| 0 <= i < |p| && p[i].0 == s[n].0 && eff(p[i].1) == Some(s[n].1);
          assert Keys(mp)[i] == s[n].0 && Keys(mp)[|mp| - 1] == last.0;
        }
        assert Summary(mp, eff) == s + [(last.0, e.value)];
      }
      forall x ensures SummaryEntry(mp, eff, x) <==> SummaryEntry(p, eff, x) || (x.0 == last.0 && e == Some(x.1)) {
        if SummaryEntry(mp, eff, x) {
          var i :| 0 <= i < |mp| && mp[i].0 == x.0 && eff(mp[i].1) == Some(x.1);
          if i < |p| {
            assert p[i] == mp[i];
          }
        }
        if SummaryEntry(p, eff, x) {
          var i :| 0 <= i < |p| && p[i].0 == x.0 && eff(p[i].1) == Some(x.1);
          assert mp[i] == p[i];
        }
      }
    }
  }

  /** Every entry flash_attention_effect reports belongs to an (env, test)
      group of usable records, counts its deltas, and has its median between
      its smallest and its largest delta. */
  lemma FlashEntrySpec(runs: seq<Run>, envs: seq<string>, x: ((string, string), Effect))
    requires x in FlashEffects(runs, envs)
    ensures exists i :: 0 <= i < |runs| && FaUsable(runs[i], envs) && (runs[i].env, runs[i].test.value) == x.0
    ensures x.1.nPairs > 0 && x.1.min <= x.1.medianPct <= x.1.max
  {
    var mp := PairsOf(runs, envs);
    PairsValid(runs, envs);
    SummaryEntries(mp, GroupEffect);
    assert SummaryEntry(mp, GroupEffect, x);
    var i :| 0 <= i < |mp| && mp[i].0 == x.0 && GroupEffect(mp[i].1) == Some(x.1);
    assert Keys(mp)[i] == x.0;
    PairsKeys(runs, envs, x.0);
  }

  /** Every (env, test) group with at least one delta is reported, with its effect. */
  lemma FlashGroupReported(runs: seq<Run>, envs: seq<string>, i: nat)
    requires i < |PairsOf(runs, envs)| && Deltas(PairsOf(runs, envs)[i].1) != []
    ensures (PairsOf(runs, envs)[i].0, GroupEffect(PairsOf(runs, envs)[i].1).value) in FlashEffects(runs, envs)
  {
    var mp := PairsOf(runs, envs);
    PairsValid(runs, envs);
    SummaryEntries(mp, GroupEffect);
    assert SummaryEntry(mp, GroupEffect, (mp[i].0, GroupEffect(mp[i].1).value));
  }

  lemma SummarySnoc<G, D, E>(mp: Dict<G, D>, eff: D -> Option<E>, j: nat)
    requires j < |mp|
    ensures Summary(mp[..j + 1], eff)
         == if eff(mp[j].1).None? then Summary(mp[..j], eff) else Put(Summary(mp[..j], eff), mp[j].0, eff(mp[j].1).value)
  {
    assert mp[..j + 1][..j] == mp[..j];
  }

  lemma DeltasSnoc(d: Dict<Key, FaValues>, k: nat)
    requires k < |d|
    ensures Deltas(d[..k + 1]) == if Paired(d[k].1) then Deltas(d[..k]) + [Delta(d[k].1)] else Deltas(d[..k])
  {
    assert d[..k + 1][..k] == d[..k];
  }

  lemma PairsSnoc(runs: seq<Run>, envs: seq<string>, i: nat)
    requires i < |runs|
    ensures PairsOf(runs[..i + 1], envs) == if FaUsable(runs[i], envs) then Record(PairsOf(runs[..i], envs), runs[i]) else PairsOf(runs[..i], envs)
  {
    assert runs[..i + 1][..i] == runs[..i];
  }

  /** flash_attention_effect, loop by loop. */
  method FlashAttentionEffect(runs: seq<Run>, envs: seq<string>) returns (summary: Dict<(string, string), Effect>)
    ensures summary == FlashEffects(runs, envs)
  {
    var mp := PairRuns(runs, envs);
    summary := SummarizePairs(mp);
  }

  /** The loop that fills `model_pairs`. */
  method PairRuns(runs: seq<Run>, envs: seq<string>) returns (mp: ModelPairs)
    ensures mp == PairsOf(runs, envs)
  {
    mp := [];
    var i := 0;
    while i < |runs|
      invariant i <= |runs|
      invariant mp == PairsOf(runs[..i], envs)
    {
      PairsSnoc(runs, envs, i);
      if FaUsable(runs[i], envs) {
        mp := Record(mp, runs[i]);
      }
      i := i + 1;
    }
    assert runs[..i] == runs;
  }

  /** The `for (env, test), d in model_pairs.items()` loop. */
  method SummarizePairs(mp: ModelPairs) returns (summary: Dict<(string, string), Effect>)
    ensures summary == Summary(mp, GroupEffect)
  {
    summary := [];
    var j := 0;
    while j < |mp|
      invariant j <= |mp|
      invariant summary == Summary(mp[..j], GroupEffect)
    {
      SummarySnoc(mp, GroupEffect, j);
      var deltas := GroupDeltas(mp[j].1);
      if deltas != [] {
        summary := Put(summary, mp[j].0, Effect(|deltas|, Median(deltas), Min(deltas), Max(deltas)));
      }
      j := j + 1;
    }
    assert mp[..j] == mp;
  }

  /** The `for mk, vals in d.items()` loop. */
  method GroupDeltas(d: Dict<Key, FaValues>) returns (deltas: seq<real>)
    ensures deltas == Deltas(d)
  {
    deltas := [];
    var k := 0;
    while k < |d|
      invariant k <= |d|
      invariant deltas == Deltas(d[..k])
    {
      DeltasSnoc(d, k);
      var vals := d[k].1;
      if true in Keys(vals) && false in Keys(vals) && Get(vals, false).value > 0.0 {
        deltas := deltas + [(Get(vals, true).value - Get(vals, false).value) / Get(vals, false).value * 100.0];
      }
      k := k + 1;
    }
    assert d[..k] == d;
  }

  // ---------------------------------------------------------------------------
  // rocwmma_effect and hipblaslt_effect

  /** `data_on` / `data_off`: every mean per (model, quant), None included. */
  type Samples = Dict<Key, seq<Option<real>>>

  predicate Sampled(r: Run, test: string) {
    !r.error && r.test == Some(test)
  }

  function SamplesOf(runs: seq<Run>, env: string, test: string): Samples {
    if runs == [] then []
    else
      var d := SamplesOf(runs[..|runs| - 1], env, test);
      var r := runs[|runs| - 1];
      if Sampled(r, test) && r.env == env then Put(d, KeyOf(r), Get(d, KeyOf(r)).GetOr([]) + [r.tpsMean]) else d
  }

  function Unwrapped(xs: seq<Option<real>>): seq<real>
    requires forall i :: 0 <= i < |xs| ==> xs[i].Some?
  {
    seq(|xs|, i requires 0 <= i < |xs| => xs[i].value)
  }

  /** `statistics.median` on means that may be None: it raises (None) on an
      empty list and when sorting has to compare a None; a single None is
      returned as it is. */
  function SampleMedian(xs: seq<Option<real>>): Option<Option<real>> {
    if xs == [] then None
    else if |xs| == 1 then Some(xs[0])
    else if exists i :: 0 <= i < |xs| && xs[i].None? then None
    else Some(Some(Median(Unwrapped(xs))))
  }

  /** The median raises exactly on an empty list or a None among several
      means; a number it returns is the median of all means, none missing. */
  lemma SampleMedianSpec(xs: seq<Option<real>>)
    ensures SampleMedian(xs).None? <==> xs == [] || (|xs| >= 2 && exists i :: 0 <= i < |xs| && xs[i].None?)
    ensures SampleMedian(xs).Some? && SampleMedian(xs).value.Some? ==>
      (forall i :: 0 <= i < |xs| ==> xs[i].Some?) && SampleMedian(xs).value.value == Median(Unwrapped(xs))
  {
    if |xs| == 1 && xs[0].Some? {
      assert Sort(Unwrapped(xs)) == Unwrapped(xs);
    }
  }

  datatype Step = Raises | Skipped | Ratio(value: real)

  /** One common (model, quant): its ratio, a skip when the off median is not
      positive, or TypeError when a median is None where it is compared or divided. */
  function RatioOf(on: seq<Option<real>>, off: seq<Option<real>>): Step {
    var aon := SampleMedian(on);
    var aoff := SampleMedian(off);
    if aon.None? || aoff.None? || aoff.value.None? then Raises
    else if aoff.value.value <= 0.0 then Skipped
    else if aon.value.None? then Raises
    else Ratio(aon.value.value / aoff.value.value - 1.0)
  }

  /** A ratio needs every mean of both states present and a positive off
      median, and is on/off - 1 of the two medians; a skip is a non-positive
      off median. */
  lemma RatioOfSpec(on: seq<Option<real>>, off: seq<Option<real>>)
    ensures RatioOf(on, off).Ratio? ==>
      && on != [] && off != []
      && (forall i :: 0 <= i < |on| ==> on[i].Some?)
      && (forall i :: 0 <= i < |off| ==> off[i].Some?)
      && Median(Unwrapped(off)) > 0.0
      && RatioOf(on, off).value == Median(Unwrapped(on)) / Median(Unwrapped(off)) - 1.0
    ensures RatioOf(on, off).Skipped? ==>
      && off != [] && (forall i :: 0 <= i < |off| ==> off[i].Some?)
      && Median(Unwrapped(off)) <= 0.0
  {
    SampleMedianSpec(on);
    SampleMedianSpec(off);
  }

  /** The step for common key `k`; a missing key reads as `[]`, as a defaultdict does. */
  function KeyStep(on: Samples, off: Samples, k: Key): Step {
    RatioOf(Get(on, k).GetOr([]), Get(off, k).GetOr([]))
  }

  /** `ratios` over the keys `ks`, or None when one of them raises. */
  function Ratios(on: Samples, off: Samples, ks: seq<Key>): (r: Option<seq<real>>)
    ensures r.None? <==> exists k :: k in ks && KeyStep(on, off, k).Raises?
    ensures r.Some? ==> |r.value| <= |ks|
  {
    if ks == [] then Some([])
    else
      var k := ks[|ks| - 1];
      assert ks == ks[..|ks| - 1] + [k];
      var prev := Ratios(on, off, ks[..|ks| - 1]);
      var step := KeyStep(on, off, k);
      if prev.None? || step.Raises? then None
      else if step.Skipped? then prev
      else Some(prev.value + [step.value])
  }

  lemma RatiosSnoc(on: Samples, off: Samples, ks: seq<Key>, j: nat)
    requires j < |ks|
    ensures var prev := Ratios(on, off, ks[..j]);
      var step := KeyStep(on, off, ks[j]);
      Ratios(on, off, ks[..j + 1])
      == if prev.None? || step.Raises? then None else if step.Skipped? then prev else Some(prev.value + [step.value])
  {
    assert ks[..j + 1][..j] == ks[..j];
  }

  /** A ratio comes from a common key whose step yields it, and every such key yields one. */
  lemma {:induction false} RatiosMembers(on: Samples, off: Samples, ks: seq<Key>)
    requires Ratios(on, off, ks).Some?
    ensures forall x :: x in Ratios(on, off, ks).value <==> exists k :: k in ks && KeyStep(on, off, k) == Ratio(x)
  {
    if ks != [] {
      var p := ks[..|ks| - 1];
      var k := ks[|ks| - 1];
      assert ks == p + [k];
      RatiosMembers(on, off, p);
    }
  }

  /** Sorting the common keys compares a None quant with a string, and
      raises TypeError, when two of them share a model. */
  predicate Unsortable(ks: seq<Key>) {
    exists i, j :: 0 <= i < |ks| && 0 <= j < |ks| && ks[i].model == ks[j].model && ks[i].quant.None? && ks[j].quant.Some?
  }

  datatype EffectRow = EffectRow(caption: string, test: string, envOn: string, envOff: string, nPairs: nat, medianPct: real)

  datatype Outcome = Raised | NoRow | Emitted(row: EffectRow)

  /** `data_off`: a record of `env_on` never lands there. */
  function OffSamples(runs: seq<Run>, envOn: string, envOff: string, test: string): Samples {
    if envOn == envOff then [] else SamplesOf(runs, envOff, test)
  }

  /** One (pair, test) iteration on the collected samples: no row without
      common keys or ratios, otherwise the number of ratios and their median
      in percent. */
  function OutcomeOf(on: Samples, off: Samples, envOn: string, envOff: string, caption: string, test: string): (o: Outcome)
    ensures o.Emitted? ==> o.row.nPairs > 0 && o.row.test == test && (o.row.envOn, o.row.envOff, o.row.caption) == (envOn, envOff, caption)
  {
    var common := Shared(Keys(on), off);
    if common == [] then NoRow
    else if Unsortable(common) then Raised
    else RatiosOutcome(Ratios(on, off, common), envOn, envOff, caption, test)
  }

  /** What the ratios of the common keys give: a raise, no row, or the row
      with their count and median in percent. */
  function RatiosOutcome(ratios: Option<seq<real>>, envOn: string, envOff: string, caption: string, test: string): (o: Outcome)
    ensures o.Emitted? ==> o.row.nPairs > 0 && o.row.test == test && (o.row.envOn, o.row.envOff, o.row.caption) == (envOn, envOff, caption)
  {
    match ratios
    case None => Raised
    case Some(rs) => if rs == [] then NoRow else Emitted(EffectRow(caption, test, envOn, envOff, |rs|, 100.0 * Median(rs)))
  }

  function PairOutcome(runs: seq<Run>, envOn: string, envOff: string, caption: string, test: string): Outcome {
    OutcomeOf(SamplesOf(runs, envOn, test), OffSamples(runs, envOn, envOff, test), envOn, envOff, caption, test)
  }

  /** The rows of one (env_on, env_off, caption) triple over `tests`. */
  function TestRows(runs: seq<Run>, pair: (string, string, string), tests: seq<string>): Option<seq<EffectRow>> {
    if tests == [] then Some([])
    else
      match TestRows(runs, pair, tests[..|tests| - 1])
      case None => None
      case Some(rows) =>
        match PairOutcome(runs, pair.0, pair.1, pair.2, tests[|tests| - 1])
        case Raised => None
        case NoRow => Some(rows)
        case Emitted(row) => Some(rows + [row])
  }

  /** What rocwmma_effect (and hipblaslt_effect) return, or None when they raise. */
  function EffectRows(runs: seq<Run>, pairs: seq<(string, string, string)>, tests: seq<string>): Option<seq<EffectRow>> {
    if pairs == [] then Some([])
    else
      match EffectRows(runs, pairs[..|pairs| - 1], tests)
      case None => None
      case Some(rows) =>
        match TestRows(runs, pairs[|pairs| - 1], tests)
        case None => None
        case Some(more) => Some(rows + more)
  }

  /** An emitted row counts the ratios of the common (model, quant) pairs
      whose medians are both present with a positive off median; there is at
      least one, at most one per common pair, and the median lies between
      the smallest and the largest ratio. */
  lemma OutcomeSpec(on: Samples, off: Samples, envOn: string, envOff: string, caption: string, test: string)
    requires OutcomeOf(on, off, envOn, envOff, caption, test).Emitted?
    ensures
      var common := Shared(Keys(on), off);
      var row := OutcomeOf(on, off, envOn, envOff, caption, test).row;
      var rs := Ratios(on, off, common).value;
      && row == EffectRow(caption, test, envOn, envOff, |rs|, 100.0 * Median(rs))
      && 0 < row.nPairs <= |common|
      && (forall x :: x in rs <==> exists k :: k in Keys(on) && k in Keys(off) && KeyStep(on, off, k) == Ratio(x))
      && 100.0 * Min(rs) <= row.medianPct <= 100.0 * Max(rs)
  {
    var common := Shared(Keys(on), off);
    var r := Ratios(on, off, common);
    assert OutcomeOf(on, off, envOn, envOff, caption, test) == RatiosOutcome(r, envOn, envOff, caption, test);
    assert r.Some? && r.value != [];
    assert OutcomeOf(on, off, envOn, envOff, caption, test).row
        == EffectRow(caption, test, envOn, envOff, |r.value|, 100.0 * Median(r.value));
    RatiosMembers(on, off, common);
    MedianBounds(r.value);
  }

  /** Every row names one of the requested triples and tests and rests on
      at least one ratio. */
  lemma {:induction false} EffectRowsSpec(runs: seq<Run>, pairs: seq<(string, string, string)>, tests: seq<string>)
    requires EffectRows(runs, pairs, tests).Some?
    ensures forall row :: row in EffectRows(runs, pairs, tests).value ==>
      row.nPairs > 0 && row.test in tests && (row.envOn, row.envOff, row.caption) in pairs
  {
    if pairs != [] {
      var p := pairs[..|pairs| - 1];
      EffectRowsSpec(runs, p, tests);
      TestRowsSpec(runs, pairs[|pairs| - 1], tests);
    }
  }

  lemma {:induction false} TestRowsSpec(runs: seq<Run>, pair: (string, string, string), tests: seq<string>)
    requires TestRows(runs, pair, tests).Some?
    ensures forall row :: row in TestRows(runs, pair, tests).value ==>
      row.nPairs > 0 && row.test in tests && (row.envOn, row.envOff, row.caption) == pair
  {
    if tests != [] {
      var p := tests[..|tests| - 1];
      TestRowsSpec(runs, pair, p);

    }
  }

  /** rocwmma_effect, loop by loop; None when it raises. */
  method RocwmmaEffect(runs: seq<Run>, pairs: seq<(string, string, string)>, tests: seq<string>)
    returns (rows: Option<seq<EffectRow>>)
    ensures rows == EffectRows(runs, pairs, tests)
  {
    var acc: seq<EffectRow> := [];
    var p := 0;
    while p < |pairs|
      invariant p <= |pairs|
      invariant EffectRows(runs, pairs[..p], tests) == Some(acc)
    {
      assert pairs[..p + 1][..p] == pairs[..p];
      var more := TripleRows(runs, pairs[p], tests);
      if more.None? {
        EffectRowsRaised(runs, pairs, tests, p + 1);
        return None;
      }
      acc := acc + more.value;
      p := p + 1;
    }
    assert pairs[..p] == pairs;
    return Some(acc);
  }

  /** hipblaslt_effect has the same body as rocwmma_effect. */
  method HipblasltEffect(runs: seq<Run>, pairs: seq<(string, string, string)>, tests: seq<string>)
    returns (rows: Option<seq<EffectRow>>)
    ensures rows == EffectRows(runs, pairs, tests)
  {
    rows := RocwmmaEffect(runs, pairs, tests);
  }

  /** Once a triple raises, the whole call raises. */
  lemma {:induction false} EffectRowsRaised(runs: seq<Run>, pairs: seq<(string, string, string)>, tests: seq<string>, n: nat)
    requires n <= |pairs| && EffectRows(runs, pairs[..n], tests).None?
    ensures EffectRows(runs, pairs, tests).None?
    decreases |pairs| - n
  {
    if n < |pairs| {
      assert pairs[..n + 1][..n] == pairs[..n];
      EffectRowsRaised(runs, pairs, tests, n + 1);
    } else {
      assert pairs[..n] == pairs;
    }
  }

  lemma {:induction false} TestRowsRaised(runs: seq<Run>, pair: (string, string, string), tests: seq<string>, n: nat)
    requires n <= |tests| && TestRows(runs, pair, tests[..n]).None?
    ensures TestRows(runs, pair, tests).None?
    decreases |tests| - n
  {
    if n < |tests| {
      assert tests[..n + 1][..n] == tests[..n];
      TestRowsRaised(runs, pair, tests, n + 1);
    } else {
      assert tests[..n] == tests;
    }
  }

  lemma TestRowsSnoc(runs: seq<Run>, pair: (string, string, string), tests: seq<string>, t: nat)
    requires t < |tests|
    ensures TestRows(runs, pair, tests[..t + 1])
         == match TestRows(runs, pair, tests[..t])
            case None => None
            case Some(rows) =>
              match PairOutcome(runs, pair.0, pair.1, pair.2, tests[t])
              case Raised => None
              case NoRow => Some(rows)
              case Emitted(row) => Some(rows + [row])
  {
    assert tests[..t + 1][..t] == tests[..t];
  }

  /** The `for test in tests` loop of one triple. */
  method TripleRows(runs: seq<Run>, pair: (string, string, string), tests: seq<string>) returns (rows: Option<seq<EffectRow>>)
    ensures rows == TestRows(runs, pair, tests)
  {
    var acc: seq<EffectRow> := [];
    var t := 0;
    while t < |tests|
      invariant t <= |tests|
      invariant TestRows(runs, pair, tests[..t]) == Some(acc)
    {
      TestRowsSnoc(runs, pair, tests, t);
      var on, off := CollectSamples(runs, pair.0, pair.1, tests[t]);
      var o := CompareStates(on, off, pair.0, pair.1, pair.2, tests[t]);
      if o.Raised? {
        TestRowsRaised(runs, pair, tests, t + 1);
        return None;
      }
      if o.Emitted? {
        acc := acc + [o.row];
      }
      t := t + 1;
    }
    assert tests[..t] == tests;
    return Some(acc);
  }

  lemma SamplesSnoc(runs: seq<Run>, i: nat, env: string, test: string)
    requires i < |runs|
    ensures SamplesOf(runs[..i + 1], env, test)
         == var d := SamplesOf(runs[..i], env, test);
            var r := runs[i];
            if Sampled(r, test) && r.env == env then Put(d, KeyOf(r), Get(d, KeyOf(r)).GetOr([]) + [r.tpsMean]) else d
  {
    assert runs[..i + 1][..i] == runs[..i];
  }

  /** The loop that fills `data_on` and `data_off`. */
  method CollectSamples(runs: seq<Run>, envOn: string, envOff: string, test: string) returns (on: Samples, off: Samples)
    ensures on == SamplesOf(runs, envOn, test)
    ensures off == OffSamples(runs, envOn, envOff, test)
  {
    on, off := [], [];
    var i := 0;
    while i < |runs|
      invariant i <= |runs|
      invariant on == SamplesOf(runs[..i], envOn, test)
      invariant off == OffSamples(runs[..i], envOn, envOff, test)
    {
      SamplesSnoc(runs, i, envOn, test);
      SamplesSnoc(runs, i, envOff, test);
      var r := runs[i];
      if Sampled(r, test) {
        if r.env == envOn {
          on := Put(on, KeyOf(r), Get(on, KeyOf(r)).GetOr([]) + [r.tpsMean]);
        } else if r.env == envOff {
          off := Put(off, KeyOf(r), Get(off, KeyOf(r)).GetOr([]) + [r.tpsMean]);
        }
      }
      i := i + 1;
    }
    assert runs[..i] == runs;
  }

  /** The body of the `for test in tests` loop. */
  method CompareStates(on: Samples, off: Samples, envOn: string, envOff: string, caption: string, test: string) returns (o: Outcome)
    ensures o == OutcomeOf(on, off, envOn, envOff, caption, test)
  {
    var common := Shared(Keys(on), off);
    if common == [] {
      return NoRow;
    }
    if Unsortable(common) {
      return Raised;
    }
    var ratios := CommonRatios(on, off, common);
    return RatiosOutcome(ratios, envOn, envOff, caption, test);
  }

  /** The `for k in common` loop. */
  method CommonRatios(on: Samples, off: Samples, ks: seq<Key>) returns (r: Option<seq<real>>)
    ensures r == Ratios(on, off, ks)
  {
    var ratios: seq<real> := [];
    var j := 0;
    while j < |ks|
      invariant j <= |ks|
      invariant Ratios(on, off, ks[..j]) == Some(ratios)
    {
      RatiosSnoc(on, off, ks, j);
      var step := KeyRatio(Get(on, ks[j]).GetOr([]), Get(off, ks[j]).GetOr([]));
      if step.Raises? {
        assert ks[j] in ks && KeyStep(on, off, ks[j]).Raises?;
        return None;
      }
      if step.Ratio? {
        ratios := ratios + [step.value];
      }
      j := j + 1;
    }
    assert ks[..j] == ks;
    return Some(ratios);
  }

  /** The body of the `for k in common` loop: both medians, the positivity
      test and the ratio. */
  method KeyRatio(onSamples: seq<Option<real>>, offSamples: seq<Option<real>>) returns (step: Step)
    ensures step == RatioOf(onSamples, offSamples)
  {
    var aon := SampleMedian(onSamples);
    var aoff := SampleMedian(offSamples);
    if aon.None? || aoff.None? || aoff.value.None? {
      return Raises;
    }
    if !(aoff.value.value > 0.0) {
      return Skipped;
    }
    if aon.value.None? {
      return Raises;
    }
    return Ratio(aon.value.value / aoff.value.value - 1.0);
  }
}
