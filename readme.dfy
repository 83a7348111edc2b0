/** The summary table of the project README: a cell per model and backend,
    and the backend with the highest throughput per model and test. */
module ReadmeSummary {
  import opened Basics
  import opened Dicts
  import opened Extractor
  import opened Pick

  const EnvOrder: seq<string> := ["vulkan_amdvlk", "vulkan_radv", "rocm6_4_2", "rocm6_4_2-rocwmma", "rocm7_beta", "rocm7_rc"]

  lemma EnvOrderDistinct()
    ensures Distinct(EnvOrder)
  {
    assert EnvOrder[0][0] == 'v' && EnvOrder[1][0] == 'v' && EnvOrder[2][0] == 'r';
    assert EnvOrder[0][7] == 'a' && EnvOrder[1][7] == 'r';
    assert |EnvOrder[2]| == 9 && |EnvOrder[3]| == 17 && |EnvOrder[4]| == 10 && |EnvOrder[5]| == 8;
  }

  /** The run belongs to the model family and the backend. */
  predicate Matches(r: Run, prefix: string, env: string) {
    StartsWith(r.modelClean, prefix) && r.env == env
  }

  /** filter_runs: the first run of the model family on the backend. */
  function FilterRuns(runs: seq<Run>, prefix: string, env: string): (r: Option<Run>)
    ensures r.None? <==> forall i :: 0 <= i < |runs| ==> !Matches(runs[i], prefix, env)
    ensures r.Some? ==> exists i :: (0 <= i < |runs| && runs[i] == r.value && Matches(runs[i], prefix, env)
      && forall j :: 0 <= j < i ==> !Matches(runs[j], prefix, env))
  {
    if runs == [] then None
    else if Matches(runs[0], prefix, env) then
      assert runs[0] == runs[0];
      Some(runs[0])
    else
      var r := FilterRuns(runs[1..], prefix, env);
      assert forall i :: 0 < i < |runs| ==> runs[i] == runs[1..][i - 1];
      if r.Some? then
        var i :| 0 <= i < |runs[1..]| && runs[1..][i] == r.value && Matches(runs[1..][i], prefix, env)
          && forall j :: 0 <= j < i ==> !Matches(runs[1..][j], prefix, env);
        assert runs[i + 1] == r.value;
        r
      else r
  }

  /** The run belongs to the family and the backend and measures `test`. */
  predicate MatchesTest(r: Run, prefix: string, env: string, test: string) {
    Matches(r, prefix, env) && r.test == Some(test)
  }

  /** The generator `next(...)` of the table loop: the first run of the
      family on the backend that measures `test`. */
  function FirstWithTest(runs: seq<Run>, prefix: string, env: string, test: string): (r: Option<Run>)
    ensures r.None? <==> forall i :: 0 <= i < |runs| ==> !MatchesTest(runs[i], prefix, env, test)
    ensures r.Some? ==> MatchesTest(r.value, prefix, env, test)
    ensures r.Some? ==> exists i :: (0 <= i < |runs| && runs[i] == r.value && MatchesTest(runs[i], prefix, env, test)
      && forall j :: 0 <= j < i ==> !MatchesTest(runs[j], prefix, env, test))
  {
    if runs == [] then None
    else if MatchesTest(runs[0], prefix, env, test) then
      assert runs[0] == runs[0];
      Some(runs[0])
    else
      var r := FirstWithTest(runs[1..], prefix, env, test);
      assert forall i :: 0 < i < |runs| ==> runs[i] == runs[1..][i - 1];
      if r.Some? then
        var i :| 0 <= i < |runs[1..]| && runs[1..][i] == r.value && MatchesTest(runs[1..][i], prefix, env, test)
          && forall j :: 0 <= j < i ==> !MatchesTest(runs[1..][j], prefix, env, test);
        assert runs[i + 1] == r.value;
        r
      else r
  }

  // ---------------------------------------------------------------------------
  // format_cell

  /** A table cell: a dash, an error label, or the two throughputs (their
      rounding and formatting are not modelled). */
  datatype Cell = Dash | ErrorCell(text: string) | Perf(pp: real, tg: real)

  /** `ERROR_LABELS.get(kind, "⚠️ Error")`. */
  function ErrorLabel(kind: Option<ErrorKind>): string {
    match kind
    case Some(Load) => "⚠️ Load Error"
    case Some(Hang) => "⚠️ GPU Hang"
    case Some(Runtime) => "⚠️ Runtime Error"
    case None => "⚠️ Error"
  }

  /** `a or b` on two error types. */
  function FirstKind(a: Option<ErrorKind>, b: Option<ErrorKind>): Option<ErrorKind> {
    if a.Some? then a else b
  }

  function FormatCell(pp: Option<Run>, tg: Option<Run>): (c: Cell)
    ensures c.Dash? <==> pp.None? || tg.None? || (!pp.value.error && !tg.value.error && (pp.value.tpsMean.None? || tg.value.tpsMean.None?))
    ensures c.ErrorCell? <==> pp.Some? && tg.Some? && (pp.value.error || tg.value.error)
    ensures c.ErrorCell? ==> c.text == ErrorLabel(FirstKind(pp.value.errorType, tg.value.errorType))
    ensures c.Perf? ==> c == Perf(pp.value.tpsMean.value, tg.value.tpsMean.value)
  {
    if pp.None? || tg.None? then Dash
    else if pp.value.error || tg.value.error then ErrorCell(ErrorLabel(FirstKind(pp.value.errorType, tg.value.errorType)))
    else if pp.value.tpsMean.None? || tg.value.tpsMean.None? then Dash
    else Perf(pp.value.tpsMean.value, tg.value.tpsMean.value)
  }

  /** The cell of one model and backend: the first pp512 run and the first
      tg128 run of the family on that backend. */
  function CellFor(runs: seq<Run>, prefix: string, env: string): Cell {
    FormatCell(FirstWithTest(runs, prefix, env, "pp512"), FirstWithTest(runs, prefix, env, "tg128"))
  }

  /** A cell shows numbers only when both tests were measured without error
      on that backend, and the numbers are those of the first such runs. */
  lemma CellForSpec(runs: seq<Run>, prefix: string, env: string)
    ensures CellFor(runs, prefix, env).Perf? ==> (var c := CellFor(runs, prefix, env);
      && (exists i :: 0 <= i < |runs| && MatchesTest(runs[i], prefix, env, "pp512") && !runs[i].error && runs[i].tpsMean == Some(c.pp))
      && (exists i :: 0 <= i < |runs| && MatchesTest(runs[i], prefix, env, "tg128") && !runs[i].error && runs[i].tpsMean == Some(c.tg)))
    ensures (forall i :: 0 <= i < |runs| ==> !MatchesTest(runs[i], prefix, env, "pp512")) ==> CellFor(runs, prefix, env) == Dash
  {
    var pp := FirstWithTest(runs, prefix, env, "pp512");
    var tg := FirstWithTest(runs, prefix, env, "tg128");
    if CellFor(runs, prefix, env).Perf? {
      var i :| 0 <= i < |runs| && runs[i] == pp.value && MatchesTest(runs[i], prefix, env, "pp512");
      var k :| 0 <= k < |runs| && runs[k] == tg.value && MatchesTest(runs[k], prefix, env, "tg128");
    }
  }

  // ---------------------------------------------------------------------------
  // find_winner

  /** The value find_winner records for a backend: the mean of its first
      run of the family, when that run measured `test` without error. */
  function Measure(r: Option<Run>, test: string): Option<real> {
    if r.Some? && !r.value.error && r.value.test == Some(test) && r.value.tpsMean.Some?
    then r.value.tpsMean else None
  }

  function FirstMeasure(runs: seq<Run>, prefix: string, test: string): string -> Option<real> {
    e => Measure(FilterRuns(runs, prefix, e), test)
  }

  /** find_winner as written. */
  function WinnerOf(runs: seq<Run>, prefix: string, test: string): Option<string> {
    MaxKey(Collect(EnvOrder, FirstMeasure(runs, prefix, test)))
  }

  /** find_winner is None exactly when no backend of ENV_ORDER qualifies;
      otherwise it names a qualifying backend whose mean is at least every
      qualifying backend's. */
  lemma WinnerOfSpec(runs: seq<Run>, prefix: string, test: string)
    ensures WinnerOf(runs, prefix, test).None? <==>
      forall e :: e in EnvOrder ==> Measure(FilterRuns(runs, prefix, e), test).None?
    ensures WinnerOf(runs, prefix, test).Some? ==> (var w := WinnerOf(runs, prefix, test).value;
      && w in EnvOrder && Measure(FilterRuns(runs, prefix, w), test).Some?
      && forall e :: e in EnvOrder && Measure(FilterRuns(runs, prefix, e), test).Some? ==>
           Measure(FilterRuns(runs, prefix, e), test).value <= Measure(FilterRuns(runs, prefix, w), test).value)
  {
    MaxKeySpec(EnvOrder, FirstMeasure(runs, prefix, test));
  }

  /** On equal means the backend earlier in ENV_ORDER wins. */
  lemma WinnerOfFirst(runs: seq<Run>, prefix: string, test: string, e: string)
    requires WinnerOf(runs, prefix, test).Some? && WinnerOf(runs, prefix, test).value in EnvOrder
    requires e in EnvOrder && Measure(FilterRuns(runs, prefix, e), test).Some?
    requires Position(EnvOrder, e) < Position(EnvOrder, WinnerOf(runs, prefix, test).value)
    ensures Measure(FilterRuns(runs, prefix, WinnerOf(runs, prefix, test).value), test).Some?
    ensures Measure(FilterRuns(runs, prefix, e), test).value
      < Measure(FilterRuns(runs, prefix, WinnerOf(runs, prefix, test).value), test).value
  {
    EnvOrderDistinct();
    MaxKeyFirst(EnvOrder, FirstMeasure(runs, prefix, test), e);
  }

  /** Only the first run of the family on a backend is looked at: when it
      errored or measured another test, that backend never wins. */
  lemma WinnerOfFirstMatchOnly(runs: seq<Run>, prefix: string, test: string, e: string)
    requires FilterRuns(runs, prefix, e).Some?
    requires FilterRuns(runs, prefix, e).value.error || FilterRuns(runs, prefix, e).value.test != Some(test)
    ensures WinnerOf(runs, prefix, test) != Some(e)
  {
    MaxKeySpec(EnvOrder, FirstMeasure(runs, prefix, test));
  }

  /** find_winner: the loop fills `vals`, then `max` picks the key. */
  method FindWinner(runs: seq<Run>, prefix: string, test: string) returns (w: Option<string>)
    ensures w == WinnerOf(runs, prefix, test)
  {
    ghost var m := FirstMeasure(runs, prefix, test);
    var vals: Dict<string, real> := [];
    EnvOrderDistinct();
    for i := 0 to |EnvOrder|
      invariant vals == Collect(EnvOrder[..i], m)
    {
      var env := EnvOrder[i];
      var r := FilterRuns(runs, prefix, env);
      CollectStep(EnvOrder, m, i);
      assert m(env) == Measure(r, test);
      if r.Some? && !r.value.error && r.value.test == Some(test) && r.value.tpsMean.Some? {
        CollectFresh(EnvOrder, m, i);
        vals := Put(vals, env, r.value.tpsMean.value);
      }
    }
    assert EnvOrder[..|EnvOrder|] == EnvOrder;
    w := MaxKey(vals);
  }

  // ---------------------------------------------------------------------------
  // find_winner, corrected

  function TestMeasure(runs: seq<Run>, prefix: string, test: string): string -> Option<real> {
    e => Measure(FirstWithTest(runs, prefix, e, test), test)
  }

  /** find_winner looking, as the table cells do, at the first run of the
      family on each backend that measures `test`. */
  function WinnerByTest(runs: seq<Run>, prefix: string, test: string): Option<string> {
    MaxKey(Collect(EnvOrder, TestMeasure(runs, prefix, test)))
  }

  /** The corrected winner is None exactly when no backend's first run of
      `test` succeeded; otherwise it is the backend with the largest such
      mean. */
  lemma WinnerByTestSpec(runs: seq<Run>, prefix: string, test: string)
    ensures WinnerByTest(runs, prefix, test).None? <==>
      forall e :: e in EnvOrder ==> Measure(FirstWithTest(runs, prefix, e, test), test).None?
    ensures WinnerByTest(runs, prefix, test).Some? ==> (var w := WinnerByTest(runs, prefix, test).value;
      && w in EnvOrder && Measure(FirstWithTest(runs, prefix, w, test), test).Some?
      && forall e :: e in EnvOrder && Measure(FirstWithTest(runs, prefix, e, test), test).Some? ==>
           Measure(FirstWithTest(runs, prefix, e, test), test).value <= Measure(FirstWithTest(runs, prefix, w, test), test).value)
  {
    MaxKeySpec(EnvOrder, TestMeasure(runs, prefix, test));
  }

  /** A backend whose first run of `test` succeeded is never overlooked:
      the corrected winner exists and its mean is at least that backend's. */
  lemma WinnerByTestCovers(runs: seq<Run>, prefix: string, env: string, test: string)
    requires env in EnvOrder && Measure(FirstWithTest(runs, prefix, env, test), test).Some?
    ensures WinnerByTest(runs, prefix, test).Some?
    ensures Measure(FirstWithTest(runs, prefix, env, test), test).value
      <= Measure(FirstWithTest(runs, prefix, WinnerByTest(runs, prefix, test).value, test), test).GetOr(0.0)
  {
    WinnerByTestSpec(runs, prefix, test);
  }

  /** The corrected winners agree with the table: when a backend's cell shows
      numbers, both winners exist and their means are at least that cell's. */
  lemma WinnerByTestCoversCells(runs: seq<Run>, prefix: string, env: string)
    requires env in EnvOrder && CellFor(runs, prefix, env).Perf?
    ensures WinnerByTest(runs, prefix, "pp512").Some? && WinnerByTest(runs, prefix, "tg128").Some?
    ensures CellFor(runs, prefix, env).pp <= Measure(FirstWithTest(runs, prefix, WinnerByTest(runs, prefix, "pp512").value, "pp512"), "pp512").GetOr(0.0)
    ensures CellFor(runs, prefix, env).tg <= Measure(FirstWithTest(runs, prefix, WinnerByTest(runs, prefix, "tg128").value, "tg128"), "tg128").GetOr(0.0)
  {
    var c := CellFor(runs, prefix, env);
    assert Measure(FirstWithTest(runs, prefix, env, "pp512"), "pp512") == Some(c.pp);
    assert Measure(FirstWithTest(runs, prefix, env, "tg128"), "tg128") == Some(c.tg);
    WinnerByTestCovers(runs, prefix, env, "pp512");
    WinnerByTestCovers(runs, prefix, env, "tg128");
  }

  /** Two runs of one family on one backend of ENV_ORDER, both without
      error: `a` measured pp512 and is listed before `b`, which measured tg128. */
  predicate PpBeforeTg(a: Run, b: Run, prefix: string, env: string) {
    && env in EnvOrder
    && MatchesTest(a, prefix, env, "pp512") && !a.error && a.tpsMean.Some?
    && MatchesTest(b, prefix, env, "tg128") && !b.error && b.tpsMean.Some?
  }

  /** The table cell of such runs shows both measurements. */
  lemma PpBeforeTgCell(a: Run, b: Run, prefix: string, env: string)
    requires PpBeforeTg(a, b, prefix, env)
    ensures CellFor([a, b], prefix, env) == Perf(a.tpsMean.value, b.tpsMean.value)
  {
    assert [a, b][1..] == [b];
    assert !MatchesTest(a, prefix, env, "tg128");
    assert FirstWithTest([a, b], prefix, env, "pp512") == Some(a);
    assert FirstWithTest([a, b], prefix, env, "tg128") == FirstWithTest([b], prefix, env, "tg128") == Some(b);
  }

  /** find_winner as written finds no tg128 winner for such runs: the one
      backend's first run of the family measured pp512. */
  lemma PpBeforeTgAsWritten(a: Run, b: Run, prefix: string, env: string)
    requires PpBeforeTg(a, b, prefix, env)
    ensures WinnerOf([a, b], prefix, "tg128") == None
  {
    WinnerOfSpec([a, b], prefix, "tg128");
    forall e | e in EnvOrder ensures Measure(FilterRuns([a, b], prefix, e), "tg128").None? {
      if e == env {
        assert Matches([a, b][0], prefix, env);
      }
    }
  }

  /** The corrected winner names the backend. */
  lemma PpBeforeTgCorrected(a: Run, b: Run, prefix: string, env: string)
    requires PpBeforeTg(a, b, prefix, env)
    ensures WinnerByTest([a, b], prefix, "tg128") == Some(env)
  {
    WinnerByTestSpec([a, b], prefix, "tg128");
    assert [a, b][1..] == [b];
    assert Measure(FirstWithTest([a, b], prefix, env, "tg128"), "tg128").Some?;
    forall e | e in EnvOrder && e != env ensures FirstWithTest([a, b], prefix, e, "tg128").None? {
      assert !MatchesTest([a, b][0], prefix, e, "tg128") && !MatchesTest([a, b][1], prefix, e, "tg128");
    }
  }
}
