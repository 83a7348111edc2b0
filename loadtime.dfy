/** The load-time report: the console log of the load-time benchmark, one
    line per model and backend, becomes a table of average load times with
    the fastest backend per model. */
module LoadTime {
  import opened Basics
  import opened Dicts
  import opened Patterns
  import opened Pick
  import Viewer

  const EnvOrder: seq<string> := ["vulkan_radv", "vulkan_amdvlk", "rocm6_4_2", "rocm7_beta", "rocm7_rc"]

  lemma EnvOrderDistinct()
    ensures Distinct(EnvOrder)
  {
    assert EnvOrder[0][7] == 'r' && EnvOrder[1][7] == 'a';
    assert |EnvOrder[0]| == 11 && |EnvOrder[1]| == 13 && |EnvOrder[2]| == 9 && |EnvOrder[3]| == 10 && |EnvOrder[4]| == 8;
  }

  // ---------------------------------------------------------------------------
  // The line loop

  /** What one log line contributes: a time, a failure, nothing, or an
      average that `float` rejects (the script stops with ValueError). */
  datatype Line = Ok(env: string, model: string, avg: real) | Fail(env: string, model: string) | Other | BadNumber

  /** The stripped line is tried against the success pattern first, then the
      failure pattern. */
  function Classify(line: string): Line {
    var s := Strip(line);
    Verdict(LoadOkAt(s, 0), LoadFailAt(s, 0))
  }

  /** The line's contribution given the two pattern matches. */
  function Verdict(ok: Option<Cap>, fail: Option<Cap>): Line
    requires ok.Some? ==> GroupShape(LoadOk, ok.value.groups)
    requires fail.Some? ==> GroupShape(LoadFail, fail.value.groups)
  {
    match ok
    case Some(c) =>
      (match ParseDecimal(c.groups[2])
       case None => BadNumber
       case Some(v) => Ok(c.groups[0], c.groups[1], v))
    case None =>
      match fail
      case Some(c) => Fail(c.groups[0], c.groups[1])
      case None => Other
  }

  /** A success line records its backend, model and average; a failure line
      is looked at only when the success pattern does not match; a line
      matching neither records nothing. */
  lemma ClassifySpec(line: string)
    ensures Classify(line).Ok? || Classify(line).BadNumber? <==> LoadOkAt(Strip(line), 0).Some?
    ensures Classify(line).Fail? <==> LoadOkAt(Strip(line), 0).None? && LoadFailAt(Strip(line), 0).Some?
    ensures Classify(line).Ok? ==> (var k := Classify(line); exists t, n :: (
      && StartsWith(Strip(line), "✔ [" + k.env + "] " + k.model + " avg=" + t + "s over " + n + " runs")
      && AllIn(t, DigitDot) && ParseDecimal(t) == Some(k.avg)))
    ensures Classify(line).Fail? ==> (var k := Classify(line);
      StartsWith(Strip(line), "✖ [" + k.env + "] " + k.model + " all runs failed"))
  {
    var s := Strip(line);
    if LoadOkAt(s, 0).Some? {
      var c := LoadOkAt(s, 0).value;
      if ParseDecimal(c.groups[2]).Some? {
        assert Classify(line) == Ok(c.groups[0], c.groups[1], ParseDecimal(c.groups[2]).value);
      }
    } else if LoadFailAt(s, 0).Some? {
      var c := LoadFailAt(s, 0).value;
      assert Classify(line) == Fail(c.groups[0], c.groups[1]);
    }
  }

  /** `results[model][env]`: the recorded times per model, then per backend;
      `None` marks a backend whose runs all failed. */
  type Times = Dict<string, Option<real>>
  type Results = Dict<string, Times>

  /** `results[model][env] = t` on the defaultdict. */
  function Record(res: Results, model: string, env: string, t: Option<real>): Results {
    Put(res, model, Put(TimesOf(res, model), env, t))
  }

  /** The recorded entry for a model and backend, if any. */
  function Lookup(res: Results, model: string, env: string): Option<Option<real>> {
    match Get(res, model)
    case None => None
    case Some(ts) => Get(ts, env)
  }

  predicate ValidResults(res: Results) {
    ValidDict(res) && forall i :: 0 <= i < |res| ==> ValidDict(res[i].1)
  }

  /** The inner dictionary of a model, empty when the model is new. */
  function TimesOf(res: Results, model: string): Times {
    Get(res, model).GetOr([])
  }

  lemma TimesOfValid(res: Results, model: string)
    requires ValidResults(res)
    ensures ValidDict(TimesOf(res, model))
  {
    if Get(res, model).Some? {
      assert TimesOf(res, model) == res[Find(res, model).value].1;
    }
  }

  /** Storing a valid inner dictionary keeps every key unique. */
  lemma PutValid(res: Results, model: string, inner: Times)
    requires ValidResults(res) && ValidDict(inner)
    ensures ValidResults(Put(res, model, inner))
  {
    var r := Put(res, model, inner);
    PutGet(res, model, inner, model);
    FindUnique(r, model);
    forall i | 0 <= i < |r| ensures ValidDict(r[i].1) {
      if r[i].0 == model {
        assert Find(r, model) == Some(i);
      } else {
        assert i < |res|;
        assert r[i] == res[i];
      }
    }
  }

  /** Recording keeps every key unique. */
  lemma RecordValid(res: Results, model: string, env: string, t: Option<real>)
    requires ValidResults(res)
    ensures ValidResults(Record(res, model, env, t))
  {
    TimesOfValid(res, model);
    PutGet(TimesOf(res, model), env, t, env);
    PutValid(res, model, Put(TimesOf(res, model), env, t));
  }

  /** Recording sets exactly the one entry. */
  lemma RecordLookup(res: Results, model: string, env: string, t: Option<real>, m2: string, e2: string)
    requires ValidResults(res)
    ensures Lookup(Record(res, model, env, t), m2, e2) == if m2 == model && e2 == env then Some(t) else Lookup(res, m2, e2)
  {
    TimesOfValid(res, model);
    var ninner := Put(TimesOf(res, model), env, t);
    PutGet(TimesOf(res, model), env, t, e2);
    PutGet(res, model, ninner, m2);
  }

  /** One line's effect under the classification `k`; None when `float` raises. */
  function Step(res: Results, line: string, k: string -> Line): Option<Results> {
    match k(line)
    case Ok(env, model, avg) => Some(Record(res, model, env, Some(avg)))
    case Fail(env, model) => Some(Record(res, model, env, None))
    case Other => Some(res)
    case BadNumber => None
  }

  /** The results after the loop over `lines`. */
  function ParseWith(lines: seq<string>, k: string -> Line): Option<Results> {
    if lines == [] then Some([])
    else
      match ParseWith(lines[..|lines| - 1], k)
      case None => None
      case Some(res) => Step(res, lines[|lines| - 1], k)
  }

  /** The results of the script's line loop. */
  function ParseLog(lines: seq<string>): Option<Results> {
    ParseWith(lines, Classify)
  }

  /** The line records this model and backend. */
  predicate Records(l: Line, model: string, env: string) {
    (l.Ok? || l.Fail?) && l.model == model && l.env == env
  }

  /** The time a recording line stores. */
  function Stored(l: Line): Option<real> {
    if l.Ok? then Some(l.avg) else None
  }

  /** The reference: what the last line recording this model and backend
      stores, if there is one. */
  function LastFor(lines: seq<string>, k: string -> Line, model: string, env: string): (r: Option<Option<real>>)
    ensures r.None? <==> forall i :: 0 <= i < |lines| ==> !Records(k(lines[i]), model, env)
    ensures r.Some? ==> exists i :: (0 <= i < |lines| && Records(k(lines[i]), model, env)
      && r.value == Stored(k(lines[i]))
      && forall j :: i < j < |lines| ==> !Records(k(lines[j]), model, env))
  {
    if lines == [] then None
    else
      var n := |lines| - 1;
      if Records(k(lines[n]), model, env) then Some(Stored(k(lines[n])))
      else
        var r := LastFor(lines[..n], k, model, env);
        assert forall i :: 0 <= i < n ==> lines[..n][i] == lines[i];
        r
  }

  /** A parse that stops at a bad average stays stopped. */
  lemma {:induction false} ParseStopped(lines: seq<string>, k: string -> Line, i: nat)
    requires i <= |lines| && ParseWith(lines[..i], k).None?
    ensures ParseWith(lines, k).None?
    decreases |lines| - i
  {
    if i < |lines| {
      assert lines[..i + 1][..i] == lines[..i];
      ParseStopped(lines, k, i + 1);
    } else {
      assert lines[..i] == lines;
    }
  }

  /** A parse fails after one more line exactly when it had failed or that
      line's average is rejected. */
  lemma ParseNoneSnoc(lines: seq<string>, k: string -> Line)
    requires lines != []
    ensures ParseWith(lines, k).None? <==> ParseWith(lines[..|lines| - 1], k).None? || k(lines[|lines| - 1]).BadNumber?
  {
  }

  /** The script stops exactly when some line carries an average `float`
      rejects. */
  lemma {:induction false} ParseFails(lines: seq<string>, k: string -> Line)
    ensures ParseWith(lines, k).None? <==> exists i :: 0 <= i < |lines| && k(lines[i]).BadNumber?
  {
    if lines != [] {
      var p := lines[..|lines| - 1];
      ParseFails(p, k);
      ParseNoneSnoc(lines, k);
      BadSnoc(lines, p, k);
    }
  }

  /** A bad average occurs in the lines iff it occurs before the last line or in it. */
  lemma BadSnoc(lines: seq<string>, p: seq<string>, k: string -> Line)
    requires lines != [] && p == lines[..|lines| - 1]
    ensures (exists i :: 0 <= i < |lines| && k(lines[i]).BadNumber?)
        <==> (exists i :: 0 <= i < |p| && k(p[i]).BadNumber?) || k(lines[|lines| - 1]).BadNumber?
  {
    assert forall i :: 0 <= i < |p| ==> p[i] == lines[i];
  }

  /** Every model and backend holds what its last recording line stores:
      a later line overwrites an earlier one, other lines change nothing. */
  lemma {:induction false} ParseLast(lines: seq<string>, k: string -> Line, model: string, env: string)
    requires ParseWith(lines, k).Some?
    ensures ValidResults(ParseWith(lines, k).value)
    ensures Lookup(ParseWith(lines, k).value, model, env) == LastFor(lines, k, model, env)
  {
    if lines != [] {
      var n := |lines| - 1;
      ParseLast(lines[..n], k, model, env);
      var res := ParseWith(lines[..n], k).value;
      match k(lines[n])
      case Ok(e, m, avg) =>
        RecordValid(res, m, e, Some(avg));
        RecordLookup(res, m, e, Some(avg), model, env);
      case Fail(e, m) =>
        RecordValid(res, m, e, None);
        RecordLookup(res, m, e, None, model, env);
      case Other =>
      case BadNumber =>
    }
  }

  /** One more line: the loop goes on from the results so far. */
  lemma ParseSnoc(lines: seq<string>, k: string -> Line, i: nat)
    requires i < |lines|
    ensures ParseWith(lines[..i + 1], k) ==
      if ParseWith(lines[..i], k).None? then None else Step(ParseWith(lines[..i], k).value, lines[i], k)
  {
    assert lines[..i + 1][..i] == lines[..i];
  }

  /** The line loop under the classification `k`: each line is written
      into the results, and a rejected average stops the loop. */
  method ParseLinesWith(lines: seq<string>, k: string -> Line) returns (r: Option<Results>)
    ensures r == ParseWith(lines, k)
  {
    var results: Results := [];
    for i := 0 to |lines|
      invariant ParseWith(lines[..i], k) == Some(results)
    {
      ParseSnoc(lines, k, i);
      match k(lines[i]) {
        case Ok(env, model, avg) =>
          results := Record(results, model, env, Some(avg));
        case Fail(env, model) =>
          results := Record(results, model, env, None);
        case Other =>
        case BadNumber =>
          ParseStopped(lines, k, i + 1);
          return None;
      }
    }
    assert lines[..|lines|] == lines;
    r := Some(results);
  }

  /** The line loop of the script: each line is classified by the two
      patterns. */
  method ParseLines(lines: seq<string>) returns (r: Option<Results>)
    ensures r == ParseLog(lines)
  {
    r := ParseLinesWith(lines, Classify);
  }

  // ---------------------------------------------------------------------------
  // The table

  /** A backend's usable time: present and not a failure. */
  function TimeOf(times: Times, env: string): Option<real> {
    var g := Get(times, env);
    if g.Some? then g.value else None
  }

  function TimesIn(times: Times): string -> Option<real> {
    e => TimeOf(times, e)
  }

  /** `valid` and `min(valid, ...)`: the backend of ENV_ORDER with the
      smallest time, None for the dash. */
  function Fastest(times: Times): Option<string> {
    MinKey(Collect(EnvOrder, TimesIn(times)))
  }

  /** No fastest backend exactly when no backend of ENV_ORDER has a time;
      otherwise a backend of ENV_ORDER whose time is at most every other's
      (a backend outside ENV_ORDER is never chosen). */
  lemma FastestSpec(times: Times)
    ensures Fastest(times).None? <==> forall e :: e in EnvOrder ==> TimeOf(times, e).None?
    ensures Fastest(times).Some? ==> (var w := Fastest(times).value;
      && w in EnvOrder && TimeOf(times, w).Some?
      && forall e :: e in EnvOrder && TimeOf(times, e).Some? ==> TimeOf(times, w).value <= TimeOf(times, e).value)
  {
    MinKeySpec(EnvOrder, TimesIn(times));
  }

  /** On equal times the backend earlier in ENV_ORDER is chosen. */
  lemma FastestFirst(times: Times, e: string)
    requires Fastest(times).Some? && Fastest(times).value in EnvOrder
    requires e in EnvOrder && TimeOf(times, e).Some?
    requires Position(EnvOrder, e) < Position(EnvOrder, Fastest(times).value)
    ensures TimeOf(times, Fastest(times).value).Some?
    ensures TimeOf(times, Fastest(times).value).value < TimeOf(times, e).value
  {
    EnvOrderDistinct();
    MinKeyFirst(EnvOrder, TimesIn(times), e);
  }

  /** A table cell: no entry, a failure, or the time (its formatting is not
      modelled). */
  datatype TimeCell = NoRun | Failed | Took(secs: real)

  function CellOf(times: Times, env: string): (c: TimeCell)
    ensures c.NoRun? <==> env !in Keys(times)
    ensures c.Failed? <==> Get(times, env) == Some(None)
    ensures c.Took? <==> TimeOf(times, env).Some?
    ensures c.Took? ==> TimeOf(times, env) == Some(c.secs)
  {
    var g := Get(times, env);
    if g.None? then NoRun
    else if g.value.None? then Failed
    else Took(g.value.value)
  }

  /** The fastest backend's cell shows a time no larger than any other
      cell of the row that shows one. */
  lemma FastestCell(times: Times)
    requires Fastest(times).Some?
    ensures CellOf(times, Fastest(times).value).Took?
    ensures forall e :: e in EnvOrder && CellOf(times, e).Took? ==> CellOf(times, Fastest(times).value).secs <= CellOf(times, e).secs
  {
    FastestSpec(times);
  }

  /** One table row: the model, a cell per backend of ENV_ORDER, the fastest. */
  datatype Row = Row(model: string, cells: seq<TimeCell>, fastest: Option<string>)

  /** `sorted(results, key=lambda s: s.lower())`. */
  function Models(res: Results): (r: seq<string>)
    ensures |r| == |res|
  {
    var r := Viewer.SortBy(Keys(res), Lower);
    assert |multiset(r)| == |multiset(Keys(res))|;
    r
  }

  /** The models come out in case-insensitive order, each exactly once. */
  lemma ModelsSpec(res: Results)
    ensures multiset(Models(res)) == multiset(Keys(res))
    ensures Viewer.SortedBy(Models(res), Lower)
  {
    Viewer.SortBySorted(Keys(res), Lower);
  }

  /** The cells of a row, in ENV_ORDER. */
  function CellsOf(times: Times): (r: seq<TimeCell>)
    ensures |r| == |EnvOrder|
  {
    seq(|EnvOrder|, j requires 0 <= j < |EnvOrder| => CellOf(times, EnvOrder[j]))
  }

  function RowOf(res: Results, model: string): Row {
    var times := Get(res, model).GetOr([]);
    Row(model, CellsOf(times), Fastest(times))
  }

  /** The inner loop: one cell per backend of ENV_ORDER. */
  method RowCells(times: Times) returns (cells: seq<TimeCell>)
    ensures cells == CellsOf(times)
  {
    cells := [];
    for j := 0 to |EnvOrder|
      invariant |cells| == j
      invariant forall k :: 0 <= k < j ==> cells[k] == CellOf(times, EnvOrder[k])
    {
      cells := cells + [CellOf(times, EnvOrder[j])];
    }
  }

  /** The rows for the models from position `i` on, one per model. */
  function RowsFrom(rowOf: string -> Row, models: seq<string>, i: nat): (r: seq<Row>)
    requires i <= |models|
    ensures |r| == |models| - i
    decreases |models| - i
  {
    if i == |models| then [] else [rowOf(models[i])] + RowsFrom(rowOf, models, i + 1)
  }

  /** The row at position `k` belongs to the `k`-th model. */
  lemma {:induction false} RowsFromAt(rowOf: string -> Row, models: seq<string>, i: nat, k: nat)
    requires i <= k < |models|
    ensures RowsFrom(rowOf, models, i)[k - i] == rowOf(models[k])
    decreases k - i
  {
    if i < k {
      RowsFromAt(rowOf, models, i + 1, k);
    }
  }

  /** The row of each model of `res`. */
  function RowIn(res: Results): string -> Row {
    m => RowOf(res, m)
  }

  /** The per-model loop: one row per model, in sorted order. */
  method BuildRows(res: Results) returns (rows: seq<Row>)
    ensures |rows| == |res|
    ensures rows == RowsFrom(RowIn(res), Models(res), 0)
  {
    var models := Models(res);
    rows := [];
    for i := 0 to |models|
      invariant rows + RowsFrom(RowIn(res), models, i) == RowsFrom(RowIn(res), models, 0)
    {
      var model := models[i];
      var times := Get(res, model).GetOr([]);
      var cells := RowCells(times);
      var row := Row(model, cells, Fastest(times));
      assert RowsFrom(RowIn(res), models, i) == [row] + RowsFrom(RowIn(res), models, i + 1);
      rows := rows + [row];
    }
  }
}
