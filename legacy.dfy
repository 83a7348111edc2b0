/** The older log parser: every `<model>__<env>.log` file gives two cells,
    one for pp512 and one for tg128, each either a measurement or the kind
    of failure the log shows; `pick_winner` names the fastest env of a
    table row. Unlike the current extractor it reports a runtime error only
    when the log does not hold both measurement rows. */
module Legacy {
  import opened Basics
  import opened Dicts
  import opened Patterns
  import opened Extractor
  import Stats

  const LegacyTests: seq<string> := ["pp512", "tg128"]

  /** PP_RE / TG_RE: mean and std of the first table row of `test`. */
  function PerfRow(text: string, test: string): (r: Option<seq<string>>)
    ensures r.Some? <==> Search(text, TableRow(test), 0).Some?
    ensures r.Some? ==> |r.value| == 2 && AllIn(r.value[0], DigitDot) && AllIn(r.value[1], DigitDot)
  {
    Groups(text, TableRow(test))
  }

  /** Both measurement rows are present. */
  predicate BothRows(text: string) {
    PerfRow(text, "pp512").Some? && PerfRow(text, "tg128").Some?
  }

  /** The error classification: load beats hang beats runtime, and a
      runtime error is reported only when the two rows are not both there. */
  function ErrType(text: string): (r: Option<ErrorKind>)
    ensures r == Some(Load) <==> LegacyLoadErr(text)
    ensures r == Some(Hang) <==> !LegacyLoadErr(text) && HangErr(text)
    ensures r == Some(Runtime) <==> !LegacyLoadErr(text) && !HangErr(text) && LegacyGenericErr(text) && !BothRows(text)
    ensures r.None? <==> !LegacyLoadErr(text) && !HangErr(text) && (!LegacyGenericErr(text) || BothRows(text))
  {
    if LegacyLoadErr(text) then Some(Load)
    else if HangErr(text) then Some(Hang)
    else if LegacyGenericErr(text) && !BothRows(text) then Some(Runtime)
    else None
  }

  /** The current classifier is never milder: a load failure here is one
      there, and a hang here is a load failure or a hang there. */
  lemma ErrTypeVersusDetectError(text: string)
    ensures ErrType(text) == Some(Load) ==> DetectError(text) == Some(Load)
    ensures ErrType(text) == Some(Hang) ==> DetectError(text) in {Some(Load), Some(Hang)}
    ensures ErrType(text) == Some(Runtime) ==> DetectError(text).Some?
  {
    LegacyLoadImpliesLoad(text);
  }

  /** A captured `[\d.]+` string. */
  type Digits = s: string | AllIn(s, DigitDot) witness ""

  /** One table cell: the captured mean and std, whether it is an error, and which. */
  datatype Cell = Cell(mean: Option<Digits>, std: Option<Digits>, error: bool, etype: Option<ErrorKind>)

  /** The cell a log gives for `test`: no measurement once an error type is set. */
  function CellOf(text: string, test: string): (c: Cell)
    ensures c.etype == ErrType(text) && (c.error <==> c.etype.Some?)
    ensures c.error ==> c.mean.None? && c.std.None?
    ensures !c.error ==> (c.mean.Some? <==> Search(text, TableRow(test), 0).Some?)
    ensures c.mean.Some? <==> c.std.Some?
  {
    var m := if ErrType(text).None? then PerfRow(text, test) else None;
    Cell(if m.Some? then Some(m.value[0]) else None, if m.Some? then Some(m.value[1]) else None,
         ErrType(text).Some?, ErrType(text))
  }

  // ---------------------------------------------------------------------------
  // Names

  /** The first index from `from` on where `sep` occurs. */
  function FirstAt(s: string, sep: string, from: nat): (r: Option<nat>)
    requires from <= |s|
    ensures r.Some? ==> from <= r.value <= |s| && At(s, r.value, sep) && forall i :: from <= i < r.value ==> !At(s, i, sep)
    ensures r.None? ==> forall i :: from <= i <= |s| ==> !At(s, i, sep)
    decreases |s| - from
  {
    if At(s, from, sep) then Some(from)
    else if from == |s| then None
    else FirstAt(s, sep, from + 1)
  }

  /** `s.split(sep, 1)` when `sep in s`: the text before the first
      occurrence and everything after it. */
  function SplitOnce(s: string, sep: string): (r: Option<(string, string)>)
    ensures r.None? <==> !Contains(s, sep)
    ensures r.Some? ==> r.value.0 + sep + r.value.1 == s
    ensures r.Some? ==> forall i :: 0 <= i < |r.value.0| ==> !At(s, i, sep)
  {
    match FirstAt(s, sep, 0)
    case None => None
    case Some(i) =>
      assert s[..i] + sep + s[i + |sep|..] == s;
      Some((s[..i], s[i + |sep|..]))
  }

  /** `-000\d+-of-000\d+` at `p`, case-sensitive: the end of the marker. */
  function ShardMarkAt(s: string, p: nat): (r: Option<nat>)
    requires p <= |s|
    ensures r.Some? ==> p < r.value <= |s|
  {
    if !At(s, p, "-000") then None
    else
      var d1 := SpanEnd(s, p + 4, Digit);
      if d1 == p + 4 || !At(s, d1, "-of-000") then None
      else
        var d2 := SpanEnd(s, d1 + 7, Digit);
        if d2 == d1 + 7 then None else Some(d2)
  }

  /** `re.sub(SHARD, "", s[p:])`: markers removed in one left-to-right pass. */
  function DropMarks(s: string, p: nat): (r: string)
    requires p <= |s|
    ensures |r| <= |s| - p
    decreases |s| - p
  {
    if p == |s| then ""
    else match ShardMarkAt(s, p)
      case Some(e) => DropMarks(s, e)
      case None => [s[p]] + DropMarks(s, p + 1)
  }

  /** clean_name. */
  function CleanName(raw: string): string {
    DropMarks(raw, 0)
  }

  /** A name without markers is left as it is. */
  lemma {:induction false} DropMarksUnmarked(s: string, p: nat)
    requires p <= |s| && forall q :: p <= q < |s| ==> ShardMarkAt(s, q).None?
    ensures DropMarks(s, p) == s[p..]
    decreases |s| - p
  {
    if p < |s| {
      DropMarksUnmarked(s, p + 1);
      assert [s[p]] + s[p + 1..] == s[p..];
    }
  }

  /** A name ending in one shard marker, with no marker starting before it,
      loses exactly that marker. */
  lemma {:induction false} DropMarksSuffix(s: string, base: nat, p: nat)
    requires p <= base <= |s|
    requires forall q :: p <= q < base ==> ShardMarkAt(s, q).None?
    requires ShardMarkAt(s, base) == Some(|s|)
    ensures DropMarks(s, p) == s[p..base]
    decreases base - p
  {
    if p < base {
      DropMarksSuffix(s, base, p + 1);
      assert [s[p]] + s[p + 1..base] == s[p..base];
    }
  }

  // ---------------------------------------------------------------------------
  // The scan

  /** A log file by its base name (the file name without `.log`) and its text. */
  datatype Log = Log(stem: string, text: string)

  /** (model, env) of a log, or None when its name has no `__`. */
  function Identify(stem: string): (r: Option<(string, string)>)
    ensures r.None? <==> !Contains(stem, "__")
  {
    match SplitOnce(stem, "__")
    case None => None
    case Some(parts) => Some((CleanName(parts.0), parts.1))
  }

  /** `data`, flattened one level: (model, test) to the env-keyed cells. */
  type Data = Dict<(string, string), Dict<string, Cell>>

  ghost predicate NestedValid<V>(d: Dict<(string, string), Dict<string, V>>) {
    ValidDict(d) && forall i :: 0 <= i < |d| ==> ValidDict(d[i].1)
  }

  /** `data[model][test][env]`, if present. */
  function Lookup<V>(d: Dict<(string, string), Dict<string, V>>, g: (string, string), env: string): Option<V> {
    match Get(d, g)
    case None => None
    case Some(inner) => Get(inner, env)
  }

  /** `data.setdefault(model, {}).setdefault(test, {})[env] = cell`. */
  function PutIn<V>(d: Dict<(string, string), Dict<string, V>>, g: (string, string), env: string, c: V): Dict<(string, string), Dict<string, V>> {
    Put(d, g, Put(Get(d, g).GetOr([]), env, c))
  }

  /** Storing a cell makes it the one read back at its place and changes no other. */
  lemma PutInLookup<V>(d: Dict<(string, string), Dict<string, V>>, g: (string, string), env: string, c: V)
    requires NestedValid(d)
    ensures NestedValid(PutIn(d, g, env, c))
    ensures forall g2, e2 :: Lookup(PutIn(d, g, env, c), g2, e2) == if g2 == g && e2 == env then Some(c) else Lookup(d, g2, e2)
  {
    var inner := Get(d, g).GetOr([]);
    PutInValid(d, g, env, c);
    var ni := Put(inner, env, c);
    var r := PutIn(d, g, env, c);
    forall g2, e2 ensures Lookup(r, g2, e2) == if g2 == g && e2 == env then Some(c) else Lookup(d, g2, e2) {
      PutGet(d, g, ni, g2);
      PutGet(inner, env, c, e2);
    }
  }

  /** Every group read from valid nested data is a valid dictionary. */
  lemma NestedGet<V>(d: Dict<(string, string), Dict<string, V>>, g: (string, string))
    requires NestedValid(d)
    ensures ValidDict(Get(d, g).GetOr([]))
  {
    if Find(d, g).Some? {
      assert Get(d, g).GetOr([]) == d[Find(d, g).value].1;
    }
  }

  /** The group a cell is stored into stays a valid dictionary, and so do the others. */
  lemma PutInValid<V>(d: Dict<(string, string), Dict<string, V>>, g: (string, string), env: string, c: V)
    requires NestedValid(d)
    ensures ValidDict(Get(d, g).GetOr([]))
    ensures NestedValid(PutIn(d, g, env, c))
  {
    var inner := Get(d, g).GetOr([]);
    NestedGet(d, g);
    var ni := Put(inner, env, c);
    var r := PutIn(d, g, env, c);
    PutGet(d, g, ni, g);
    PutGet(inner, env, c, env);
    forall i | 0 <= i < |r| ensures ValidDict(r[i].1) {
      if r[i].0 == g {
        FindUnique(r, g);
      } else {
        assert Keys(r)[i] == r[i].0;
        assert i < |d|;
      }
    }
  }

  /** Both cells of one log. */
  function Store<V>(d: Dict<(string, string), Dict<string, V>>, model: string, env: string, pp: V, tg: V): Dict<(string, string), Dict<string, V>> {
    PutIn(PutIn(d, (model, "pp512"), env, pp), (model, "tg128"), env, tg)
  }

  /** `data` after the scan over the logs in sorted order, for any way
      `ident` of reading (model, env) from a name and `cell` of reading a
      log's cell for a test. */
  function ScanBy<V>(logs: seq<Log>, ident: string -> Option<(string, string)>, cell: (string, string) -> V): Dict<(string, string), Dict<string, V>> {
    if logs == [] then []
    else
      var d := ScanBy(logs[..|logs| - 1], ident, cell);
      var l := logs[|logs| - 1];
      match ident(l.stem)
      case None => d
      case Some(me) => Store(d, me.0, me.1, cell(l.text, "pp512"), cell(l.text, "tg128"))
  }

  /** The cell the last log of `model` on `env` gives for `test`; None when
      there is no such log or `test` is not pp512 or tg128. */
  function LatestBy<V>(logs: seq<Log>, ident: string -> Option<(string, string)>, cell: (string, string) -> V,
                       model: string, test: string, env: string): Option<V> {
    if logs == [] then None
    else
      var l := logs[|logs| - 1];
      if ident(l.stem) == Some((model, env)) && (test == "pp512" || test == "tg128") then Some(cell(l.text, test))
      else LatestBy(logs[..|logs| - 1], ident, cell, model, test, env)
  }

  lemma {:induction false} ScanLatest<V>(logs: seq<Log>, ident: string -> Option<(string, string)>, cell: (string, string) -> V)
    ensures NestedValid(ScanBy(logs, ident, cell))
    ensures forall m, t, e :: Lookup(ScanBy(logs, ident, cell), (m, t), e) == LatestBy(logs, ident, cell, m, t, e)
  {
    if logs != [] {
      var pre := logs[..|logs| - 1];
      ScanLatest(pre, ident, cell);
      var l := logs[|logs| - 1];
      if ident(l.stem).Some? {
        var me := ident(l.stem).value;
        StoreLookup(ScanBy(pre, ident, cell), me.0, me.1, cell(l.text, "pp512"), cell(l.text, "tg128"));
      }
    }
  }

  /** `data` after the module-level loop. */
  function DataOf(logs: seq<Log>): Data {
    ScanBy(logs, Identify, CellOf)
  }

  /** Every cell of `data` comes from the last log of its model and env, and
      only pp512 and tg128 have cells. */
  lemma DataLatest(logs: seq<Log>, m: string, t: string, e: string)
    ensures NestedValid(DataOf(logs))
    ensures Lookup(DataOf(logs), (m, t), e) == LatestBy(logs, Identify, CellOf, m, t, e)
    ensures Lookup(DataOf(logs), (m, t), e).Some? ==> t in LegacyTests
  {
    ScanLatest(logs, Identify, CellOf);
    LatestTests(logs, Identify, CellOf, m, t, e);
  }

  lemma {:induction false} LatestTests<V>(logs: seq<Log>, ident: string -> Option<(string, string)>, cell: (string, string) -> V,
                                          m: string, t: string, e: string)
    ensures LatestBy(logs, ident, cell, m, t, e).Some? ==> t == "pp512" || t == "tg128"
  {
    if logs != [] {
      LatestTests(logs[..|logs| - 1], ident, cell, m, t, e);
    }
  }

  /** The log just scanned owns both of its cells. */
  lemma BothCellsWritten(logs: seq<Log>, model: string, env: string)
    requires logs != [] && Identify(logs[|logs| - 1].stem) == Some((model, env))
    ensures Lookup(DataOf(logs), (model, "pp512"), env) == Some(CellOf(logs[|logs| - 1].text, "pp512"))
    ensures Lookup(DataOf(logs), (model, "tg128"), env) == Some(CellOf(logs[|logs| - 1].text, "tg128"))
  {
    DataLatest(logs, model, "pp512", env);
    DataLatest(logs, model, "tg128", env);
  }

  /** Storing a log's two cells: both are read back and no other place changes. */
  lemma StoreLookup<V>(d: Dict<(string, string), Dict<string, V>>, model: string, env: string, pp: V, tg: V)
    requires NestedValid(d)
    ensures NestedValid(Store(d, model, env, pp, tg))
    ensures forall m, t, e :: (Lookup(Store(d, model, env, pp, tg), (m, t), e)
      == if m == model && e == env && t == "pp512" then Some(pp)
          else if m == model && e == env && t == "tg128" then Some(tg)
          else Lookup(d, (m, t), e))
  {
    var d1 := PutIn(d, (model, "pp512"), env, pp);
    var d2 := PutIn(d1, (model, "tg128"), env, tg);
    PutInLookup(d, (model, "pp512"), env, pp);
    PutInLookup(d1, (model, "tg128"), env, tg);
    assert Store(d, model, env, pp, tg) == d2;
    forall m, t, e ensures Lookup(d2, (m, t), e)
      == if m == model && e == env && t == "pp512" then Some(pp)
          else if m == model && e == env && t == "tg128" then Some(tg)
          else Lookup(d, (m, t), e)
    {
      assert Lookup(d2, (m, t), e) == if (m, t) == (model, "tg128") && e == env then Some(tg) else Lookup(d1, (m, t), e);
    }
  }

  lemma DataSnoc(logs: seq<Log>, i: nat)
    requires i < |logs|
    ensures DataOf(logs[..i + 1])
         == match Identify(logs[i].stem)
            case None => DataOf(logs[..i])
            case Some(me) => Store(DataOf(logs[..i]), me.0, me.1, CellOf(logs[i].text, "pp512"), CellOf(logs[i].text, "tg128"))
  {
    assert logs[..i + 1][..i] == logs[..i];
  }

  /** The module-level loop over the sorted logs. */
  method ScanLogs(logs: seq<Log>) returns (data: Data)
    ensures data == DataOf(logs)
  {
    data := [];
    var i := 0;
    while i < |logs|
      invariant i <= |logs|
      invariant data == DataOf(logs[..i])
    {
      DataSnoc(logs, i);
      var stem := logs[i].stem;
      if Contains(stem, "__") {
        var parts := SplitOnce(stem, "__").value;
        var model := CleanName(parts.0);
        var env := parts.1;
        var text := logs[i].text;
        var tests := LegacyTests;
        var k := 0;
        while k < 2
          invariant k <= 2
          invariant k == 0 ==> data == DataOf(logs[..i])
          invariant k == 1 ==> data == PutIn(DataOf(logs[..i]), (model, "pp512"), env, CellOf(text, "pp512"))
          invariant k == 2 ==> data == Store(DataOf(logs[..i]), model, env, CellOf(text, "pp512"), CellOf(text, "tg128"))
        {
          data := PutIn(data, (model, tests[k]), env, CellOf(text, tests[k]));
          k := k + 1;
        }
      }
      i := i + 1;
    }
    assert logs[..i] == logs;
  }

  // ---------------------------------------------------------------------------
  // pick_winner

  /** A cell `pick_winner` scores: not an error and with a (non-empty) mean. */
  predicate Scored(c: Cell) {
    !c.error && c.mean.Some? && |c.mean.value| > 0
  }

  /** `{e: float(d['mean']) ...}`: the scored cells in dictionary order;
      None when `float()` raises on a mean. */
  function Scores(envData: Dict<string, Cell>): (r: Option<Dict<string, real>>)
    ensures r.None? <==> exists i :: 0 <= i < |envData| && Scored(envData[i].1) && ParseDecimal(envData[i].1.mean.value).None?
    ensures r.Some? ==> |r.value| <= |envData|
  {
    if envData == [] then Some([])
    else
      var pre := envData[..|envData| - 1];
      var (e, c) := envData[|envData| - 1];
      assert forall i :: 0 <= i < |pre| ==> pre[i] == envData[i];
      match Scores(pre)
      case None => None
      case Some(s) =>
        if !Scored(c) then Some(s)
        else match ParseDecimal(c.mean.value)
          case None => None
          case Some(v) => Some(s + [(e, v)])
  }

  datatype Pick = Dash | Best(env: string, gain: Option<real>)

  /** pick_winner: None when `float()` raises on a mean; otherwise the pick among the scores. */
  function PickWinner(envData: Dict<string, Cell>): Option<Pick> {
    match Scores(envData)
    case None => None
    case Some(s) => PickOf(s)
  }

  /** A dash without scores; otherwise the first env with the largest score
      and, when there are others, its percentage gain over the best of
      them. None when that best is zero (the division raises). */
  function PickOf(s: Dict<string, real>): Option<Pick> {
    if s == [] then Some(Dash)
    else
      var b := Stats.ArgMax(Values(s));
      var others := OthersOf(s, s[b].0);
      if others == [] then Some(Best(s[b].0, None))
      else
        var m := Stats.Max(others);
        if m == 0.0 then None else Some(Best(s[b].0, Some(Gain(s[b].1, m))))
  }

  /** `[v for k, v in scores.items() if k != best]`. */
  function OthersOf(s: Dict<string, real>, best: string): (r: seq<real>)
    ensures forall v :: v in r <==> exists i :: 0 <= i < |s| && s[i].0 != best && s[i].1 == v
  {
    if s == [] then []
    else
      var pre := s[..|s| - 1];
      assert forall i :: 0 <= i < |pre| ==> pre[i] == s[i];
      OthersOf(pre, best) + (if s[|s| - 1].0 != best then [s[|s| - 1].1] else [])
  }

  /** The scores are the scored cells' means, in dictionary order. */
  lemma {:induction false} ScoresSpec(envData: Dict<string, Cell>)
    requires Scores(envData).Some?
    ensures forall j :: 0 <= j < |Scores(envData).value| ==> ScoreOf(envData, Scores(envData).value[j])
    ensures forall i :: 0 <= i < |envData| && Scored(envData[i].1) ==> (envData[i].0, ParseDecimal(envData[i].1.mean.value).value) in Scores(envData).value
  {
    if envData != [] {
      var pre := envData[..|envData| - 1];
      ScoresSpec(pre);
      assert forall i :: 0 <= i < |pre| ==> pre[i] == envData[i];
      var s := Scores(envData).value;
      forall j | 0 <= j < |s| ensures ScoreOf(envData, s[j]) {
        if j < |Scores(pre).value| {
          assert s[j] == Scores(pre).value[j];
          var i :| 0 <= i < |pre| && Scored(pre[i].1) && pre[i].0 == s[j].0 && ParseDecimal(pre[i].1.mean.value) == Some(s[j].1);
          assert envData[i] == pre[i];
        } else {
          var i := |envData| - 1;
          assert Scored(envData[i].1) && envData[i].0 == s[j].0 && ParseDecimal(envData[i].1.mean.value) == Some(s[j].1);
        }
      }
    }
  }

  /** `(e, v)` is the score of some scored cell. */
  ghost predicate ScoreOf(envData: Dict<string, Cell>, ev: (string, real)) {
    exists i :: 0 <= i < |envData| && Scored(envData[i].1) && envData[i].0 == ev.0 && ParseDecimal(envData[i].1.mean.value) == Some(ev.1)
  }

  /** pick_winner gives a dash exactly when no cell is scored, and a named
      env is one whose cell is scored. */
  lemma PickWinnerSpec(envData: Dict<string, Cell>)
    ensures PickWinner(envData) == Some(Dash) <==> forall i :: 0 <= i < |envData| ==> !Scored(envData[i].1)
    ensures PickWinner(envData).Some? && PickWinner(envData).value.Best? ==>
      exists i :: 0 <= i < |envData| && envData[i].0 == PickWinner(envData).value.env && Scored(envData[i].1)
  {
    if Scores(envData).Some? {
      var s := Scores(envData).value;
      ScoresSpec(envData);
      PickOfRaises(s);
      if s != [] {
        assert ScoreOf(envData, s[0]);
        if PickOf(s).Some? && PickOf(s).value.Best? {
          PickOfMax(s);
          var j :| 0 <= j < |s| && s[j].0 == PickOf(s).value.env;
          assert ScoreOf(envData, s[j]);
        }
      }
    }
  }

  /** Over the scores: a named env has the largest score, strictly above
      every score listed before it. */
  lemma PickOfMax(s: Dict<string, real>)
    requires PickOf(s).Some? && PickOf(s).value.Best?
    ensures exists j :: (0 <= j < |s| && s[j].0 == PickOf(s).value.env
      && (forall k :: 0 <= k < |s| ==> s[k].1 <= s[j].1) && (forall k :: 0 <= k < j ==> s[k].1 < s[j].1))
  {
    var b := Stats.ArgMax(Values(s));
    assert forall k :: 0 <= k < |s| ==> Values(s)[k] == s[k].1;
  }

  /** Position `j` holds the first of the largest scores. */
  predicate FirstLargest(s: Dict<string, real>, j: nat) {
    && j < |s|
    && (forall k :: 0 <= k < |s| ==> s[k].1 <= s[j].1)
    && (forall k :: 0 <= k < j ==> s[k].1 < s[j].1)
  }

  /** There is only one first largest score. */
  lemma FirstLargestUnique(s: Dict<string, real>, i: nat, j: nat)
    requires FirstLargest(s, i) && FirstLargest(s, j)
    ensures i == j
  {
    assert s[i].1 == s[j].1;
  }

  /** A dash means no scores. The pick raises exactly when another env than
      the winner (the first env with the largest score) is scored, one of
      them scores 0 and none scores above 0: the division by the best other
      score divides by zero. */
  lemma PickOfRaises(s: Dict<string, real>)
    ensures PickOf(s) == Some(Dash) <==> s == []
    ensures PickOf(s).None? <==> exists j: nat :: (FirstLargest(s, j)
      && (exists k :: 0 <= k < |s| && s[k].0 != s[j].0 && s[k].1 == 0.0)
      && (forall k :: 0 <= k < |s| && s[k].0 != s[j].0 ==> s[k].1 <= 0.0))
  {
    if s != [] {
      var b := Stats.ArgMax(Values(s));
      assert forall k :: 0 <= k < |s| ==> Values(s)[k] == s[k].1;
      assert FirstLargest(s, b);
      forall j: nat | FirstLargest(s, j) ensures j == b {
        FirstLargestUnique(s, j, b);
      }
      OthersMaxZero(s, s[b].0);
    }
  }

  /** The best of the other scores is 0 exactly when some other env scores 0
      and none scores above it. */
  lemma OthersMaxZero(s: Dict<string, real>, best: string)
    ensures (OthersOf(s, best) != [] && Stats.Max(OthersOf(s, best)) == 0.0)
      <==> ((exists k :: 0 <= k < |s| && s[k].0 != best && s[k].1 == 0.0)
        && (forall k :: 0 <= k < |s| && s[k].0 != best ==> s[k].1 <= 0.0))
  {
    var others := OthersOf(s, best);
    if exists k :: 0 <= k < |s| && s[k].0 != best && s[k].1 == 0.0 {
      var k :| 0 <= k < |s| && s[k].0 != best && s[k].1 == 0.0;
      assert s[k].1 in others;
    }
    if others != [] {
      var m := Stats.Max(others);
      assert m in others;
      forall k | 0 <= k < |s| && s[k].0 != best ensures s[k].1 <= m {
        assert s[k].1 in others;
      }
    }
  }


  /** The gain is reported exactly when another env has a score, and with
      no negative scores it is never negative. */
  lemma PickOfGain(s: Dict<string, real>)
    requires PickOf(s).Some? && PickOf(s).value.Best?
    ensures PickOf(s).value.gain.Some? <==> exists k :: 0 <= k < |s| && s[k].0 != PickOf(s).value.env
    ensures (forall k :: 0 <= k < |s| ==> s[k].1 >= 0.0) && PickOf(s).value.gain.Some? ==> PickOf(s).value.gain.value >= 0.0
  {
    var b := Stats.ArgMax(Values(s));
    var others := OthersOf(s, s[b].0);
    OthersEmpty(s, s[b].0);
    if others != [] {
      var m := Stats.Max(others);
      assert m in others;
      var k :| 0 <= k < |s| && s[k].0 != s[b].0 && s[k].1 == m;
      assert Values(s)[k] <= Values(s)[b];
      assert m <= s[b].1;
    }
  }

  lemma OthersEmpty(s: Dict<string, real>, best: string)
    ensures OthersOf(s, best) == [] <==> forall k :: 0 <= k < |s| ==> s[k].0 == best
  {
    if OthersOf(s, best) != [] {
      assert OthersOf(s, best)[0] in OthersOf(s, best);
    }
  }

  /** `(best / m - 1) * 100`: the percentage by which `best` exceeds `m`. */
  function Gain(best: real, m: real): (g: real)
    requires m != 0.0
    ensures 0.0 < m <= best ==> g >= 0.0
  {
    var q := best / m;
    assert 0.0 < m <= best ==> q >= 1.0;
    (q - 1.0) * 100.0
  }
}
