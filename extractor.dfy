/** The log-to-record extractor: every `*.log` file of a results directory
    becomes one record per table row (pp512 / tg128), or a single record
    describing the failure when the log holds no table rows. */
module Extractor {
  import opened Basics
  import opened Patterns
  import opened Table
  import opened Identity

  datatype ErrorKind = Load | Hang | Runtime

  /** detect_error: load beats hang beats runtime. */
  function DetectError(text: string): (r: Option<ErrorKind>)
    ensures r == Some(Load) <==> LoadErr(text)
    ensures r == Some(Hang) <==> !LoadErr(text) && HangErr(text)
    ensures r == Some(Runtime) <==> !LoadErr(text) && !HangErr(text) && GenericErr(text)
    ensures r.None? <==> !LoadErr(text) && !HangErr(text) && !GenericErr(text)
  {
    if LoadErr(text) then Some(Load)
    else if HangErr(text) then Some(Hang)
    else if GenericErr(text) then Some(Runtime)
    else None
  }

  // ---------------------------------------------------------------------------
  // Names

  /** `SHARD_RE.sub("", s[p:])`: drop every shard marker, scanning left to right. */
  function DropShards(s: string, p: nat): (r: string)
    requires p <= |s|
    ensures |r| <= |s| - p
    ensures (forall q :: p <= q < |s| ==> MatchAt(s, q, Shard).None?) ==> r == s[p..]
    decreases |s| - p
  {
    if p == |s| then ""
    else match MatchAt(s, p, Shard)
      case Some(c) => DropShards(s, c.end)
      case None =>
        assert [s[p]] + s[p + 1..] == s[p..];
        [s[p]] + DropShards(s, p + 1)
  }

  /** clean_model_name. */
  function CleanModelName(raw: string): string {
    DropShards(raw, 0)
  }

  /** A name that ends in one shard marker, with no marker starting before
      it, loses exactly that marker. */
  lemma {:induction false} ShardSuffixRemoved(s: string, base: nat, p: nat)
    requires p <= base <= |s|
    requires forall q :: p <= q < base ==> MatchAt(s, q, Shard).None?
    requires MatchAt(s, base, Shard) == Some(Cap(|s|, []))
    ensures DropShards(s, p) == s[p..base]
    decreases base - p
  {
    if p < base {
      ShardSuffixRemoved(s, base, p + 1);
      assert [s[p]] + s[p + 1..base] == s[p..base];
    } else {
      assert DropShards(s, |s|) == "";
    }
  }

  /** extract_quant: the first quantisation token, uppercased. */
  function ExtractQuant(name: string): (r: Option<string>)
    ensures r.Some? <==> Search(name, Quant, 0).Some?
    ensures r.Some? ==> |r.value| > 0 && forall i :: 0 <= i < |r.value| ==> !IsAsciiLower(r.value[i])
  {
    match Groups(name, Quant)
    case None => None
    case Some(g) => Some(Upper(g[0]))
  }

  /** The quantisation is the leftmost QUANT_RE match's capture, uppercased,
      and there is none exactly when no position of the name matches. */
  lemma ExtractQuantSpec(name: string)
    ensures ExtractQuant(name).None? <==> forall q :: 0 <= q <= |name| ==> MatchAt(name, q, Quant).None?
    ensures ExtractQuant(name).Some? ==> exists p :: (0 <= p <= |name| && MatchAt(name, p, Quant).Some?
      && ExtractQuant(name).value == Upper(MatchAt(name, p, Quant).value.groups[0])
      && forall q :: 0 <= q < p ==> MatchAt(name, q, Quant).None?)
  {
    SearchLeftmost(name, Quant, 0);
    if ExtractQuant(name).Some? {
      var f := Search(name, Quant, 0).value;
      assert MatchAt(name, f.start, Quant) == Some(f.cap);
    } else {
      assert Search(name, Quant, 0).None?;
    }
  }

  /** b_from_name: the "<n>B" size in a model name. */
  function BFromName(name: string): (r: Option<real>)
    ensures r.Some? <==> Search(name, NameB, 0).Some?
    ensures r.Some? ==> r.value >= 0.0
  {
    match Groups(name, NameB)
    case None => None
    case Some(g) => ParseDecimal(g[0])
  }

  /** `float(g.replace(",", ""))` on a `[\d.,]+` capture. */
  function AmountValue(g: string): (r: Option<real>)
    requires AllIn(g, DigitDotComma)
    ensures r.Some? ==> r.value >= 0.0
  {
    var d := RemoveChar(g, ',');
    assert AllIn(d, DigitDot) by {
      forall i | 0 <= i < |d| ensures InClass(d[i], DigitDot) {
        assert d[i] in g;
      }
    }
    ParseDecimal(d)
  }

  /** `int(v) if (v and v.isdigit()) else None`. */
  function DigitField(v: Option<string>): (r: Option<nat>)
    ensures r.Some? <==> v.Some? && |v.value| > 0 && AllIn(v.value, Digit)
    ensures r.Some? ==> ParseInt(v.value) == Some(r.value as int)
  {
    if v.Some? && |v.value| > 0 && AllIn(v.value, Digit) then
      ParseIntDigits(v.value);
      Some(DigitsValue(v.value))
    else None
  }

  // ---------------------------------------------------------------------------
  // Rows

  function Cell(r: Row, k: string): Option<string> {
    if k in r then Some(r[k]) else None
  }

  function GetOrEmpty(r: Row, k: string): string {
    if k in r then r[k] else ""
  }

  /** `any(r.get("test", "").lower() == name for r in rows)`. */
  predicate HasTest(rows: seq<Row>, name: string) {
    exists i :: 0 <= i < |rows| && Lower(GetOrEmpty(rows[i], "test")) == name
  }

  predicate HasPerf(rows: seq<Row>) {
    HasTest(rows, "pp512") || HasTest(rows, "tg128")
  }

  /** The index of the first row that has an "fa" column. */
  function FaRow(rows: seq<Row>): (r: Option<nat>)
    ensures r.Some? ==> r.value < |rows| && "fa" in rows[r.value] && forall j :: 0 <= j < r.value ==> "fa" !in rows[j]
    ensures r.None? <==> forall i :: 0 <= i < |rows| ==> "fa" !in rows[i]
  {
    if rows == [] then None
    else if "fa" in rows[0] then Some(0)
    else match FaRow(rows[1..])
      case None => None
      case Some(i) => Some(i + 1)
  }

  /** The fa flag the table decides: `int(r["fa"]) == 1` on the first row
      with an "fa" column, or None when that cell is not an integer. */
  function FirstFa(rows: seq<Row>): Option<bool> {
    match FaRow(rows)
    case None => None
    case Some(i) =>
      match ParseInt(rows[i]["fa"])
      case None => None
      case Some(v) => Some(v == 1)
  }

  /** The fa-detection loop: the first row with an "fa" column decides, then
      the loop breaks. */
  method FaFromTable(rows: seq<Row>) returns (fa: Option<bool>)
    ensures fa == FirstFa(rows)
    ensures fa.Some? ==> exists i :: 0 <= i < |rows| && "fa" in rows[i] && ParseInt(rows[i]["fa"]).Some? && (fa.value <==> ParseInt(rows[i]["fa"]) == Some(1))
  {
    fa := None;
    var i := 0;
    while i < |rows|
      invariant i <= |rows|
      invariant forall j :: 0 <= j < i ==> "fa" !in rows[j]
    {
      if "fa" in rows[i] {
        assert FaRow(rows) == Some(i);
        var v := ParseInt(rows[i]["fa"]);
        fa := if v.Some? then Some(v.value == 1) else None;
        return;
      }
      i := i + 1;
    }
  }

  // ---------------------------------------------------------------------------
  // Records

  datatype Build = Build(hash: string, number: string)

  /** One record of results.json. */
  datatype Run = Run(
    model: string,
    modelClean: string,
    env: string,
    envBase: string,
    envVariant: Option<string>,
    fa: bool,
    context: string,
    contextTokens: Option<nat>,
    test: Option<string>,
    tpsMean: Option<real>,
    tpsStd: Option<real>,
    error: bool,
    errorType: Option<ErrorKind>,
    backend: Option<string>,
    ngl: Option<nat>,
    mmap: Option<nat>,
    paramsB: Option<real>,
    fileSizeGib: Option<real>,
    nameParamsB: Option<real>,
    quant: Option<string>,
    log: string,
    rpc: bool,
    build: Option<Build>)

  /** One log file as listed by the directory scan. */
  datatype LogFile = LogFile(path: string, stem: string, rpcSource: bool, text: string)

  /** What one file contributes: its records, its build and its environment. */
  datatype FileOut = FileOut(runs: seq<Run>, build: Option<Build>, env: string)

  /** The build of the last `build: <hash> (<number>)` line. */
  function BuildOf(text: string): Option<Build> {
    BuildOr(FindIterLast(text, BuildLine, 0), None)
  }

  /** The build a build-line match names, or `b` without a match. */
  function BuildOr(c: Option<Cap>, b: Option<Build>): Option<Build>
    requires c.Some? ==> GroupShape(BuildLine, c.value.groups)
  {
    match c
    case None => b
    case Some(c) => Some(Build(c.groups[0], c.groups[1]))
  }

  /** The build-info loop: every match overwrites the previous one. */
  method LastBuild(text: string) returns (b: Option<Build>)
    ensures b == BuildOf(text)
  {
    b := None;
    var pos := 0;
    while true
      invariant pos <= |text|
      invariant BuildOf(text) == BuildOr(FindIterLast(text, BuildLine, pos), b)
      decreases |text| - pos
    {
      var found := Search(text, BuildLine, pos);
      if found.None? {
        return;
      }
      var f := found.value;
      b := Some(Build(f.cap.groups[0], f.cap.groups[1]));
      pos := f.cap.end;
    }
  }

  /** Everything a file's records share. */
  datatype FileFacts = FileFacts(
    model: string, modelClean: string, env: string, envBase: string, envVariant: Option<string>,
    fa: bool, context: string, contextTokens: Option<nat>, error: Option<ErrorKind>,
    quant: Option<string>, log: string, rpc: bool, build: Option<Build>)

  /** The record for one row (or for the stand-in `{}` when there are no rows). */
  function MakeRun(ff: FileFacts, r: Row, hasRows: bool): (run: Run)
    ensures run.test.Some? <==> hasRows
    ensures hasRows ==> run.test == Some(Lower(GetOrEmpty(r, "test")))
    ensures run.error <==> ff.error.Some?
    ensures run.errorType == ff.error
    ensures run.paramsB.Some? ==> run.nameParamsB == run.paramsB
    ensures run.paramsB.None? ==> run.nameParamsB == BFromName(ff.modelClean)
  {
    var ts := if hasRows then Groups(GetOrEmpty(r, "t/s"), Ts) else None;
    var params :=
      if "params" in r then
        match Groups(r["params"], Params)
        case None => None
        case Some(g) => AmountValue(g[0])
      else None;
    var size :=
      if "size" in r then
        match Groups(r["size"], Gib)
        case None => None
        case Some(g) => AmountValue(g[0])
      else None;
    Run(
      ff.model, ff.modelClean, ff.env, ff.envBase, ff.envVariant, ff.fa,
      ff.context, ff.contextTokens,
      if hasRows then Some(Lower(GetOrEmpty(r, "test"))) else None,
      if ts.Some? then ParseDecimal(ts.value[0]) else None,
      if ts.Some? then ParseDecimal(ts.value[1]) else None,
      ff.error.Some?, ff.error,
      Cell(r, "backend"), DigitField(Cell(r, "ngl")), DigitField(Cell(r, "mmap")),
      params, size,
      if params.Some? then params else BFromName(ff.modelClean),
      ff.quant, ff.log, ff.rpc, ff.build)
  }

  /** A record's throughput: with table rows, the two numbers of the first
      "<mean> ± <std>" match in the row's "t/s" cell, each None when float()
      rejects it; None for both without rows or without a match. */
  lemma MakeRunThroughput(ff: FileFacts, r: Row, hasRows: bool)
    ensures var run := MakeRun(ff, r, hasRows);
      var m := Search(GetOrEmpty(r, "t/s"), Ts, 0);
      && (hasRows && m.Some? ==>
            run.tpsMean == ParseDecimal(m.value.cap.groups[0]) && run.tpsStd == ParseDecimal(m.value.cap.groups[1]))
      && (!hasRows || m.None? ==> run.tpsMean.None? && run.tpsStd.None?)
      && (run.tpsMean.Some? ==> run.tpsMean.value >= 0.0)
      && (run.tpsStd.Some? ==> run.tpsStd.value >= 0.0)
  {
  }

  /** A record's row-level fields: the backend cell as it is, ngl and mmap as
      integers when their cells are digit strings, params and size from the
      first PARAMS_RE / GIB_RE match of their cells with commas dropped, and
      the quantisation of the file. */
  lemma MakeRunCells(ff: FileFacts, r: Row, hasRows: bool)
    ensures var run := MakeRun(ff, r, hasRows);
      var pm := if "params" in r then Search(r["params"], Params, 0) else None;
      var sm := if "size" in r then Search(r["size"], Gib, 0) else None;
      && run.backend == (if "backend" in r then Some(r["backend"]) else None)
      && run.ngl == DigitField(Cell(r, "ngl")) && run.mmap == DigitField(Cell(r, "mmap"))
      && (pm.Some? ==> run.paramsB == AmountValue(pm.value.cap.groups[0]))
      && (pm.None? ==> run.paramsB.None?)
      && (sm.Some? ==> run.fileSizeGib == AmountValue(sm.value.cap.groups[0]))
      && (sm.None? ==> run.fileSizeGib.None?)
      && run.quant == ff.quant
  {
  }

  /** The facts shared by a file's records, from its name, text and rows. */
  function FactsOf(f: LogFile, rows: seq<Row>): (ff: FileFacts)
    requires Contains(f.stem, "__")
    ensures ff.error == (if HasPerf(rows) then None else DetectError(f.text))
    ensures ff.fa == (if FirstFa(rows).Some? then FirstFa(rows).value else FlagsOf(SplitOn(f.stem, "__")).fa)
    ensures ff.rpc == (f.rpcSource || FlagsOf(SplitOn(f.stem, "__")).rpc)
  {
    var flags := FlagsOf(SplitOn(f.stem, "__"));
    SplitOnPresent(f.stem, "__");
    var env := CanonicalizeEnv(flags.env.value);
    var modelRaw := SplitOn(f.stem, "__")[0];
    var faTable := FirstFa(rows);
    var (base, variant) := EnvBaseAndVariant(env);
    FileFacts(
      modelRaw, CleanModelName(modelRaw), env, base, variant,
      if faTable.Some? then faTable.value else flags.fa,
      if flags.contextTag == "" then "default" else flags.contextTag,
      flags.contextTokens,
      if HasPerf(rows) then None else DetectError(f.text),
      ExtractQuant(CleanModelName(modelRaw)),
      f.path, f.rpcSource || flags.rpc, BuildOf(f.text))
  }

  /** `table_rows or [{}]`. */
  function SourceRows(rows: seq<Row>): (r: seq<Row>)
    ensures |r| == if rows == [] then 1 else |rows|
  {
    if rows == [] then [map[]] else rows
  }

  /** One record per source row, in order. */
  function RunsOf(ff: FileFacts, src: seq<Row>, hasRows: bool): (r: seq<Run>)
    ensures |r| == |src|
  {
    if src == [] then []
    else RunsOf(ff, src[..|src| - 1], hasRows) + [MakeRun(ff, src[|src| - 1], hasRows)]
  }

  lemma {:induction false} RunsOfAt(ff: FileFacts, src: seq<Row>, hasRows: bool, i: nat)
    requires i < |src|
    ensures RunsOf(ff, src, hasRows)[i] == MakeRun(ff, src[i], hasRows)
  {
    if i < |src| - 1 {
      RunsOfAt(ff, src[..|src| - 1], hasRows, i);
    }
  }

  /** What one file contributes, or None when its table raises IndexError. */
  function FileRuns(f: LogFile): Option<FileOut>
    requires Contains(f.stem, "__")
  {
    match TableOf(f.text)
    case IndexError => None
    case Rows(rows) =>
      var ff := FactsOf(f, rows);
      Some(FileOut(RunsOf(ff, SourceRows(rows), rows != []), ff.build, ff.env))
  }

  /** The emission loop: `for r in table_rows or [{}]`. */
  method EmitRuns(ff: FileFacts, rows: seq<Row>) returns (runs: seq<Run>)
    ensures runs == RunsOf(ff, SourceRows(rows), rows != [])
  {
    var src := SourceRows(rows);
    runs := [];
    var i := 0;
    while i < |src|
      invariant i <= |src|
      invariant runs == RunsOf(ff, src[..i], rows != [])
    {
      assert src[..i + 1][..i] == src[..i];
      runs := runs + [MakeRun(ff, src[i], rows != [])];
      i := i + 1;
    }
    assert src[..i] == src;
  }

  /** The body of the scan for one file that passed the `__` test. */
  method ScanFile(f: LogFile) returns (out: Option<FileOut>)
    requires Contains(f.stem, "__")
    ensures out == FileRuns(f)
  {
    var flags := ParseEnvFlags(f.stem);
    SplitOnPresent(f.stem, "__");
    var env := CanonicalizeEnv(flags.env.value);
    var modelRaw := SplitOn(f.stem, "__")[0];
    var modelClean := CleanModelName(modelRaw);
    var build := LastBuild(f.text);
    var table := ParseTable(f.text);
    if table.IndexError? {
      return None;
    }
    var rows := table.rows;
    var error: Option<ErrorKind> := None;
    if !HasPerf(rows) {
      error := DetectError(f.text);
    }
    var faTable := FaFromTable(rows);
    var fa := if faTable.Some? then faTable.value else flags.fa;
    var (base, variant) := EnvBaseAndVariant(env);
    var ff := FileFacts(
      modelRaw, modelClean, env, base, variant, fa,
      if flags.contextTag == "" then "default" else flags.contextTag,
      flags.contextTokens, error, ExtractQuant(modelClean),
      f.path, f.rpcSource || flags.rpc, build);
    var runs := EmitRuns(ff, rows);
    return Some(FileOut(runs, build, env));
  }

  /** The outcome of the whole scan: the records, builds and environments,
      or a crash when some table raised IndexError. */
  datatype ScanResult = Written(runs: seq<Run>, builds: set<Build>, envs: set<string>) | Crashed

  /** The scan over all files, in listing order, as a function. */
  function ScanOf(files: seq<LogFile>): ScanResult {
    if files == [] then Written([], {}, {})
    else
      var last := files[|files| - 1];
      match ScanOf(files[..|files| - 1])
      case Crashed => Crashed
      case Written(runs, builds, envs) =>
        if !Contains(last.stem, "__") then Written(runs, builds, envs)
        else match FileRuns(last)
          case None => Crashed
          case Some(out) =>
            Written(runs + out.runs,
                    if out.build.Some? then builds + {out.build.value} else builds,
                    if out.env != "" then envs + {out.env} else envs)
  }

  /** The module-level scan loop. */
  method Scan(files: seq<LogFile>) returns (res: ScanResult)
    ensures res == ScanOf(files)
  {
    var runs: seq<Run> := [];
    var builds: set<Build> := {};
    var envs: set<string> := {};
    var i := 0;
    while i < |files|
      invariant i <= |files|
      invariant ScanOf(files[..i]) == Written(runs, builds, envs)
    {
      assert files[..i + 1][..i] == files[..i];
      var f := files[i];
      if !Contains(f.stem, "__") {
        i := i + 1;
        continue;
      }
      var out := ScanFile(f);
      if out.None? {
        assert ScanOf(files[..i + 1]) == Crashed;
        CrashIsFinal(files, i + 1);
        return Crashed;
      }
      if out.value.env != "" {
        envs := envs + {out.value.env};
      }
      if out.value.build.Some? {
        builds := builds + {out.value.build.value};
      }
      runs := runs + out.value.runs;
      i := i + 1;
    }
    assert files[..i] == files;
    return Written(runs, builds, envs);
  }

  /** An IndexError ends the whole scan: no later file can undo it. */
  lemma {:induction false} CrashIsFinal(files: seq<LogFile>, n: nat)
    requires n <= |files| && ScanOf(files[..n]) == Crashed
    ensures ScanOf(files) == Crashed
    decreases |files| - n
  {
    if n < |files| {
      assert files[..n + 1][..n] == files[..n];
      CrashIsFinal(files, n + 1);
    } else {
      assert files[..n] == files;
    }
  }

  // ---------------------------------------------------------------------------
  // Properties of the emission

  /** Every record built from a file's facts carries those facts. */
  lemma RunsCarryFacts(ff: FileFacts, src: seq<Row>, hasRows: bool)
    ensures forall i :: 0 <= i < |src| ==>
      && RunsOf(ff, src, hasRows)[i] == MakeRun(ff, src[i], hasRows)
      && RunsOf(ff, src, hasRows)[i].errorType == ff.error
      && RunsOf(ff, src, hasRows)[i].fa == ff.fa
      && RunsOf(ff, src, hasRows)[i].rpc == ff.rpc
  {
    forall i | 0 <= i < |src|
      ensures RunsOf(ff, src, hasRows)[i] == MakeRun(ff, src[i], hasRows)
    {
      RunsOfAt(ff, src, hasRows, i);
    }
  }

  /** One record per parsed row, or exactly one record without a test when
      the table is empty. */
  lemma RunsPerFile(f: LogFile)
    requires Contains(f.stem, "__") && TableOf(f.text).Rows?
    ensures var rows := TableOf(f.text).rows;
      var out := FileRuns(f).value;
      && |out.runs| == (if rows == [] then 1 else |rows|)
      && (rows == [] ==> out.runs[0].test.None?)
      && (forall i :: 0 <= i < |rows| ==> out.runs[i].test == Some(Lower(GetOrEmpty(rows[i], "test"))))
  {
    var rows := TableOf(f.text).rows;
    RunsCarryFacts(FactsOf(f, rows), SourceRows(rows), rows != []);
  }

  /** Every record of a file carries the same error verdict, which is
      detect_error's only when no row is a pp512 or tg128 measurement. */
  lemma ErrorOnlyWithoutPerf(f: LogFile)
    requires Contains(f.stem, "__") && TableOf(f.text).Rows?
    ensures var rows := TableOf(f.text).rows;
      var out := FileRuns(f).value;
      forall i :: 0 <= i < |out.runs| ==>
        && (out.runs[i].error ==> !HasPerf(rows))
        && out.runs[i].errorType == (if HasPerf(rows) then None else DetectError(f.text))
  {
    var rows := TableOf(f.text).rows;
    RunsCarryFacts(FactsOf(f, rows), SourceRows(rows), rows != []);
  }

  /** The first row with an integer "fa" column overrides the filename flag,
      and a record is an RPC run when its directory or its name says so. */
  lemma FaAndRpcOfFile(f: LogFile)
    requires Contains(f.stem, "__") && TableOf(f.text).Rows?
    ensures var rows := TableOf(f.text).rows;
      var out := FileRuns(f).value;
      var flags := FlagsOf(SplitOn(f.stem, "__"));
      forall i :: 0 <= i < |out.runs| ==>
        && out.runs[i].fa == (if FirstFa(rows).Some? then FirstFa(rows).value else flags.fa)
        && out.runs[i].rpc == (f.rpcSource || flags.rpc)
  {
    var rows := TableOf(f.text).rows;
    RunsCarryFacts(FactsOf(f, rows), SourceRows(rows), rows != []);
  }

  /** A file whose stem has no "__" contributes nothing. */
  lemma SkippedFile(files: seq<LogFile>, f: LogFile)
    requires !Contains(f.stem, "__")
    ensures ScanOf(files + [f]) == ScanOf(files)
  {
    assert (files + [f])[..|files|] == files;
  }
}
