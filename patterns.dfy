/** The regular expressions of the benchmark scripts, each written out as a
    predicate or as a match-at-position function. Every capture pattern below
    is deterministic once its start is fixed (each greedy run is followed by
    a character its class excludes), so a match is computed by maximal runs;
    `Search` then gives `re.search`'s leftmost match. Case-insensitivity is
    ASCII case folding. */
module Patterns {
  import opened Basics

  /** WARNING SIGN followed by VARIATION SELECTOR-16, the "⚠️" of the logs. */
  const Warn: string := "\U{26A0}\U{FE0F}"

  // ---------------------------------------------------------------------------
  // Failure classifiers (benchmark/generate_results.json.py:21-23)

  /** `Device memory allocation.*failed`: "failed" later on the same line
      (`.` matches everything but a newline). */
  predicate AllocFailedAt(s: string, i: nat) {
    && AtCi(s, i, "device memory allocation")
    && exists j :: i + 24 <= j <= |s| && AtCi(s, j, "failed") && NoNewline(s, i + 24, j)
  }

  predicate NoNewline(s: string, from: nat, to: nat)
    requires from <= to <= |s|
  {
    forall k :: from <= k < to ==> s[k] != '\n'
  }

  /** `⚠️\s*<word>`. */
  predicate WarnThen(s: string, i: nat, word: string) {
    At(s, i, Warn) && AtCi(s, SpanEnd(s, i + 2, Space), word)
  }

  /** `exit \d+`: "exit " followed by at least one digit. */
  predicate ExitCodeAt(s: string, i: nat) {
    AtCi(s, i, "exit ") && i + 5 < |s| && IsDigit(s[i + 5])
  }

  predicate AllocFailed(s: string) { exists i :: 0 <= i <= |s| && AllocFailedAt(s, i) }

  predicate WarnFail(s: string) { exists i :: 0 <= i <= |s| && WarnThen(s, i, "fail") }

  predicate ExitCode(s: string) { exists i :: 0 <= i <= |s| && ExitCodeAt(s, i) }

  predicate WarnRuntime(s: string) { exists i :: 0 <= i <= |s| && WarnThen(s, i, "runtime error") }

  /** LOAD_ERR. */
  predicate LoadErr(s: string) {
    ContainsCi(s, "failed to load model") || AllocFailed(s) || WarnFail(s)
  }

  /** HANG_ERR. */
  predicate HangErr(s: string) {
    ContainsCi(s, "gpu hang") || ContainsCi(s, "hw exception")
  }

  /** GENERIC_ERR. */
  predicate GenericErr(s: string) {
    ContainsCi(s, "error:") || ExitCode(s) || ContainsCi(s, "runtime error") || WarnRuntime(s)
  }

  /** The older script's LOAD_ERR, without the "⚠️ Fail" alternative
      (benchmark/parse_benchmark_results.py:12). */
  predicate LegacyLoadErr(s: string) {
    ContainsCi(s, "failed to load model") || AllocFailed(s)
  }

  /** The older script's GENERIC_ERR: only "error:" and "exit N"
      (benchmark/parse_benchmark_results.py:14). */
  predicate LegacyGenericErr(s: string) {
    ContainsCi(s, "error:") || ExitCode(s)
  }

  /** The fourth alternative of GENERIC_ERR never adds anything: a
      "⚠️ Runtime Error" always contains "runtime error". */
  lemma {:induction false} WarnRuntimeIsRuntimeError(s: string)
    requires WarnRuntime(s)
    ensures ContainsCi(s, "runtime error")
  {
    var i :| 0 <= i <= |s| && WarnThen(s, i, "runtime error");
    var j := SpanEnd(s, i + 2, Space);
    assert AtCi(s, j, "runtime error");
  }

  lemma LegacyLoadImpliesLoad(s: string)
    ensures LegacyLoadErr(s) ==> LoadErr(s)
    ensures LegacyGenericErr(s) ==> GenericErr(s)
  {
  }

  // ---------------------------------------------------------------------------
  // Capture patterns

  datatype Cap = Cap(end: nat, groups: seq<string>)

  datatype Pat =
    | Ts             // ([\d.]+)\s*±\s*([\d.]+)
    | Quant          // (Q\d+_[A-Z0-9_]+|BF16|F16|F32|mxfp\d+), IGNORECASE
    | NameB          // (\d+(?:\.\d+)?)B
    | Params         // ([\d.,]+)\s*B, IGNORECASE
    | Gib            // ([\d.,]+)\s*GiB, IGNORECASE
    | Longctx        // longctx(\d+), IGNORECASE
    | BuildLine      // build:\s*([0-9a-f]{7,})\s*\((\d+)\), IGNORECASE
    | Shard          // -000\d+-of-000\d+, IGNORECASE
    | TableRow(test: string) // \|[^|]*\| x5 \s*<test>\s*\|\s*([\d.]+)\s*±\s*([\d.]+)
    | EnvTag         // -(rocwmma-improved|rocwmma|improved|hblt0), JavaScript /gi
    | LoadOk         // ✔ \[([^]]+)\] ([^ ]+) avg=([0-9.]+)s over ([0-9]+) runs
    | LoadFail       // ✖ \[([^]]+)\] ([^ ]+) all runs failed

  /** What the capture groups of each pattern look like. */
  predicate GroupShape(pat: Pat, g: seq<string>) {
    match pat
    case Ts => |g| == 2 && AllIn(g[0], DigitDot) && AllIn(g[1], DigitDot)
    case Quant => |g| == 1 && |g[0]| > 0
    case NameB => |g| == 1 && AllIn(g[0], DigitDot) && |g[0]| > 0 && IsDigit(g[0][0]) && CountChar(g[0], '.') <= 1
    case Params => |g| == 1 && AllIn(g[0], DigitDotComma)
    case Gib => |g| == 1 && AllIn(g[0], DigitDotComma)
    case Longctx => |g| == 1 && AllIn(g[0], Digit) && |g[0]| > 0
    case BuildLine => |g| == 2
    case Shard => |g| == 0
    case TableRow(_) => |g| == 2 && AllIn(g[0], DigitDot) && AllIn(g[1], DigitDot)
    case EnvTag => |g| == 1
    case LoadOk => |g| == 4 && AllIn(g[2], DigitDot)
    case LoadFail => |g| == 2
  }

  function TsAt(s: string, p: nat): (r: Option<Cap>)
    requires p <= |s|
    ensures r.Some? ==> p < r.value.end <= |s| && GroupShape(Ts, r.value.groups)
  {
    var e1 := SpanEnd(s, p, DigitDot);
    var j1 := SpanEnd(s, e1, Space);
    if e1 == p || j1 == |s| || s[j1] != '±' then None
    else
      var j2 := SpanEnd(s, j1 + 1, Space);
      var e2 := SpanEnd(s, j2, DigitDot);
      if e2 == j2 then None
      else
        assert AllIn(s[p..e1], DigitDot) && AllIn(s[j2..e2], DigitDot);
        Some(Cap(e2, [s[p..e1], s[j2..e2]]))
  }

  function QuantAt(s: string, p: nat): (r: Option<Cap>)
    requires p <= |s|
    ensures r.Some? ==> p < r.value.end <= |s| && GroupShape(Quant, r.value.groups)
  {
    var d := if p < |s| then SpanEnd(s, p + 1, Digit) else p;
    if p < |s| && LowerChar(s[p]) == 'q' && d > p + 1 && d < |s| && s[d] == '_'
       && SpanEnd(s, d + 1, QuantBody) > d + 1 then
      Some(Cap(SpanEnd(s, d + 1, QuantBody), [s[p..SpanEnd(s, d + 1, QuantBody)]]))
    else if AtCi(s, p, "bf16") then Some(Cap(p + 4, [s[p..p + 4]]))
    else if AtCi(s, p, "f16") || AtCi(s, p, "f32") then Some(Cap(p + 3, [s[p..p + 3]]))
    else if AtCi(s, p, "mxfp") && SpanEnd(s, p + 4, Digit) > p + 4 then
      Some(Cap(SpanEnd(s, p + 4, Digit), [s[p..SpanEnd(s, p + 4, Digit)]]))
    else None
  }

  function NameBAt(s: string, p: nat): (r: Option<Cap>)
    requires p <= |s|
    ensures r.Some? ==> p < r.value.end <= |s| && GroupShape(NameB, r.value.groups)
  {
    var e1 := SpanEnd(s, p, Digit);
    var e2 := if e1 < |s| then SpanEnd(s, e1 + 1, Digit) else e1;
    if e1 == p then None
    else if e1 < |s| && s[e1] == '.' && e2 > e1 + 1 && e2 < |s| && s[e2] == 'B' then
      assert AllIn(s[p..e2], DigitDot);
      CountNoChar(s[p..e1], '.');
      CountNoChar(s[e1 + 1..e2], '.');
      CountSplit(s[p..e2], e1 - p, '.');
      assert s[p..e2][..e1 - p] == s[p..e1] && s[p..e2][e1 - p + 1..] == s[e1 + 1..e2];
      Some(Cap(e2 + 1, [s[p..e2]]))
    else if e1 < |s| && s[e1] == 'B' then
      assert AllIn(s[p..e1], DigitDot);
      CountNoChar(s[p..e1], '.');
      Some(Cap(e1 + 1, [s[p..e1]]))
    else None
  }

  /** `([\d.,]+)\s*<unit>` under IGNORECASE. */
  function AmountAt(s: string, p: nat, unit: string): (r: Option<Cap>)
    requires p <= |s| && |unit| > 0
    ensures r.Some? ==> p < r.value.end <= |s| && |r.value.groups| == 1 && AllIn(r.value.groups[0], DigitDotComma)
  {
    var e := SpanEnd(s, p, DigitDotComma);
    var j := SpanEnd(s, e, Space);
    if e > p && AtCi(s, j, unit) then
      assert AllIn(s[p..e], DigitDotComma);
      Some(Cap(j + |unit|, [s[p..e]]))
    else None
  }

  function LongctxAt(s: string, p: nat): (r: Option<Cap>)
    requires p <= |s|
    ensures r.Some? ==> p < r.value.end <= |s| && GroupShape(Longctx, r.value.groups)
  {
    if AtCi(s, p, "longctx") && SpanEnd(s, p + 7, Digit) > p + 7 then
      var e := SpanEnd(s, p + 7, Digit);
      assert AllIn(s[p + 7..e], Digit);
      Some(Cap(e, [s[p + 7..e]]))
    else None
  }

  function BuildAt(s: string, p: nat): (r: Option<Cap>)
    requires p <= |s|
    ensures r.Some? ==> p < r.value.end <= |s| && GroupShape(BuildLine, r.value.groups)
  {
    if !AtCi(s, p, "build:") then None
    else
      var j := SpanEnd(s, p + 6, Space);
      var h := SpanEnd(s, j, HexDigit);
      var k := SpanEnd(s, h, Space);
      if h - j < 7 || k == |s| || s[k] != '(' then None
      else
        var d := SpanEnd(s, k + 1, Digit);
        if d == k + 1 || d == |s| || s[d] != ')' then None
        else Some(Cap(d + 1, [s[j..h], s[k + 1..d]]))
  }

  function ShardAt(s: string, p: nat): (r: Option<Cap>)
    requires p <= |s|
    ensures r.Some? ==> p < r.value.end <= |s| && GroupShape(Shard, r.value.groups)
  {
    if !AtCi(s, p, "-000") then None
    else
      var d1 := SpanEnd(s, p + 4, Digit);
      if d1 == p + 4 || !AtCi(s, d1, "-of-000") then None
      else
        var d2 := SpanEnd(s, d1 + 7, Digit);
        if d2 == d1 + 7 then None else Some(Cap(d2, []))
  }

  /** Position of the `n`-th pipe after the one at `q`, each cell `[^|]*`. */
  function SkipCells(s: string, q: nat, n: nat): (r: Option<nat>)
    requires q < |s|
    ensures r.Some? ==> q <= r.value < |s| && s[r.value] == '|'
    decreases n
  {
    var next := SpanEnd(s, q + 1, NotPipe);
    if n == 0 then (if s[q] == '|' then Some(q) else None)
    else if next == |s| then None
    else SkipCells(s, next, n - 1)
  }

  function TableRowAt(s: string, p: nat, test: string): (r: Option<Cap>)
    requires p <= |s|
    ensures r.Some? ==> p < r.value.end <= |s| && GroupShape(TableRow(test), r.value.groups)
  {
    if p == |s| || s[p] != '|' then None
    else match SkipCells(s, p, 5)
      case None => None
      case Some(q6) =>
        var j := SpanEnd(s, q6 + 1, Space);
        if !At(s, j, test) then None
        else
          var k := SpanEnd(s, j + |test|, Space);
          if k == |s| || s[k] != '|' then None
          else TsAt(s, SpanEnd(s, k + 1, Space))
  }

  function EnvTagAt(s: string, p: nat): (r: Option<Cap>)
    requires p <= |s|
    ensures r.Some? ==> p < r.value.end <= |s| && GroupShape(EnvTag, r.value.groups)
    ensures r.Some? ==> r.value.end == p + 1 + |r.value.groups[0]| && Lower(r.value.groups[0]) in EnvTagNames
  {
    if p == |s| || s[p] != '-' then None
    else if AtCi(s, p + 1, "rocwmma-improved") then
      assert Lower("rocwmma-improved") == "rocwmma-improved";
      Some(Cap(p + 17, [s[p + 1..p + 17]]))
    else if AtCi(s, p + 1, "rocwmma") then
      assert Lower("rocwmma") == "rocwmma";
      Some(Cap(p + 8, [s[p + 1..p + 8]]))
    else if AtCi(s, p + 1, "improved") then
      assert Lower("improved") == "improved";
      Some(Cap(p + 9, [s[p + 1..p + 9]]))
    else if AtCi(s, p + 1, "hblt0") then
      assert Lower("hblt0") == "hblt0";
      Some(Cap(p + 6, [s[p + 1..p + 6]]))
    else None
  }

  const EnvTagNames: set<string> := {"rocwmma-improved", "rocwmma", "improved", "hblt0"}

  /** Two texts found one after the other. */
  lemma AtJoin(s: string, p: nat, x: string, y: string)
    requires At(s, p, x) && At(s, p + |x|, y)
    ensures At(s, p, x + y)
  {
    assert s[p..p + |x| + |y|] == s[p..p + |x|] + s[p + |x|..p + |x| + |y|];
  }

  /** The pieces of a success line, found one after the other. */
  lemma OkPieces(s: string, p: nat, e: nat, m: nat, a: nat, n: nat)
    requires p + 3 <= e && e + 2 <= m && m + 5 <= a && a + 7 <= n
    requires At(s, p, "✔ [") && At(s, e, "] ") && At(s, m, " avg=") && At(s, a, "s over ") && At(s, n, " runs")
    ensures At(s, p, "✔ [" + s[p + 3..e] + "] " + s[e + 2..m] + " avg=" + s[m + 5..a] + "s over " + s[a + 7..n] + " runs")
  {
    AtJoin(s, p, "✔ [", s[p + 3..e]);
    AtJoin(s, p, "✔ [" + s[p + 3..e], "] ");
    AtJoin(s, p, "✔ [" + s[p + 3..e] + "] ", s[e + 2..m]);
    AtJoin(s, p, "✔ [" + s[p + 3..e] + "] " + s[e + 2..m], " avg=");
    AtJoin(s, p, "✔ [" + s[p + 3..e] + "] " + s[e + 2..m] + " avg=", s[m + 5..a]);
    AtJoin(s, p, "✔ [" + s[p + 3..e] + "] " + s[e + 2..m] + " avg=" + s[m + 5..a], "s over ");
    AtJoin(s, p, "✔ [" + s[p + 3..e] + "] " + s[e + 2..m] + " avg=" + s[m + 5..a] + "s over ", s[a + 7..n]);
    AtJoin(s, p, "✔ [" + s[p + 3..e] + "] " + s[e + 2..m] + " avg=" + s[m + 5..a] + "s over " + s[a + 7..n], " runs");
  }

  /** The pieces of a failure line, found one after the other. */
  lemma FailPieces(s: string, p: nat, e: nat, m: nat)
    requires p + 3 <= e && e + 2 <= m
    requires At(s, p, "✖ [") && At(s, e, "] ") && At(s, m, " all runs failed")
    ensures At(s, p, "✖ [" + s[p + 3..e] + "] " + s[e + 2..m] + " all runs failed")
  {
    AtJoin(s, p, "✖ [", s[p + 3..e]);
    AtJoin(s, p, "✖ [" + s[p + 3..e], "] ");
    AtJoin(s, p, "✖ [" + s[p + 3..e] + "] ", s[e + 2..m]);
    AtJoin(s, p, "✖ [" + s[p + 3..e] + "] " + s[e + 2..m], " all runs failed");
  }

  /** A success line of the load-time log: `✔ [env] model avg=T s over N runs`. */
  function LoadOkAt(s: string, p: nat): (r: Option<Cap>)
    requires p <= |s|
    ensures r.Some? ==> p < r.value.end <= |s| && GroupShape(LoadOk, r.value.groups)
    ensures r.Some? ==> At(s, p, "✔ [" + r.value.groups[0] + "] " + r.value.groups[1] + " avg=" + r.value.groups[2]
      + "s over " + r.value.groups[3] + " runs")
  {
    if !At(s, p, "✔ [") then None
    else
      var e := SpanEnd(s, p + 3, NotBracket);
      if e == p + 3 || !At(s, e, "] ") then None
      else
        var m := SpanEnd(s, e + 2, NotBlank);
        if m == e + 2 || !At(s, m, " avg=") then None
        else
          var a := SpanEnd(s, m + 5, DigitDot);
          if a == m + 5 || !At(s, a, "s over ") then None
          else
            var n := SpanEnd(s, a + 7, Digit);
            if n == a + 7 || !At(s, n, " runs") then None
            else
              assert AllIn(s[m + 5..a], DigitDot);
              OkPieces(s, p, e, m, a, n);
              Some(Cap(n + 5, [s[p + 3..e], s[e + 2..m], s[m + 5..a], s[a + 7..n]]))
  }

  /** A failure line of the load-time log: `✖ [env] model all runs failed`. */
  function LoadFailAt(s: string, p: nat): (r: Option<Cap>)
    requires p <= |s|
    ensures r.Some? ==> p < r.value.end <= |s| && GroupShape(LoadFail, r.value.groups)
    ensures r.Some? ==> At(s, p, "✖ [" + r.value.groups[0] + "] " + r.value.groups[1] + " all runs failed")
  {
    if !At(s, p, "✖ [") then None
    else
      var e := SpanEnd(s, p + 3, NotBracket);
      if e == p + 3 || !At(s, e, "] ") then None
      else
        var m := SpanEnd(s, e + 2, NotBlank);
        if m == e + 2 || !At(s, m, " all runs failed") then None
        else
          FailPieces(s, p, e, m);
          Some(Cap(m + 16, [s[p + 3..e], s[e + 2..m]]))
  }

  /** The match of `pat` starting exactly at `p`, if any. */
  function MatchAt(s: string, p: nat, pat: Pat): (r: Option<Cap>)
    requires p <= |s|
    ensures r.Some? ==> p < r.value.end <= |s| && GroupShape(pat, r.value.groups)
  {
    match pat
    case Ts => TsAt(s, p)
    case Quant => QuantAt(s, p)
    case NameB => NameBAt(s, p)
    case Params => AmountAt(s, p, "b")
    case Gib => AmountAt(s, p, "gib")
    case Longctx => LongctxAt(s, p)
    case BuildLine => BuildAt(s, p)
    case Shard => ShardAt(s, p)
    case TableRow(test) => TableRowAt(s, p, test)
    case EnvTag => EnvTagAt(s, p)
    case LoadOk => LoadOkAt(s, p)
    case LoadFail => LoadFailAt(s, p)
  }

  datatype Found = Found(start: nat, cap: Cap)

  /** The scanning loop of `re.search`, over any matcher `m` of a text of
      length `n`: the first position from `from` on where `m` matches. */
  function SearchWith(n: nat, m: nat -> Option<Cap>, from: nat): (r: Option<Found>)
    requires from <= n
    ensures r.Some? ==> from <= r.value.start <= n && m(r.value.start) == Some(r.value.cap)
    decreases n - from
  {
    match m(from)
    case Some(c) => Some(Found(from, c))
    case None => if from == n then None else SearchWith(n, m, from + 1)
  }

  /** No position before the one found matches; without a find, none does. */
  lemma {:induction false} SearchWithLeftmost(n: nat, m: nat -> Option<Cap>, from: nat)
    requires from <= n
    ensures SearchWith(n, m, from).Some? ==> forall q :: from <= q < SearchWith(n, m, from).value.start ==> m(q).None?
    ensures SearchWith(n, m, from).None? ==> forall q :: from <= q <= n ==> m(q).None?
    decreases n - from
  {
    if m(from).None? && from < n {
      SearchWithLeftmost(n, m, from + 1);
    }
  }

  /** `pat` tried at every position of `s`. */
  function Matcher(s: string, pat: Pat): nat -> Option<Cap> {
    (q: nat) => if q <= |s| then MatchAt(s, q, pat) else None
  }

  /** `re.search` from position `from`: the leftmost match. */
  function Search(s: string, pat: Pat, from: nat): (r: Option<Found>)
    requires from <= |s|
    ensures r.Some? ==> from <= r.value.start < r.value.cap.end <= |s|
    ensures r.Some? ==> MatchAt(s, r.value.start, pat) == Some(r.value.cap)
    ensures r.Some? ==> GroupShape(pat, r.value.cap.groups)
  {
    SearchWith(|s|, Matcher(s, pat), from)
  }

  /** The match found is the leftmost one, and no match means no position matches. */
  lemma SearchLeftmost(s: string, pat: Pat, from: nat)
    requires from <= |s|
    ensures Search(s, pat, from).Some? ==> forall q :: from <= q < Search(s, pat, from).value.start ==> MatchAt(s, q, pat).None?
    ensures Search(s, pat, from).None? ==> forall q :: from <= q <= |s| ==> MatchAt(s, q, pat).None?
  {
    SearchWithLeftmost(|s|, Matcher(s, pat), from);
    forall q | from <= q <= |s| ensures Matcher(s, pat)(q) == MatchAt(s, q, pat) {
    }
  }

  /** The capture groups of `re.search(pat, s)`, if it matches. */
  function Groups(s: string, pat: Pat): (r: Option<seq<string>>)
    ensures r.Some? ==> GroupShape(pat, r.value)
  {
    match Search(s, pat, 0)
    case None => None
    case Some(f) => Some(f.cap.groups)
  }

  /** The last match `re.finditer` yields from `from` on: matches are taken
      leftmost first, each search resuming where the previous match ended. */
  function FindIterLast(s: string, pat: Pat, from: nat): (r: Option<Cap>)
    requires from <= |s|
    ensures r.Some? ==> exists p :: from <= p <= |s| && MatchAt(s, p, pat) == Some(r.value)
    ensures r.Some? ==> r.value.end <= |s| && forall q :: r.value.end <= q <= |s| ==> MatchAt(s, q, pat).None?
    ensures r.Some? ==> GroupShape(pat, r.value.groups)
    ensures r.None? <==> Search(s, pat, from).None?
    decreases |s| - from
  {
    match Search(s, pat, from)
    case None => None
    case Some(f) =>
      SearchLeftmost(s, pat, f.cap.end);
      match FindIterLast(s, pat, f.cap.end)
      case None => Some(f.cap)
      case Some(c) => Some(c)
  }
}
