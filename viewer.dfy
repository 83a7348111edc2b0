/** The results viewer's data logic: the winner set of a table row, the
    split of an env name into base and tags, the reordering of backend
    columns, the model filter, the context order, and the updates that build
    its context and model maps from the records. */
module Viewer {
  import opened Basics
  import opened Dicts
  import opened Patterns
  import Stats

  const DefaultCtx: string := "default"
  const KSigma: real := 1.0
  const MinTol: real := 0.25

  // ---------------------------------------------------------------------------
  // Backend cells and computeWinners

  /** One backend cell of a row: mean and std when they are numbers. */
  datatype Entry = Entry(mean: Option<real>, std: Option<real>, error: bool, errorType: Option<string>)

  /** A cell that takes part in the comparison: not an error, with a mean. */
  predicate Measured(e: Entry) {
    !e.error && e.mean.Some?
  }

  datatype Val = Val(env: string, mean: real, std: real)

  /** The first loop of computeWinners: the measured cells of the listed
      backends, in list order, a missing std read as 0. */
  function ValuesOf(cells: map<string, Entry>, backends: seq<string>): (r: seq<Val>)
    ensures |r| <= |backends|
  {
    if backends == [] then []
    else
      var pre := ValuesOf(cells, backends[..|backends| - 1]);
      var env := backends[|backends| - 1];
      if env in cells && Measured(cells[env]) then
        pre + [Val(env, cells[env].mean.value, cells[env].std.GetOr(0.0))]
      else pre
  }

  function Means(vals: seq<Val>): (r: seq<real>)
    ensures |r| == |vals| && forall i :: 0 <= i < |vals| ==> r[i] == vals[i].mean
  {
    seq(|vals|, i requires 0 <= i < |vals| => vals[i].mean)
  }

  /** `best.mean - v.mean <= max(MIN_TOL, K_SIGMA * sqrt(best.std² + v.std²))`,
      stated without the square root: for a gap above MIN_TOL (so positive)
      the gap is within the pooled sigma exactly when its square is within
      the summed squares. */
  predicate WithinTol(best: Val, v: Val) {
    var gap := best.mean - v.mean;
    gap <= MinTol || gap * gap <= KSigma * KSigma * (best.std * best.std + v.std * v.std)
  }

  /** The third loop: the envs within tolerance of `best`, in order. */
  function Within(vals: seq<Val>, best: Val): (r: seq<string>)
    ensures |r| <= |vals|
  {
    if vals == [] then []
    else
      var pre := Within(vals[..|vals| - 1], best);
      var v := vals[|vals| - 1];
      if WithinTol(best, v) then pre + [v.env] else pre
  }

  /** computeWinners as a function: none without measured cells, otherwise
      the envs within tolerance of the first cell with the largest mean. */
  function WinnersOf(cells: map<string, Entry>, backends: seq<string>): seq<string> {
    var vals := ValuesOf(cells, backends);
    if vals == [] then [] else Within(vals, BestOf(vals))
  }

  /** The first value with the largest mean. */
  function BestOf(vals: seq<Val>): Val
    requires vals != []
  {
    vals[Stats.ArgMax(Means(vals))]
  }

  /** A measured cell of a listed backend gives a value, and every value is one. */
  lemma {:induction false} ValuesOfSpec(cells: map<string, Entry>, backends: seq<string>)
    ensures forall i :: 0 <= i < |ValuesOf(cells, backends)| ==> (var v := ValuesOf(cells, backends)[i];
      v.env in backends && v.env in cells && Measured(cells[v.env])
      && v.mean == cells[v.env].mean.value && v.std == cells[v.env].std.GetOr(0.0))
    ensures forall j :: (0 <= j < |backends| && backends[j] in cells && Measured(cells[backends[j]])
      ==> exists i :: 0 <= i < |ValuesOf(cells, backends)| && ValuesOf(cells, backends)[i].env == backends[j])
  {
    if backends != [] {
      var pre := backends[..|backends| - 1];
      ValuesOfSpec(cells, pre);
      var r := ValuesOf(cells, backends);
      var rp := ValuesOf(cells, pre);
      assert forall i :: 0 <= i < |rp| ==> r[i] == rp[i];
      forall j | 0 <= j < |backends| && backends[j] in cells && Measured(cells[backends[j]])
        ensures exists i :: 0 <= i < |r| && r[i].env == backends[j]
      {
        if j < |pre| {
          assert pre[j] == backends[j];
          var i :| 0 <= i < |rp| && rp[i].env == pre[j];
          assert r[i] == rp[i];
        } else {
          assert r[|r| - 1].env == backends[j];
        }
      }
    }
  }

  /** Every winner is a value within tolerance of `best`, and every such value is a winner. */
  lemma {:induction false} WithinSpec(vals: seq<Val>, best: Val)
    ensures forall w :: w in Within(vals, best) <==> exists i :: 0 <= i < |vals| && vals[i].env == w && WithinTol(best, vals[i])
  {
    if vals != [] {
      var pre := vals[..|vals| - 1];
      WithinSpec(pre, best);
      assert forall i :: 0 <= i < |pre| ==> pre[i] == vals[i];
    }
  }

  /** The winner set is empty exactly when no listed backend has a measured cell. */
  lemma WinnersEmpty(cells: map<string, Entry>, backends: seq<string>)
    ensures WinnersOf(cells, backends) == [] <==> forall j :: 0 <= j < |backends| ==> !(backends[j] in cells && Measured(cells[backends[j]]))
  {
    var vals := ValuesOf(cells, backends);
    ValuesOfSpec(cells, backends);
    if vals != [] {
      BestWins(vals);
      assert vals[0].env in backends;
    }
  }

  /** The best value is at least every other value, comes before every
      other value as large, and is itself a winner. */
  lemma BestWins(vals: seq<Val>)
    requires vals != []
    ensures BestOf(vals) in vals
    ensures forall i :: 0 <= i < |vals| ==> vals[i].mean <= BestOf(vals).mean
    ensures exists b :: (0 <= b < |vals| && vals[b] == BestOf(vals) && forall i :: 0 <= i < b ==> vals[i].mean < vals[b].mean)
    ensures BestOf(vals).env in Within(vals, BestOf(vals))
  {
    var b := Stats.ArgMax(Means(vals));
    WithinSpec(vals, vals[b]);
    assert WithinTol(vals[b], vals[b]);
    assert forall i :: 0 <= i < b ==> Means(vals)[i] < Means(vals)[b];
  }

  /** Every winner is a listed backend with a measured cell, within
      tolerance of the best value. */
  lemma WinnersWithin(cells: map<string, Entry>, backends: seq<string>, w: string)
    requires w in WinnersOf(cells, backends)
    ensures w in backends && w in cells && Measured(cells[w])
    ensures ValuesOf(cells, backends) != []
    ensures exists i :: (0 <= i < |ValuesOf(cells, backends)| && ValuesOf(cells, backends)[i].env == w
      && WithinTol(BestOf(ValuesOf(cells, backends)), ValuesOf(cells, backends)[i]))
  {
    var vals := ValuesOf(cells, backends);
    assert vals != [];
    ValuesOfSpec(cells, backends);
    WithinSpec(vals, BestOf(vals));
    var i :| 0 <= i < |vals| && vals[i].env == w && WithinTol(BestOf(vals), vals[i]);
    assert vals[i].env in backends;
  }

  /** Winners keep the order of the values: the positions of the winners
      among the values, increasing. */
  ghost function WinnerPositions(vals: seq<Val>, best: Val): (idx: seq<nat>)
    ensures |idx| == |Within(vals, best)|
    ensures forall k :: 0 <= k < |idx| ==> idx[k] < |vals| && vals[idx[k]].env == Within(vals, best)[k]
    ensures forall k, l :: 0 <= k < l < |idx| ==> idx[k] < idx[l]
  {
    if vals == [] then []
    else
      var pre := vals[..|vals| - 1];
      var idx := WinnerPositions(pre, best);
      assert forall k :: 0 <= k < |idx| ==> vals[idx[k]] == pre[idx[k]];
      if WithinTol(best, vals[|vals| - 1]) then idx + [|vals| - 1] else idx
  }

  /** Values keep the order of the backends: the positions of the values'
      backends among the backends, increasing. */
  ghost function ValuePositions(cells: map<string, Entry>, backends: seq<string>): (idx: seq<nat>)
    ensures |idx| == |ValuesOf(cells, backends)|
    ensures forall k :: 0 <= k < |idx| ==> idx[k] < |backends| && backends[idx[k]] == ValuesOf(cells, backends)[k].env
    ensures forall k, l :: 0 <= k < l < |idx| ==> idx[k] < idx[l]
  {
    if backends == [] then []
    else
      var pre := backends[..|backends| - 1];
      var idx := ValuePositions(cells, pre);
      assert forall k :: 0 <= k < |idx| ==> backends[idx[k]] == pre[idx[k]];
      var env := backends[|backends| - 1];
      if env in cells && Measured(cells[env]) then idx + [|backends| - 1] else idx
  }

  /** Winners keep the order of the backends: the positions of the winners
      among the backends, increasing. */
  ghost function WinnerBackendPositions(cells: map<string, Entry>, backends: seq<string>): (idx: seq<nat>)
    ensures |idx| == |WinnersOf(cells, backends)|
    ensures forall k :: 0 <= k < |idx| ==> idx[k] < |backends| && backends[idx[k]] == WinnersOf(cells, backends)[k]
    ensures forall k, l :: 0 <= k < l < |idx| ==> idx[k] < idx[l]
  {
    var vals := ValuesOf(cells, backends);
    if vals == [] then []
    else
      var vp := ValuePositions(cells, backends);
      var wp := WinnerPositions(vals, BestOf(vals));
      seq(|wp|, k requires 0 <= k < |wp| => vp[wp[k]])
  }

  lemma ValuesSnoc(cells: map<string, Entry>, backends: seq<string>, i: nat)
    requires i < |backends|
    ensures ValuesOf(cells, backends[..i + 1]) == ValuesOf(cells, backends[..i])
      + (if backends[i] in cells && Measured(cells[backends[i]])
         then [Val(backends[i], cells[backends[i]].mean.value, cells[backends[i]].std.GetOr(0.0))] else [])
  {
    assert backends[..i + 1][..i] == backends[..i];
  }

  lemma WithinSnoc(vals: seq<Val>, best: Val, i: nat)
    requires i < |vals|
    ensures Within(vals[..i + 1], best) == Within(vals[..i], best) + (if WithinTol(best, vals[i]) then [vals[i].env] else [])
  {
    assert vals[..i + 1][..i] == vals[..i];
  }

  /** The first loop of computeWinners. */
  method CollectValues(cells: map<string, Entry>, backends: seq<string>) returns (values: seq<Val>)
    ensures values == ValuesOf(cells, backends)
  {
    values := [];
    var i := 0;
    while i < |backends|
      invariant i <= |backends|
      invariant values == ValuesOf(cells, backends[..i])
    {
      ValuesSnoc(cells, backends, i);
      var env := backends[i];
      if env in cells && !cells[env].error && cells[env].mean.Some? {
        values := values + [Val(env, cells[env].mean.value, cells[env].std.GetOr(0.0))];
      }
      i := i + 1;
    }
    assert backends[..i] == backends;
  }

  /** The second loop: a later value replaces the best only when strictly larger. */
  method FindBest(values: seq<Val>) returns (best: nat)
    requires values != []
    ensures best == Stats.ArgMax(Means(values))
  {
    best := 0;
    var j := 1;
    while j < |values|
      invariant 1 <= j <= |values| && best == Stats.ArgMax(Means(values[..j]))
    {
      ArgMaxSnoc(values, j);
      if values[j].mean > values[best].mean {
        best := j;
      }
      j := j + 1;
    }
    assert values[..j] == values;
  }

  /** The third loop: keep the envs within tolerance of the best. */
  method KeepWithin(values: seq<Val>, best: Val) returns (winners: seq<string>)
    ensures winners == Within(values, best)
  {
    winners := [];
    var k := 0;
    while k < |values|
      invariant k <= |values|
      invariant winners == Within(values[..k], best)
    {
      WithinSnoc(values, best, k);
      var v := values[k];
      var gap := best.mean - v.mean;
      if gap <= MinTol || gap * gap <= KSigma * KSigma * (best.std * best.std + v.std * v.std) {
        winners := winners + [v.env];
      }
      k := k + 1;
    }
    assert values[..k] == values;
  }

  /** computeWinners. */
  method ComputeWinners(cells: map<string, Entry>, backends: seq<string>) returns (winners: seq<string>)
    ensures winners == WinnersOf(cells, backends)
  {
    var values := CollectValues(cells, backends);
    if |values| == 0 {
      return [];
    }
    var best := FindBest(values);
    winners := KeepWithin(values, values[best]);
    assert values[best] == BestOf(values);
  }

  /** One step of the running maximum. */
  lemma ArgMaxSnoc(vals: seq<Val>, j: nat)
    requires 0 < j < |vals|
    ensures Stats.ArgMax(Means(vals[..j + 1]))
         == if vals[j].mean > vals[Stats.ArgMax(Means(vals[..j]))].mean then j else Stats.ArgMax(Means(vals[..j]))
  {
    assert Means(vals[..j + 1])[..j] == Means(vals[..j]);
  }

  // ---------------------------------------------------------------------------
  // splitEnvName

  /** `env.replace(/_/g, ".")`. */
  function Canonical(env: string): (r: string)
    ensures |r| == |env| && '_' !in r
    ensures forall i :: 0 <= i < |env| ==> r[i] == if env[i] == '_' then '.' else env[i]
  {
    seq(|env|, i requires 0 <= i < |env| => if env[i] == '_' then '.' else env[i])
  }

  /** The lowercased tags of the matches of the tag pattern from `p` on,
      leftmost first, each search resuming after the previous match. */
  function TagsFrom(s: string, p: nat): (r: seq<string>)
    requires p <= |s|
    ensures forall t :: t in r ==> t in EnvTagNames
    decreases |s| - p
  {
    match EnvTagAt(s, p)
    case Some(c) => [Lower(c.groups[0])] + TagsFrom(s, c.end)
    case None => if p == |s| then [] else TagsFrom(s, p + 1)
  }

  /** `s[p:].replace(tagRegex, "")`: the text with every match removed. */
  function BaseFrom(s: string, p: nat): (r: string)
    requires p <= |s|
    ensures forall c :: c in r ==> c in s[p..]
    decreases |s| - p
  {
    match EnvTagAt(s, p)
    case Some(c) => BaseFrom(s, c.end)
    case None => if p == |s| then [] else [s[p]] + BaseFrom(s, p + 1)
  }

  /** A dash plus the tag text, per tag: the characters a match removes. */
  function TagChars(tags: seq<string>): nat {
    if tags == [] then 0 else 1 + |tags[0]| + TagChars(tags[1..])
  }

  /** The base and the removed matches account for every character. */
  lemma {:induction false} SplitAccounts(s: string, p: nat)
    requires p <= |s|
    ensures |BaseFrom(s, p)| + TagChars(TagsFrom(s, p)) == |s| - p
    decreases |s| - p
  {
    match EnvTagAt(s, p)
    case Some(c) =>
      SplitAccounts(s, c.end);
      assert TagsFrom(s, p)[1..] == TagsFrom(s, c.end);
    case None =>
      if p < |s| {
        SplitAccounts(s, p + 1);
      }
  }

  /** There are no tags exactly when the pattern matches nowhere from `p` on. */
  lemma {:induction false} NoTags(s: string, p: nat)
    requires p <= |s|
    ensures TagsFrom(s, p) == [] <==> forall q :: p <= q <= |s| ==> EnvTagAt(s, q).None?
    decreases |s| - p
  {
    if EnvTagAt(s, p).None? && p < |s| {
      NoTags(s, p + 1);
    }
  }

  /** Without a match the base is the text itself. */
  lemma {:induction false} NoTagsBase(s: string, p: nat)
    requires p <= |s| && TagsFrom(s, p) == []
    ensures BaseFrom(s, p) == s[p..]
    decreases |s| - p
  {
    if EnvTagAt(s, p).None? && p < |s| {
      NoTagsBase(s, p + 1);
      assert [s[p]] + s[p + 1..] == s[p..];
    }
  }

  /** The next match, as `tagRegex.exec` finds it from `lastIndex` on. */
  lemma {:induction false} TagsSearch(s: string, p: nat)
    requires p <= |s|
    ensures TagsFrom(s, p) == match Search(s, EnvTag, p)
                              case None => []
                              case Some(f) => [Lower(f.cap.groups[0])] + TagsFrom(s, f.cap.end)
    decreases |s| - p
  {
    assert Matcher(s, EnvTag)(p) == EnvTagAt(s, p);
    if EnvTagAt(s, p).None? && p < |s| {
      TagsSearch(s, p + 1);
    }
  }

  datatype EnvName = EnvName(base: string, tags: seq<string>)

  /** splitEnvName: the `exec` loop collects the tags, `replace` gives the base. */
  method SplitEnvName(env: string) returns (r: EnvName)
    ensures r == EnvName(BaseFrom(Canonical(env), 0), TagsFrom(Canonical(env), 0))
  {
    var canonical := Canonical(env);
    var tags: seq<string> := [];
    var lastIndex := 0;
    while true
      invariant lastIndex <= |canonical|
      invariant TagsFrom(canonical, 0) == tags + TagsFrom(canonical, lastIndex)
      decreases |canonical| - lastIndex + 1
    {
      TagsSearch(canonical, lastIndex);
      var m := Search(canonical, EnvTag, lastIndex);
      if m.None? {
        break;
      }
      tags := tags + [Lower(m.value.cap.groups[0])];
      lastIndex := m.value.cap.end;
    }
    return EnvName(BaseFrom(canonical, 0), tags);
  }

  /** The parts of a split env name: no underscore in the base, every tag a
      lowercase tag name, and with no tag match the base is the whole
      canonical name. */
  lemma SplitEnvNameSpec(env: string)
    ensures '_' !in BaseFrom(Canonical(env), 0)
    ensures forall t :: t in TagsFrom(Canonical(env), 0) ==> t in EnvTagNames
    ensures TagsFrom(Canonical(env), 0) == [] <==> forall q :: 0 <= q <= |env| ==> EnvTagAt(Canonical(env), q).None?
    ensures TagsFrom(Canonical(env), 0) == [] ==> BaseFrom(Canonical(env), 0) == Canonical(env)
    ensures |BaseFrom(Canonical(env), 0)| + TagChars(TagsFrom(Canonical(env), 0)) == |env|
  {
    var s := Canonical(env);
    SplitAccounts(s, 0);
    NoTags(s, 0);
    if TagsFrom(s, 0) == [] {
      NoTagsBase(s, 0);
      assert s[0..] == s;
    }
  }

  // ---------------------------------------------------------------------------
  // The backend column order and the size range

  /** The first index of `x`, as `indexOf`. */
  function FirstIndex<T(==)>(s: seq<T>, x: T): (r: Option<nat>)
    ensures r.None? <==> x !in s
    ensures r.Some? ==> r.value < |s| && s[r.value] == x && forall j :: 0 <= j < r.value ==> s[j] != x
  {
    if s == [] then None
    else if s[0] == x then Some(0)
    else match FirstIndex(s[1..], x)
      case None => None
      case Some(i) => Some(i + 1)
  }

  /** The order after moving `from` to the place `to` had: removed at its
      index, inserted at `to`'s old index; unchanged when either is absent. */
  function Moved(order: seq<string>, from: string, to: string): seq<string> {
    match (FirstIndex(order, from), FirstIndex(order, to))
    case (Some(f), Some(t)) => Relocate(order, f, t)
    case _ => order
  }

  /** The element at `f` taken out and put back in at `t`. */
  function Relocate<T>(s: seq<T>, f: nat, t: nat): seq<T>
    requires f < |s| && t < |s|
  {
    var rest := s[..f] + s[f + 1..];
    rest[..t] + [s[f]] + rest[t..]
  }

  lemma RelocateSpec<T>(s: seq<T>, f: nat, t: nat)
    requires f < |s| && t < |s|
    ensures |Relocate(s, f, t)| == |s| && Relocate(s, f, t)[t] == s[f]
    ensures Relocate(s, f, t)[..t] + Relocate(s, f, t)[t + 1..] == s[..f] + s[f + 1..]
    ensures multiset(Relocate(s, f, t)) == multiset(s)
  {
    var rest := s[..f] + s[f + 1..];
    var r := rest[..t] + [s[f]] + rest[t..];
    assert r[..t] == rest[..t] && r[t + 1..] == rest[t..];
    assert rest[..t] + rest[t..] == rest;
    assert s == s[..f] + [s[f]] + s[f + 1..];
    assert multiset(s) == multiset(rest) + multiset{s[f]};
    assert multiset(r) == multiset(rest) + multiset{s[f]};
  }

  /** A move is a permutation that puts `from` at `to`'s old index and
      keeps every other column in its relative order; with either env absent
      it changes nothing. */
  lemma MovedSpec(order: seq<string>, from: string, to: string)
    ensures |Moved(order, from, to)| == |order|
    ensures multiset(Moved(order, from, to)) == multiset(order)
    ensures from in order && to in order ==> Moved(order, from, to)[FirstIndex(order, to).value] == from
    ensures from in order && to in order ==> (var t := FirstIndex(order, to).value; var f := FirstIndex(order, from).value;
      Moved(order, from, to)[..t] + Moved(order, from, to)[t + 1..] == order[..f] + order[f + 1..])
    ensures !(from in order && to in order) ==> Moved(order, from, to) == order
  {
    var fi, ti := FirstIndex(order, from), FirstIndex(order, to);
    if fi.Some? && ti.Some? {
      assert Moved(order, from, to) == Relocate(order, fi.value, ti.value);
      RelocateSpec(order, fi.value, ti.value);
    } else {
      assert Moved(order, from, to) == order;
    }
  }

  /** The page state the operations below change. */
  class Viewer {
    /** The display order of the backend columns. */
    var backendOrder: seq<string>
    /** `state.sizeStats`: the smallest and largest model size seen; None
        while still at the initial infinity. */
    var sizeMin: Option<real>
    var sizeMax: Option<real>

    constructor (envs: seq<string>)
      ensures backendOrder == envs && sizeMin.None? && sizeMax.None?
    {
      backendOrder := envs;
      sizeMin := None;
      sizeMax := None;
    }

    /** moveBackend, without the re-rendering. */
    method MoveBackend(from: string, to: string)
      modifies this
      ensures backendOrder == Moved(old(backendOrder), from, to)
      ensures sizeMin == old(sizeMin) && sizeMax == old(sizeMax)
    {
      var order := backendOrder;
      var fromIdx := FirstIndex(order, from);
      var toIdx := FirstIndex(order, to);
      if fromIdx.None? || toIdx.None? {
        return;
      }
      var col := order[fromIdx.value];
      order := order[..fromIdx.value] + order[fromIdx.value + 1..];
      order := order[..toIdx.value] + [col] + order[toIdx.value..];
      backendOrder := order;
      assert order == Relocate(old(backendOrder), fromIdx.value, toIdx.value);
    }

    /** The size-range update at the end of ensureModel. */
    method NoteSize(size: Option<real>)
      modifies this
      ensures sizeMin == (if size.None? then old(sizeMin) else Some(MinOr(old(sizeMin), size.value)))
      ensures sizeMax == (if size.None? then old(sizeMax) else Some(MaxOr(old(sizeMax), size.value)))
      ensures backendOrder == old(backendOrder)
    {
      if size.Some? {
        sizeMin := Some(MinOr(sizeMin, size.value));
        sizeMax := Some(MaxOr(sizeMax, size.value));
      }
    }
  }

  /** `Math.min(m, x)` with None for +Infinity. */
  function MinOr(m: Option<real>, x: real): (r: real)
    ensures r <= x && (m.Some? ==> r <= m.value) && (r == x || (m.Some? && r == m.value))
  {
    if m.Some? && m.value < x then m.value else x
  }

  /** `Math.max(m, x)` with None for -Infinity. */
  function MaxOr(m: Option<real>, x: real): (r: real)
    ensures r >= x && (m.Some? ==> r >= m.value) && (r == x || (m.Some? && r == m.value))
  {
    if m.Some? && m.value > x then m.value else x
  }

  // ---------------------------------------------------------------------------
  // Model rows, ensureModel and filterModels

  /** The fields of a record the viewer reads. */
  datatype Record = Record(env: string, test: Option<string>, quant: Option<string>,
                           nameParamsB: Option<real>, paramsB: Option<real>, rpc: bool)

  datatype ModelRow = ModelRow(model: string, quant: string, sizeB: Option<real>,
                               backends: map<string, Entry>, isRpc: bool, searchBlob: string)

  /** `a ?? b`. */
  function OrElse<T>(a: Option<T>, b: Option<T>): Option<T> {
    if a.Some? then a else b
  }

  /** `[parts].filter(Boolean).map(lower).join(" ")`. */
  function Blob(parts: seq<Option<string>>): string {
    Join(Truthy(parts), " ")
  }

  function Truthy(parts: seq<Option<string>>): (r: seq<string>)
    ensures forall t :: t in r ==> t != []
  {
    if parts == [] then []
    else if parts[0].Some? && parts[0].value != [] then [Lower(parts[0].value)] + Truthy(parts[1..])
    else Truthy(parts[1..])
  }

  /** The row ensureModel creates for a model seen for the first time. */
  function NewRow(name: string, run: Record): ModelRow {
    ModelRow(name, Upper(if run.quant.Some? && run.quant.value != [] then run.quant.value else "Unknown"),
             OrElse(run.nameParamsB, run.paramsB), map[], run.rpc,
             Blob([Some(name), run.quant, Some(run.env), run.test]))
  }

  /** What ensureModel then does to the row: fill an unset size, and mark an
      RPC record, appending "rpc" to the search text if it is not there. */
  function UpdateRow(row: ModelRow, run: Record): (r: ModelRow)
    ensures r.model == row.model && r.quant == row.quant && r.backends == row.backends
  {
    var size := if row.sizeB.None? then OrElse(run.nameParamsB, run.paramsB) else row.sizeB;
    if run.rpc then
      row.(sizeB := size, isRpc := true,
           searchBlob := if Contains(row.searchBlob, "rpc") then row.searchBlob else row.searchBlob + " rpc")
    else row.(sizeB := size)
  }

  /** A set size is never replaced; the RPC mark is never cleared; "rpc" is
      appended only to a search text without it, so at most once; and
      applying the same record again changes nothing. */
  lemma UpdateRowSpec(row: ModelRow, run: Record)
    ensures row.sizeB.Some? ==> UpdateRow(row, run).sizeB == row.sizeB
    ensures row.sizeB.None? ==> UpdateRow(row, run).sizeB == OrElse(run.nameParamsB, run.paramsB)
    ensures row.isRpc ==> UpdateRow(row, run).isRpc
    ensures UpdateRow(row, run).isRpc <==> row.isRpc || run.rpc
    ensures UpdateRow(row, run).searchBlob == row.searchBlob
         || (run.rpc && !Contains(row.searchBlob, "rpc") && UpdateRow(row, run).searchBlob == row.searchBlob + " rpc")
    ensures run.rpc ==> Contains(UpdateRow(row, run).searchBlob, "rpc")
    ensures UpdateRow(UpdateRow(row, run), run) == UpdateRow(row, run)
  {
    var r := UpdateRow(row, run);
    if run.rpc && !Contains(row.searchBlob, "rpc") {
      var b := row.searchBlob + " rpc";
      assert At(b, |row.searchBlob| + 1, "rpc") by {
        assert b[|row.searchBlob| + 1..|row.searchBlob| + 4] == "rpc";
      }
    }
  }

  /** One test of one context: its rows by model name. */
  class TestEntry {
    var name: string
    var models: Dict<string, ModelRow>

    constructor (name: string)
      ensures this.name == name && models == []
    {
      this.name := name;
      models := [];
    }

    /** ensureModel: create the row if the model is new, then update it. */
    method EnsureModel(v: Viewer, modelName: string, run: Record) returns (row: ModelRow)
      modifies this, v
      ensures row == UpdateRow(Get(old(models), modelName).GetOr(NewRow(modelName, run)), run)
      ensures models == Put(old(models), modelName, row)
      ensures name == old(name)
      ensures v.backendOrder == old(v.backendOrder)
      ensures v.sizeMin == (if row.sizeB.None? then old(v.sizeMin) else Some(MinOr(old(v.sizeMin), row.sizeB.value)))
      ensures v.sizeMax == (if row.sizeB.None? then old(v.sizeMax) else Some(MaxOr(old(v.sizeMax), row.sizeB.value)))
    {
      var existing := Get(models, modelName);
      row := existing.GetOr(NewRow(modelName, run));
      row := UpdateRow(row, run);
      models := Put(models, modelName, row);
      v.NoteSize(row.sizeB);
    }
  }

  /** The filter controls. */
  datatype Filters = Filters(search: string, quant: string, sizeLo: Option<real>, sizeHi: Option<real>)

  const SizeSlack: real := 0.000001

  /** A row passes the search, quant and size filters; a row without a size
      passes the size filter. */
  predicate Passes(f: Filters, m: ModelRow) {
    && (f.search == [] || Contains(m.searchBlob, f.search))
    && (f.quant == [] || m.quant == f.quant)
    && (m.sizeB.Some? ==>
          (f.sizeLo.None? || m.sizeB.value >= f.sizeLo.value - SizeSlack)
          && (f.sizeHi.None? || m.sizeB.value <= f.sizeHi.value + SizeSlack))
  }

  /** The rows that pass, in map order. */
  function Passing(f: Filters, rows: seq<ModelRow>): (r: seq<ModelRow>)
    ensures forall m :: m in r ==> Passes(f, m)
    ensures forall m :: m in rows && Passes(f, m) ==> m in r
    ensures multiset(r) <= multiset(rows)
  {
    if rows == [] then []
    else
      var pre := rows[..|rows| - 1];
      assert rows == pre + [rows[|rows| - 1]];
      Passing(f, pre) + if Passes(f, rows[|rows| - 1]) then [rows[|rows| - 1]] else []
  }

  /** String order by code units (`localeCompare` taken as plain ordering). */
  predicate StrLe(a: string, b: string)
    decreases |a|
  {
    a == [] || (b != [] && (a[0] < b[0] || (a[0] == b[0] && StrLe(a[1..], b[1..]))))
  }

  lemma {:induction false} StrLeTotal(a: string, b: string)
    ensures StrLe(a, b) || StrLe(b, a)
    decreases |a|
  {
    if a != [] && b != [] && a[0] == b[0] {
      StrLeTotal(a[1..], b[1..]);
    }
  }

  lemma {:induction false} StrLeTrans(a: string, b: string, c: string)
    requires StrLe(a, b) && StrLe(b, c)
    ensures StrLe(a, c)
    decreases |a|
  {
    if a != [] && b != [] && c != [] && a[0] == b[0] && b[0] == c[0] {
      StrLeTrans(a[1..], b[1..], c[1..]);
    }
  }

  predicate SortedBy<T>(xs: seq<T>, key: T -> string) {
    forall i, j :: 0 <= i < j < |xs| ==> StrLe(key(xs[i]), key(xs[j]))
  }

  /** One step of a stable insertion sort under `key`. */
  function InsertBy<T>(x: T, xs: seq<T>, key: T -> string): (r: seq<T>)
    ensures multiset(r) == multiset(xs) + multiset{x}
  {
    if xs == [] then [x]
    else if StrLe(key(x), key(xs[0])) then [x] + xs
    else
      assert xs == [xs[0]] + xs[1..];
      [xs[0]] + InsertBy(x, xs[1..], key)
  }

  lemma {:induction false} InsertBySorted<T>(x: T, xs: seq<T>, key: T -> string)
    requires SortedBy(xs, key)
    ensures SortedBy(InsertBy(x, xs, key), key)
  {
    var r := InsertBy(x, xs, key);
    if xs != [] && !StrLe(key(x), key(xs[0])) {
      InsertBySorted(x, xs[1..], key);
      StrLeTotal(key(x), key(xs[0]));
      var t := InsertBy(x, xs[1..], key);
      forall y | y in t ensures StrLe(key(xs[0]), key(y)) {
        assert y in multiset(t);
        if y != x {
          assert y in multiset(xs[1..]);
          var k :| 0 <= k < |xs[1..]| && xs[1..][k] == y;
          assert xs[k + 1] == y;
        }
      }
      assert forall j :: 0 < j < |r| ==> r[j] == t[j - 1];
      assert forall j :: 0 < j < |r| ==> r[j] in t;
    } else if xs != [] {
      forall i, j | 0 <= i < j < |r| ensures StrLe(key(r[i]), key(r[j])) {
        if i == 0 && j > 1 {
          StrLeTrans(key(x), key(xs[0]), key(xs[j - 1]));
        }
      }
    }
  }

  /** An insertion sort under `key`. */
  function SortBy<T>(xs: seq<T>, key: T -> string): (r: seq<T>)
    ensures multiset(r) == multiset(xs)
  {
    if xs == [] then []
    else
      assert xs == [xs[0]] + xs[1..];
      InsertBy(xs[0], SortBy(xs[1..], key), key)
  }

  lemma {:induction false} SortBySorted<T>(xs: seq<T>, key: T -> string)
    ensures SortedBy(SortBy(xs, key), key)
  {
    if xs != [] {
      SortBySorted(xs[1..], key);
      InsertBySorted(xs[0], SortBy(xs[1..], key), key);
    }
  }

  function Name(m: ModelRow): string {
    m.model
  }

  /** `models.sort((a, b) => a.model.localeCompare(b.model))`. */
  function SortByName(rows: seq<ModelRow>): seq<ModelRow> {
    SortBy(rows, Name)
  }

  /** The sorted rows are the same rows, in name order. */
  lemma SortByNameSpec(rows: seq<ModelRow>)
    ensures multiset(SortByName(rows)) == multiset(rows)
    ensures forall i, j :: 0 <= i < j < |SortByName(rows)| ==> StrLe(SortByName(rows)[i].model, SortByName(rows)[j].model)
  {
    SortBySorted(rows, Name);
  }

  /** filterModels: exactly the rows that pass, sorted by model name. */
  lemma FilterModelsSpec(f: Filters, models: Dict<string, ModelRow>)
    ensures forall i, j :: 0 <= i < j < |SortByName(Passing(f, Values(models)))| ==>
      StrLe(SortByName(Passing(f, Values(models)))[i].model, SortByName(Passing(f, Values(models)))[j].model)
    ensures forall m :: m in SortByName(Passing(f, Values(models))) <==> m in Values(models) && Passes(f, m)
  {
    SortByNameSpec(Passing(f, Values(models)));
    forall m ensures m in SortByName(Passing(f, Values(models))) <==> m in Passing(f, Values(models)) {
      assert m in SortByName(Passing(f, Values(models))) <==> m in multiset(SortByName(Passing(f, Values(models))));
    }
    forall m | m in Passing(f, Values(models)) ensures m in Values(models) {
      assert m in multiset(Values(models));
    }
  }

  lemma PassingSnoc(f: Filters, rows: seq<ModelRow>, i: nat)
    requires i < |rows|
    ensures Passing(f, rows[..i + 1]) == Passing(f, rows[..i]) + if Passes(f, rows[i]) then [rows[i]] else []
  {
    assert rows[..i + 1][..i] == rows[..i];
  }

  /** filterModels: the loop over the map's values, then the sort. */
  method FilterModels(f: Filters, models: Dict<string, ModelRow>) returns (r: seq<ModelRow>)
    ensures r == SortByName(Passing(f, Values(models)))
  {
    var vals := Values(models);
    var kept: seq<ModelRow> := [];
    var i := 0;
    while i < |vals|
      invariant i <= |vals|
      invariant kept == Passing(f, vals[..i])
    {
      PassingSnoc(f, vals, i);
      var model := vals[i];
      i := i + 1;
      if f.search != [] && !Contains(model.searchBlob, f.search) {
        continue;
      }
      if f.quant != [] && model.quant != f.quant {
        continue;
      }
      if model.sizeB.Some? {
        if f.sizeLo.Some? && model.sizeB.value < f.sizeLo.value - SizeSlack {
          continue;
        }
        if f.sizeHi.Some? && model.sizeB.value > f.sizeHi.value + SizeSlack {
          continue;
        }
      }
      kept := kept + [model];
    }
    assert vals[..i] == vals;
    r := SortByName(kept);
  }

  // ---------------------------------------------------------------------------
  // Contexts

  /** How a context is labelled (the number formatting is not modelled). */
  datatype Label = DefaultWindow | CtxTokens(tokens: nat) | KeyLabel(key: string)

  /** A context: key, label and token count; `tokens` is "truthy" when set and non-zero. */
  datatype Ctx = Ctx(key: string, title: Label, tokens: Option<nat>)

  predicate HasTokens(c: Ctx) {
    c.tokens.Some? && c.tokens.value != 0
  }

  /** formatContextLabel. */
  function LabelOf(key: string, tokens: Option<nat>): (l: Label)
    ensures l.DefaultWindow? <==> key == DefaultCtx
    ensures l.CtxTokens? ==> tokens == Some(l.tokens) && l.tokens != 0
  {
    if key == DefaultCtx then DefaultWindow
    else if tokens.Some? && tokens.value != 0 then CtxTokens(tokens.value)
    else KeyLabel(key)
  }

  /** ensureContext on the entry for `key`: create it, or give it the token
      count when it has none yet. */
  function TouchContext(existing: Option<Ctx>, key: string, tokens: Option<nat>): Ctx {
    match existing
    case None => Ctx(key, LabelOf(key, tokens), tokens)
    case Some(c) =>
      if tokens.Some? && tokens.value != 0 && !HasTokens(c) then c.(tokens := tokens, title := LabelOf(key, tokens))
      else c
  }

  /** A context with a token count keeps it; one without takes the first
      non-zero count offered; touching twice with the same count is touching once. */
  lemma TouchContextSpec(existing: Option<Ctx>, key: string, tokens: Option<nat>)
    ensures existing.Some? && HasTokens(existing.value) ==> TouchContext(existing, key, tokens) == existing.value
    ensures existing.Some? && !HasTokens(existing.value) && tokens.Some? && tokens.value != 0
      ==> TouchContext(existing, key, tokens).tokens == tokens
    ensures existing.None? ==> TouchContext(existing, key, tokens).key == key && TouchContext(existing, key, tokens).tokens == tokens
    ensures existing.Some? && existing.value.key == key ==>
      TouchContext(Some(TouchContext(existing, key, tokens)), key, tokens) == TouchContext(existing, key, tokens)
    ensures existing.None? ==> TouchContext(Some(TouchContext(existing, key, tokens)), key, tokens) == TouchContext(existing, key, tokens)
  {
  }

  /** The context map of prepareData. */
  class ContextMap {
    var entries: Dict<string, Ctx>

    constructor ()
      ensures entries == []
    {
      entries := [];
    }

    /** ensureContext. */
    method EnsureContext(key: string, tokens: Option<nat>) returns (c: Ctx)
      modifies this
      ensures c == TouchContext(Get(old(entries), key), key, tokens)
      ensures entries == (if Get(old(entries), key) == Some(c) then old(entries) else Put(old(entries), key, c))
    {
      var existing := Get(entries, key);
      if existing.None? {
        c := Ctx(key, LabelOf(key, tokens), tokens);
        entries := Put(entries, key, c);
      } else if tokens.Some? && tokens.value != 0 && !HasTokens(existing.value) {
        c := existing.value.(tokens := tokens, title := LabelOf(key, tokens));
        entries := Put(entries, key, c);
      } else {
        c := existing.value;
      }
    }
  }

  /** The sort comparator of the contexts: negative when `a` goes first. */
  function CompareContexts(a: Ctx, b: Ctx): int {
    if a.key == DefaultCtx then -1
    else if b.key == DefaultCtx then 1
    else if HasTokens(a) && HasTokens(b) then a.tokens.value - b.tokens.value
    else if HasTokens(a) then -1
    else if HasTokens(b) then 1
    else if a.key == b.key then 0
    else if StrLe(a.key, b.key) then -1
    else 1
  }

  /** The place a context's kind gives it: the default window, then
      contexts with a token count, then the rest. */
  function Tier(c: Ctx): nat {
    if c.key == DefaultCtx then 0 else if HasTokens(c) then 1 else 2
  }

  /** For two different contexts the comparator puts the lower tier first,
      contexts with tokens in ascending token order and the rest by key; it
      is antisymmetric. */
  lemma CompareContextsSpec(a: Ctx, b: Ctx)
    requires a.key != b.key
    ensures Tier(a) < Tier(b) ==> CompareContexts(a, b) < 0
    ensures Tier(a) == Tier(b) == 1 ==> CompareContexts(a, b) == a.tokens.value - b.tokens.value
    ensures Tier(a) == Tier(b) == 2 ==> (CompareContexts(a, b) < 0 <==> StrLe(a.key, b.key))
    ensures CompareContexts(a, b) < 0 <==> CompareContexts(b, a) > 0
    ensures CompareContexts(a, b) == 0 <==> CompareContexts(b, a) == 0
  {
    StrLeStrict(a.key, b.key);
  }

  /** For different strings exactly one orders before the other. */
  lemma {:induction false} StrLeStrict(a: string, b: string)
    requires a != b
    ensures StrLe(a, b) <==> !StrLe(b, a)
    decreases |a|
  {
    if a != [] && b != [] && a[0] == b[0] {
      assert a == [a[0]] + a[1..] && b == [b[0]] + b[1..];
      StrLeStrict(a[1..], b[1..]);
    }
  }

  // ---------------------------------------------------------------------------
  // backendValue and normalizeTest

  /** A sort key that may be infinite. */
  datatype Ext = NegInf | Fin(x: real) | PosInf

  predicate ExtLe(a: Ext, b: Ext) {
    a.NegInf? || b.PosInf? || (a.Fin? && b.Fin? && a.x <= b.x)
  }

  /** backendValue: the mean of a measured cell; otherwise +Infinity when
      sorting ascending and -Infinity when descending. */
  function BackendValue(entry: Option<Entry>, ascending: bool): (r: Ext)
    ensures entry.Some? && Measured(entry.value) ==> r == Fin(entry.value.mean.value)
  {
    if entry.None? || !Measured(entry.value) then (if ascending then PosInf else NegInf)
    else Fin(entry.value.mean.value)
  }

  /** A backend without a measured cell sorts last in both directions. */
  lemma UnmeasuredLast(e: Option<Entry>, other: Option<Entry>)
    requires e.None? || !Measured(e.value)
    ensures ExtLe(BackendValue(other, true), BackendValue(e, true))
    ensures ExtLe(BackendValue(e, false), BackendValue(other, false))
  {
  }

  datatype TestName = TestName(key: string, original: string)

  /** normalizeTest: None for a missing or empty name. */
  function NormalizeTest(name: Option<string>): (r: Option<TestName>)
    ensures r.None? <==> name.None? || name.value == []
    ensures r.Some? ==> r.value.original == name.value && r.value.key == Lower(name.value)
  {
    if name.None? || name.value == [] then None else Some(TestName(Lower(name.value), name.value))
  }

  /** Normalising a key gives the key back. */
  lemma NormalizeKey(name: string)
    requires name != []
    ensures NormalizeTest(Some(NormalizeTest(Some(name)).value.key)).value.key == NormalizeTest(Some(name)).value.key
  {
    LowerIdempotent(name);
  }
}
