/** Choosing a backend by its measurement: the dictionary of measured
    backends a loop over a fixed backend order builds, and the key with the
    largest or smallest value, the first one on a tie, as Python's `max` and
    `min` with `key=` return it. */
module Pick {
  import opened Basics
  import opened Dicts
  import Stats

  /** The dictionary `vals` that the loop over `envs` builds from the
      measurement `m` of each backend: the backends that have one, in the
      order of `envs`. */
  function Collect(envs: seq<string>, m: string -> Option<real>): (d: Dict<string, real>)
    ensures |d| <= |envs|
    ensures forall i :: 0 <= i < |d| ==> (d[i].0 in envs && m(d[i].0) == Some(d[i].1))
  {
    if envs == [] then []
    else
      var pre := Collect(envs[..|envs| - 1], m);
      var e := envs[|envs| - 1];
      assert forall x :: x in envs[..|envs| - 1] ==> x in envs;
      if m(e).Some? then pre + [(e, m(e).value)] else pre
  }

  /** Every measured backend of `envs` has an entry. */
  lemma {:induction false} CollectComplete(envs: seq<string>, m: string -> Option<real>)
    ensures forall j :: 0 <= j < |envs| && m(envs[j]).Some? ==> envs[j] in Keys(Collect(envs, m))
  {
    if envs != [] {
      var pre := envs[..|envs| - 1];
      CollectComplete(pre, m);
      var d := Collect(envs, m);
      var dp := Collect(pre, m);
      forall j | 0 <= j < |envs| && m(envs[j]).Some? ensures envs[j] in Keys(d) {
        if j < |pre| {
          assert pre[j] == envs[j];
          var i :| 0 <= i < |dp| && Keys(dp)[i] == pre[j];
          assert d[i] == dp[i];
          assert Keys(d)[i] == envs[j];
        } else {
          assert Keys(d)[|d| - 1] == envs[j];
        }
      }
    }
  }

  /** The position of `x` in `s`. */
  function Position(s: seq<string>, x: string): (r: nat)
    requires x in s
    ensures r < |s| && s[r] == x && forall j :: 0 <= j < r ==> s[j] != x
  {
    if s[0] == x then 0 else 1 + Position(s[1..], x)
  }

  /** The entries keep the order of `envs`. */
  lemma {:induction false} CollectOrdered(envs: seq<string>, m: string -> Option<real>)
    requires Distinct(envs)
    ensures forall i, j :: 0 <= i < j < |Collect(envs, m)| ==>
      Position(envs, Collect(envs, m)[i].0) < Position(envs, Collect(envs, m)[j].0)
  {
    if envs != [] {
      var pre := envs[..|envs| - 1];
      assert Distinct(pre);
      CollectOrdered(pre, m);
      var d := Collect(envs, m);
      var dp := Collect(pre, m);
      assert forall i :: 0 <= i < |dp| ==> d[i] == dp[i];
      forall x | x in pre ensures Position(envs, x) == Position(pre, x) {
        assert envs[Position(pre, x)] == x;
      }
      if |d| > |dp| {
        assert Position(envs, d[|d| - 1].0) == |envs| - 1;
      }
    }
  }

  /** Entries ordered by position in `envs` are ordered in the dictionary. */
  lemma CollectIndexOrder(envs: seq<string>, m: string -> Option<real>, i: nat, j: nat)
    requires Distinct(envs) && i < |Collect(envs, m)| && j < |Collect(envs, m)|
    requires Position(envs, Collect(envs, m)[i].0) < Position(envs, Collect(envs, m)[j].0)
    ensures i < j
  {
    CollectOrdered(envs, m);
  }

  /** `max(vals, key=vals.get)` after `if not vals: return None`: the first
      key with the largest value. */
  function MaxKey(d: Dict<string, real>): Option<string> {
    if d == [] then None else Some(d[Stats.ArgMax(Values(d))].0)
  }

  /** No key exactly when no backend is measured; otherwise a measured
      backend whose value is at least every measured backend's. */
  lemma MaxKeySpec(envs: seq<string>, m: string -> Option<real>)
    ensures MaxKey(Collect(envs, m)).None? <==> forall e :: e in envs ==> m(e).None?
    ensures MaxKey(Collect(envs, m)).Some? ==> (var w := MaxKey(Collect(envs, m)).value;
      && w in envs && m(w).Some?
      && forall e :: e in envs && m(e).Some? ==> m(e).value <= m(w).value)
  {
    var d := Collect(envs, m);
    CollectComplete(envs, m);
    if d != [] {
      var b := Stats.ArgMax(Values(d));
      forall e | e in envs && m(e).Some? ensures m(e).value <= m(d[b].0).value {
        var j :| 0 <= j < |envs| && envs[j] == e;
        var i :| 0 <= i < |d| && Keys(d)[i] == envs[j];
        assert Values(d)[i] <= Values(d)[b];
      }
    } else {
      forall e | e in envs ensures m(e).None? {
        var j :| 0 <= j < |envs| && envs[j] == e;
      }
    }
  }

  /** On a tie the backend listed first wins: a measured backend listed
      before the winner has a strictly lower value. */
  lemma MaxKeyFirst(envs: seq<string>, m: string -> Option<real>, e: string)
    requires Distinct(envs)
    requires MaxKey(Collect(envs, m)).Some? && MaxKey(Collect(envs, m)).value in envs
    requires e in envs && m(e).Some?
    requires Position(envs, e) < Position(envs, MaxKey(Collect(envs, m)).value)
    ensures m(MaxKey(Collect(envs, m)).value).Some?
    ensures m(e).value < m(MaxKey(Collect(envs, m)).value).value
  {
    var d := Collect(envs, m);
    var b := Stats.ArgMax(Values(d));
    CollectComplete(envs, m);
    var a := Position(envs, e);
    var i :| 0 <= i < |d| && Keys(d)[i] == envs[a];
    CollectIndexOrder(envs, m, i, b);
    assert Values(d)[i] < Values(d)[b];
  }

  /** `min(valid, key=...)` after `if valid:`: the first key with the
      smallest value. */
  function MinKey(d: Dict<string, real>): Option<string> {
    if d == [] then None else Some(d[Stats.ArgMin(Values(d))].0)
  }

  /** No key exactly when no backend is measured; otherwise a measured
      backend whose value is at most every measured backend's. */
  lemma MinKeySpec(envs: seq<string>, m: string -> Option<real>)
    ensures MinKey(Collect(envs, m)).None? <==> forall e :: e in envs ==> m(e).None?
    ensures MinKey(Collect(envs, m)).Some? ==> (var w := MinKey(Collect(envs, m)).value;
      && w in envs && m(w).Some?
      && forall e :: e in envs && m(e).Some? ==> m(w).value <= m(e).value)
  {
    var d := Collect(envs, m);
    CollectComplete(envs, m);
    if d != [] {
      var b := Stats.ArgMin(Values(d));
      forall e | e in envs && m(e).Some? ensures m(d[b].0).value <= m(e).value {
        var j :| 0 <= j < |envs| && envs[j] == e;
        var i :| 0 <= i < |d| && Keys(d)[i] == envs[j];
        assert Values(d)[b] <= Values(d)[i];
      }
    } else {
      forall e | e in envs ensures m(e).None? {
        var j :| 0 <= j < |envs| && envs[j] == e;
      }
    }
  }

  /** On a tie the backend listed first is chosen: a measured backend listed
      before the chosen one has a strictly larger value. */
  lemma MinKeyFirst(envs: seq<string>, m: string -> Option<real>, e: string)
    requires Distinct(envs)
    requires MinKey(Collect(envs, m)).Some? && MinKey(Collect(envs, m)).value in envs
    requires e in envs && m(e).Some?
    requires Position(envs, e) < Position(envs, MinKey(Collect(envs, m)).value)
    ensures m(MinKey(Collect(envs, m)).value).Some?
    ensures m(MinKey(Collect(envs, m)).value).value < m(e).value
  {
    var d := Collect(envs, m);
    var b := Stats.ArgMin(Values(d));
    CollectComplete(envs, m);
    var a := Position(envs, e);
    var i :| 0 <= i < |d| && Keys(d)[i] == envs[a];
    CollectIndexOrder(envs, m, i, b);
    assert Values(d)[b] < Values(d)[i];
  }

  /** One more backend: its entry is appended when it is measured. */
  lemma CollectStep(envs: seq<string>, m: string -> Option<real>, i: nat)
    requires i < |envs|
    ensures Collect(envs[..i + 1], m) == if m(envs[i]).Some? then Collect(envs[..i], m) + [(envs[i], m(envs[i]).value)]
      else Collect(envs[..i], m)
  {
    assert envs[..i + 1][..i] == envs[..i];
  }

  /** Without repeated backends, the next one is not yet a key. */
  lemma CollectFresh(envs: seq<string>, m: string -> Option<real>, i: nat)
    requires Distinct(envs) && i < |envs|
    ensures envs[i] !in Keys(Collect(envs[..i], m))
  {
    var d := Collect(envs[..i], m);
    forall k | 0 <= k < |d| ensures Keys(d)[k] != envs[i] {
      assert d[k].0 in envs[..i];
    }
  }
}
