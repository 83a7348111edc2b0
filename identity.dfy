/** Log file names encode what was run:
    `<model>__<env>[__fa1][__hblt0][__longctxN][__rpc]`. This module decodes
    that convention and normalises environment keys. */
module Identity {
  import opened Basics
  import opened Patterns

  /** What `parse_env_flags` returns. */
  datatype EnvFlags = EnvFlags(
    env: Option<string>,
    fa: bool,
    contextTag: string,
    contextTokens: Option<nat>,
    rpc: bool)

  const NoFlags := EnvFlags(None, false, "default", None, false)

  /** Whether some suffix token, lowercased, equals `w`. */
  function HasToken(ts: seq<string>, w: string): bool {
    if ts == [] then false else HasToken(ts[..|ts| - 1], w) || Lower(ts[|ts| - 1]) == w
  }

  /** How many suffix tokens, lowercased, equal `w`. */
  function CountToken(ts: seq<string>, w: string): nat {
    if ts == [] then 0
    else CountToken(ts[..|ts| - 1], w) + (if Lower(ts[|ts| - 1]) == w then 1 else 0)
  }

  function Repeat(s: string, n: nat): (r: string)
    ensures |r| == n * |s|
  {
    if n == 0 then "" else Repeat(s, n - 1) + s
  }

  predicate IsLongctx(t: string) { StartsWith(Lower(t), "longctx") }

  /** The last token starting with "longctx", lowercased. */
  function LastContext(ts: seq<string>): Option<string> {
    if ts == [] then None
    else if IsLongctx(ts[|ts| - 1]) then Some(Lower(ts[|ts| - 1]))
    else LastContext(ts[..|ts| - 1])
  }

  /** The digits after the leftmost "longctx" that has digits, if any. */
  function ContextTokens(t: string): Option<nat> {
    match Groups(t, Longctx)
    case None => None
    case Some(g) => Some(DigitsValue(g[0]))
  }

  /** The token count a suffix token carries: set only by "longctx" tokens
      with digits after some "longctx". */
  function TokenValue(t: string): Option<nat> {
    if IsLongctx(t) then ContextTokens(Lower(t)) else None
  }

  /** The last value `f` yields over the tokens. */
  function LastValue(ts: seq<string>, f: string -> Option<nat>): Option<nat> {
    if ts == [] then None
    else if f(ts[|ts| - 1]).Some? then f(ts[|ts| - 1])
    else LastValue(ts[..|ts| - 1], f)
  }

  /** The token count of the last token that carries one. */
  function LastContextTokens(ts: seq<string>): Option<nat> {
    LastValue(ts, TokenValue)
  }

  /** `fa1`/`rpc` are set iff some token, lowercased, is that word, and the
      environment gets one "-hblt0" per "hblt0" token. */
  lemma {:induction false} TokenCounts(ts: seq<string>, w: string)
    ensures HasToken(ts, w) <==> exists i :: 0 <= i < |ts| && Lower(ts[i]) == w
    ensures CountToken(ts, w) <= |ts|
    ensures CountToken(ts, w) == 0 <==> !HasToken(ts, w)
  {
    if ts != [] {
      var p := ts[..|ts| - 1];
      TokenCounts(p, w);
      assert forall i :: 0 <= i < |p| ==> p[i] == ts[i];
    }
  }

  /** The context tag is the last "longctx" token, lowercased, or "default"
      when there is none. */
  lemma {:induction false} LastContextIsLast(ts: seq<string>)
    ensures LastContext(ts).Some? ==> StartsWith(LastContext(ts).value, "longctx")
    ensures LastContext(ts).Some? ==> exists i :: 0 <= i < |ts| && Lower(ts[i]) == LastContext(ts).value && (forall j :: i < j < |ts| ==> !IsLongctx(ts[j]))
    ensures LastContext(ts).None? <==> forall i :: 0 <= i < |ts| ==> !IsLongctx(ts[i])
  {
    if ts != [] {
      var p := ts[..|ts| - 1];
      LastContextIsLast(p);
      assert forall i :: 0 <= i < |p| ==> p[i] == ts[i];
      if !IsLongctx(ts[|ts| - 1]) && LastContext(p).Some? {
        var i :| 0 <= i < |p| && Lower(p[i]) == LastContext(p).value && (forall j :: i < j < |p| ==> !IsLongctx(p[j]));
        assert Lower(ts[i]) == LastContext(ts).value;
      }
    }
  }

  lemma {:induction false} LastValueIsLast(ts: seq<string>, f: string -> Option<nat>)
    ensures LastValue(ts, f).Some? ==> exists i :: 0 <= i < |ts| && LastValue(ts, f) == f(ts[i]) && (forall j :: i < j < |ts| ==> f(ts[j]).None?)
    ensures LastValue(ts, f).None? <==> forall i :: 0 <= i < |ts| ==> f(ts[i]).None?
  {
    if ts != [] {
      var p := ts[..|ts| - 1];
      LastValueIsLast(p, f);
      assert forall i :: 0 <= i < |p| ==> p[i] == ts[i];
      if f(ts[|ts| - 1]).None? && LastValue(p, f).Some? {
        var i :| 0 <= i < |p| && LastValue(p, f) == f(p[i]) && (forall j :: i < j < |p| ==> f(p[j]).None?);
        assert LastValue(ts, f) == f(ts[i]);
      }
    }
  }

  /** The token count comes from the last "longctx" token that carries
      digits; a later "longctx" token without digits does not reset it. */
  lemma LastContextTokensIsLast(ts: seq<string>)
    ensures LastContextTokens(ts).Some? ==> exists i :: 0 <= i < |ts| && IsLongctx(ts[i]) && LastContextTokens(ts) == ContextTokens(Lower(ts[i])) && (forall j :: i < j < |ts| ==> TokenValue(ts[j]).None?)
    ensures LastContextTokens(ts).None? <==> forall i :: 0 <= i < |ts| ==> TokenValue(ts[i]).None?
  {
    LastValueIsLast(ts, TokenValue);
  }

  /** The flags decoded from the `__`-separated parts of a basename. */
  function FlagsOf(parts: seq<string>): EnvFlags {
    if |parts| < 2 then NoFlags
    else
      var ts := parts[2..];
      EnvFlags(
        Some(parts[1] + Repeat("-hblt0", CountToken(ts, "hblt0"))),
        HasToken(ts, "fa1"),
        LastContext(ts).GetOr("default"),
        LastContextTokens(ts),
        HasToken(ts, "rpc"))
  }

  /** parse_env_flags: split at "__", then one pass over the suffix tokens. */
  method ParseEnvFlags(basename: string) returns (r: EnvFlags)
    ensures r == FlagsOf(SplitOn(basename, "__"))
    ensures !Contains(basename, "__") ==> r == NoFlags
    ensures Contains(basename, "__") ==> r.env.Some?
  {
    var parts := SplitOn(basename, "__");
    if !Contains(basename, "__") {
      SplitOnAbsent(basename, "__");
    } else {
      SplitOnPresent(basename, "__");
    }
    if |parts| < 2 {
      return NoFlags;
    }
    r := DecodeSuffixes(parts);
  }

  /** The loop of parse_env_flags over `parts[2:]`. */
  method DecodeSuffixes(parts: seq<string>) returns (r: EnvFlags)
    requires |parts| >= 2
    ensures r == FlagsOf(parts)
  {
    var env := parts[1];
    var fa := false;
    var contextTag := "default";
    var contextTokens: Option<nat> := None;
    var rpc := false;
    var ts := parts[2..];
    var i := 0;
    assert parts[..2][2..] == [] && parts[..2][1] == parts[1];
    assert parts[1] + Repeat("-hblt0", 0) == parts[1];
    while i < |ts|
      invariant i <= |ts|
      invariant EnvFlags(Some(env), fa, contextTag, contextTokens, rpc) == FlagsOf(parts[..i + 2])
    {
      assert parts[..i + 3] == parts[..i + 2] + [ts[i]];
      FlagsSnoc(parts[..i + 2], ts[i]);
      ghost var before := EnvFlags(Some(env), fa, contextTag, contextTokens, rpc);
      var suffix := Lower(ts[i]);
      if suffix == "fa1" {
        fa := true;
      } else if suffix == "hblt0" {
        env := env + "-hblt0";
      } else if StartsWith(suffix, "longctx") {
        contextTag := suffix;
        var m := Groups(suffix, Longctx);
        if m.Some? {
          contextTokens := Some(DigitsValue(m.value[0]));
        }
      } else if suffix == "rpc" {
        rpc := true;
      }
      assert EnvFlags(Some(env), fa, contextTag, contextTokens, rpc) == Decode(before, ts[i]);
      i := i + 1;
    }
    assert parts[..i + 2] == parts;
    return EnvFlags(Some(env), fa, contextTag, contextTokens, rpc);
  }

  /** How the decoded flags change when one more suffix token is appended:
      the counting and last-occurrence definitions above agree with the
      token-by-token update of the source. */
  lemma FlagsSnoc(parts: seq<string>, u: string)
    requires |parts| >= 2
    ensures FlagsOf(parts + [u]) == Decode(FlagsOf(parts), u)
  {
    var ts := parts[2..];
    assert (parts + [u])[2..] == ts + [u];
    assert (ts + [u])[..|ts|] == ts;
    var n := CountToken(ts, "hblt0");
    assert parts[1] + Repeat("-hblt0", n + 1) == (parts[1] + Repeat("-hblt0", n)) + "-hblt0";
  }

  /** The effect of one suffix token on the flags decoded so far. */
  function Decode(f: EnvFlags, u: string): EnvFlags
    requires f.env.Some?
  {
    var l := Lower(u);
    if l == "fa1" then f.(fa := true)
    else if l == "hblt0" then f.(env := Some(f.env.value + "-hblt0"))
    else if StartsWith(l, "longctx") then
      f.(contextTag := l, contextTokens := if ContextTokens(l).Some? then ContextTokens(l) else f.contextTokens)
    else if l == "rpc" then f.(rpc := true)
    else f
  }

  /** A suffix the decoder does not know changes nothing. */
  lemma UnknownSuffixIgnored(parts: seq<string>, u: string)
    requires |parts| >= 2
    requires Lower(u) != "fa1" && Lower(u) != "hblt0" && Lower(u) != "rpc" && !IsLongctx(u)
    ensures FlagsOf(parts + [u]) == FlagsOf(parts)
  {
    FlagsSnoc(parts, u);
  }

  // ---------------------------------------------------------------------------
  // Environment keys

  /** canonicalize_env over ENV_CANON, tried in insertion order. */
  function CanonicalizeEnv(env: string): (r: string)
    ensures env == "rocm7_1" ==> r == "rocm7.1"
    ensures env == "rocm7_alpha" ==> r == "rocm-7alpha"
    ensures StartsWith(env, "rocm7_1-") ==> r == "rocm7.1" + env[7..]
    ensures StartsWith(env, "rocm7_alpha-") ==> r == "rocm-7alpha" + env[11..]
    ensures env != "rocm7_1" && env != "rocm7_alpha" && !StartsWith(env, "rocm7_1-") && !StartsWith(env, "rocm7_alpha-") ==> r == env
  {
    assert StartsWith(env, "rocm7_1-") ==> env[6] == '1';
    assert StartsWith(env, "rocm7_alpha-") ==> env[6] == 'a';
    if env == "" then env
    else if env == "rocm7_1" then "rocm7.1"
    else if StartsWith(env, "rocm7_1-") then "rocm7.1" + env[7..]
    else if env == "rocm7_alpha" then "rocm-7alpha"
    else if StartsWith(env, "rocm7_alpha-") then "rocm-7alpha" + env[11..]
    else env
  }

  /** Canonical keys are left alone: canonicalising twice is canonicalising once. */
  lemma CanonicalizeIdempotent(env: string)
    ensures CanonicalizeEnv(CanonicalizeEnv(env)) == CanonicalizeEnv(env)
  {
    var r := CanonicalizeEnv(env);
    if r != env {
      assert r[..5] == "rocm7" || r[..5] == "rocm-";
      assert r[5] == '.' || r[4] == '-';
    }
  }

  /** env_base_and_variant: split at the first "-". */
  function EnvBaseAndVariant(env: string): (r: (string, Option<string>))
    ensures '-' !in r.0
    ensures r.1.None? <==> '-' !in env
    ensures r.1.None? ==> r.0 == env
    ensures r.1.Some? ==> r.0 + "-" + r.1.value == env
  {
    match IndexOf(env, '-')
    case None => (env, None)
    case Some(i) =>
      assert env[..i] + "-" + env[i + 1..] == env;
      (env[..i], Some(env[i + 1..]))
  }
}
