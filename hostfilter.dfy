/** The host-entry cleanup of a benchmark log: every entry whose first line
    starts with the host marker is dropped, up to and including the blank
    line that ends it; a preview counts those entries. */
module HostFilter {
  import opened Basics

  const HostMark: string := "▶ [host]"

  /** The stripped line starts a host entry. */
  predicate IsHostStart(line: string) {
    StartsWith(Strip(line), HostMark)
  }

  /** The stripped line is empty. */
  predicate IsBlankLine(line: string) {
    Strip(line) == ""
  }

  /** A blank line never starts a host entry. */
  lemma BlankNotHost(line: string)
    requires IsBlankLine(line)
    ensures !IsHostStart(line)
  {
  }

  /** A host start is not blank, so a walk to the next blank line from a
      host start moves past it. */
  lemma BlankNotHostAt(lines: seq<string>, i: nat)
    requires i < |lines| && IsHostStart(lines[i])
    ensures !IsBlankLine(lines[i])
    ensures i < SkipBody(lines, i)
  {
  }

  /** The first blank line at or after `i`, or the end of the input. */
  function SkipBody(lines: seq<string>, i: nat): (j: nat)
    requires i <= |lines|
    ensures i <= j <= |lines|
    ensures forall k :: i <= k < j ==> !IsBlankLine(lines[k])
    ensures j < |lines| ==> IsBlankLine(lines[j])
    decreases |lines| - i
  {
    if i < |lines| && !IsBlankLine(lines[i]) then SkipBody(lines, i + 1) else i
  }

  /** Where the filter resumes after a host entry starting at `i`: past the
      start line, the non-blank lines after it, and one blank line if there
      is one. */
  function BlockEnd(lines: seq<string>, i: nat): (j: nat)
    requires i < |lines|
    ensures i < j <= |lines|
  {
    var b := SkipBody(lines, i + 1);
    if b < |lines| then b + 1 else b
  }

  /** A removed entry is its start line, the non-blank lines after it, and
      the blank line that closes it when there is one. */
  lemma BlockShape(lines: seq<string>, i: nat)
    requires i < |lines|
    ensures var j := BlockEnd(lines, i);
      && (forall k :: i < k < j ==> (!IsBlankLine(lines[k]) || (k == j - 1 && k == SkipBody(lines, i + 1))))
      && (j == SkipBody(lines, i + 1) || (j == SkipBody(lines, i + 1) + 1 && IsBlankLine(lines[j - 1])))
  {
  }

  /** The lines the filter keeps from position `i` on. */
  function Kept(lines: seq<string>, i: nat): seq<string>
    requires i <= |lines|
    decreases |lines| - i
  {
    if i == |lines| then []
    else if IsHostStart(lines[i]) then Kept(lines, BlockEnd(lines, i))
    else [lines[i]] + Kept(lines, i + 1)
  }

  /** The number of host entries the filter drops from position `i` on. */
  function Blocks(lines: seq<string>, i: nat): nat
    requires i <= |lines|
    decreases |lines| - i
  {
    if i == |lines| then 0
    else if IsHostStart(lines[i]) then 1 + Blocks(lines, BlockEnd(lines, i))
    else Blocks(lines, i + 1)
  }

  /** `ps` lists increasing positions, at or after `i`, of the lines
      `kept`: `kept` is a subsequence of `lines[i..]` in its original order. */
  ghost predicate Embeds(ps: seq<nat>, lines: seq<string>, i: nat, kept: seq<string>) {
    && |ps| == |kept|
    && (forall k :: 0 <= k < |ps| ==> i <= ps[k] < |lines| && lines[ps[k]] == kept[k])
    && (forall k, l :: 0 <= k < l < |ps| ==> ps[k] < ps[l])
  }

  /** A line in front of a subsequence that starts after it. */
  lemma EmbedsCons(ps: seq<nat>, lines: seq<string>, i: nat, kept: seq<string>)
    requires i < |lines| && Embeds(ps, lines, i + 1, kept)
    ensures Embeds([i] + ps, lines, i, [lines[i]] + kept)
  {
    var qs := [i] + ps;
    forall k | 0 <= k < |qs| ensures i <= qs[k] < |lines| && lines[qs[k]] == ([lines[i]] + kept)[k] {
      if k > 0 {
        assert qs[k] == ps[k - 1];
      }
    }
    forall k, l | 0 <= k < l < |qs| ensures qs[k] < qs[l] {
      assert qs[l] == ps[l - 1];
      if k > 0 {
        assert qs[k] == ps[k - 1];
      }
    }
  }

  /** The kept lines are a subsequence of the input in its original order. */
  lemma {:induction false} KeptPositions(lines: seq<string>, i: nat)
    requires i <= |lines|
    ensures exists ps :: Embeds(ps, lines, i, Kept(lines, i))
    decreases |lines| - i
  {
    if i == |lines| {
      assert Embeds([], lines, i, Kept(lines, i));
    } else if IsHostStart(lines[i]) {
      var e := BlockEnd(lines, i);
      KeptPositions(lines, e);
      var ps :| Embeds(ps, lines, e, Kept(lines, e));
      assert Embeds(ps, lines, i, Kept(lines, i));
    } else {
      KeptPositions(lines, i + 1);
      var kept := Kept(lines, i + 1);
      var ps :| Embeds(ps, lines, i + 1, kept);
      EmbedsCons(ps, lines, i, kept);
      assert Kept(lines, i) == [lines[i]] + kept;
    }
  }

  /** No kept line starts a host entry. */
  lemma {:induction false} KeptNoHost(lines: seq<string>, i: nat)
    requires i <= |lines|
    ensures forall k :: 0 <= k < |Kept(lines, i)| ==> !IsHostStart(Kept(lines, i)[k])
    decreases |lines| - i
  {
    if i < |lines| {
      if IsHostStart(lines[i]) {
        KeptNoHost(lines, BlockEnd(lines, i));
      } else {
        KeptNoHost(lines, i + 1);
      }
    }
  }

  /** A line that starts no host entry is kept. */
  lemma KeptOther(lines: seq<string>, i: nat)
    requires i < |lines| && !IsHostStart(lines[i])
    ensures Kept(lines, i) == [lines[i]] + Kept(lines, i + 1)
  {
  }

  /** Input without a host entry passes through unchanged. */
  lemma {:induction false} KeptWithoutHost(lines: seq<string>, i: nat)
    requires i <= |lines|
    requires forall k {:trigger IsHostStart(lines[k])} :: i <= k < |lines| ==> !IsHostStart(lines[k])
    ensures Kept(lines, i) == lines[i..]
    decreases |lines| - i
  {
    if i < |lines| {
      KeptOther(lines, i);
      KeptWithoutHost(lines, i + 1);
      assert lines[i..] == [lines[i]] + lines[i + 1..];
    }
  }

  /** Each dropped entry takes at least its start line with it, so the kept
      lines and the dropped entries together never outnumber the input. */
  lemma {:induction false} KeptShorter(lines: seq<string>, i: nat)
    requires i <= |lines|
    ensures |Kept(lines, i)| + Blocks(lines, i) <= |lines| - i
    decreases |lines| - i
  {
    if i < |lines| {
      if IsHostStart(lines[i]) {
        KeptShorter(lines, BlockEnd(lines, i));
      } else {
        KeptShorter(lines, i + 1);
      }
    }
  }

  /** The inner loop shared by the filter and the preview: it advances past
      the non-blank lines starting at `i`. */
  method SkipNonBlank(lines: seq<string>, i: nat) returns (j: nat)
    requires i <= |lines|
    ensures j == SkipBody(lines, i)
  {
    j := i;
    while j < |lines| && !IsBlankLine(lines[j])
      invariant i <= j <= SkipBody(lines, i)
      decreases |lines| - j
    {
      j := j + 1;
    }
  }

  /** The filter loop of remove_host_entries_from_log. */
  method RemoveHostEntries(lines: seq<string>) returns (filtered: seq<string>)
    ensures filtered == Kept(lines, 0)
  {
    filtered := [];
    var i := 0;
    while i < |lines|
      invariant i <= |lines|
      invariant filtered + Kept(lines, i) == Kept(lines, 0)
      decreases |lines| - i
    {
      if IsHostStart(lines[i]) {
        var j := SkipNonBlank(lines, i + 1);
        if j < |lines| && IsBlankLine(lines[j]) {
          j := j + 1;
        }
        assert j == BlockEnd(lines, i);
        i := j;
      } else {
        filtered := filtered + [lines[i]];
        i := i + 1;
      }
    }
  }

  /** The entries the preview counts from position `i` on: at a host start
      it walks to the next blank line, which the outer loop then passes. */
  function PreviewFrom(lines: seq<string>, i: nat): nat
    requires i <= |lines|
    decreases |lines| - i
  {
    if i == |lines| then 0
    else if IsHostStart(lines[i]) then
      BlankNotHostAt(lines, i);
      1 + PreviewFrom(lines, SkipBody(lines, i))
    else PreviewFrom(lines, i + 1)
  }

  /** The counting loop of preview_host_entries. */
  method PreviewHostEntries(lines: seq<string>) returns (count: nat)
    ensures count == PreviewFrom(lines, 0)
  {
    count := 0;
    var i := 0;
    while i < |lines|
      invariant i <= |lines|
      invariant count + PreviewFrom(lines, i) == PreviewFrom(lines, 0)
      decreases |lines| - i
    {
      if IsHostStart(lines[i]) {
        count := count + 1;
        BlankNotHostAt(lines, i);
        i := SkipNonBlank(lines, i);
      } else {
        i := i + 1;
      }
    }
  }

  /** The preview counts exactly the entries the filter drops. */
  lemma {:induction false} PreviewCountsBlocks(lines: seq<string>, i: nat)
    requires i <= |lines|
    ensures PreviewFrom(lines, i) == Blocks(lines, i)
    decreases |lines| - i
  {
    if i < |lines| {
      if IsHostStart(lines[i]) {
        var b := SkipBody(lines, i + 1);
        assert SkipBody(lines, i) == b;
        PreviewCountsBlocks(lines, BlockEnd(lines, i));
        if b < |lines| {
          BlankNotHost(lines[b]);
          assert PreviewFrom(lines, b) == PreviewFrom(lines, b + 1);
        }
      } else {
        PreviewCountsBlocks(lines, i + 1);
      }
    }
  }
}
