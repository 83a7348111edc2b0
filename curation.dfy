/** Clean-up of transient failures: a log whose table has no pp512/tg128
    row but whose text matches an error pattern is a failed run; failed
    runs are deleted unless they show the Vulkan out-of-memory that retrying
    does not cure. The table parser and the error patterns are the
    extractor's own (`Table.ParseTable`, `Patterns.LoadErr` and friends). */
module Curation {
  import opened Basics
  import opened Dicts
  import opened Patterns
  import opened Table
  import opened Extractor

  /** is_failed_run; None when parse_table raises IndexError. */
  function IsFailedRun(text: string): (r: Option<bool>)
    ensures r.None? <==> TableOf(text).IndexError?
    ensures TableOf(text).Rows? && HasPerf(TableOf(text).rows) ==> r == Some(false)
    ensures TableOf(text).Rows? && !HasPerf(TableOf(text).rows) ==> r == Some(LoadErr(text) || HangErr(text) || GenericErr(text))
  {
    match TableOf(text)
    case IndexError => None
    case Rows(rows) => if HasPerf(rows) then Some(false) else Some(DetectError(text).Some?)
  }

  /** is_non_transient_vram_issue: both parts of the Vulkan allocation failure. */
  predicate NonTransientVram(text: string) {
    Contains(text, "ggml_vulkan: Device memory allocation of size")
    && Contains(text, "Requested buffer size exceeds device buffer size limit")
  }

  datatype Class = NotFailed | Transient | NonTransient

  /** What the loop in `main` decides for one readable log; None when
      is_failed_run raises. */
  function LogClass(text: string): (c: Option<Class>)
    ensures c.None? <==> IsFailedRun(text).None?
    ensures c == Some(Transient) <==> IsFailedRun(text) == Some(true) && !NonTransientVram(text)
    ensures c == Some(NonTransient) <==> IsFailedRun(text) == Some(true) && NonTransientVram(text)
  {
    match IsFailedRun(text)
    case None => None
    case Some(failed) =>
      if !failed then Some(NotFailed)
      else if NonTransientVram(text) then Some(NonTransient)
      else Some(Transient)
  }

  /** A log as the loop sees it: its path and its text, or None when it cannot be read. */
  datatype LogText = LogText(path: string, text: Option<string>)

  datatype Verdicts = Verdicts(toDelete: seq<string>, keep: seq<string>)

  /** What one log adds under the classifier `classify`: nothing when
      unreadable or not failed, the keep list for a non-transient failure,
      the delete list for a transient one; None when classifying raises. */
  function Judge(v: Verdicts, f: LogText, classify: string -> Option<Class>): Option<Verdicts> {
    if f.text.None? then Some(v)
    else
      match classify(f.text.value)
      case None => None
      case Some(NotFailed) => Some(v)
      case Some(NonTransient) => Some(v.(keep := v.keep + [f.path]))
      case Some(Transient) => Some(v.(toDelete := v.toDelete + [f.path]))
  }

  function Partition(files: seq<LogText>, classify: string -> Option<Class>): Option<Verdicts> {
    if files == [] then Some(Verdicts([], []))
    else
      match Partition(files[..|files| - 1], classify)
      case None => None
      case Some(v) => Judge(v, files[|files| - 1], classify)
  }

  /** `to_delete` and `skipped_non_transient` after the loop in `main`. */
  function Sorting(files: seq<LogText>): Option<Verdicts> {
    Partition(files, LogClass)
  }

  /** The log is readable and classified as `c`. */
  predicate Classed(f: LogText, classify: string -> Option<Class>, c: Class) {
    f.text.Some? && classify(f.text.value) == Some(c)
  }

  predicate Raising(f: LogText, classify: string -> Option<Class>) {
    f.text.Some? && classify(f.text.value).None?
  }

  /** Some log of `files` has path `p` and is classified as `c`. */
  ghost predicate Listed(files: seq<LogText>, classify: string -> Option<Class>, c: Class, p: string) {
    exists i :: 0 <= i < |files| && files[i].path == p && Classed(files[i], classify, c)
  }

  lemma ListedSnoc(files: seq<LogText>, classify: string -> Option<Class>, c: Class)
    requires files != []
    ensures forall p :: Listed(files, classify, c, p) <==>
      (Listed(files[..|files| - 1], classify, c, p) || (files[|files| - 1].path == p && Classed(files[|files| - 1], classify, c)))
  {
    var pre := files[..|files| - 1];
    forall p | Listed(files, classify, c, p)
      ensures Listed(pre, classify, c, p) || (files[|files| - 1].path == p && Classed(files[|files| - 1], classify, c))
    {
      var i :| 0 <= i < |files| && files[i].path == p && Classed(files[i], classify, c);
      if i < |pre| {
        assert pre[i] == files[i];
      }
    }
    forall p | Listed(pre, classify, c, p) ensures Listed(files, classify, c, p) {
      var i :| 0 <= i < |pre| && pre[i].path == p && Classed(pre[i], classify, c);
      assert files[i] == pre[i];
    }
  }

  /** The loop raises exactly when classifying some readable log raises;
      otherwise the delete list holds exactly the transient failures and the
      keep list exactly the non-transient ones. */
  lemma {:induction false} PartitionSpec(files: seq<LogText>, classify: string -> Option<Class>)
    ensures Partition(files, classify).None? <==> exists i :: 0 <= i < |files| && Raising(files[i], classify)
    ensures Partition(files, classify).Some? ==>
      forall p :: p in Partition(files, classify).value.toDelete <==> Listed(files, classify, Transient, p)
    ensures Partition(files, classify).Some? ==>
      forall p :: p in Partition(files, classify).value.keep <==> Listed(files, classify, NonTransient, p)
  {
    if files != [] {
      var pre := files[..|files| - 1];
      PartitionSpec(pre, classify);
      assert forall i :: 0 <= i < |pre| ==> pre[i] == files[i];
      ListedSnoc(files, classify, Transient);
      ListedSnoc(files, classify, NonTransient);
    }
  }

  function Paths(files: seq<LogText>): seq<string> {
    seq(|files|, i requires 0 <= i < |files| => files[i].path)
  }

  /** With distinct paths, as a directory listing gives them, only a
      transient failure is deleted and only a non-transient one kept, so the
      two lists are disjoint. */
  lemma PartitionUnique(files: seq<LogText>, classify: string -> Option<Class>, i: int)
    requires Distinct(Paths(files)) && Partition(files, classify).Some? && 0 <= i < |files|
    ensures files[i].path in Partition(files, classify).value.toDelete ==> Classed(files[i], classify, Transient)
    ensures files[i].path in Partition(files, classify).value.keep ==> Classed(files[i], classify, NonTransient)
    ensures files[i].path !in Partition(files, classify).value.toDelete || files[i].path !in Partition(files, classify).value.keep
  {
    PartitionSpec(files, classify);
    var w := Partition(files, classify).value;
    if files[i].path in w.toDelete {
      var j :| 0 <= j < |files| && files[j].path == files[i].path && Classed(files[j], classify, Transient);
      SamePath(files, i, j);
    }
    if files[i].path in w.keep {
      var j :| 0 <= j < |files| && files[j].path == files[i].path && Classed(files[j], classify, NonTransient);
      SamePath(files, i, j);
    }
  }

  lemma SamePath(files: seq<LogText>, i: int, j: int)
    requires Distinct(Paths(files)) && 0 <= i < |files| && 0 <= j < |files| && files[i].path == files[j].path
    ensures i == j
  {
    assert Paths(files)[i] == Paths(files)[j];
  }

  /** The log is readable, failed, and shows the Vulkan out-of-memory
      exactly when `vram`. */
  predicate FailedWith(f: LogText, vram: bool) {
    f.text.Some? && IsFailedRun(f.text.value) == Some(true) && NonTransientVram(f.text.value) == vram
  }

  /** main deletes exactly the readable failed logs without the Vulkan
      out-of-memory and keeps exactly the failed ones with it. */
  lemma SortingSpec(files: seq<LogText>)
    requires Sorting(files).Some?
    ensures forall p :: p in Sorting(files).value.toDelete <==> exists i :: 0 <= i < |files| && files[i].path == p && FailedWith(files[i], false)
    ensures forall p :: p in Sorting(files).value.keep <==> exists i :: 0 <= i < |files| && files[i].path == p && FailedWith(files[i], true)
  {
    PartitionSpec(files, LogClass);
  }

  /** With distinct paths no log showing the Vulkan out-of-memory is deleted. */
  lemma SortingSparesVram(files: seq<LogText>, i: int)
    requires Sorting(files).Some? && Distinct(Paths(files)) && 0 <= i < |files|
    requires files[i].text.Some? && NonTransientVram(files[i].text.value)
    ensures files[i].path !in Sorting(files).value.toDelete
  {
    PartitionUnique(files, LogClass, i);
  }

  lemma PartitionSnoc(files: seq<LogText>, i: nat)
    requires i < |files|
    ensures Sorting(files[..i + 1]) == match Sorting(files[..i]) case None => None case Some(v) => Judge(v, files[i], LogClass)
  {
    assert files[..i + 1][..i] == files[..i];
  }

  lemma {:induction false} PartitionRaised(files: seq<LogText>, n: nat)
    requires n <= |files| && Sorting(files[..n]).None?
    ensures Sorting(files).None?
    decreases |files| - n
  {
    if n < |files| {
      PartitionSnoc(files, n);
      PartitionRaised(files, n + 1);
    } else {
      assert files[..n] == files;
    }
  }

  /** The loop of `main` over the sorted log paths; None when it raises. */
  method SortLogs(files: seq<LogText>) returns (r: Option<Verdicts>)
    ensures r == Sorting(files)
  {
    var toDelete: seq<string> := [];
    var skippedNonTransient: seq<string> := [];
    var i := 0;
    while i < |files|
      invariant i <= |files|
      invariant Sorting(files[..i]) == Some(Verdicts(toDelete, skippedNonTransient))
    {
      PartitionSnoc(files, i);
      var f := files[i];
      if f.text.Some? {
        var text := f.text.value;
        var failed := FailedRun(text);
        if failed.None? {
          PartitionRaised(files, i + 1);
          return None;
        }
        if failed.value {
          if NonTransientVram(text) {
            skippedNonTransient := skippedNonTransient + [f.path];
          } else {
            toDelete := toDelete + [f.path];
          }
        }
      }
      i := i + 1;
    }
    assert files[..i] == files;
    return Some(Verdicts(toDelete, skippedNonTransient));
  }

  /** is_failed_run, calling the table parser. */
  method FailedRun(text: string) returns (r: Option<bool>)
    ensures r == IsFailedRun(text)
  {
    var parsed := ParseTable(text);
    if parsed.IndexError? {
      return None;
    }
    if HasPerf(parsed.rows) {
      return Some(false);
    }
    return Some(DetectError(text).Some?);
  }
}
