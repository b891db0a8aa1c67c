/** The migrator: apply each file not yet recorded, in name order, every file in a transaction of its
    own. Any statement may fail and the process may die at any point; then it is started again. */
module Migrator {

  type Name = string

  /** A migration that took effect: the file's name and its text. */
  datatype Applied = Applied(name: Name, sql: string)

  /** How the run fares at one file. After an unsure commit the transaction stands, but the runner
      does not learn of it. */
  datatype Fate = Fine | QueryFails | ScriptFails | RecordFails | CommitFails | CommitUnsure

  predicate Recorded(schema: seq<Applied>, name: Name) {
    exists i :: 0 <= i < |schema| && schema[i].name == name
  }

  /** The schema after a run over these files, and whether the run completed. */
  function After(schema: seq<Applied>, files: seq<Applied>, fates: seq<Fate>): (seq<Applied>, bool)
    requires |fates| == |files|
    decreases |files|
  {
    if files == [] then (schema, true)
    else if fates[0].QueryFails? then (schema, false)
    else if Recorded(schema, files[0].name) then After(schema, files[1..], fates[1..])
    else match fates[0]
      case Fine => After(schema + [files[0]], files[1..], fates[1..])
      case CommitUnsure => (schema + [files[0]], false)
      case _ => (schema, false)
  }

  /** `versions` is the table of recorded names; `schema` all that committed scripts did, in order. */
  class Database {
    var versions: set<Name>
    var schema: seq<Applied>

    ghost predicate Valid()
      reads this
    {
      forall name :: name in versions <==> Recorded(schema, name)
    }

    constructor ()
      ensures Valid() && schema == []
    {
      versions, schema := {}, [];
    }

    method Migrate(files: seq<Applied>, fates: seq<Fate>) returns (completed: bool)
      requires Valid() && |fates| == |files|
      modifies this
      ensures Valid()
      ensures (schema, completed) == After(old(schema), files, fates)
      ensures DistinctNames(files) ==> (completed <==> forall i | 0 <= i < |files| :: Passes(old(schema), files[i], fates[i]))
    {
      RunCompletesIff(schema, files, fates);
      var i := 0;
      while i < |files|
        invariant 0 <= i <= |files| && Valid()
        invariant After(schema, files[i..], fates[i..]) == After(old(schema), files, fates)
      {
        assert files[i..][1..] == files[i + 1..] && fates[i..][1..] == fates[i + 1..];
        if fates[i].QueryFails? {
          return false;
        }
        var exists_ := files[i].name in versions;
        if !exists_ {
          var beginVersions, beginSchema := versions, schema;
          if fates[i].ScriptFails? {
            return false;
          }
          schema := schema + [files[i]];
          if fates[i].RecordFails? {
            schema := beginSchema;
            return false;
          }
          versions := versions + {files[i].name};
          if fates[i].CommitFails? {
            versions, schema := beginVersions, beginSchema;
            return false;
          }
          RecordedSnoc(beginSchema, files[i]);
          if fates[i].CommitUnsure? {
            return false;
          }
        }
        i := i + 1;
      }
      completed := true;
    }
  }

  lemma RecordedSnoc(schema: seq<Applied>, a: Applied)
    ensures forall name :: Recorded(schema + [a], name) <==> Recorded(schema, name) || name == a.name
  {
    var longer := schema + [a];
    assert longer[|schema|] == a;
    forall name | Recorded(schema, name)
      ensures Recorded(longer, name)
    {
      var i :| 0 <= i < |schema| && schema[i].name == name;
      assert longer[i].name == name;
    }
  }

  // ---- One run ----

  predicate DistinctNames(files: seq<Applied>) {
    forall i, j :: 0 <= i < j < |files| ==> files[i].name != files[j].name
  }

  /** The files not recorded yet, in their order. */
  function Missing(schema: seq<Applied>, files: seq<Applied>): seq<Applied> {
    if files == [] then []
    else if Recorded(schema, files[0].name) then Missing(schema, files[1..])
    else [files[0]] + Missing(schema, files[1..])
  }

  lemma {:induction false} MissingMeaning(schema: seq<Applied>, files: seq<Applied>)
    ensures var m := Missing(schema, files);
            forall a :: a in m <==> a in files && !Recorded(schema, a.name)
  {
    if files != [] {
      MissingMeaning(schema, files[1..]);
      assert files == [files[0]] + files[1..];
    }
  }

  /** Recording a file first takes it off the list of the others. */
  lemma {:induction false} MissingAfterFirst(schema: seq<Applied>, a: Applied, files: seq<Applied>)
    requires forall i :: 0 <= i < |files| ==> files[i].name != a.name
    ensures Missing(schema + [a], files) == Missing(schema, files)
  {
    RecordedSnoc(schema, a);
    if files != [] {
      MissingAfterFirst(schema, a, files[1..]);
    }
  }

  /** A run adds the first so many missing files, in order, and all of them when it completes. */
  lemma {:induction false} RunAddsMissing(schema: seq<Applied>, files: seq<Applied>, fates: seq<Fate>)
    requires |fates| == |files| && DistinctNames(files)
    ensures var (after, completed) := After(schema, files, fates);
            var m := Missing(schema, files);
            && |schema| <= |after| <= |schema| + |m| && after == schema + m[..|after| - |schema|]
            && (completed ==> after == schema + m)
    decreases |files|
  {
    if files != [] {
      if Recorded(schema, files[0].name) {
        RunAddsMissing(schema, files[1..], fates[1..]);
      } else {
        MissingAfterFirst(schema, files[0], files[1..]);
        RunAddsMissing(schema + [files[0]], files[1..], fates[1..]);
      }
    }
  }

  /** The run gets past this file: the query finds it recorded, or all of its transaction works. */
  predicate Passes(schema: seq<Applied>, file: Applied, fate: Fate) {
    if Recorded(schema, file.name) then fate != QueryFails else fate == Fine
  }

  /** The run gets past the first n files and no further. */
  predicate StopsAt(schema: seq<Applied>, files: seq<Applied>, fates: seq<Fate>, n: nat)
    requires |fates| == |files|
  {
    && n <= |files|
    && (forall i | 0 <= i < n :: Passes(schema, files[i], fates[i]))
    && (n < |files| ==> !Passes(schema, files[n], fates[n]))
  }

  /** What the file at which a run stops leaves: itself, if only the answer to its commit was lost. */
  function LeftBy(schema: seq<Applied>, file: Applied, fate: Fate): seq<Applied> {
    if !Recorded(schema, file.name) && fate == CommitUnsure then [file] else []
  }

  lemma StopsAtFirst(schema: seq<Applied>, files: seq<Applied>, fates: seq<Fate>)
    requires |fates| == |files| && StopsAt(schema, files, fates, 0)
    ensures After(schema, files, fates)
         == if files == [] then (schema, true) else (schema + LeftBy(schema, files[0], fates[0]), false)
  {
    assert schema + [] == schema;
  }

  /** Past its first file, the run goes on with the others. */
  lemma GoesOn(schema: seq<Applied>, files: seq<Applied>, fates: seq<Fate>, n: nat)
    requires |fates| == |files| && DistinctNames(files) && n > 0 && StopsAt(schema, files, fates, n)
    ensures var next := if Recorded(schema, files[0].name) then schema else schema + [files[0]];
            && After(schema, files, fates) == After(next, files[1..], fates[1..])
            && StopsAt(next, files[1..], fates[1..], n - 1)
            && next + Missing(next, files[1..]) == schema + Missing(schema, files)
            && next + Missing(next, files[1..][..n - 1]) == schema + Missing(schema, files[..n])
            && (n < |files| ==> LeftBy(next, files[n], fates[n]) == LeftBy(schema, files[n], fates[n]))
  {
    var file, rest := files[0], files[1..];
    assert Passes(schema, file, fates[0]);
    assert files[..n][1..] == rest[..n - 1] && files[..n][0] == file;
    if !Recorded(schema, file.name) {
      RecordedSnoc(schema, file);
      MissingAfterFirst(schema, file, rest);
      MissingAfterFirst(schema, file, rest[..n - 1]);
      hide Recorded;
      assert After(schema, files, fates) == After(schema + [file], rest, fates[1..]);
      hide After;
      assert forall m: seq<Applied> :: schema + [file] + m == schema + ([file] + m);
    }
  }

  /** A run that stops at file n has added the missing ones before it, in order, and file n if its commit
      was unsure. It completes exactly when it stops at none. */
  lemma {:induction false} RunStopsAt(schema: seq<Applied>, files: seq<Applied>, fates: seq<Fate>, n: nat)
    requires |fates| == |files| && DistinctNames(files) && StopsAt(schema, files, fates, n)
    ensures After(schema, files, fates)
         == if n == |files| then (schema + Missing(schema, files), true)
            else (schema + Missing(schema, files[..n]) + LeftBy(schema, files[n], fates[n]), false)
    decreases |files|
  {
    if n == 0 {
      StopsAtFirst(schema, files, fates);
      hide After, LeftBy;
      assert files[..0] == [] && Missing(schema, []) == [] && schema + [] == schema;
    } else {
      GoesOn(schema, files, fates, n);
      hide After, LeftBy, Missing, StopsAt;
      var next := if Recorded(schema, files[0].name) then schema else schema + [files[0]];
      RunStopsAt(next, files[1..], fates[1..], n - 1);
    }
  }

  /** Every run stops somewhere. */
  lemma {:induction false} FindStop(schema: seq<Applied>, files: seq<Applied>, fates: seq<Fate>, from: nat) returns (n: nat)
    requires |fates| == |files| && from <= |files| && forall i | 0 <= i < from :: Passes(schema, files[i], fates[i])
    ensures StopsAt(schema, files, fates, n)
    decreases |files| - from
  {
    if from < |files| && Passes(schema, files[from], fates[from]) {
      n := FindStop(schema, files, fates, from + 1);
    } else {
      n := from;
    }
  }

  /** A run completes exactly when the query of every recorded file works and everything works for every
      missing one; then every file is recorded. */
  lemma RunCompletesIff(schema: seq<Applied>, files: seq<Applied>, fates: seq<Fate>)
    requires |fates| == |files|
    ensures DistinctNames(files) ==>
              (After(schema, files, fates).1 <==> forall i | 0 <= i < |files| :: Passes(schema, files[i], fates[i]))
    ensures DistinctNames(files) && (forall i | 0 <= i < |files| :: fates[i] == Fine) ==>
              After(schema, files, fates).1 && forall a | a in files :: Recorded(After(schema, files, fates).0, a.name)
  {
    if DistinctNames(files) {
      var n := FindStop(schema, files, fates, 0);
      RunStopsAt(schema, files, fates, n);
      hide After, Missing;
      if forall i | 0 <= i < |files| :: fates[i] == Fine {
        assert n == |files|;
        MissingMeaning(schema, files);
        forall a | a in files
          ensures Recorded(schema + Missing(schema, files), a.name)
        {
          AppendedIsRecorded(schema, Missing(schema, files), a);
        }
      }
    }
  }

  /** Whatever happens, no file takes effect twice. */
  lemma RunAppliesOnce(schema: seq<Applied>, files: seq<Applied>, fates: seq<Fate>)
    requires |fates| == |files| && DistinctNames(files) && DistinctNames(schema)
    ensures DistinctNames(After(schema, files, fates).0)
  {
    RunAddsMissing(schema, files, fates);
    MissingMeaning(schema, files);
    MissingIsDistinct(schema, files);
    hide After;
    var m := Missing(schema, files);
    assert forall i :: 0 <= i < |m| ==> m[i] in m;
    assert forall i :: 0 <= i < |schema| ==> Recorded(schema, schema[i].name);
  }

  lemma {:induction false} MissingIsDistinct(schema: seq<Applied>, files: seq<Applied>)
    requires DistinctNames(files)
    ensures DistinctNames(Missing(schema, files))
  {
    if files != [] {
      MissingIsDistinct(schema, files[1..]);
      MissingMeaning(schema, files[1..]);
      var rest := Missing(schema, files[1..]);
      forall i | 0 <= i < |rest|
        ensures rest[i].name != files[0].name
      {
        assert rest[i] in rest;
        var j :| 0 <= j < |files[1..]| && files[1..][j] == rest[i];
        assert files[j + 1] == rest[i];
      }
    }
  }

  // ---- Any number of runs over the same files ----

  predicate Fits(files: seq<Applied>, runs: seq<seq<Fate>>) {
    DistinctNames(files) && forall i :: 0 <= i < |runs| ==> |runs[i]| == |files|
  }

  /** The schema after starting the migrator once for each element of `runs`. */
  function AfterRuns(files: seq<Applied>, runs: seq<seq<Fate>>): seq<Applied>
    requires Fits(files, runs)
  {
    if runs == [] then []
    else After(AfterRuns(files, runs[..|runs| - 1]), files, runs[|runs| - 1]).0
  }

  predicate Completes(files: seq<Applied>, runs: seq<seq<Fate>>, i: nat)
    requires Fits(files, runs) && i < |runs|
  {
    After(AfterRuns(files, runs[..i]), files, runs[i]).1
  }

  /** Of a schema that is the first so many files, the others are missing. */
  lemma {:induction false} MissingOfPrefix(files: seq<Applied>, n: nat, from: nat)
    requires DistinctNames(files) && from <= n <= |files|
    ensures Missing(files[..n], files[from..]) == files[n..]
    decreases |files| - from
  {
    if from < |files| {
      assert files[from..][1..] == files[from + 1..];
      if from < n {
        assert files[..n][from] == files[from];
        MissingOfPrefix(files, n, from + 1);
      } else {
        assert !Recorded(files[..n], files[from].name);
        NoneRecorded(files, n, from + 1);
      }
    }
  }

  lemma {:induction false} NoneRecorded(files: seq<Applied>, n: nat, from: nat)
    requires DistinctNames(files) && n <= from <= |files|
    ensures Missing(files[..n], files[from..]) == files[from..]
    decreases |files| - from
  {
    if from < |files| {
      assert files[from..][1..] == files[from + 1..];
      assert !Recorded(files[..n], files[from].name);
      NoneRecorded(files, n, from + 1);
    }
  }

  /** Crash and restart as often as you like: the schema is always a first part of the files, each
      applied once and in order, and all of them as soon as one run has completed. */
  lemma {:induction false} RestartsApplyAPrefix(files: seq<Applied>, runs: seq<seq<Fate>>)
    requires Fits(files, runs)
    ensures AfterRuns(files, runs) <= files
    ensures (exists i :: 0 <= i < |runs| && Completes(files, runs, i)) ==> AfterRuns(files, runs) == files
  {
    if runs != [] {
      var earlier := runs[..|runs| - 1];
      var schema := AfterRuns(files, earlier);
      RestartsApplyAPrefix(files, earlier);
      assert schema == files[..|schema|] && files[0..] == files;
      MissingOfPrefix(files, |schema|, 0);
      RunAddsMissing(schema, files, runs[|runs| - 1]);
      hide After, Missing, Recorded;
      assert schema + files[|schema|..] == files;
      if i :| 0 <= i < |runs| && Completes(files, runs, i) {
        assert runs[..|runs| - 1][..i] == runs[..i] || i == |runs| - 1;
        assert i < |runs| - 1 ==> Completes(files, earlier, i);
      }
    }
  }

  // ---- Later releases with more files ----

  /** Byte order on names, the order of the listing. */
  predicate Less(a: Name, b: Name) {
    b != "" && (a == "" || a[0] < b[0] || (a[0] == b[0] && Less(a[1..], b[1..])))
  }

  predicate Sorted(files: seq<Applied>) {
    forall i, j :: 0 <= i < j < |files| ==> Less(files[i].name, files[j].name)
  }

  /** The names part after k characters: a ends there, or has the smaller character. */
  predicate PartsAt(a: Name, b: Name, k: nat) {
    k <= |a| && k < |b| && a[..k] == b[..k] && (k == |a| || a[k] < b[k])
  }

  lemma PartsLater(a: Name, b: Name, k: nat)
    requires a != "" && b != ""
    ensures PartsAt(a, b, k + 1) <==> a[0] == b[0] && PartsAt(a[1..], b[1..], k)
  {
    if k + 1 <= |a| && k + 1 < |b| {
      assert a[..k + 1] == [a[0]] + a[1..][..k] && b[..k + 1] == [b[0]] + b[1..][..k];
    }
  }

  lemma {:induction false} LessIff(a: Name, b: Name)
    ensures Less(a, b) <==> exists k: nat :: PartsAt(a, b, k)
  {
    if a == "" {
      assert b != "" ==> PartsAt(a, b, 0);
    } else if b != "" {
      LessIff(a[1..], b[1..]);
      assert PartsAt(a, b, 0) <==> a[0] < b[0];
      hide PartsAt;
      if k: nat :| PartsAt(a, b, k) {
        if k > 0 {
          PartsLater(a, b, k - 1);
        }
      }
      if k: nat :| PartsAt(a[1..], b[1..], k) {
        PartsLater(a, b, k);
      }
    }
  }

  lemma {:induction false} LessIsStrict(a: Name)
    ensures !Less(a, a)
  {
    if a != "" {
      LessIsStrict(a[1..]);
    }
  }

  lemma {:induction false} MissingIsSorted(schema: seq<Applied>, files: seq<Applied>)
    requires Sorted(files)
    ensures Sorted(Missing(schema, files))
  {
    if files != [] {
      MissingIsSorted(schema, files[1..]);
      MissingMeaning(schema, files[1..]);
      var rest := Missing(schema, files[1..]);
      forall i | 0 <= i < |rest|
        ensures Less(files[0].name, rest[i].name)
      {
        assert rest[i] in rest;
        var j :| 0 <= j < |files[1..]| && files[1..][j] == rest[i];
        assert files[j + 1] == rest[i];
      }
    }
  }

  lemma SortedIsDistinct(files: seq<Applied>)
    requires Sorted(files)
    ensures DistinctNames(files)
  {
    forall i, j | 0 <= i < j < |files|
      ensures files[i].name != files[j].name
    {
      LessIsStrict(files[i].name);
    }
  }

  /** A completed run over a grown set of files applies all that were missing. The files are then in
      name order exactly when every new one sorts after every one recorded before. */
  lemma GrownSetInOrderIff(schema: seq<Applied>, files: seq<Applied>, fates: seq<Fate>)
    requires |fates| == |files| && Sorted(schema) && Sorted(files) && After(schema, files, fates).1
    ensures var after := After(schema, files, fates).0;
            && (forall a | a in files :: Recorded(after, a.name))
            && (Sorted(after) <==>
                forall a, b | a in schema && b in files && !Recorded(schema, b.name) :: Less(a.name, b.name))
  {
    var after := After(schema, files, fates).0;
    var m := Missing(schema, files);
    SortedIsDistinct(files);
    RunAddsMissing(schema, files, fates);
    MissingMeaning(schema, files);
    MissingIsSorted(schema, files);
    hide After, Missing, Less;
    forall a | a in files
      ensures Recorded(after, a.name)
    {
      AppendedIsRecorded(schema, m, a);
    }
    SortedConcat(schema, m);
  }

  lemma AppendedIsRecorded(schema: seq<Applied>, m: seq<Applied>, a: Applied)
    requires Recorded(schema, a.name) || a in m
    ensures Recorded(schema + m, a.name)
  {
    if Recorded(schema, a.name) {
      var i :| 0 <= i < |schema| && schema[i].name == a.name;
      assert (schema + m)[i].name == a.name;
    } else {
      var i :| 0 <= i < |m| && m[i] == a;
      assert (schema + m)[|schema| + i] == a;
    }
  }

  lemma SortedConcat(s: seq<Applied>, t: seq<Applied>)
    requires Sorted(s) && Sorted(t)
    ensures Sorted(s + t) <==> forall a, b | a in s && b in t :: Less(a.name, b.name)
  {
    hide Less;
    if Sorted(s + t) {
      forall a, b | a in s && b in t
        ensures Less(a.name, b.name)
      {
        var i :| 0 <= i < |s| && s[i] == a;
        var j :| 0 <= j < |t| && t[j] == b;
        assert (s + t)[i] == a && (s + t)[|s| + j] == b;
      }
    }
    if forall a, b | a in s && b in t :: Less(a.name, b.name) {
      forall i, j | 0 <= i < j < |s + t|
        ensures Less((s + t)[i].name, (s + t)[j].name)
      {
        if i < |s| <= j {
          assert (s + t)[i] in s && (s + t)[j] in t;
        }
      }
    }
  }
}
