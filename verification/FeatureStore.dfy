/** services/feature_store.py, the local store: append-only record files, one per application and
    partition, and a separate transaction log that allocates versions. A write is complete once both
    appends are, and writes do not overlap. Features are their JSON text. */
module FeatureStore {
  import opened Base
  import opened Sorting

  datatype Partition = Partition(date: string, industry: string)

  datatype Record = Record(app: string, version: nat, features: string)

  datatype LogEntry = LogEntry(action: string, app: string, version: nat)

  type Files = map<(Partition, string), seq<Record>>

  datatype Store = Store(files: Files, log: seq<LogEntry>)

  datatype Write = Write(app: string, features: string, date: string, industry: string)

  // ---------------------------------------------------------------------------------------------
  // The store as functions.
  // ---------------------------------------------------------------------------------------------

  function Underscored(s: string): string {
    if s == "" then "" else [if s[0] == '/' then '_' else s[0]] + Underscored(s[1..])
  }

  function PartitionOf(date: string, industry: string): Partition {
    Partition(date, Underscored(if industry == "" then "unclassified" else industry))
  }

  /** A partition's directory is the industry with every slash replaced, or "unclassified" for none. */
  lemma {:induction false} PartitionIs(date: string, industry: string)
    ensures PartitionOf(date, industry).date == date
    ensures industry == "" ==> PartitionOf(date, industry).industry == "unclassified"
    ensures industry != "" ==>
              var name := PartitionOf(date, industry).industry;
              |name| == |industry| && forall i :: 0 <= i < |name| ==>
                name[i] == if industry[i] == '/' then '_' else industry[i]
  {
    if industry == "" {
      NoSlash("unclassified");
    } else {
      UnderscoredIs(industry);
    }
  }

  lemma {:induction false} NoSlash(s: string)
    requires '/' !in s
    ensures Underscored(s) == s
  {
    UnderscoredIs(s);
    assert forall i :: 0 <= i < |s| ==> s[i] != '/';
  }

  lemma {:induction false} UnderscoredIs(s: string)
    ensures |Underscored(s)| == |s|
    ensures forall i :: 0 <= i < |s| ==> Underscored(s)[i] == if s[i] == '/' then '_' else s[i]
  {
    if s != "" {
      UnderscoredIs(s[1..]);
    }
  }

  function MaxVersion(log: seq<LogEntry>, app: string): nat {
    if log == [] then 0
    else
      var m, e := MaxVersion(log[..|log| - 1], app), log[|log| - 1];
      if e.action == "WRITE" && e.app == app && e.version > m then e.version else m
  }

  /** The highest version a WRITE entry of the application carries, and 0 when there is none. Entries of
      other actions or applications do not count. */
  lemma {:induction false} MaxVersionIs(log: seq<LogEntry>, app: string)
    ensures forall e :: e in log && e.action == "WRITE" && e.app == app ==> e.version <= MaxVersion(log, app)
    ensures MaxVersion(log, app) > 0 ==> LogEntry("WRITE", app, MaxVersion(log, app)) in log
  {
    if log != [] {
      MaxVersionIs(log[..|log| - 1], app);
      assert log == log[..|log| - 1] + [log[|log| - 1]];
    }
  }

  function FileRecords(files: Files, p: Partition, app: string): seq<Record> {
    if (p, app) in files then files[(p, app)] else []
  }

  function Apply(s: Store, w: Write): Store {
    var p := PartitionOf(w.date, w.industry);
    var version := MaxVersion(s.log, w.app) + 1;
    Store(s.files[(p, w.app) := FileRecords(s.files, p, w.app) + [Record(w.app, version, w.features)]],
          s.log + [LogEntry("WRITE", w.app, version)])
  }

  function Run(writes: seq<Write>): Store {
    if writes == [] then Store(map[], []) else Apply(Run(writes[..|writes| - 1]), writes[|writes| - 1])
  }

  /** The application's records, file by file in the order the directory walk yields partitions. */
  function AllRecords(files: Files, app: string, order: seq<Partition>): seq<Record> {
    if order == [] then []
    else AllRecords(files, app, order[..|order| - 1]) + FileRecords(files, order[|order| - 1], app)
  }

  ghost predicate Distinct(order: seq<Partition>) {
    forall i, j :: 0 <= i < j < |order| ==> order[i] != order[j]
  }

  /** A walk meets every file of the application once; its order is otherwise arbitrary. */
  ghost predicate Enumerates(files: Files, app: string, order: seq<Partition>) {
    && Distinct(order)
    && forall p :: (p, app) in files ==> p in order
  }

  predicate NotAfter(a: Record, b: Record) { a.version <= b.version }

  /** sorted by version, stable. */
  function SortByVersion(records: seq<Record>): seq<Record> { SortBy(records, NotAfter) }

  function FirstWithVersion(records: seq<Record>, version: nat): Option<Record> {
    if records == [] then None
    else if records[0].version == version then Some(records[0])
    else FirstWithVersion(records[1..], version)
  }

  function Latest(records: seq<Record>): Record
    requires records != []
  {
    if |records| == 1 then records[0]
    else
      var m, r := Latest(records[..|records| - 1]), records[|records| - 1];
      if r.version > m.version then r else m
  }

  function Read(records: seq<Record>, version: Option<nat>): Option<Record> {
    if records == [] then None
    else if version.Some? then FirstWithVersion(records, version.value)
    else Some(Latest(records))
  }

  // ---------------------------------------------------------------------------------------------
  // The store in place.
  // ---------------------------------------------------------------------------------------------

  class FeatureStore {
    var files: Files
    var log: seq<LogEntry>

    constructor ()
      ensures Store(files, log) == Run([])
    {
      files, log := map[], [];
    }

    method NextVersion(app: string) returns (version: nat)
      ensures version == MaxVersion(log, app) + 1
    {
      var highest := 0;
      for i := 0 to |log|
        invariant highest == MaxVersion(log[..i], app)
      {
        assert log[..i + 1][..i] == log[..i];
        if log[i].action == "WRITE" && log[i].app == app && log[i].version > highest {
          highest := log[i].version;
        }
      }
      assert log[..|log|] == log;
      version := highest + 1;
    }

    method WriteFeatures(app: string, features: string, date: string, industry: string) returns (version: nat)
      modifies this
      ensures Store(files, log) == Apply(Store(old(files), old(log)), Write(app, features, date, industry))
      ensures version == MaxVersion(old(log), app) + 1
    {
      var part := PartitionOf(date, industry);
      version := NextVersion(app);
      files := files[(part, app) := FileRecords(files, part, app) + [Record(app, version, features)]];
      log := log + [LogEntry("WRITE", app, version)];
    }

    method ReadAll(app: string, order: seq<Partition>) returns (records: seq<Record>)
      ensures records == AllRecords(files, app, order)
    {
      records := [];
      for i := 0 to |order|
        invariant records == AllRecords(files, app, order[..i])
      {
        assert order[..i + 1][..i] == order[..i];
        if (order[i], app) in files {
          records := records + files[(order[i], app)];
        }
      }
      assert order[..|order|] == order;
    }

    method ReadFeatures(app: string, version: Option<nat>, order: seq<Partition>) returns (record: Option<Record>)
      ensures record == Read(AllRecords(files, app, order), version)
    {
      var records := ReadAll(app, order);
      if records == [] {
        return None;
      }
      if version.Some? {
        assert records[0..] == records;
        for i := 0 to |records|
          invariant FirstWithVersion(records, version.value) == FirstWithVersion(records[i..], version.value)
        {
          if records[i].version == version.value {
            return Some(records[i]);
          }
        }
        return None;
      }
      return Some(Latest(records));
    }

    method History(app: string, order: seq<Partition>) returns (records: seq<Record>)
      ensures records == SortByVersion(AllRecords(files, app, order))
    {
      var all := ReadAll(app, order);
      records := SortByVersion(all);
    }
  }

  // ---------------------------------------------------------------------------------------------
  // The abstract store: each application's writes, numbered from 1 in the order they were made.
  // ---------------------------------------------------------------------------------------------

  function Versions(writes: seq<Write>, app: string): seq<Record> {
    if writes == [] then []
    else
      var earlier, w := Versions(writes[..|writes| - 1], app), writes[|writes| - 1];
      if w.app == app then earlier + [Record(app, |earlier| + 1, w.features)] else earlier
  }

  lemma {:induction false} VersionsNumbered(writes: seq<Write>, app: string)
    ensures NumberedFromOne(Versions(writes, app))
  {
    if writes != [] {
      VersionsNumbered(writes[..|writes| - 1], app);
    }
  }

  lemma {:induction false} LogCounts(writes: seq<Write>, app: string)
    ensures MaxVersion(Run(writes).log, app) == |Versions(writes, app)|
  {
    if writes != [] {
      var init, w := writes[..|writes| - 1], writes[|writes| - 1];
      LogCounts(init, app);
      LogCounts(init, w.app);
      var log := Run(init).log;
      assert Run(writes).log[..|log|] == log;
    }
  }

  lemma FileGrows(files: Files, app: string, p: Partition, r: Record, q: Partition)
    ensures FileRecords(files[(p, app) := FileRecords(files, p, app) + [r]], q, app)
         == FileRecords(files, q, app) + if q == p then [r] else []
  {
  }

  lemma {:induction false} AppendedRecord(files: Files, app: string, p: Partition, r: Record, order: seq<Partition>)
    requires Distinct(order) && p in order
    ensures multiset(AllRecords(files[(p, app) := FileRecords(files, p, app) + [r]], app, order))
         == multiset(AllRecords(files, app, order)) + multiset{r}
  {
    var init, last := order[..|order| - 1], order[|order| - 1];
    var files' := files[(p, app) := FileRecords(files, p, app) + [r]];
    var before, here := multiset(AllRecords(files, app, init)), multiset(FileRecords(files, last, app));
    assert order == init + [last];
    FileGrows(files, app, p, r, last);
    if last == p {
      forall q | q in init
        ensures FileRecords(files', q, app) == FileRecords(files, q, app)
      {
        FileGrows(files, app, p, r, q);
      }
      OtherFilesUntouched(files, files', app, init);
      Regroup(before, here, multiset{r});
    } else {
      AppendedRecord(files, app, p, r, init);
      Regroup(before, multiset{r}, here);
    }
  }

  lemma Regroup(a: multiset<Record>, b: multiset<Record>, c: multiset<Record>)
    ensures a + (b + c) == a + b + c == a + c + b
  {
  }

  lemma {:induction false} OtherFilesUntouched(files: Files, files': Files, app: string, order: seq<Partition>)
    requires forall p :: p in order ==> FileRecords(files', p, app) == FileRecords(files, p, app)
    ensures AllRecords(files, app, order) == AllRecords(files', app, order)
  {
    if order != [] {
      OtherFilesUntouched(files, files', app, order[..|order| - 1]);
    }
  }

  /** Whatever the walk order, the files hold exactly the application's numbered writes. */
  lemma {:induction false} FilesHoldVersions(writes: seq<Write>, app: string, order: seq<Partition>)
    requires Enumerates(Run(writes).files, app, order)
    ensures multiset(AllRecords(Run(writes).files, app, order)) == multiset(Versions(writes, app))
  {
    if writes == [] {
      NoFiles(app, order);
    } else {
      var init, w := writes[..|writes| - 1], writes[|writes| - 1];
      FilesGrow(Run(init).files, Run(writes).files, app, order);
      FilesHoldVersions(init, app, order);
      ApplyFiles(init, w, app, order);
      assert Run(writes) == Apply(Run(init), w);
      VersionsGrow(Versions(init, app), w, app);
    }
  }

  lemma VersionsGrow(earlier: seq<Record>, w: Write, app: string)
    ensures var r := Record(app, |earlier| + 1, w.features);
      multiset(if w.app == app then earlier + [r] else earlier) ==
        multiset(earlier) + if w.app == app then multiset{r} else multiset{}
  {
  }

  lemma FilesGrow(files: Files, files': Files, app: string, order: seq<Partition>)
    requires Enumerates(files', app, order) && files.Keys <= files'.Keys
    ensures Enumerates(files, app, order)
  {
  }

  lemma {:induction false} ApplyFiles(writes: seq<Write>, w: Write, app: string, order: seq<Partition>)
    requires Enumerates(Apply(Run(writes), w).files, app, order)
    ensures multiset(AllRecords(Apply(Run(writes), w).files, app, order)) ==
              multiset(AllRecords(Run(writes).files, app, order)) +
              if w.app == app then multiset{Record(app, |Versions(writes, app)| + 1, w.features)} else multiset{}
  {
    var s, p := Run(writes), PartitionOf(w.date, w.industry);
    if w.app == app {
      LogCounts(writes, app);
      assert (p, app) in Apply(s, w).files;
      AppendedRecord(s.files, app, p, Record(app, |Versions(writes, app)| + 1, w.features), order);
    } else {
      OtherFilesUntouched(s.files, Apply(s, w).files, app, order);
    }
  }

  lemma {:induction false} NoFiles(app: string, order: seq<Partition>)
    ensures AllRecords(map[], app, order) == []
  {
    if order != [] {
      NoFiles(app, order[..|order| - 1]);
    }
  }

  ghost predicate Ascending(records: seq<Record>) { Ordered(records, NotAfter) }

  ghost predicate NumberedFromOne(records: seq<Record>) {
    forall i :: 0 <= i < |records| ==> records[i].version == i + 1
  }

  ghost predicate SameMembers(a: seq<Record>, b: seq<Record>) { forall x :: x in a <==> x in b }

  lemma {:induction false} SameLast(a: seq<Record>, b: seq<Record>)
    requires Ascending(a) && NumberedFromOne(b) && a != [] && b != []
    requires SameMembers(a, b)
    ensures a[|a| - 1] == b[|b| - 1]
  {
    var m, n := |a| - 1, |b| - 1;
    assert b[n] in a && a[m] in b;
    var i :| 0 <= i < |a| && a[i] == b[n];
    var j :| 0 <= j < |b| && b[j] == a[m];
    assert a[i].version <= a[m].version;
  }

  lemma {:induction false} SubtractLast(a: seq<Record>, b: seq<Record>)
    requires a != [] && b != [] && a[|a| - 1] == b[|b| - 1] && multiset(a) == multiset(b)
    ensures multiset(a[..|a| - 1]) == multiset(b[..|b| - 1])
  {
    assert a == a[..|a| - 1] + [a[|a| - 1]] && b == b[..|b| - 1] + [b[|b| - 1]];
    assert multiset(a[..|a| - 1]) == multiset(a) - multiset{a[|a| - 1]};
    assert multiset(b[..|b| - 1]) == multiset(b) - multiset{b[|b| - 1]};
  }

  /** An ascending list with the elements of one numbered from 1 is that list. */
  lemma {:induction false} AscendingIsUnique(a: seq<Record>, b: seq<Record>)
    requires Ascending(a) && multiset(a) == multiset(b) && NumberedFromOne(b)
    ensures a == b
    decreases |b|
  {
    SameElements(a, b);
    if b != [] {
      SameLast(a, b);
      SubtractLast(a, b);
      AscendingIsUnique(a[..|a| - 1], b[..|b| - 1]);
      assert a == a[..|a| - 1] + [a[|a| - 1]] && b == b[..|b| - 1] + [b[|b| - 1]];
    }
  }

  /** Main result: over any run of completed writes across any partitions, history is the
      application's writes in order, numbered exactly 1 to n, however the files are enumerated. */
  lemma {:induction false} HistoryIsTheWriteOrder(writes: seq<Write>, app: string, order: seq<Partition>)
    requires Enumerates(Run(writes).files, app, order)
    ensures SortByVersion(AllRecords(Run(writes).files, app, order)) == Versions(writes, app)
    ensures NumberedFromOne(Versions(writes, app))
  {
    FilesHoldVersions(writes, app, order);
    VersionsNumbered(writes, app);
    SortSpec(AllRecords(Run(writes).files, app, order), NotAfter);
    AscendingIsUnique(SortByVersion(AllRecords(Run(writes).files, app, order)), Versions(writes, app));
  }

  lemma {:induction false} FirstSpec(records: seq<Record>, version: nat)
    ensures var r := FirstWithVersion(records, version);
      if r.Some? then r.value in records && r.value.version == version
      else forall x :: x in records ==> x.version != version
  {
    if records != [] && records[0].version != version {
      FirstSpec(records[1..], version);
    }
  }

  lemma {:induction false} LatestSpec(records: seq<Record>)
    requires records != []
    ensures Latest(records) in records && forall x :: x in records ==> x.version <= Latest(records).version
  {
    if |records| > 1 {
      LatestSpec(records[..|records| - 1]);
      assert records == records[..|records| - 1] + [records[|records| - 1]];
    }
  }

  /** Main result: reading version v returns the v-th write, an unknown version nothing, and the
      default read the last write. */
  lemma {:induction false} ReadsRefineTheSequence(writes: seq<Write>, app: string, order: seq<Partition>, v: nat)
    requires Enumerates(Run(writes).files, app, order)
    ensures var records, versions := AllRecords(Run(writes).files, app, order), Versions(writes, app);
      && Read(records, Some(v)) == (if 1 <= v <= |versions| then Some(versions[v - 1]) else None)
      && Read(records, None) == if versions == [] then None else Some(versions[|versions| - 1])
  {
    var records, versions := AllRecords(Run(writes).files, app, order), Versions(writes, app);
    WalkedRecords(writes, app, order);
    ReadIs(records, versions, v);
  }

  lemma {:induction false} WalkedRecords(writes: seq<Write>, app: string, order: seq<Partition>)
    requires Enumerates(Run(writes).files, app, order)
    ensures NumberedFromOne(Versions(writes, app))
      && SameMembers(AllRecords(Run(writes).files, app, order), Versions(writes, app))
    ensures AllRecords(Run(writes).files, app, order) == [] <==> Versions(writes, app) == []
  {
    FilesHoldVersions(writes, app, order);
    VersionsNumbered(writes, app);
    SameElements(AllRecords(Run(writes).files, app, order), Versions(writes, app));
  }

  lemma {:induction false} ReadIs(records: seq<Record>, versions: seq<Record>, v: nat)
    requires NumberedFromOne(versions) && SameMembers(records, versions) && (records == [] <==> versions == [])
    ensures Read(records, Some(v)) == if 1 <= v <= |versions| then Some(versions[v - 1]) else None
    ensures Read(records, None) == if versions == [] then None else Some(versions[|versions| - 1])
  {
    FirstSpec(records, v);
    assert 1 <= v <= |versions| ==> versions[v - 1] in records;
    if records != [] {
      LatestSpec(records);
      assert versions[|versions| - 1] in records;
      assert Latest(records) in versions;
    }
  }

  lemma {:induction false} SameElements(a: seq<Record>, b: seq<Record>)
    requires multiset(a) == multiset(b)
    ensures SameMembers(a, b) && (a == [] <==> b == [])
  {
    assert forall x :: x in a <==> x in multiset(a);
    assert forall x :: x in b <==> x in multiset(b);
    assert |a| == |multiset(a)| == |multiset(b)| == |b|;
  }

  /** Time travel: a version, once written, reads the same after any further writes. */
  lemma {:induction false} VersionsNeverChange(writes: seq<Write>, more: seq<Write>, app: string)
    ensures Versions(writes, app) <= Versions(writes + more, app)
    decreases |more|
  {
    if more == [] {
      assert writes + more == writes;
    } else {
      VersionsNeverChange(writes, more[..|more| - 1], app);
      assert (writes + more)[..|writes + more| - 1] == writes + more[..|more| - 1];
    }
  }

  lemma {:induction false} ReadsArePermanent(writes: seq<Write>, more: seq<Write>, app: string, v: nat,
      order: seq<Partition>, order': seq<Partition>)
    requires Enumerates(Run(writes).files, app, order) && Enumerates(Run(writes + more).files, app, order')
    requires Read(AllRecords(Run(writes).files, app, order), Some(v)).Some?
    ensures Read(AllRecords(Run(writes + more).files, app, order'), Some(v))
      == Read(AllRecords(Run(writes).files, app, order), Some(v))
  {
    ReadsRefineTheSequence(writes, app, order, v);
    ReadsRefineTheSequence(writes + more, app, order', v);
    VersionsNeverChange(writes, more, app);
  }
}
