// Log clean-up at start: which files of the log directory survive it.
module LogRetention {
  import opened Wrappers

  const MAX_LOG_SIZE: nat := 10 * 1024 * 1024
  const MAX_LOG_FILES: nat := 5

  // What the two metadata calls give for an entry. Either may fail.
  datatype Meta = Meta(size: Option<nat>, modified: Option<int>)

  datatype Entry = Entry(name: string, meta: Meta)

  // ---------- which names are logs ----------

  function LastDot(name: string, end: nat): (at: Option<nat>)
    requires end <= |name|
    ensures at.Some? ==> at.value < end && name[at.value] == '.' && '.' !in name[at.value + 1..end]
    ensures at.None? ==> '.' !in name[..end]
  {
    if end == 0 then None
    else if name[end - 1] == '.' then Some(end - 1)
    else
      var at := LastDot(name, end - 1);
      assert at.Some? ==> name[at.value + 1..end] == name[at.value + 1..end - 1] + [name[end - 1]];
      assert name[..end] == name[..end - 1] + [name[end - 1]];
      at
  }

  lemma LastDotIsLast(name: string, end: nat, at: nat)
    requires at < end <= |name| && name[at] == '.'
    ensures LastDot(name, end).Some? && at <= LastDot(name, end).value
  {
  }

  // `Path::extension`: what follows the last dot, unless that dot is the first character.
  function Extension(name: string): (extension: Option<string>) {
    var dot := LastDot(name, |name|);
    if name == ".." || dot.None? || dot.value == 0 then None else Some(name[dot.value + 1..])
  }

  predicate IsLog(name: string) {
    Extension(name) == Some("log")
  }

  predicate EndsInLog(name: string) {
    |name| > 4 && name[|name| - 4..] == ".log"
  }

  lemma LogsEndInLog(name: string)
    ensures IsLog(name) <==> EndsInLog(name)
  {
    var dot := LastDot(name, |name|);
    if IsLog(name) {
      assert |name[dot.value + 1..]| == 3;
      assert name[|name| - 4..] == [name[dot.value]] + name[dot.value + 1..];
    }
    if EndsInLog(name) {
      var at := |name| - 4;
      var tail := name[at..];
      assert forall k | 0 <= k < 4 :: tail[k] == name[at + k];
      assert name[at] == '.' && name[at + 1] == 'l' && name[at + 2] == 'o' && name[at + 3] == 'g';
      LastDotIsLast(name, |name|, at);
      assert dot.value == at;
      assert name[at + 1..] == tail[1..];
    }
  }

  // The daily appender names a file by its prefix, a dot and the date. Of its names, only one whose "date" were `log` would count as a log.
  lemma RotatedNamesAreNotLogs(date: string)
    requires '.' !in date
    ensures IsLog("app.log." + date) <==> date == "log"
  {
    var name := "app.log." + date;
    var dot := LastDot(name, |name|);
    assert name[8..] == date && name[7] == '.';
    LastDotIsLast(name, |name|, 7);
    assert forall d | 8 <= d < |name| :: name[d] == date[d - 8];
    assert dot.value == 7;
  }

  // ---------- the order ----------

  predicate Oversized(meta: Meta) {
    meta.size.Some? && meta.size.value > MAX_LOG_SIZE
  }

  // The sort key `Option<Reverse<SystemTime>>`: an entry without a time comes first, then newest first.
  predicate Before(a: Meta, b: Meta) {
    b.modified.Some? && (a.modified.None? || a.modified.value > b.modified.value)
  }

  // A stable sort: an entry goes behind those of its own key that came earlier.
  function Insert(e: Entry, sorted: seq<Entry>): (r: seq<Entry>)
    ensures |r| == |sorted| + 1
  {
    if sorted == [] || !Before(sorted[0].meta, e.meta) then [e] + sorted
    else [sorted[0]] + Insert(e, sorted[1..])
  }

  function Sort(entries: seq<Entry>): (r: seq<Entry>)
    ensures |r| == |entries|
  {
    if entries == [] then [] else Insert(entries[0], Sort(entries[1..]))
  }

  ghost predicate InOrder(entries: seq<Entry>) {
    forall i, j | 0 <= i < j < |entries| :: !Before(entries[j].meta, entries[i].meta)
  }

  // The entries of one key, in the order they stand.
  function WithTime(entries: seq<Entry>, modified: Option<int>): (r: seq<Entry>) {
    if entries == [] then []
    else (if entries[0].meta.modified == modified then [entries[0]] else []) + WithTime(entries[1..], modified)
  }

  lemma {:induction false} InsertKeepsOrder(e: Entry, sorted: seq<Entry>)
    requires InOrder(sorted)
    ensures InOrder(Insert(e, sorted))
    ensures multiset(Insert(e, sorted)) == multiset(sorted) + multiset{e}
  {
    if sorted == [] || !Before(sorted[0].meta, e.meta) {
    } else {
      InsertKeepsOrder(e, sorted[1..]);
      var rest := Insert(e, sorted[1..]);
      assert sorted == [sorted[0]] + sorted[1..];
      forall j | 0 <= j < |rest|
        ensures !Before(rest[j].meta, sorted[0].meta)
      {
        assert rest[j] in multiset(rest);
        if rest[j] != e {
          assert rest[j] in sorted[1..];
        }
      }
    }
  }

  lemma {:induction false} InsertIsStable(e: Entry, sorted: seq<Entry>, modified: Option<int>)
    ensures WithTime(Insert(e, sorted), modified) == WithTime([e] + sorted, modified)
  {
    assert ([e] + sorted)[1..] == sorted;
    if sorted == [] || !Before(sorted[0].meta, e.meta) {
    } else {
      var rest := Insert(e, sorted[1..]);
      InsertIsStable(e, sorted[1..], modified);
      assert ([e] + sorted[1..])[1..] == sorted[1..];
      assert ([sorted[0]] + rest)[1..] == rest;
    }
  }

  // The sort puts the entries in order, loses and adds none, and keeps entries of one key in the order
  // the directory listed them.
  lemma {:induction false} SortIsAStableSort(entries: seq<Entry>, modified: Option<int>)
    ensures InOrder(Sort(entries))
    ensures multiset(Sort(entries)) == multiset(entries)
    ensures WithTime(Sort(entries), modified) == WithTime(entries, modified)
  {
    if entries == [] {
    } else {
      SortIsAStableSort(entries[1..], modified);
      InsertKeepsOrder(entries[0], Sort(entries[1..]));
      InsertIsStable(entries[0], Sort(entries[1..]), modified);
      assert entries == [entries[0]] + entries[1..];
      assert ([entries[0]] + Sort(entries[1..]))[1..] == Sort(entries[1..]);
    }
  }

  lemma SortKeepsMembers(entries: seq<Entry>, e: Entry)
    ensures e in Sort(entries) <==> e in entries
  {
    SortIsAStableSort(entries, None);
    assert e in multiset(Sort(entries)) <==> e in multiset(entries);
  }

  // ---------- the survivors ----------

  function NotOversized(entries: seq<Entry>): (r: seq<Entry>) {
    if entries == [] then []
    else (if Oversized(entries[0].meta) then [] else [entries[0]]) + NotOversized(entries[1..])
  }

  lemma {:induction false} NotOversizedMembers(entries: seq<Entry>, e: Entry)
    ensures e in NotOversized(entries) <==> e in entries && !Oversized(e.meta)
  {
    if entries == [] {
    } else {
      NotOversizedMembers(entries[1..], e);
      assert entries == [entries[0]] + entries[1..];
    }
  }

  function First(n: nat, entries: seq<Entry>): (r: seq<Entry>)
    ensures |r| <= n && r <= entries
  {
    if |entries| <= n then entries else entries[..n]
  }

  // The first five non-oversized entries of the newest-first order.
  function Survivors(logs: seq<Entry>): (r: seq<Entry>) {
    First(MAX_LOG_FILES, NotOversized(Sort(logs)))
  }

  lemma {:induction false} NotOversizedAppend(a: seq<Entry>, e: Entry)
    ensures NotOversized(a + [e]) == NotOversized(a) + if Oversized(e.meta) then [] else [e]
  {
    if a == [] {
      assert [e][1..] == [] && [] + [e] == [e];
    } else {
      NotOversizedAppend(a[1..], e);
      var head := if Oversized(a[0].meta) then [] else [a[0]];
      assert NotOversized(a) == head + NotOversized(a[1..]);
      assert (a + [e])[0] == a[0] && (a + [e])[1..] == a[1..] + [e];
    }
  }

  lemma {:induction false} NotOversizedKeepsOrder(entries: seq<Entry>)
    requires InOrder(entries)
    ensures InOrder(NotOversized(entries))
  {
    if entries == [] {
    } else {
      NotOversizedKeepsOrder(entries[1..]);
      var rest := NotOversized(entries[1..]);
      forall j | 0 <= j < |rest|
        ensures !Before(rest[j].meta, entries[0].meta)
      {
        NotOversizedMembers(entries[1..], rest[j]);
        assert rest[j] in entries[1..];
      }
    }
  }

  // What surviving means: at most five, never oversized, all of them if there are no more than five, and
  // none that goes is newer than one that stays.
  lemma SurvivorsAreTheNewest(logs: seq<Entry>)
    ensures |Survivors(logs)| == if |NotOversized(logs)| < MAX_LOG_FILES then |NotOversized(logs)| else MAX_LOG_FILES
    ensures forall e | e in Survivors(logs) :: e in logs && !Oversized(e.meta)
    ensures forall kept, gone | kept in Survivors(logs) && gone in logs && gone !in Survivors(logs) && !Oversized(gone.meta) ::
              !Before(gone.meta, kept.meta)
  {
    SortIsAStableSort(logs, None);
    FitCount(logs, Sort(logs));
    forall e | e in Survivors(logs) ensures e in logs && !Oversized(e.meta) {
      NotOversizedMembers(Sort(logs), e);
      assert e in multiset(Sort(logs));
    }
    forall kept, gone | kept in Survivors(logs) && gone in logs && gone !in Survivors(logs) && !Oversized(gone.meta)
      ensures !Before(gone.meta, kept.meta)
    {
      NoneGoneIsNewer(logs, kept, gone);
    }
  }

  // The same in numbers: five logs, ten megabytes, and a later time is newer. A log of unknown size counts
  // as fitting, and one of unknown time as newest of all.
  lemma KeepsTheNewestFive(logs: seq<Entry>)
    ensures |Survivors(logs)| <= 5
    ensures forall e | e in Survivors(logs) :: e in logs && (e.meta.size.Some? ==> e.meta.size.value <= 10_485_760)
    ensures forall e | e in logs && e !in Survivors(logs) && (e.meta.size.Some? ==> e.meta.size.value <= 10_485_760) ::
              && |Survivors(logs)| == 5
              && forall kept | kept in Survivors(logs) && kept.meta.modified.Some? ::
                   e.meta.modified.Some? && e.meta.modified.value <= kept.meta.modified.value
  {
    SurvivorsAreTheNewest(logs);
    forall e | e in logs && e !in Survivors(logs) && !Oversized(e.meta)
      ensures |Survivors(logs)| == 5
    {
      SortKeepsMembers(logs, e);
      NotOversizedMembers(Sort(logs), e);
    }
  }

  lemma NoneGoneIsNewer(logs: seq<Entry>, kept: Entry, gone: Entry)
    requires kept in Survivors(logs) && gone in logs && gone !in Survivors(logs) && !Oversized(gone.meta)
    ensures !Before(gone.meta, kept.meta)
  {
    SortIsAStableSort(logs, None);
    NotOversizedKeepsOrder(Sort(logs));
    assert gone in multiset(logs);
    NotOversizedMembers(Sort(logs), gone);
    var fit := NotOversized(Sort(logs));
    var i :| 0 <= i < |Survivors(logs)| && Survivors(logs)[i] == kept;
    var j :| 0 <= j < |fit| && fit[j] == gone;
    assert fit[i] == kept;
    assert forall m | 0 <= m < |Survivors(logs)| :: Survivors(logs)[m] == fit[m];
  }

  lemma FitCount(a: seq<Entry>, b: seq<Entry>)
    requires multiset(a) == multiset(b)
    ensures |NotOversized(a)| == |NotOversized(b)|
  {
    FitBag(a);
    FitBag(b);
    assert multiset(NotOversized(a)) == multiset(NotOversized(b));
    assert |multiset(NotOversized(a))| == |multiset(NotOversized(b))|;
  }

  lemma {:induction false} FitBag(a: seq<Entry>)
    ensures forall e :: multiset(NotOversized(a))[e] == if Oversized(e.meta) then 0 else multiset(a)[e]
  {
    if a == [] {
    } else {
      FitBag(a[1..]);
      assert a == [a[0]] + a[1..];
    }
  }

  // ---------- the clean-up ----------

  function Logs(listing: seq<string>, files: map<string, Meta>): (r: seq<Entry>)
    requires forall name | name in listing :: name in files
    ensures forall e :: e in r <==> e.name in listing && IsLog(e.name) && e.meta == files[e.name]
  {
    if listing == [] then []
    else
      assert listing == [listing[0]] + listing[1..];
      (if IsLog(listing[0]) then [Entry(listing[0], files[listing[0]])] else []) + Logs(listing[1..], files)
  }

  // The logs come in the order in which they are listed.
  lemma LogsInListingOrder(name: string, rest: seq<string>, files: map<string, Meta>)
    requires name in files && forall other | other in rest :: other in files
    ensures Logs([], files) == []
    ensures Logs([name] + rest, files) == if IsLog(name) then [Entry(name, files[name])] + Logs(rest, files) else Logs(rest, files)
  {
    var all := [name] + rest;
    assert all[0] == name && all[1..] == rest;
    assert [] + Logs(rest, files) == Logs(rest, files);
  }

  function Names(entries: seq<Entry>): (r: set<string>) {
    set e | e in entries :: e.name
  }

  // The names that go, when the entries come in this order.
  function Dropped(sorted: seq<Entry>): (r: set<string>) {
    Names(sorted) - Names(First(MAX_LOG_FILES, NotOversized(sorted)))
  }

  // What the directory holds afterwards. `listing` is what reading the directory yields, in whatever order;
  // `stuck` are the names that cannot be removed, whose failures are ignored.
  function AfterCleanup(listing: seq<string>, stuck: set<string>, files: map<string, Meta>): (r: map<string, Meta>)
    requires forall name | name in listing :: name in files
  {
    files - (Dropped(Sort(Logs(listing, files))) - stuck)
  }

  // Each name once.
  ghost predicate IsListing(listing: seq<string>, files: map<string, Meta>) {
    && (forall name | name in listing :: name in files)
    && (forall i, j | 0 <= i < j < |listing| :: listing[i] != listing[j])
  }

  ghost predicate Distinct(entries: seq<Entry>) {
    forall i, j | 0 <= i < j < |entries| :: entries[i].name != entries[j].name
  }

  class LogDir {
    var files: map<string, Meta>

    constructor (initial: map<string, Meta>)
      ensures files == initial
    {
      files := initial;
    }

    // `fs::remove_file`, its result thrown away.
    method Remove(name: string, stuck: set<string>)
      modifies this
      ensures files == if name in stuck then old(files) else old(files) - {name}
    {
      if name !in stuck {
        files := files - {name};
      }
    }

    // `None` is a directory that cannot be read.
    method Cleanup(listing: Option<seq<string>>, stuck: set<string>)
      requires listing.Some? ==> IsListing(listing.value, files)
      modifies this
      ensures listing.None? ==> files == old(files)
      ensures listing.Some? ==> files == AfterCleanup(listing.value, stuck, old(files))
    {
      if listing.None? {
        return;
      }
      ghost var before := files;
      var logs := Sort(Logs(listing.value, files));
      SortedLogsAreDistinct(listing.value, files);
      var keptFiles := 0;
      for i := 0 to |logs|
        invariant keptFiles == |First(MAX_LOG_FILES, NotOversized(logs[..i]))|
        invariant files == before - (Dropped(logs[..i]) - stuck)
      {
        var entry := logs[i];
        NextDecision(logs, i);
        RemoveOneMore(before, Dropped(logs[..i]), stuck, entry.name);
        if Oversized(entry.meta) {
          Remove(entry.name, stuck);
          continue;
        }
        if keptFiles >= MAX_LOG_FILES {
          Remove(entry.name, stuck);
        } else {
          keptFiles := keptFiles + 1;
        }
      }
      assert logs[..|logs|] == logs;
    }
  }

  lemma RemoveOneMore(files: map<string, Meta>, dropped: set<string>, stuck: set<string>, name: string)
    ensures (if name in stuck then files - (dropped - stuck) else files - (dropped - stuck) - {name})
         == files - (dropped + {name} - stuck)
  {
    assert dropped + {name} - stuck == dropped - stuck + if name in stuck then {} else {name};
  }

  lemma {:induction false} LogsAreDistinct(listing: seq<string>, files: map<string, Meta>)
    requires IsListing(listing, files)
    ensures Distinct(Logs(listing, files))
  {
    if listing == [] {
    } else {
      LogsAreDistinct(listing[1..], files);
      var rest := Logs(listing[1..], files);
      forall j | 0 <= j < |rest| ensures rest[j].name != listing[0] {
        assert rest[j] in rest;
      }
    }
  }

  lemma {:induction false} SortKeepsDistinct(entries: seq<Entry>)
    requires Distinct(entries)
    ensures Distinct(Sort(entries))
  {
    if entries == [] {
    } else {
      SortKeepsDistinct(entries[1..]);
      var rest := Sort(entries[1..]);
      SortIsAStableSort(entries[1..], None);
      forall j | 0 <= j < |rest| ensures rest[j].name != entries[0].name {
        assert rest[j] in multiset(entries[1..]);
      }
      InsertKeepsDistinct(entries[0], rest);
    }
  }

  lemma {:induction false} InsertKeepsDistinct(e: Entry, sorted: seq<Entry>)
    requires Distinct(sorted) && forall j | 0 <= j < |sorted| :: sorted[j].name != e.name
    ensures Distinct(Insert(e, sorted))
    ensures forall x :: x in Insert(e, sorted) <==> x == e || x in sorted
  {
    if sorted == [] || !Before(sorted[0].meta, e.meta) {
    } else {
      InsertKeepsDistinct(e, sorted[1..]);
      var rest := Insert(e, sorted[1..]);
      assert sorted == [sorted[0]] + sorted[1..];
      forall j | 0 <= j < |rest| ensures rest[j].name != sorted[0].name {
        assert rest[j] in rest;
      }
    }
  }

  lemma SortedLogsAreDistinct(listing: seq<string>, files: map<string, Meta>)
    requires IsListing(listing, files)
    ensures Distinct(Sort(Logs(listing, files)))
  {
    LogsAreDistinct(listing, files);
    SortKeepsDistinct(Logs(listing, files));
  }

  // Deciding about the entry at `i` leaves what was decided about the earlier ones alone.
  lemma NextDecision(logs: seq<Entry>, i: nat)
    requires Distinct(logs) && i < |logs|
    ensures
      var before := First(MAX_LOG_FILES, NotOversized(logs[..i]));
      var after := First(MAX_LOG_FILES, NotOversized(logs[..i + 1]));
      if Oversized(logs[i].meta) || |before| >= MAX_LOG_FILES
      then |after| == |before| && Dropped(logs[..i + 1]) == Dropped(logs[..i]) + {logs[i].name}
      else |after| == |before| + 1 && Dropped(logs[..i + 1]) == Dropped(logs[..i])
  {
    var entry := logs[i];
    var before := First(MAX_LOG_FILES, NotOversized(logs[..i]));
    assert logs[..i + 1] == logs[..i] + [entry];
    NotOversizedAppend(logs[..i], entry);
    NamesAppend(logs[..i], entry);
    NamesAppend(before, entry);
    forall e | e in before ensures e.name != entry.name {
      NotOversizedMembers(logs[..i], e);
      assert e in logs[..i];
    }
    assert entry.name !in Names(before);
    if Oversized(entry.meta) || |before| >= MAX_LOG_FILES {
      assert First(MAX_LOG_FILES, NotOversized(logs[..i + 1])) == before;
    } else {
      assert entry.name !in Names(logs[..i]);
      assert First(MAX_LOG_FILES, NotOversized(logs[..i + 1])) == before + [entry];
    }
  }

  lemma NamesAppend(a: seq<Entry>, e: Entry)
    ensures Names(a + [e]) == Names(a) + {e.name}
  {
  }

  // ---------- what a clean-up does to a directory ----------

  lemma SurvivesExactlyWhen(listing: seq<string>, stuck: set<string>, files: map<string, Meta>, name: string)
    requires IsListing(listing, files)
    ensures AfterCleanup(listing, stuck, files).Keys <= files.Keys
    ensures name in AfterCleanup(listing, stuck, files) ==> AfterCleanup(listing, stuck, files)[name] == files[name]
    ensures name in AfterCleanup(listing, stuck, files) <==>
      && name in files
      && (name !in listing || !IsLog(name) || name in stuck || Entry(name, files[name]) in Survivors(Logs(listing, files)))
  {
    if name in files {
      var logs := Logs(listing, files);
      var entry := Entry(name, files[name]);
      forall e ensures e in Sort(logs) <==> e in logs {
        SortKeepsMembers(logs, e);
      }
      NamesOfPart(logs, Sort(logs), entry);
      SurvivorsAreTheNewest(logs);
      NamesOfPart(logs, Survivors(logs), entry);
    }
  }

  // Among the entries of one directory, a name stands for its entry.
  lemma NamesOfPart(logs: seq<Entry>, part: seq<Entry>, entry: Entry)
    requires forall e | e in part :: e in logs
    requires forall e | e in logs :: e.name == entry.name ==> e == entry
    ensures entry.name in Names(part) <==> entry in part
  {
  }

  // A complete listing of a directory.
  ghost predicate Lists(listing: seq<string>, files: map<string, Meta>) {
    IsListing(listing, files) && forall name | name in files :: name in listing
  }

  // There is nothing to do exactly when there are at most five logs and none is oversized.
  lemma NothingToDoExactlyWhen(listing: seq<string>, files: map<string, Meta>)
    requires Lists(listing, files)
    ensures AfterCleanup(listing, {}, files) == files <==>
      |Logs(listing, files)| <= MAX_LOG_FILES && forall name | name in files && IsLog(name) :: !Oversized(files[name])
  {
    var logs := Logs(listing, files);
    SurvivorsAreTheNewest(logs);
    if AfterCleanup(listing, {}, files) == files {
      forall e | e in logs ensures e in Survivors(logs) {
        SurvivesExactlyWhen(listing, {}, files, e.name);
      }
      LogsAreDistinct(listing, files);
      FewerThan(logs, Survivors(logs));
      forall name | name in files && IsLog(name) ensures !Oversized(files[name]) {
        assert Entry(name, files[name]) in logs;
      }
    }
    if |logs| <= MAX_LOG_FILES && forall name | name in files && IsLog(name) :: !Oversized(files[name]) {
      forall name | name in files
        ensures name in AfterCleanup(listing, {}, files) && AfterCleanup(listing, {}, files)[name] == files[name]
      {
        SurvivesExactlyWhen(listing, {}, files, name);
        if IsLog(name) {
          AllSurvive(logs, Entry(name, files[name]));
        }
      }
    }
  }

  lemma AllSurvive(logs: seq<Entry>, e: Entry)
    requires e in logs && |logs| <= MAX_LOG_FILES && !Oversized(e.meta)
    ensures e in Survivors(logs)
  {
    SortIsAStableSort(logs, None);
    assert e in multiset(logs);
    NotOversizedMembers(Sort(logs), e);
    FitIsNoLonger(Sort(logs));
  }

  lemma {:induction false} FitIsNoLonger(entries: seq<Entry>)
    ensures |NotOversized(entries)| <= |entries|
  {
    if entries == [] {
    } else {
      FitIsNoLonger(entries[1..]);
    }
  }

  // Distinct entries, all of them among `all`, are no more than `all`.
  lemma {:induction false} FewerThan(some: seq<Entry>, all: seq<Entry>)
    requires Distinct(some) && forall e | e in some :: e in all
    ensures |some| <= |all|
  {
    if some == [] {
    } else {
      assert some[0] in some && some == [some[0]] + some[1..];
      var k :| 0 <= k < |all| && all[k] == some[0];
      var fewer := all[..k] + all[k + 1..];
      forall e | e in some[1..] ensures e in fewer {
        assert e in some;
        var j :| 0 <= j < |all| && all[j] == e;
        var i :| 0 <= i < |some[1..]| && some[1..][i] == e;
        assert some[i + 1] == e && e != some[0];
        assert if j < k then fewer[j] == e else fewer[j - 1] == e;
      }
      FewerThan(some[1..], fewer);
    }
  }

  lemma OnlySurvivorsAreLeft(listing: seq<string>, again: seq<string>, files: map<string, Meta>)
    requires Lists(listing, files)
    requires Lists(again, AfterCleanup(listing, {}, files))
    ensures forall e | e in Logs(again, AfterCleanup(listing, {}, files)) :: e in Survivors(Logs(listing, files))
  {
    forall e | e in Logs(again, AfterCleanup(listing, {}, files)) ensures e in Survivors(Logs(listing, files)) {
      SurvivesExactlyWhen(listing, {}, files, e.name);
    }
  }

  // A second clean-up finds nothing to do, in whatever order the directory is listed.
  lemma CleanupIsIdempotent(listing: seq<string>, again: seq<string>, files: map<string, Meta>)
    requires Lists(listing, files)
    requires Lists(again, AfterCleanup(listing, {}, files))
    ensures AfterCleanup(again, {}, AfterCleanup(listing, {}, files)) == AfterCleanup(listing, {}, files)
  {
    var after := AfterCleanup(listing, {}, files);
    var logs := Logs(listing, files);
    var left := Logs(again, after);
    SurvivorsAreTheNewest(logs);
    OnlySurvivorsAreLeft(listing, again, files);
    LogsAreDistinct(again, after);
    FewerThan(left, Survivors(logs));
    forall name | name in after && IsLog(name) ensures !Oversized(after[name]) {
      assert Entry(name, after[name]) in left;
    }
    NothingToDoExactlyWhen(again, after);
  }

  // With files that cannot be removed a second run, in any listing order, changes nothing exactly when every
  // log it could remove is among its survivors.
  lemma SecondRunChangesNothingExactlyWhen(again: seq<string>, stuck: set<string>, after: map<string, Meta>)
    requires Lists(again, after)
    ensures AfterCleanup(again, stuck, after) == after <==>
      forall name | name in after && IsLog(name) && name !in stuck :: Entry(name, after[name]) in Survivors(Logs(again, after))
  {
    forall name | name in after
      ensures name in AfterCleanup(again, stuck, after) <==>
        !IsLog(name) || name in stuck || Entry(name, after[name]) in Survivors(Logs(again, after))
      ensures name in AfterCleanup(again, stuck, after) ==> AfterCleanup(again, stuck, after)[name] == after[name]
    {
      SurvivesExactlyWhen(again, stuck, after, name);
    }
    SurvivesExactlyWhen(again, stuck, after, "");
  }

  // The fitting logs that come before `e`.
  ghost function Ahead(logs: seq<Entry>, e: Entry): (r: set<Entry>) {
    set x | x in logs && !Oversized(x.meta) && Before(x.meta, e.meta)
  }

  lemma {:induction false} FirstOnes(entries: seq<Entry>, i: nat)
    requires Distinct(entries) && i <= |entries|
    ensures |set k | 0 <= k < i :: entries[k]| == i
  {
    if i > 0 {
      FirstOnes(entries, i - 1);
      assert (set k | 0 <= k < i :: entries[k]) == (set k | 0 <= k < i - 1 :: entries[k]) + {entries[i - 1]};
    }
  }

  lemma {:induction false} NotOversizedKeepsDistinct(entries: seq<Entry>)
    requires Distinct(entries)
    ensures Distinct(NotOversized(entries))
  {
    if entries != [] {
      NotOversizedKeepsDistinct(entries[1..]);
      var rest := NotOversized(entries[1..]);
      forall j | 0 <= j < |rest| ensures rest[j].name != entries[0].name {
        NotOversizedMembers(entries[1..], rest[j]);
        var i :| 0 <= i < |entries[1..]| && entries[1..][i] == rest[j];
        assert entries[i + 1] == rest[j];
      }
    }
  }

  // When no two logs have the same time, a fitting log survives exactly when fewer than five are ahead of it.
  lemma SurvivesByRank(logs: seq<Entry>, e: Entry)
    requires Distinct(logs) && TimesDiffer(logs) && e in logs && !Oversized(e.meta)
    ensures e in Survivors(logs) <==> |Ahead(logs, e)| < MAX_LOG_FILES
  {
    var fit := NotOversized(Sort(logs));
    SortIsAStableSort(logs, None);
    SortKeepsDistinct(logs);
    NotOversizedKeepsOrder(Sort(logs));
    NotOversizedKeepsDistinct(Sort(logs));
    SortKeepsMembers(logs, e);
    NotOversizedMembers(Sort(logs), e);
    var i :| 0 <= i < |fit| && fit[i] == e;
    AheadAreTheFirst(logs, fit, i);
    FirstOnes(fit, i);
    if e in Survivors(logs) {
      var j :| 0 <= j < |Survivors(logs)| && Survivors(logs)[j] == e;
      assert fit[j] == fit[i];
    }
    if i < MAX_LOG_FILES {
      assert Survivors(logs)[i] == e;
    }
  }

  lemma AheadAreTheFirst(logs: seq<Entry>, fit: seq<Entry>, i: nat)
    requires fit == NotOversized(Sort(logs)) && InOrder(fit) && Distinct(fit) && TimesDiffer(logs) && i < |fit|
    ensures Ahead(logs, fit[i]) == set k | 0 <= k < i :: fit[k]
  {
    forall x ensures x in fit <==> x in logs && !Oversized(x.meta) {
      SortKeepsMembers(logs, x);
      NotOversizedMembers(Sort(logs), x);
    }
    forall k | 0 <= k < |fit| ensures Before(fit[k].meta, fit[i].meta) <==> k < i {
      assert fit[k] in fit && fit[i] in fit;
      assert k < i ==> !Before(fit[i].meta, fit[k].meta) && fit[k].name != fit[i].name;
      assert i < k ==> !Before(fit[k].meta, fit[i].meta);
    }
    forall x | x in Ahead(logs, fit[i]) ensures x in set k | 0 <= k < i :: fit[k] {
      var k :| 0 <= k < |fit| && fit[k] == x;
    }
  }

  // So it changes nothing when no two logs have the same time, whatever could not be removed.
  lemma CleanupIsIdempotentWhenTimesDiffer(
      listing: seq<string>, again: seq<string>, stuck: set<string>, files: map<string, Meta>)
    requires Lists(listing, files) && TimesDiffer(Logs(listing, files))
    requires Lists(again, AfterCleanup(listing, stuck, files))
    ensures AfterCleanup(again, stuck, AfterCleanup(listing, stuck, files)) == AfterCleanup(listing, stuck, files)
  {
    var after := AfterCleanup(listing, stuck, files);
    forall name | name in after && IsLog(name) && name !in stuck
      ensures Entry(name, after[name]) in Survivors(Logs(again, after))
    {
      StillSurvives(listing, again, stuck, files, name);
    }
    SecondRunChangesNothingExactlyWhen(again, stuck, after);
  }

  lemma StillSurvives(listing: seq<string>, again: seq<string>, stuck: set<string>, files: map<string, Meta>, name: string)
    requires Lists(listing, files) && TimesDiffer(Logs(listing, files))
    requires Lists(again, AfterCleanup(listing, stuck, files))
    requires name in AfterCleanup(listing, stuck, files) && IsLog(name) && name !in stuck
    ensures
      var after := AfterCleanup(listing, stuck, files);
      Entry(name, after[name]) in Survivors(Logs(again, after))
  {
    var after := AfterCleanup(listing, stuck, files);
    var logs, left := Logs(listing, files), Logs(again, after);
    SurvivesExactlyWhen(listing, stuck, files, name);
    var e := Entry(name, files[name]);
    SurvivorsAreTheNewest(logs);
    LogsAreDistinct(listing, files);
    LogsAreDistinct(again, after);
    LeftAreLogs(listing, again, stuck, files);
    SurvivesByRank(logs, e);
    SurvivesByRank(left, e);
    assert Ahead(left, e) <= Ahead(logs, e);
    FewerAhead(Ahead(left, e), Ahead(logs, e));
  }

  lemma LeftAreLogs(listing: seq<string>, again: seq<string>, stuck: set<string>, files: map<string, Meta>)
    requires Lists(listing, files) && Lists(again, AfterCleanup(listing, stuck, files))
    ensures forall x | x in Logs(again, AfterCleanup(listing, stuck, files)) :: x in Logs(listing, files)
  {
    forall x | x in Logs(again, AfterCleanup(listing, stuck, files)) ensures x in Logs(listing, files) {
      SurvivesExactlyWhen(listing, stuck, files, x.name);
    }
  }

  lemma {:induction false} FewerAhead(few: set<Entry>, many: set<Entry>)
    requires few <= many
    ensures |few| <= |many|
    decreases few
  {
    if few != {} {
      var x :| x in few;
      FewerAhead(few - {x}, many - {x});
    }
  }

  // No two logs of one time.
  ghost predicate TimesDiffer(entries: seq<Entry>) {
    forall a, b | a in entries && b in entries && a.meta.modified == b.meta.modified :: a == b
  }

  lemma SameBagSameFirst(a: seq<Entry>, b: seq<Entry>)
    requires InOrder(a) && InOrder(b) && multiset(a) == multiset(b) && TimesDiffer(a) && a != [] && b != []
    ensures a[0] == b[0]
  {
    assert a[0] in multiset(b) && b[0] in multiset(a);
    var k :| 0 <= k < |b| && b[k] == a[0];
    var j :| 0 <= j < |a| && a[j] == b[0];
    assert !Before(a[j].meta, a[0].meta) && !Before(b[k].meta, b[0].meta);
    assert a[0] in a && a[j] in a;
  }

  lemma WithoutFirst(a: seq<Entry>)
    requires InOrder(a) && TimesDiffer(a) && a != []
    ensures multiset(a[1..]) == multiset(a) - multiset{a[0]}
    ensures InOrder(a[1..]) && TimesDiffer(a[1..])
  {
    assert a == [a[0]] + a[1..];
  }

  lemma SameBagTimesDiffer(a: seq<Entry>, b: seq<Entry>)
    requires multiset(a) == multiset(b) && TimesDiffer(a)
    ensures TimesDiffer(b) && |a| == |b|
  {
    assert |multiset(a)| == |multiset(b)|;
    forall e | e in b ensures e in a {
      assert e in multiset(a);
    }
  }

  lemma {:induction false} OneOrderOnly(a: seq<Entry>, b: seq<Entry>)
    requires InOrder(a) && InOrder(b) && multiset(a) == multiset(b) && TimesDiffer(a)
    ensures a == b
  {
    SameBagTimesDiffer(a, b);
    if a != [] {
      SameBagSameFirst(a, b);
      WithoutFirst(a);
      WithoutFirst(b);
      OneOrderOnly(a[1..], b[1..]);
      assert a == [a[0]] + a[1..] && b == [b[0]] + b[1..];
    }
  }

  lemma {:induction false} DistinctCounts(entries: seq<Entry>, e: Entry)
    requires Distinct(entries)
    ensures multiset(entries)[e] == if e in entries then 1 else 0
  {
    if entries == [] {
    } else {
      DistinctCounts(entries[1..], e);
      assert entries == [entries[0]] + entries[1..];
      assert forall i | 0 <= i < |entries[1..]| :: entries[1..][i] == entries[i + 1];
    }
  }

  lemma SameLogsInBothListings(one: seq<string>, other: seq<string>, files: map<string, Meta>)
    requires Lists(one, files) && Lists(other, files)
    ensures multiset(Logs(one, files)) == multiset(Logs(other, files))
  {
    LogsAreDistinct(one, files);
    LogsAreDistinct(other, files);
    forall e: Entry ensures multiset(Logs(one, files))[e] == multiset(Logs(other, files))[e] {
      DistinctCounts(Logs(one, files), e);
      DistinctCounts(Logs(other, files), e);
    }
  }

  // When no two logs have the same time, the order in which the directory lists them does not matter.
  lemma ListingOrderDoesNotMatter(one: seq<string>, other: seq<string>, stuck: set<string>, files: map<string, Meta>)
    requires Lists(one, files) && Lists(other, files)
    requires TimesDiffer(Logs(one, files))
    ensures AfterCleanup(one, stuck, files) == AfterCleanup(other, stuck, files)
  {
    var a := Logs(one, files);
    var b := Logs(other, files);
    SameLogsInBothListings(one, other, files);
    SortIsAStableSort(a, None);
    SortIsAStableSort(b, None);
    forall e | e in Sort(a) ensures e in a {
      SortKeepsMembers(a, e);
    }
    OneOrderOnly(Sort(a), Sort(b));
  }

  lemma {:induction false} NoLogs(listing: seq<string>, files: map<string, Meta>)
    requires forall name | name in listing :: name in files && !IsLog(name)
    ensures Logs(listing, files) == []
  {
    if listing == [] {
    } else {
      assert listing[0] in listing;
      NoLogs(listing[1..], files);
    }
  }

  // The files the daily appender writes are never logs in this sense, so a directory of them is left as
  // it is, however many and however large they are.
  lemma RotatedFilesAreNeverRemoved(listing: seq<string>, stuck: set<string>, files: map<string, Meta>)
    requires IsListing(listing, files)
    requires forall name | name in files :: exists date :: name == "app.log." + date && '.' !in date && date != "log"
    ensures AfterCleanup(listing, stuck, files) == files
  {
    forall name | name in files ensures !IsLog(name) {
      var date :| name == "app.log." + date && '.' !in date && date != "log";
      RotatedNamesAreNotLogs(date);
    }
    NoLogs(listing, files);
  }
}
