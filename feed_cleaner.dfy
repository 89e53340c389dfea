/**
 The feed cleaner's retention logic: the date a feed file was recorded is read
 from its name (falling back to the current time), its age is the elapsed time
 truncated to whole days, and a listing is walked in order deciding, for every
 entry that is not a directory, whether it is ignored, deleted or kept.

 The clock and `Calendar`'s conversion of wall-clock fields to epoch
 milliseconds are parameters: `now` and `toMillis`.
 */
module FeedCleaner {
  import opened Wrappers
  import opened Decimal
  import opened NameConvention
  import opened Sequences

  /** `TimeUnit.DAYS` in milliseconds. */
  const MILLIS_PER_DAY: int := 86_400_000

  /** The name the ignore list always holds. */
  const HTACCESS: string := ".htaccess"

  const DEFAULT_IGNORE_LIST: seq<string> := [HTACCESS]

  const TWO_TO_64: int := 0x1_0000_0000_0000_0000

  predicate IsLong(x: int) {
    LONG_MIN <= x <= LONG_MAX
  }

  /** Two's-complement wrap-around of a `long` result. */
  function WrapLong(x: int): (r: int)
    ensures IsLong(r)
    ensures IsLong(x) ==> r == x
    ensures (x - r) % TWO_TO_64 == 0
  {
    (x - LONG_MIN) % TWO_TO_64 + LONG_MIN
  }

  /** `TimeUnit.DAYS.convert(d, TimeUnit.MILLISECONDS)`: Java's long division, which truncates toward zero. */
  function DaysFromMillis(d: int): (days: int)
    ensures d >= 0 ==> days >= 0 && days * MILLIS_PER_DAY <= d < (days + 1) * MILLIS_PER_DAY
    ensures d < 0 ==> days <= 0 && (days - 1) * MILLIS_PER_DAY < d <= days * MILLIS_PER_DAY
  {
    if d >= 0 then d / MILLIS_PER_DAY else -((-d) / MILLIS_PER_DAY)
  }

  /** Age in whole days of a file recorded at `fileMillis`, at `nowMillis`. */
  function AgeInDays(fileMillis: int, nowMillis: int): int {
    DaysFromMillis(WrapLong(nowMillis - fileMillis))
  }

  /** The staleness test: strictly older than `daysOld` whole days. */
  predicate IsStale(fileMillis: int, nowMillis: int, daysOld: int) {
    AgeInDays(fileMillis, nowMillis) > daysOld
  }

  /**
   getDateFromFileName: the instant spelled by the first `.YYYYMMDD_hhmmss.mp4`
   in the name, or the current time when the name holds none.
   */
  function DateFromFileName(name: string, nowMillis: int, toMillis: DateFields -> int): (r: int)
    ensures (forall q :: 0 <= q < |name| ==> !StampAt(name, q)) ==> r == nowMillis
    ensures forall q :: 0 <= q < |name| && StampAt(name, q) && (forall k :: 0 <= k < q ==> !StampAt(name, k))
                        ==> r == toMillis(FieldsAt(name, q))
  {
    match StampFields(name)
    case Some(f) => toMillis(f)
    case None => nowMillis
  }

  /** fileIsStale, for a file listed under `name`. */
  function FileIsStale(name: string, daysOld: int, nowMillis: int, toMillis: DateFields -> int): (stale: bool)
    ensures var d := nowMillis - DateFromFileName(name, nowMillis, toMillis);
            daysOld >= 0 && IsLong(d) ==> (stale <==> d >= (daysOld + 1) * MILLIS_PER_DAY)
    ensures (forall q :: 0 <= q < |name| ==> !StampAt(name, q)) ==> (stale <==> daysOld < 0)
  {
    IsStale(DateFromFileName(name, nowMillis, toMillis), nowMillis, daysOld)
  }

  // ------------------------------------------------------------------
  // Properties of the staleness test
  // ------------------------------------------------------------------

  /**
   With a non-negative threshold, a file is stale exactly when at least
   `daysOld + 1` whole days have passed: at an age of `daysOld` days it is
   kept, at `daysOld + 1` it is stale.
   */
  lemma StaleIffPastThreshold(fileMillis: int, nowMillis: int, daysOld: int)
    requires daysOld >= 0 && IsLong(nowMillis - fileMillis)
    ensures IsStale(fileMillis, nowMillis, daysOld) <==> nowMillis - fileMillis >= (daysOld + 1) * MILLIS_PER_DAY
  {
    var d := nowMillis - fileMillis;
    var age := DaysFromMillis(d);
    if d >= 0 {
      if age > daysOld {
        assert age * MILLIS_PER_DAY >= (daysOld + 1) * MILLIS_PER_DAY;
      }
    }
  }

  /** A file whose age truncates to exactly `daysOld` days is kept; one more day makes it stale. */
  lemma ThresholdBoundary(nowMillis: int, daysOld: int, extra: int)
    requires daysOld >= 0 && 0 <= extra < MILLIS_PER_DAY
    requires (daysOld + 1) * MILLIS_PER_DAY <= LONG_MAX
    ensures !IsStale(nowMillis - (daysOld * MILLIS_PER_DAY + extra), nowMillis, daysOld)
    ensures IsStale(nowMillis - (daysOld + 1) * MILLIS_PER_DAY, nowMillis, daysOld)
  {
    assert nowMillis - (nowMillis - (daysOld * MILLIS_PER_DAY + extra)) == daysOld * MILLIS_PER_DAY + extra;
    assert nowMillis - (nowMillis - (daysOld + 1) * MILLIS_PER_DAY) == (daysOld + 1) * MILLIS_PER_DAY;
    StaleIffPastThreshold(nowMillis - (daysOld * MILLIS_PER_DAY + extra), nowMillis, daysOld);
    StaleIffPastThreshold(nowMillis - (daysOld + 1) * MILLIS_PER_DAY, nowMillis, daysOld);
  }

  /** Day truncation is monotone. */
  lemma DaysFromMillisMonotone(d1: int, d2: int)
    requires d1 <= d2
    ensures DaysFromMillis(d1) <= DaysFromMillis(d2)
  {
    var a, b := DaysFromMillis(d1), DaysFromMillis(d2);
    if d1 >= 0 {
      assert a * MILLIS_PER_DAY < (b + 1) * MILLIS_PER_DAY;
    } else if d2 < 0 {
      assert (a - 1) * MILLIS_PER_DAY < b * MILLIS_PER_DAY;
    }
  }

  /** A later clock never turns a stale file back into a fresh one (while the subtraction does not overflow). */
  lemma StaleMonotoneInNow(fileMillis: int, now1: int, now2: int, daysOld: int)
    requires now1 <= now2 && IsLong(now1 - fileMillis) && IsLong(now2 - fileMillis)
    ensures IsStale(fileMillis, now1, daysOld) ==> IsStale(fileMillis, now2, daysOld)
  {
    DaysFromMillisMonotone(now1 - fileMillis, now2 - fileMillis);
  }

  /** A file dated at or after the current time is never stale under a non-negative threshold. */
  lemma FutureNeverStale(fileMillis: int, nowMillis: int, daysOld: int)
    requires fileMillis >= nowMillis && daysOld >= 0 && IsLong(nowMillis - fileMillis)
    ensures !IsStale(fileMillis, nowMillis, daysOld)
  {
  }

  /** A name with no timestamp dates the file now, so it is never stale under a non-negative threshold. */
  lemma UnstampedNeverStale(name: string, daysOld: int, nowMillis: int, toMillis: DateFields -> int)
    requires forall q :: 0 <= q < |name| ==> !StampAt(name, q)
    requires daysOld >= 0
    ensures DateFromFileName(name, nowMillis, toMillis) == nowMillis
    ensures !FileIsStale(name, daysOld, nowMillis, toMillis)
  {
  }

  /**
   The threshold is read from the configuration unchecked, so it may be
   negative: a name with no timestamp is then stale, and only then.
   */
  lemma UnstampedStaleIffNegative(name: string, daysOld: int, nowMillis: int, toMillis: DateFields -> int)
    requires forall q :: 0 <= q < |name| ==> !StampAt(name, q)
    ensures FileIsStale(name, daysOld, nowMillis, toMillis) <==> daysOld < 0
  {
    assert DateFromFileName(name, nowMillis, toMillis) == nowMillis;
    assert AgeInDays(nowMillis, nowMillis) == 0;
  }

  /** A name is dated by the fields its first stamp spells, month converted to 0-based. */
  lemma DateFromConventionalName(head: string, f: DateFields, tail: string, nowMillis: int, toMillis: DateFields -> int)
    requires Spellable(f)
    requires forall k :: 0 <= k < |head| ==> !StampAt(head + StampText(f) + tail, k)
    ensures DateFromFileName(head + StampText(f) + tail, nowMillis, toMillis) == toMillis(f)
  {
    StampFieldsRoundTrip(head, f, tail);
  }

  /** With a 30-day threshold, a file 59 days old (2023-01-01 seen on 2023-03-01) is stale. */
  lemma ScenarioFiftyNineDays(fileMillis: int)
    requires IsLong(fileMillis) && IsLong(fileMillis + 59 * MILLIS_PER_DAY)
    ensures IsStale(fileMillis, fileMillis + 59 * MILLIS_PER_DAY, 30)
  {
    StaleIffPastThreshold(fileMillis, fileMillis + 59 * MILLIS_PER_DAY, 30);
  }

  // ------------------------------------------------------------------
  // The decision loop
  // ------------------------------------------------------------------

  /** What the directory listing gives the loop for each entry. */
  datatype ListedFile = ListedFile(name: string, isDir: bool)

  /** The outcome logged for an entry that is not a directory. */
  datatype Disposition = Ignored(name: string) | Deleted(name: string) | NotStale(name: string)

  /** The decision for one non-directory entry: the ignore list first, then the staleness test. */
  function Decide(name: string, ignoreList: seq<string>, daysOld: int, nowMillis: int, toMillis: DateFields -> int): (d: Disposition)
    ensures d.name == name
    ensures d.Ignored? <==> name in ignoreList
    ensures d.Deleted? <==> name !in ignoreList && FileIsStale(name, daysOld, nowMillis, toMillis)
  {
    if name in ignoreList then Ignored(name)
    else if FileIsStale(name, daysOld, nowMillis, toMillis) then Deleted(name)
    else NotStale(name)
  }

  /** The dispositions for a listing, in listing order; directories contribute none. */
  function Report(files: seq<ListedFile>, ignoreList: seq<string>, daysOld: int, nowMillis: int, toMillis: DateFields -> int): seq<Disposition>
    decreases |files|
  {
    if files == [] then []
    else
      var last := files[|files| - 1];
      Report(files[..|files| - 1], ignoreList, daysOld, nowMillis, toMillis)
      + (if last.isDir then [] else [Decide(last.name, ignoreList, daysOld, nowMillis, toMillis)])
  }

  /**
   The entries that are not directories, in listing order: every entry that is
   not a directory keeps all its occurrences, and no directory is kept.
   */
  function NonDirectories(files: seq<ListedFile>): (r: seq<ListedFile>)
    ensures forall k :: 0 <= k < |r| ==> !r[k].isDir
    ensures forall x :: multiset(r)[x] == if x.isDir then 0 else multiset(files)[x]
    decreases |files|
  {
    if files == [] then []
    else
      var last := files[|files| - 1];
      assert files == files[..|files| - 1] + [last];
      NonDirectories(files[..|files| - 1]) + (if last.isDir then [] else [last])
  }

  /** The entries kept are in the order of the listing. */
  lemma {:induction false} NonDirectoriesInOrder(files: seq<ListedFile>)
    ensures IsSubsequence(NonDirectories(files), files)
    decreases |files|
  {
    if files != [] {
      var init := files[..|files| - 1];
      var last := files[|files| - 1];
      NonDirectoriesInOrder(init);
      var r := NonDirectories(files);
      if !last.isDir {
        assert r[..|r| - 1] == NonDirectories(init);
        assert r[|r| - 1] == last;
      } else {
        assert r == NonDirectories(init);
      }
    }
  }

  /**
   The report holds one disposition per non-directory entry, in listing order,
   and each is that entry's decision.
   */
  lemma {:induction false} ReportFollowsListing(files: seq<ListedFile>, ignoreList: seq<string>, daysOld: int, nowMillis: int, toMillis: DateFields -> int)
    ensures var r, nd := Report(files, ignoreList, daysOld, nowMillis, toMillis), NonDirectories(files);
      && |r| == |nd|
      && forall k :: 0 <= k < |r| ==> r[k] == Decide(nd[k].name, ignoreList, daysOld, nowMillis, toMillis)
    decreases |files|
  {
    if files != [] {
      ReportFollowsListing(files[..|files| - 1], ignoreList, daysOld, nowMillis, toMillis);
    }
  }

  /** Reporting a listing in two parts is reporting it whole. */
  lemma {:induction false} ReportConcat(a: seq<ListedFile>, b: seq<ListedFile>, ignoreList: seq<string>, daysOld: int, nowMillis: int, toMillis: DateFields -> int)
    ensures Report(a + b, ignoreList, daysOld, nowMillis, toMillis)
         == Report(a, ignoreList, daysOld, nowMillis, toMillis) + Report(b, ignoreList, daysOld, nowMillis, toMillis)
    decreases |b|
  {
    if b == [] {
      assert a + b == a;
    } else {
      assert (a + b)[..|a + b| - 1] == a + b[..|b| - 1];
      ReportConcat(a, b[..|b| - 1], ignoreList, daysOld, nowMillis, toMillis);
    }
  }

  /**
   A directory is never looked at: adding one anywhere leaves the report as it
   is, whatever its name, the clock or the threshold.
   */
  lemma DirectoryContributesNothing(a: seq<ListedFile>, name: string, b: seq<ListedFile>, ignoreList: seq<string>, daysOld: int, nowMillis: int, toMillis: DateFields -> int)
    ensures Report(a + [ListedFile(name, true)] + b, ignoreList, daysOld, nowMillis, toMillis)
         == Report(a + b, ignoreList, daysOld, nowMillis, toMillis)
  {
    ReportConcat(a + [ListedFile(name, true)], b, ignoreList, daysOld, nowMillis, toMillis);
    ReportConcat(a, [ListedFile(name, true)], ignoreList, daysOld, nowMillis, toMillis);
    ReportConcat(a, b, ignoreList, daysOld, nowMillis, toMillis);
    assert [ListedFile(name, true)][..0] == [];
  }

  /** An ignored name is never evaluated for staleness: its decision does not depend on the clock, the threshold or its date. */
  lemma IgnoredNotEvaluated(name: string, ignoreList: seq<string>, daysOld1: int, now1: int, toMillis1: DateFields -> int,
                            daysOld2: int, now2: int, toMillis2: DateFields -> int)
    requires name in ignoreList
    ensures Decide(name, ignoreList, daysOld1, now1, toMillis1) == Ignored(name)
    ensures Decide(name, ignoreList, daysOld1, now1, toMillis1) == Decide(name, ignoreList, daysOld2, now2, toMillis2)
  {
  }

  /** No name on the ignore list is ever reported deleted or not stale. */
  lemma IgnoredNeverDeleted(files: seq<ListedFile>, ignoreList: seq<string>, daysOld: int, nowMillis: int, toMillis: DateFields -> int, k: nat)
    requires k < |Report(files, ignoreList, daysOld, nowMillis, toMillis)|
    requires Report(files, ignoreList, daysOld, nowMillis, toMillis)[k].name in ignoreList
    ensures Report(files, ignoreList, daysOld, nowMillis, toMillis)[k].Ignored?
  {
    ReportFollowsListing(files, ignoreList, daysOld, nowMillis, toMillis);
  }

  /** With the ignore list `configure` sets up, `.htaccess` is never reported deleted. */
  lemma HtaccessNeverDeleted(files: seq<ListedFile>, daysOld: int, nowMillis: int, toMillis: DateFields -> int)
    ensures Deleted(HTACCESS) !in Report(files, DEFAULT_IGNORE_LIST, daysOld, nowMillis, toMillis)
  {
    var r := Report(files, DEFAULT_IGNORE_LIST, daysOld, nowMillis, toMillis);
    if Deleted(HTACCESS) in r {
      var k :| 0 <= k < |r| && r[k] == Deleted(HTACCESS);
      IgnoredNeverDeleted(files, DEFAULT_IGNORE_LIST, daysOld, nowMillis, toMillis, k);
    }
  }

  /** The retention policy the cleaner runs with. */
  class FeedCleaner {
    var ignoreList: seq<string>
    /** The `feed.days_old` setting. */
    var daysOld: int

    constructor ()
      ensures ignoreList == [] && daysOld == 0
    {
      ignoreList := [];
      daysOld := 0;
    }

    /** configure: the ignore list becomes `.htaccess` alone; `configuredDaysOld` is the value read from the properties. */
    method Configure(configuredDaysOld: int)
      modifies this
      ensures ignoreList == DEFAULT_IGNORE_LIST && daysOld == configuredDaysOld
    {
      ignoreList := [];
      ignoreList := ignoreList + [HTACCESS];
      daysOld := configuredDaysOld;
    }

    /**
     The checking loop of listAndRemoveFeeds over the listing `files`. It changes
     no state: the delete call is disabled, so "deleted" is only reported.
     */
    method ListAndRemoveFeeds(files: seq<ListedFile>, nowMillis: int, toMillis: DateFields -> int) returns (report: seq<Disposition>)
      ensures report == Report(files, ignoreList, daysOld, nowMillis, toMillis)
    {
      report := [];
      for i := 0 to |files|
        invariant report == Report(files[..i], ignoreList, daysOld, nowMillis, toMillis)
      {
        assert files[..i + 1][..i] == files[..i];
        var file := files[i];
        if !file.isDir {
          var fileName := file.name;
          if fileName in ignoreList {
            report := report + [Ignored(fileName)];
            continue;
          }
          if FileIsStale(fileName, daysOld, nowMillis, toMillis) {
            report := report + [Deleted(fileName)];
          } else {
            report := report + [NotStale(fileName)];
          }
        }
      }
      assert files[..|files|] == files;
    }
  }
}
