# Feed cleaner: retention and listing-filter model

Feed Cleaner connects to an FTP server, lists a feed directory of camera
recordings, and removes recordings older than a configured number of days.
The recordings are named `<name>.YYYYMMDD_hhmmss.mp4`. The date a recording
was made is read from this file name, not from the server's listing date.

This project models the two classes that make up that logic. It proves
properties of the model in Dafny.

* `Mp4FileParser` is an FTP listing-entry parser.
  * `preParse` keeps only the listing lines that mention an `.mp4` feed name (`[a-z]*\.[0-9]*_[0-9]*\.mp4`).
  * `parseFTPEntry` builds a file record from the capture groups of a Unix long-listing line. The record holds:
    * the type;
    * the permission matrix (an upper-case execute slot grants nothing);
    * the link count, which is not parsed for devices;
    * user and group;
    * the size;
    * the name and symlink target, split at the first ` -> `;
    * a timestamp taken from the first name timestamp anywhere in the line, or "now" when there is none.
* `FeedCleaner` holds the retention decision.
  * `getDateFromFileName` reads the date from a file name.
  * `fileIsStale` converts the elapsed milliseconds to whole days. `TimeUnit` truncates toward zero. A file is stale when that count exceeds `feed.days_old`.
  * `listAndRemoveFeeds` walks the listing. It skips directories, reports names on the ignore list as ignored, and reports every other entry as deleted or not stale.
  * `configure` sets the ignore list to `.htaccess` alone.

Both regular expressions that read the file name are modelled character by
character (module `NameConvention`):
* the pre-filter pattern, with its `find()` semantics (some substring matches);
* the timestamp pattern, with `find()` returning the leftmost match, and the
  fields read back from its groups.

The clock and `Calendar` are parameters. The parser receives `now` as wall-clock
fields. The cleaner receives `nowMillis`, together with `toMillis`, which stands
for `Calendar`'s conversion of fields to epoch milliseconds.

Three points of the cleaner's behaviour that are easy to misread:
* **Only directories are skipped.** Every other entry type, symbolic links included, goes through the ignore list and age test.
* **Day counts truncate toward zero.** They do not floor, so a file dated up to a day in the future has age 0.
* **Nothing is deleted.** The `deleteFile` call is commented out, so "deleted" is a reported disposition only. `ListAndRemoveFeeds` changes no state.

## Model

| member | source | states |
|---|---|---|
| Mp4FileParser.PreParse | src/main/java/net/bryansaunders/feed_cleaner/Mp4FileParser.java:57-78 | The loop returns exactly the filtered listing `Approved(original)`: the input lines that pass the pre-filter, in order |
| Mp4FileParser.ApprovedMembers | src/main/java/net/bryansaunders/feed_cleaner/Mp4FileParser.java:60-71 | A line is in the output iff it is in the input and some substring of it is a word of `[a-z]*\.[0-9]*_[0-9]*\.mp4` |
| Mp4FileParser.ApprovedCounts | src/main/java/net/bryansaunders/feed_cleaner/Mp4FileParser.java:60-71 | A line that passes keeps every one of its occurrences. A line that fails keeps none |
| Mp4FileParser.ApprovedIsSubsequence | src/main/java/net/bryansaunders/feed_cleaner/Mp4FileParser.java:59-77 | The output is an order-preserving subsequence of the input |
| Mp4FileParser.ApprovedConcat | src/main/java/net/bryansaunders/feed_cleaner/Mp4FileParser.java:60-75 | Filtering is line by line: filtering a concatenation is concatenating the filtered parts |
| Mp4FileParser.ApprovedIdempotent | src/main/java/net/bryansaunders/feed_cleaner/Mp4FileParser.java:57-78 | Pre-filtering an already filtered listing changes nothing |
| NameConvention.ContainsMp4TokenIsFind | src/main/java/net/bryansaunders/feed_cleaner/Mp4FileParser.java:63-65 | The executable line test decides exactly whether the pre-filter pattern occurs somewhere in the line (`find()`) |
| NameConvention.ContainsMp4TokenFrom | src/main/java/net/bryansaunders/feed_cleaner/Mp4FileParser.java:63-65 | The scan succeeds iff some dot at or after the start position begins a word of the pattern |
| NameConvention.FirstStampFrom | src/main/java/net/bryansaunders/feed_cleaner/Mp4FileParser.java:112-114 | Returns the leftmost occurrence of `.YYYYMMDD_hhmmss.mp4`, or none when it occurs nowhere |
| NameConvention.FindPicksFirstStamp | src/main/java/net/bryansaunders/feed_cleaner/Mp4FileParser.java:112-114 | The leftmost-starting match of `([a-z-_]*)\.(\d{4})…\.mp4`, which `find()` returns, has its dot at the first occurrence of the fixed part |
| NameConvention.StampFoundIffMatch | src/main/java/net/bryansaunders/feed_cleaner/Mp4FileParser.java:112-115 | The timestamp pattern matches somewhere iff its fixed part occurs somewhere |
| NameConvention.StampedLinePassesFilter | src/main/java/net/bryansaunders/feed_cleaner/Mp4FileParser.java:63-65 | Any line in which the timestamp pattern finds a match also passes the pre-filter |
| NameConvention.StampIsToken | src/main/java/net/bryansaunders/feed_cleaner/Mp4FileParser.java:112 | An occurrence of the timestamp pattern is an occurrence of the pre-filter pattern at the same dot |
| NameConvention.StampFields | src/main/java/net/bryansaunders/feed_cleaner/Mp4FileParser.java:114-126 | Some fields are found iff the fixed part occurs in the string |
| NameConvention.StampFieldsRoundTrip | src/main/java/net/bryansaunders/feed_cleaner/Mp4FileParser.java:112-123 | Reading back a line whose first stamp spells year, month, day, hour, minute and second recovers those fields (month 0-based, as `Calendar.MONTH` holds it), whatever precedes or follows it |
| NameConvention.StampFieldsRoundTripDotFree | src/main/java/net/bryansaunders/feed_cleaner/Mp4FileParser.java:112-123 | The conventional case: with no dot before the stamp, the fields are read back exactly |
| NameConvention.DotFreeHeadHasNoStamp | src/main/java/net/bryansaunders/feed_cleaner/Mp4FileParser.java:112 | A stamp starts at a dot, so a dot-free head holds none |
| NameConvention.DotsBeforeStampNotDigits | src/main/java/net/bryansaunders/feed_cleaner/Mp4FileParser.java:112 | A dot followed by a non-digit (`john.doe`, `latest.mp4`) never starts a stamp |
| Mp4FileParser.ParseFTPEntry | src/main/java/net/bryansaunders/feed_cleaner/Mp4FileParser.java:85-227 | With no match there is no record. With a match the record is `EntryOf` the line and its capture groups. The lemmas below give each field |
| Mp4FileParser.DecodePermissions | src/main/java/net/bryansaunders/feed_cleaner/Mp4FileParser.java:158-170 | The three-pass loop over user, group and world builds exactly the matrix `Permissions(p)` |
| Mp4FileParser.SetPermission | src/main/java/net/bryansaunders/feed_cleaner/Mp4FileParser.java:161-168 | Setting one permission bit changes that bit to the given value and leaves the others alone |
| Mp4FileParser.TypeMapping | src/main/java/net/bryansaunders/feed_cleaner/Mp4FileParser.java:133-155 | `d` is a directory, `l` and `e` are symbolic links, `b c f -` are files, and `m p S s` are unknown. Exactly `b` and `c` are devices, and devices are files |
| Mp4FileParser.ExecuteSlot | src/main/java/net/bryansaunders/feed_cleaner/Mp4FileParser.java:164-169 | Of the allowed execute characters, exactly `x`, `s` and `t` grant execute. `S`, `T`, `L` and `-` do not |
| Mp4FileParser.PermissionBits | src/main/java/net/bryansaunders/feed_cleaner/Mp4FileParser.java:159-170 | For each access class, read and write are set iff their slot is not `-`. Execute is set iff its slot grants execute |
| Mp4FileParser.PermissionsExample | src/main/java/net/bryansaunders/feed_cleaner/Mp4FileParser.java:159-170 | `rwxr-xr--` gives rwx / r-x / r-- |
| Mp4FileParser.UpperCaseSlotsExample | src/main/java/net/bryansaunders/feed_cleaner/Mp4FileParser.java:165 | `rwSr-Sr-T` grants no execute at all |
| Mp4FileParser.HardLinkCountField | src/main/java/net/bryansaunders/feed_cleaner/Mp4FileParser.java:173-179 | The link count is set iff the entry is not a device and the count fits a Java `int`. When set, it is the count's value |
| Mp4FileParser.SizeOfPrintedSize | src/main/java/net/bryansaunders/feed_cleaner/Mp4FileParser.java:186-187 | A size column printed in decimal, zero padding allowed, is read back as that size |
| Mp4FileParser.SizeField | src/main/java/net/bryansaunders/feed_cleaner/Mp4FileParser.java:186-190 | A digit size is set iff it fits a Java `long`. A device's `major, minor` size is never set |
| Mp4FileParser.NameField | src/main/java/net/bryansaunders/feed_cleaner/Mp4FileParser.java:193-213 | A non-link is named by the name token plus the rest of the line. A link splits that string at the first ` -> ` into name and target, or keeps it whole when there is no separator |
| Mp4FileParser.IndexOfFrom | src/main/java/net/bryansaunders/feed_cleaner/Mp4FileParser.java:201 | `indexOf`: the index it returns is an occurrence, and no earlier one exists. With no result there is no occurrence at all |
| Mp4FileParser.TimestampField | src/main/java/net/bryansaunders/feed_cleaner/Mp4FileParser.java:112-123 | The record's timestamp is the one spelled in the line's first name timestamp, whatever precedes it |
| Mp4FileParser.DottedOwnerTimestamp | src/main/java/net/bryansaunders/feed_cleaner/Mp4FileParser.java:112-123 | Dots before the stamp that are each followed by a non-digit (an owner such as `john.doe`) do not change the timestamp read from the name |
| Mp4FileParser.TimestampFallback | src/main/java/net/bryansaunders/feed_cleaner/Mp4FileParser.java:124-126 | A line holding no name timestamp is stamped with the current time |
| Mp4FileParser.ScenarioTimestamp | src/main/java/net/bryansaunders/feed_cleaner/Mp4FileParser.java:112-123 | A line ending in `.20230101_000000.mp4`, with no dot before the stamp, is stamped 2023-01-01 00:00:00 (month 0). It also passes the pre-filter of Mp4FileParser.java:63-65 |
| Mp4FileParser.ScenarioColumns | src/main/java/net/bryansaunders/feed_cleaner/Mp4FileParser.java:132-213 | The groups of `-rw-r--r-- 1 user group 1024 …` give a plain file with size 1024, one link, owner `user`, group `group` and no link target |
| Mp4FileParser.ScenarioListingLine | src/main/java/net/bryansaunders/feed_cleaner/Mp4FileParser.java:57-213 | The whole line `-rw-r--r-- 1 user group 1024 Jan 1 00:00 camera-a.20230101_000000.mp4` passes the pre-filter and yields a plain 1024-byte file with one link, owner and group, its name, no target, stamped 2023-01-01 00:00:00 |
| Mp4FileParser.ParseFTPEntryAsWritten | src/main/java/net/bryansaunders/feed_cleaner/Mp4FileParser.java:93-104 | As written, the call throws exactly when the grammar does not match, and then throws `IllegalStateException`. When it returns, it returns a record for that line, never null |
| Mp4FileParser.NullReturnUnreachable | src/main/java/net/bryansaunders/feed_cleaner/Mp4FileParser.java:222-226 | As written, the `return null` path is never taken: every non-matching line throws first |
| Mp4FileParser.BareNameThrows | src/main/java/net/bryansaunders/feed_cleaner/Mp4FileParser.java:57-104 | The bare name `camera-a.20230101_000000.mp4` passes the pre-filter. With no long-listing match, parsing it as written throws |
| Decimal.ParseDigitString | src/main/java/net/bryansaunders/feed_cleaner/Mp4FileParser.java:175 | `parseInt` / `parseLong` of a `\d+` capture succeeds iff its value is within the upper bound, and then yields that value |
| Decimal.ParseRejectsComma | src/main/java/net/bryansaunders/feed_cleaner/Mp4FileParser.java:187 | A size containing a comma raises `NumberFormatException` |
| Decimal.JavaParseDecimal | src/main/java/net/bryansaunders/feed_cleaner/Mp4FileParser.java:175 | The parsed value always lies in the target type's range |
| Decimal.ParseLongOfPadDigits | src/main/java/net/bryansaunders/feed_cleaner/Mp4FileParser.java:187 | `parseLong` of a zero-padded decimal spelling returns the number spelled |
| FeedCleaner.DaysFromMillis | src/main/java/net/bryansaunders/feed_cleaner/FeedCleaner.java:163 | Whole days, truncated toward zero: for a non-negative span, the largest day count not above it; for a negative span, the smallest not below it |
| FeedCleaner.WrapLong | src/main/java/net/bryansaunders/feed_cleaner/FeedCleaner.java:162 | The `long` subtraction's result is in range, agrees with the exact difference modulo 2^64, and equals it when it fits |
| FeedCleaner.DateFromFileName | src/main/java/net/bryansaunders/feed_cleaner/FeedCleaner.java:177-206 | A name with no timestamp is dated `nowMillis`. Otherwise it is dated `toMillis` of the fields read at the leftmost timestamp in the name |
| FeedCleaner.FileIsStale | src/main/java/net/bryansaunders/feed_cleaner/FeedCleaner.java:157-175 | With `days_old >= 0` and no overflow, a file is stale iff at least `days_old + 1` whole days separate its name's date from now. A name with no timestamp is stale iff `days_old` is negative |
| FeedCleaner.StaleIffPastThreshold | src/main/java/net/bryansaunders/feed_cleaner/FeedCleaner.java:157-175 | With `days_old >= 0`, a file is stale iff at least `days_old + 1` full days have elapsed since its date |
| FeedCleaner.ThresholdBoundary | src/main/java/net/bryansaunders/feed_cleaner/FeedCleaner.java:163-167 | With `days_old >= 0` and no overflow: an age of `days_old` days plus any part of a day is kept. An age of `days_old + 1` days is stale |
| FeedCleaner.DaysFromMillisMonotone | src/main/java/net/bryansaunders/feed_cleaner/FeedCleaner.java:163 | A longer span never converts to fewer days |
| FeedCleaner.StaleMonotoneInNow | src/main/java/net/bryansaunders/feed_cleaner/FeedCleaner.java:157-175 | A file that is stale stays stale at any later time (without overflow) |
| FeedCleaner.FutureNeverStale | src/main/java/net/bryansaunders/feed_cleaner/FeedCleaner.java:162-167 | With `days_old >= 0`, a file dated at or after now is not stale |
| FeedCleaner.UnstampedNeverStale | src/main/java/net/bryansaunders/feed_cleaner/FeedCleaner.java:177-206 | A name holding no timestamp is dated now, so with `days_old >= 0` it is never stale |
| FeedCleaner.UnstampedStaleIffNegative | src/main/java/net/bryansaunders/feed_cleaner/FeedCleaner.java:157-167 | `days_old` is read unchecked. A name holding no timestamp is stale exactly when `days_old` is negative |
| FeedCleaner.DateFromConventionalName | src/main/java/net/bryansaunders/feed_cleaner/FeedCleaner.java:186-202 | A name is dated by the fields its first stamp spells, whatever precedes it |
| FeedCleaner.ScenarioFiftyNineDays | src/main/java/net/bryansaunders/feed_cleaner/FeedCleaner.java:157-175 | A file 59 days old is stale under a 30-day limit |
| FeedCleaner.NonDirectories | src/main/java/net/bryansaunders/feed_cleaner/FeedCleaner.java:125-128 | The entries the loop examines are exactly the non-directory entries of the listing, each as often as it is listed, and no directory |
| FeedCleaner.NonDirectoriesInOrder | src/main/java/net/bryansaunders/feed_cleaner/FeedCleaner.java:125-128 | The examined entries are in listing order |
| FeedCleaner.FeedCleaner.ListAndRemoveFeeds | src/main/java/net/bryansaunders/feed_cleaner/FeedCleaner.java:125-153 | The loop's log is exactly `Report` of the listing under the current ignore list and threshold |
| FeedCleaner.Decide | src/main/java/net/bryansaunders/feed_cleaner/FeedCleaner.java:139-151 | The decision keeps the entry's name. It is `Ignored` iff the name is on the ignore list, and `Deleted` iff the name is not on the list and the file is stale. Otherwise it is `NotStale` |
| FeedCleaner.ReportFollowsListing | src/main/java/net/bryansaunders/feed_cleaner/FeedCleaner.java:125-153 | There is one disposition per non-directory entry, in listing order. Each is that entry's decision: ignored when listed, else deleted iff stale, else not stale |
| FeedCleaner.ReportConcat | src/main/java/net/bryansaunders/feed_cleaner/FeedCleaner.java:125-153 | Entries are decided independently: the report of a concatenation is the concatenation of the reports |
| FeedCleaner.DirectoryContributesNothing | src/main/java/net/bryansaunders/feed_cleaner/FeedCleaner.java:128 | Inserting a directory anywhere leaves the report unchanged |
| FeedCleaner.IgnoredNotEvaluated | src/main/java/net/bryansaunders/feed_cleaner/FeedCleaner.java:139-142 | An ignored name is reported ignored whatever its date, the clock or the threshold |
| FeedCleaner.IgnoredNeverDeleted | src/main/java/net/bryansaunders/feed_cleaner/FeedCleaner.java:139-148 | A reported name that is on the ignore list is always reported ignored |
| FeedCleaner.HtaccessNeverDeleted | src/main/java/net/bryansaunders/feed_cleaner/FeedCleaner.java:139-148 | Under the configured ignore list, `.htaccess` is never reported deleted |
| FeedCleaner.FeedCleaner.Configure | src/main/java/net/bryansaunders/feed_cleaner/FeedCleaner.java:260-281 | Afterwards the ignore list is `[".htaccess"]` and the threshold is the configured value |

## Left out

- The long-listing regular expression itself: `ParseFTPEntry` takes the capture groups of its match, or `None` when it does not match. Which lines match (owner/group with spaces, the date columns, the `+` after permissions) is not modelled.
- The two date columns (groups 19 and 20): the source reads no timestamp from them.
- `Pattern.CANON_EQ` and non-ASCII input: `\d` and `[0-9]` are taken as ASCII digits, `Character.isUpperCase` as ASCII `A`-`Z`, and `Integer.parseInt` / `Long.parseLong` on ASCII only.
- `Calendar`: time zone, lenient roll-over of out-of-range fields, and the milliseconds `Calendar.getInstance()` keeps from the current time. `toMillis` and `now` are parameters.
- The clock: the source reads the clock anew in each `getDateFromFileName` and `fileIsStale` call, a pair of reads per entry. One `nowMillis` stands for every clock read of the whole loop pass.
- `PatternSyntaxException` handlers: both patterns are constant and valid, so these handlers never run.
- The `null == endtoken` branch of the name logic: group 22, `(\s*.*)`, always participates in a match, so this branch never runs.
- FTPFile's defaults for fields left unset (link count 0, size -1): the model shows an unset field as `None`.
- `user` and `group`: copied unchanged from groups 16 and 17, with a skipped optional group shown as `None`.
- Logging, including the debug-only `getDateFromFileName` call in the loop, which has no effect on the outcome.
- `main`, `cleanFeeds`, `createFtpClient`, `connectToServer`, `disconnectServer`, the FTP transfer itself, and the loading and reloading of the properties file. `daysOld` is a field of the cleaner, set once in `Configure` rather than re-read from the configuration on each call.
- `readNextEntry`: it returns the reader's next line, which is plain I/O.
- `FeedCleaner.FeedCleaner.constructor`: before `configure`, the source's ignore list is `null`. The model starts it empty.
- The listing entries of `FeedCleaner` come from the FTP library's own listing parser, not from `Mp4FileParser`. Each entry is modelled as its name and directory flag.
- FeedCleaner.AgeInDays: wraps the `long` subtraction but not the `Date`/`Calendar` arithmetic that produced the two instants.

## Findings

| source | as written | input that shows it | evidently intended | confidence | as-written member | corrected member |
|---|---|---|---|---|---|---|
| src/main/java/net/bryansaunders/feed_cleaner/Mp4FileParser.java:93-104 | `group(1)` … `group(22)` are read before `matched` is tested. On a line the grammar does not match, `Matcher.group` throws `IllegalStateException`, so the `return null` at line 226 is unreachable | the listing line `camera-a.20230101_000000.mp4` (a bare name, as from an `NLST`-style listing), which passes `preParse` but has no permission or size columns | return `null` (no record) for a non-matching line | not executed | Mp4FileParser.ParseFTPEntryAsWritten, Mp4FileParser.BareNameThrows | Mp4FileParser.ParseFTPEntry |
