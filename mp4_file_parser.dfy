/**
 The FTP listing parser that keeps only MP4 feed files: `preParse` drops every
 listing line without a feed file name in it, and `parseFTPEntry` turns the
 capture groups of a Unix long-listing line into a file record. The record's
 timestamp comes from the file name, never from the server's date columns.
 */
module Mp4FileParser {
  import opened Wrappers
  import opened Decimal
  import opened NameConvention
  import opened Sequences

  // ------------------------------------------------------------------
  // preParse
  // ------------------------------------------------------------------

  /** The lines kept by the pre-filter, in listing order. */
  function Approved(lines: seq<string>): seq<string>
    decreases |lines|
  {
    if lines == [] then []
    else
      var last := lines[|lines| - 1];
      Approved(lines[..|lines| - 1]) + (if ContainsMp4Token(last) then [last] else [])
  }

  /** preParse: walks the listing and appends each line whose pre-filter test succeeds. */
  method PreParse(original: seq<string>) returns (approved: seq<string>)
    ensures approved == Approved(original)
  {
    approved := [];
    for i := 0 to |original|
      invariant approved == Approved(original[..i])
    {
      var line := original[i];
      var matched := ContainsMp4Token(line);
      if matched {
        approved := approved + [line];
      }
      assert original[..i + 1][..i] == original[..i];
    }
    assert original[..|original|] == original;
  }

  /** Filtering two listings one after the other is filtering their concatenation. */
  lemma {:induction false} ApprovedConcat(a: seq<string>, b: seq<string>)
    ensures Approved(a + b) == Approved(a) + Approved(b)
    decreases |b|
  {
    if b == [] {
      assert a + b == a;
    } else {
      var b' := b[..|b| - 1];
      assert (a + b)[..|a + b| - 1] == a + b';
      ApprovedConcat(a, b');
    }
  }

  /** Every line occurs in the output as often as in the input if it passes the test, and not at all otherwise. */
  lemma {:induction false} ApprovedCounts(lines: seq<string>, x: string)
    ensures multiset(Approved(lines))[x] == if ContainsMp4Token(x) then multiset(lines)[x] else 0
    decreases |lines|
  {
    if lines != [] {
      var init := lines[..|lines| - 1];
      assert lines == init + [lines[|lines| - 1]];
      ApprovedCounts(init, x);
    }
  }

  /** The kept lines are exactly the input lines holding a word of the pre-filter pattern. */
  lemma ApprovedMembers(lines: seq<string>, x: string)
    ensures x in Approved(lines) <==> x in lines && HasMp4Token(x)
  {
    ApprovedCounts(lines, x);
    ContainsMp4TokenIsFind(x);
    assert x in Approved(lines) <==> multiset(Approved(lines))[x] > 0;
    assert x in lines <==> multiset(lines)[x] > 0;
  }

  /** The output keeps the input's order. */
  lemma {:induction false} ApprovedIsSubsequence(lines: seq<string>)
    ensures IsSubsequence(Approved(lines), lines)
    decreases |lines|
  {
    if lines != [] {
      var init := lines[..|lines| - 1];
      ApprovedIsSubsequence(init);
      var r := Approved(lines);
      var last := lines[|lines| - 1];
      if ContainsMp4Token(last) {
        assert r == Approved(init) + [last];
        assert r[..|r| - 1] == Approved(init);
        assert r[|r| - 1] == last;
      } else {
        assert r == Approved(init);
      }
    }
  }

  /** Running the pre-filter over its own output changes nothing. */
  lemma {:induction false} ApprovedIdempotent(lines: seq<string>)
    ensures Approved(Approved(lines)) == Approved(lines)
    decreases |lines|
  {
    if lines != [] {
      var init := lines[..|lines| - 1];
      var last := lines[|lines| - 1];
      ApprovedIdempotent(init);
      var kept := if ContainsMp4Token(last) then [last] else [];
      ApprovedConcat(Approved(init), kept);
      assert Approved(kept) == kept by {
        if kept != [] {
          assert kept[..0] == [];
        }
      }
    }
  }

  // ------------------------------------------------------------------
  // parseFTPEntry
  // ------------------------------------------------------------------

  /** FTPFile's type constants. */
  datatype FileType = File | Directory | SymbolicLink | Unknown

  /** Indices of FTPFile's permission matrix. */
  const USER_ACCESS: nat := 0
  const GROUP_ACCESS: nat := 1
  const WORLD_ACCESS: nat := 2
  const READ_PERMISSION: nat := 0
  const WRITE_PERMISSION: nat := 1
  const EXECUTE_PERMISSION: nat := 2

  /** The nine single-character permission groups 4-6, 8-10 and 12-14: owner, group, other; each read, write, execute. */
  type PermissionChars = s: seq<char> | |s| == 9 witness "---------"

  /** The type characters the long-listing grammar accepts in group 1. */
  const TYPE_CHARS: string := "bcdelfmpSs-"

  /** The characters the grammar accepts in an execute slot. */
  const EXECUTE_CHARS: string := "xsStTL-"

  /**
   The capture groups of the long-listing grammar for a line it matched.
   The rest-of-line group 22 `(\s*.*)` can match the empty string, so on a
   match it is never null.
   */
  datatype Captures = Captures(
    typeChar: char,                     // group 1
    permissionChars: PermissionChars,   // groups 4-6, 8-10, 12-14
    hardLinkCount: string,              // group 15
    user: Option<string>,               // group 16 (optional token)
    group: Option<string>,              // group 17 (optional token)
    size: string,                       // group 18, `N` or `N, M`
    nameToken: string,                  // group 21
    endToken: string)                   // group 22

  /** The FTPFile record the parser fills in; a field the source leaves unset is None. */
  datatype FtpEntry = FtpEntry(
    rawListing: string,
    fileType: FileType,
    permissions: seq<seq<bool>>,
    hardLinkCount: Option<int>,
    user: Option<string>,
    group: Option<string>,
    size: Option<int>,
    name: string,
    link: Option<string>,
    timestamp: DateFields)

  function TypeOf(c: char): FileType {
    match c
    case 'd' => Directory
    case 'e' => SymbolicLink   // z/OS external link
    case 'l' => SymbolicLink
    case 'b' => File
    case 'c' => File
    case 'f' => File
    case '-' => File
    case _ => Unknown
  }

  /** Block and character devices: files whose link-count column is not parsed. */
  predicate IsDevice(c: char) {
    c == 'b' || c == 'c'
  }

  /** `Character.isUpperCase`, for ASCII letters. */
  predicate IsUpperCase(c: char) {
    'A' <= c <= 'Z'
  }

  /** An execute slot grants execute unless it is '-' or an upper-case letter (set-id or sticky without execute). */
  predicate GrantsExecute(c: char) {
    c != '-' && !IsUpperCase(c)
  }

  /** Read, write and execute of one access class, as the permission loop sets them. */
  function AccessBits(p: PermissionChars, access: nat): seq<bool>
    requires access < 3
  {
    [p[3 * access] != '-', p[3 * access + 1] != '-', GrantsExecute(p[3 * access + 2])]
  }

  function Permissions(p: PermissionChars): seq<seq<bool>> {
    [AccessBits(p, USER_ACCESS), AccessBits(p, GROUP_ACCESS), AccessBits(p, WORLD_ACCESS)]
  }

  /** `file.setPermission(access, permission, value)` on the 3x3 matrix. */
  function SetPermission(m: seq<seq<bool>>, access: nat, permission: nat, value: bool): (m': seq<seq<bool>>)
    requires access < |m| && permission < |m[access]|
    ensures |m'| == |m| && forall a :: 0 <= a < |m| && a != access ==> m'[a] == m[a]
    ensures m'[access] == m[access][permission := value]
  {
    m[access := m[access][permission := value]]
  }

  const LINK_SEPARATOR: string := " -> "

  predicate OccursAt(s: string, sub: string, k: nat) {
    k + |sub| <= |s| && s[k..k + |sub|] == sub
  }

  /** `s.indexOf(sub, from)`: the first position at or after `from` where `sub` occurs. */
  function IndexOfFrom(s: string, sub: string, from: nat): (r: Option<nat>)
    requires from <= |s|
    ensures r.Some? ==> from <= r.value <= |s| && OccursAt(s, sub, r.value)
    ensures r.Some? ==> forall k :: from <= k < r.value ==> !OccursAt(s, sub, k)
    ensures r.None? ==> forall k :: from <= k <= |s| ==> !OccursAt(s, sub, k)
    decreases |s| - from
  {
    if OccursAt(s, sub, from) then Some(from)
    else if from == |s| then None
    else IndexOfFrom(s, sub, from + 1)
  }

  /** A symbolic link's listed name split at the first " -> ": the name, and the target if the separator occurs. */
  function SplitLink(s: string): (string, Option<string>) {
    match IndexOfFrom(s, LINK_SEPARATOR, 0)
    case Some(end) => (s[..end], Some(s[end + 4..]))
    case None => (s, None)
  }

  /** The listed name: the name token followed by the rest of the line, split at " -> " for symbolic links. */
  function NameAndLink(c: Captures): (string, Option<string>) {
    var name := c.nameToken + c.endToken;
    if TypeOf(c.typeChar) == SymbolicLink then SplitLink(name) else (name, None)
  }

  /**
   The timestamp: the fields of the first `.YYYYMMDD_hhmmss.mp4` in the whole
   listing line, or the current time when there is none. The server's own date
   columns are deliberately not used.
   */
  function LineTimestamp(line: string, now: DateFields): DateFields {
    match StampFields(line)
    case Some(f) => f
    case None => now
  }

  /** The record parseFTPEntry returns for a line the grammar matched. */
  function EntryOf(line: string, c: Captures, now: DateFields): FtpEntry {
    var (name, link) := NameAndLink(c);
    FtpEntry(
      rawListing := line,
      fileType := TypeOf(c.typeChar),
      permissions := Permissions(c.permissionChars),
      hardLinkCount := if IsDevice(c.typeChar) then None else ParseInt(c.hardLinkCount),
      user := c.user,
      group := c.group,
      size := ParseLong(c.size),
      name := name,
      link := link,
      timestamp := LineTimestamp(line, now))
  }

  /** The permission loop: one access class per iteration, reading its three groups from g on. */
  method DecodePermissions(p: PermissionChars) returns (perms: seq<seq<bool>>)
    ensures perms == Permissions(p)
  {
    perms := [[false, false, false], [false, false, false], [false, false, false]];
    var g := 0;
    for access := 0 to 3
      invariant g == 3 * access
      invariant |perms| == 3 && forall a :: 0 <= a < 3 ==> |perms[a]| == 3
      invariant forall a :: 0 <= a < access ==> perms[a] == AccessBits(p, a)
      invariant forall a :: access <= a < 3 ==> perms[a] == [false, false, false]
    {
      perms := SetPermission(perms, access, READ_PERMISSION, p[g] != '-');
      perms := SetPermission(perms, access, WRITE_PERMISSION, p[g + 1] != '-');
      var execPerm := p[g + 2];
      if execPerm != '-' && !IsUpperCase(execPerm) {
        perms := SetPermission(perms, access, EXECUTE_PERMISSION, true);
      } else {
        perms := SetPermission(perms, access, EXECUTE_PERMISSION, false);
      }
      g := g + 3;
    }
  }

  /**
   parseFTPEntry, with the grammar check made before any group is read: `m` is
   the matcher's result for `line` (None when the grammar does not match) and
   `now` is the clock reading `Calendar.getInstance()` would give.
   */
  method ParseFTPEntry(line: string, m: Option<Captures>, now: DateFields) returns (file: Option<FtpEntry>)
    ensures m.None? ==> file == None
    ensures m.Some? ==> file == Some(EntryOf(line, m.value, now))
  {
    if m.None? {
      return None;
    }
    var c := m.value;

    // Timestamp: from the file name in the line, because the server's dates are unreliable.
    var timestamp := now;
    var stamp := StampFields(line);
    if stamp.Some? {
      timestamp := stamp.value;
    }
    assert timestamp == LineTimestamp(line, now);

    // File type.
    var isDevice := false;
    var fileType: FileType;
    match c.typeChar {
      case 'd' => fileType := Directory;
      case 'e' => fileType := SymbolicLink;
      case 'l' => fileType := SymbolicLink;
      case 'b' => isDevice := true; fileType := File;
      case 'c' => isDevice := true; fileType := File;
      case 'f' => fileType := File;
      case '-' => fileType := File;
      case _ => fileType := Unknown;
    }
    assert fileType == TypeOf(c.typeChar) && isDevice == IsDevice(c.typeChar);

    // Permissions.
    var perms := DecodePermissions(c.permissionChars);

    // Hard-link count, not parsed for devices; a parse failure leaves it unset.
    var hardLinkCount := None;
    if !isDevice {
      hardLinkCount := ParseInt(c.hardLinkCount);
    }

    // Size; the "N, M" of a device, or an overflow, leaves it unset.
    var size := ParseLong(c.size);

    // Name, and the link target of a symbolic link.
    var name := c.nameToken;
    var link := None;
    name := name + c.endToken;
    if fileType == SymbolicLink {
      var end := IndexOfFrom(name, LINK_SEPARATOR, 0);
      if end.Some? {
        link := Some(name[end.value + 4..]);
        name := name[..end.value];
      }
    }
    assert (name, link) == NameAndLink(c);

    file := Some(FtpEntry(line, fileType, perms, hardLinkCount, c.user, c.group, size, name, link, timestamp));
  }

  // ------------------------------------------------------------------
  // Properties of the parsed record
  // ------------------------------------------------------------------

  /** The type column: d is a directory, l and e links, b c f and - files (b and c devices), m p S s unknown. */
  lemma TypeMapping(c: char)
    requires c in TYPE_CHARS
    ensures TypeOf(c) == Directory <==> c == 'd'
    ensures TypeOf(c) == SymbolicLink <==> c == 'l' || c == 'e'
    ensures TypeOf(c) == File <==> c in "bcf-"
    ensures IsDevice(c) <==> c == 'b' || c == 'c'
    ensures IsDevice(c) ==> TypeOf(c) == File
    ensures TypeOf(c) == Unknown <==> c in "mpSs"
  {
  }

  /** In an execute slot only x, s and t grant execute; S, T, L and - do not. */
  lemma ExecuteSlot(c: char)
    requires c in EXECUTE_CHARS
    ensures GrantsExecute(c) <==> c in "xst"
  {
  }

  /** Each access class reads its three characters; read and write are granted by anything but '-'. */
  lemma PermissionBits(line: string, c: Captures, now: DateFields, access: nat)
    requires access < 3
    ensures |EntryOf(line, c, now).permissions| == 3
    ensures EntryOf(line, c, now).permissions[access][READ_PERMISSION] == (c.permissionChars[3 * access] != '-')
    ensures EntryOf(line, c, now).permissions[access][WRITE_PERMISSION] == (c.permissionChars[3 * access + 1] != '-')
    ensures c.permissionChars[3 * access + 2] in EXECUTE_CHARS ==>
      (EntryOf(line, c, now).permissions[access][EXECUTE_PERMISSION] <==> c.permissionChars[3 * access + 2] in "xst")
  {
    if c.permissionChars[3 * access + 2] in EXECUTE_CHARS {
      ExecuteSlot(c.permissionChars[3 * access + 2]);
    }
  }

  /** `rwxr-xr--`: owner read, write, execute; group read, execute; other read. */
  lemma PermissionsExample()
    ensures Permissions("rwxr-xr--") == [[true, true, true], [true, false, true], [true, false, false]]
  {
  }

  /** `rwSr-Sr-T`: upper-case execute slots grant no execute; read and write follow their letters. */
  lemma UpperCaseSlotsExample()
    ensures Permissions("rwSr-Sr-T") == [[true, true, false], [true, false, false], [true, false, false]]
  {
  }

  /**
   The hard-link count is set only for a non-device entry whose `\d+` column
   fits an int, and then to the column's value.
   */
  lemma HardLinkCountField(line: string, c: Captures, now: DateFields)
    requires |c.hardLinkCount| > 0 && AllDigits(c.hardLinkCount)
    ensures EntryOf(line, c, now).hardLinkCount.Some? <==> !IsDevice(c.typeChar) && DecimalValue(c.hardLinkCount) <= INT_MAX
    ensures EntryOf(line, c, now).hardLinkCount.Some? ==> EntryOf(line, c, now).hardLinkCount.value == DecimalValue(c.hardLinkCount)
  {
    ParseDigitString(c.hardLinkCount, INT_MIN, INT_MAX);
  }

  /** The size is set for a plain digit column that fits a long, to its value, and left unset for a "N, M" pair. */
  lemma SizeField(line: string, c: Captures, now: DateFields)
    ensures |c.size| > 0 && AllDigits(c.size) ==>
      EntryOf(line, c, now).size == if DecimalValue(c.size) <= LONG_MAX then Some(DecimalValue(c.size)) else None
    ensures ',' in c.size ==> EntryOf(line, c, now).size == None
  {
    if |c.size| > 0 && AllDigits(c.size) {
      ParseDigitString(c.size, LONG_MIN, LONG_MAX);
    }
    if ',' in c.size {
      var k :| 0 <= k < |c.size| && c.size[k] == ',';
      ParseRejectsComma(c.size, k, LONG_MIN, LONG_MAX);
    }
  }

  /** A size column printed in decimal (zero padding allowed) is read back as that size. */
  lemma SizeOfPrintedSize(line: string, c: Captures, now: DateFields, n: nat, width: nat)
    requires 0 < width && n < Pow10(width) && n <= LONG_MAX && c.size == PadDigits(n, width)
    ensures EntryOf(line, c, now).size == Some(n)
  {
    ParseLongOfPadDigits(n, width);
  }

  /**
   Name reconstruction: a non-link is named by the name token followed by the
   rest of the line. A link splits that string at the first " -> ", with the
   target after it; with no separator the whole string is the name.
   */
  lemma NameField(line: string, c: Captures, now: DateFields)
    ensures var e, full := EntryOf(line, c, now), c.nameToken + c.endToken;
      && (e.fileType != SymbolicLink ==> e.name == full && e.link == None)
      && (e.fileType == SymbolicLink && e.link.None? ==>
            e.name == full && forall k :: 0 <= k <= |full| ==> !OccursAt(full, LINK_SEPARATOR, k))
      && (e.link.Some? ==>
            && e.fileType == SymbolicLink
            && full == e.name + LINK_SEPARATOR + e.link.value
            && forall k :: 0 <= k < |e.name| ==> !OccursAt(full, LINK_SEPARATOR, k))
  {
    var full := c.nameToken + c.endToken;
    match IndexOfFrom(full, LINK_SEPARATOR, 0)
    case Some(end) =>
      assert full == full[..end] + LINK_SEPARATOR + full[end + 4..];
    case None =>
  }

  /** The timestamp is the first name timestamp anywhere in the line, read back exactly; with none it is now. */
  lemma TimestampField(head: string, f: DateFields, tail: string, c: Captures, now: DateFields)
    requires Spellable(f)
    requires forall k :: 0 <= k < |head| ==> !StampAt(head + StampText(f) + tail, k)
    ensures EntryOf(head + StampText(f) + tail, c, now).timestamp == f
  {
    StampFieldsRoundTrip(head, f, tail);
  }

  lemma TimestampFallback(line: string, c: Captures, now: DateFields)
    requires forall q :: 0 <= q < |line| ==> !StampAt(line, q)
    ensures EntryOf(line, c, now).timestamp == now
  {
  }

  /**
   Dots before the stamp that are each followed by a non-digit (an owner
   `john.doe`, a link name `latest.mp4`) do not disturb the timestamp: it is
   still the one the file name spells.
   */
  lemma DottedOwnerTimestamp(head: string, f: DateFields, tail: string, c: Captures, now: DateFields)
    requires forall k :: 0 <= k < |head| && head[k] == '.' ==> k + 1 < |head| && !IsDigit(head[k + 1])
    requires Spellable(f)
    ensures EntryOf(head + StampText(f) + tail, c, now).timestamp == f
  {
    DotsBeforeStampNotDigits(head, StampText(f) + tail);
    assert head + StampText(f) + tail == head + (StampText(f) + tail);
    TimestampField(head, f, tail, c, now);
  }

  /**
   The listing line `-rw-r--r-- 1 user group 1024 Jan 1 00:00 camera-a.20230101_000000.mp4`
   is `ScenarioHead() + SCENARIO_STAMP`, with these capture groups.
   */
  function ScenarioHead(): string {
    "-rw-r--r-- 1 " + "user group 1024 " + "Jan 1 00:00 " + "camera-a"
  }

  function ScenarioCaptures(): Captures {
    Captures('-', "rw-r--r--", "1", Some("user"), Some("group"), "1024", "camera-a" + SCENARIO_STAMP, "")
  }

  lemma ScenarioHeadHasNoDot()
    ensures '.' !in ScenarioHead()
  {
  }

  /** The stamp `.20230101_000000.mp4` the scenario's file name carries, built from its fields' digits. */
  const SCENARIO_STAMP: string := "." + "2023" + "01" + "01" + "_" + "00" + "00" + "00" + MP4_SUFFIX

  lemma ScenarioStampText()
    ensures StampText(DateFields(2023, 0, 1, 0, 0, 0)) == SCENARIO_STAMP
  {
    ScenarioStampDigits();
  }

  /** The zero-padded digits of the scenario's fields. */
  lemma ScenarioStampDigits()
    ensures PadDigits(2023, 4) == "2023" && PadDigits(1, 2) == "01" && PadDigits(0, 2) == "00"
  {
    assert PadDigits(2, 1) == "2";
    assert PadDigits(20, 2) == "20";
    assert PadDigits(202, 3) == "202";
    assert PadDigits(0, 1) == "0";
  }

  /** A line ending in camera-a.20230101_000000.mp4 with no dot before it passes the pre-filter and is stamped 2023-01-01 00:00:00 (month 0). */
  lemma ScenarioTimestamp(head: string, c: Captures, now: DateFields)
    requires '.' !in head
    ensures ContainsMp4Token(head + SCENARIO_STAMP)
    ensures EntryOf(head + SCENARIO_STAMP, c, now).timestamp == DateFields(2023, 0, 1, 0, 0, 0)
  {
    var f := DateFields(2023, 0, 1, 0, 0, 0);
    var line := head + SCENARIO_STAMP;
    ScenarioStampText();
    assert line == head + StampText(f) + "";
    DotFreeHeadHasNoStamp(head, StampText(f) + "");
    assert head + (StampText(f) + "") == head + StampText(f) + "";
    TimestampField(head, f, "", c, now);
    StampFieldsRoundTripDotFree(head, f, "");
    StampedLinePassesFilter(line);
  }

  /** The scenario's capture groups give a 1024-byte plain file with one link, owned by user and group. */
  lemma ScenarioColumns(line: string, now: DateFields)
    ensures var e := EntryOf(line, ScenarioCaptures(), now);
      && e.fileType == File && e.size == Some(1024) && e.hardLinkCount == Some(1)
      && e.user == Some("user") && e.group == Some("group")
      && e.name == "camera-a" + SCENARIO_STAMP && e.link == None
  {
    ScenarioNumbers();
  }

  /** The scenario's size and link-count columns as `parseLong` and `parseInt` read them. */
  lemma ScenarioNumbers()
    ensures ParseLong("1024") == Some(1024) && ParseInt("1") == Some(1)
  {
    assert "1024"[..3] == "102" && "102"[..2] == "10" && "10"[..1] == "1" && "1"[..0] == "";
    assert DecimalValue("1024") == 1024;
    ParseDigitString("1024", LONG_MIN, LONG_MAX);
    ParseDigitString("1", INT_MIN, INT_MAX);
  }

  /**
   The whole scenario line: it passes the pre-filter, and its record is a plain
   1024-byte file with one link, named by its feed file name and stamped with
   the date that name spells.
   */
  lemma ScenarioListingLine(now: DateFields)
    ensures var line := ScenarioHead() + SCENARIO_STAMP;
      var e := EntryOf(line, ScenarioCaptures(), now);
      && ContainsMp4Token(line)
      && e.rawListing == line
      && e.timestamp == DateFields(2023, 0, 1, 0, 0, 0)
      && e.fileType == File && e.size == Some(1024) && e.hardLinkCount == Some(1)
      && e.user == Some("user") && e.group == Some("group")
      && e.name == "camera-a" + SCENARIO_STAMP && e.link == None
  {
    ScenarioHeadHasNoDot();
    ScenarioTimestamp(ScenarioHead(), ScenarioCaptures(), now);
    ScenarioColumns(ScenarioHead() + SCENARIO_STAMP, now);
  }

  // ------------------------------------------------------------------
  // parseFTPEntry as written
  // ------------------------------------------------------------------

  /** What a call of the source's parseFTPEntry does: return a record (or null), or throw. */
  datatype ParseOutcome = Returned(file: Option<FtpEntry>) | Threw(exception: JavaException)

  /** The unchecked exceptions a call can raise here. */
  datatype JavaException = IllegalStateException

  /**
   parseFTPEntry as written: it reads `group(1)` ... `group(22)` before testing
   whether `find()` matched, and `Matcher.group` throws IllegalStateException
   when there was no match.
   */
  function ParseFTPEntryAsWritten(line: string, m: Option<Captures>, now: DateFields): (r: ParseOutcome)
    ensures r.Threw? <==> m.None?
    ensures r.Threw? ==> r.exception == IllegalStateException
    ensures r.Returned? ==> r.file.Some? && r.file.value.rawListing == line
  {
    match m
    case None => Threw(IllegalStateException)
    case Some(c) => Returned(Some(EntryOf(line, c, now)))
  }

  /** The `return null` for a line the grammar rejects is unreachable as written; the corrected method returns None there. */
  lemma NullReturnUnreachable(line: string, m: Option<Captures>, now: DateFields)
    ensures ParseFTPEntryAsWritten(line, m, now) != Returned(None)
    ensures m.None? ==> ParseFTPEntryAsWritten(line, m, now).Threw?
  {
  }

  /**
   A bare feed file name passes the pre-filter but is no long listing: as
   written it throws where no entry was intended.
   */
  lemma BareNameThrows(now: DateFields)
    ensures ContainsMp4Token("camera-a" + SCENARIO_STAMP)
    ensures ParseFTPEntryAsWritten("camera-a" + SCENARIO_STAMP, None, now) == Threw(IllegalStateException)
  {
    var f := DateFields(2023, 0, 1, 0, 0, 0);
    ScenarioStampText();
    assert "camera-a" + SCENARIO_STAMP == "camera-a" + StampText(f) + "";
    StampFieldsRoundTripDotFree("camera-a", f, "");
    StampedLinePassesFilter("camera-a" + SCENARIO_STAMP);
  }
}
