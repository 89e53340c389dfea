/**
 The feed file naming convention `<name>.<YYYYMMDD>_<hhmmss>.mp4` and the two
 patterns the feed cleaner looks for with `Matcher.find()`:

 - the listing pre-filter `[a-z]*\.[0-9]*_[0-9]*\.mp4`;
 - the timestamp pattern `([a-z-_]*)\.([0-9]{4})([0-9]{2})([0-9]{2})_([0-9]{2})([0-9]{2})([0-9]{2})\.mp4`.

 Each pattern is given twice: as the set of words it matches (ghost), and as a
 deterministic left-to-right recogniser; lemmas prove that the two agree.
 */
module NameConvention {
  import opened Wrappers
  import opened Decimal

  const MP4_SUFFIX: string := ".mp4"

  predicate IsLowerLetter(c: char) {
    'a' <= c <= 'z'
  }

  /** The character class `[a-z-_]` of the timestamp pattern's leading name. */
  predicate IsNamePrefixChar(c: char) {
    IsLowerLetter(c) || c == '-' || c == '_'
  }

  // ------------------------------------------------------------------
  // The pre-filter pattern  [a-z]*\.[0-9]*_[0-9]*\.mp4
  // ------------------------------------------------------------------

  /** `t` as a whole is a word of the pre-filter pattern, with its dot at `a` and its underscore at `b`. */
  ghost predicate TokenShape(t: string, a: nat, b: nat) {
    && a < b && b + 5 <= |t|
    && (forall k :: 0 <= k < a ==> IsLowerLetter(t[k]))
    && t[a] == '.'
    && AllDigits(t[a + 1..b])
    && t[b] == '_'
    && AllDigits(t[b + 1..|t| - 4])
    && t[|t| - 4..] == MP4_SUFFIX
  }

  ghost predicate IsMp4Token(t: string) {
    exists a: nat, b: nat :: TokenShape(t, a, b)
  }

  /** What `find()` reports for the pre-filter pattern: some substring of the line is one of its words. */
  ghost predicate HasMp4Token(line: string) {
    exists i, j :: 0 <= i <= j <= |line| && IsMp4Token(line[i..j])
  }

  /** The end of the longest run of digits in `s` that starts at `k`. */
  function DigitRunEnd(s: string, k: nat): (e: nat)
    requires k <= |s|
    ensures k <= e <= |s| && AllDigits(s[k..e])
    ensures e == |s| || !IsDigit(s[e])
    decreases |s| - k
  {
    if k < |s| && IsDigit(s[k]) then
      DigitRunEnd(s, k + 1)
    else k
  }

  /** A run of digits ends at the first non-digit. */
  lemma DigitRunEndAt(s: string, k: nat, e: nat)
    requires k <= e < |s| && AllDigits(s[k..e]) && !IsDigit(s[e])
    ensures DigitRunEnd(s, k) == e
  {
  }

  /**
   `\.[0-9]*_[0-9]*\.mp4` with its dot at `i`. Digit runs cannot contain '_' or '.',
   so the match, when there is one, is the one with the longest digit runs.
   */
  predicate TokenAt(s: string, i: nat) {
    && i < |s| && s[i] == '.'
    && var b := DigitRunEnd(s, i + 1);
    && b < |s| && s[b] == '_'
    && var m := DigitRunEnd(s, b + 1);
    && m + 4 <= |s| && s[m..m + 4] == MP4_SUFFIX
  }

  /** Scans for a dot at which `TokenAt` holds, from position `i` on. */
  function ContainsMp4TokenFrom(s: string, i: nat): (found: bool)
    requires i <= |s|
    ensures found <==> exists p :: i <= p < |s| && TokenAt(s, p)
    decreases |s| - i
  {
    i < |s| && (TokenAt(s, i) || ContainsMp4TokenFrom(s, i + 1))
  }

  lemma SliceOfSlice(s: string, i: nat, j: nat, x: nat, y: nat)
    requires i <= j <= |s| && x <= y <= j - i
    ensures s[i..j][x..y] == s[i + x..i + y]
  {
    assert forall k | 0 <= k < y - x :: s[i..j][x..y][k] == s[i + x..i + y][k];
  }

  lemma SuffixOfSlice(s: string, i: nat, j: nat, x: nat)
    requires i <= j <= |s| && x <= j - i
    ensures s[i..j][x..] == s[i + x..j]
  {
    assert forall k | 0 <= k < j - i - x :: s[i..j][x..][k] == s[i + x..j][k];
  }

  /** The pre-filter's test on one listing line. */
  predicate ContainsMp4Token(line: string) {
    ContainsMp4TokenFrom(line, 0)
  }

  /** A dot at which the recogniser succeeds starts a word of the pattern. */
  lemma TokenAtIsToken(line: string, p: nat)
    requires TokenAt(line, p)
    ensures HasMp4Token(line)
  {
    var b, m := TokenAtParts(line, p);
    PartsAreToken(line, p, b, m);
  }

  /** The positions of the underscore and the suffix that `TokenAt` found. */
  lemma TokenAtParts(s: string, p: nat) returns (b: nat, m: nat)
    requires TokenAt(s, p)
    ensures p < b < m && m + 4 <= |s|
    ensures s[p] == '.' && AllDigits(s[p + 1..b]) && s[b] == '_'
    ensures AllDigits(s[b + 1..m]) && s[m..m + 4] == MP4_SUFFIX
  {
    b := DigitRunEnd(s, p + 1);
    m := DigitRunEnd(s, b + 1);
  }

  /** A dot, digits, an underscore, digits and the suffix, in a row, form a word of the pattern. */
  lemma PartsAreToken(s: string, p: nat, b: nat, m: nat)
    requires p < b < m && m + 4 <= |s|
    requires s[p] == '.' && AllDigits(s[p + 1..b]) && s[b] == '_'
    requires AllDigits(s[b + 1..m]) && s[m..m + 4] == MP4_SUFFIX
    ensures HasMp4Token(s)
  {
    var t := s[p..m + 4];
    SliceOfSlice(s, p, m + 4, 1, b - p);
    SliceOfSlice(s, p, m + 4, b - p + 1, |t| - 4);
    SuffixOfSlice(s, p, m + 4, |t| - 4);
    assert TokenShape(t, 0, b - p);
  }

  /** A word of the pattern inside the line has its dot where the recogniser succeeds. */
  lemma TokenIsTokenAt(line: string, i: nat, j: nat) returns (p: nat)
    requires i <= j <= |line| && IsMp4Token(line[i..j])
    ensures i <= p < j && TokenAt(line, p)
  {
    var a, b := TokenShapeInLine(line, i, j);
    p := i + a;
    assert line[j - 4] == '.' by {
      assert line[j - 4..j][0] == line[j - 4];
    }
    DigitRunEndAt(line, p + 1, i + b);
    DigitRunEndAt(line, i + b + 1, j - 4);
    TokenAtIntro(line, p, i + b, j - 4);
  }

  /** The parts of a word of the pattern, at their positions in the line it was cut from. */
  lemma TokenShapeInLine(line: string, i: nat, j: nat) returns (a: nat, b: nat)
    requires i <= j <= |line| && IsMp4Token(line[i..j])
    ensures i + a < i + b && i + b + 5 <= j
    ensures line[i + a] == '.' && line[i + b] == '_'
    ensures AllDigits(line[i + a + 1..i + b]) && AllDigits(line[i + b + 1..j - 4])
    ensures line[j - 4..j] == MP4_SUFFIX
  {
    var t := line[i..j];
    a, b :| TokenShape(t, a, b);
    assert line[i + a] == t[a];
    assert line[i + b] == t[b];
    SliceOfSlice(line, i, j, a + 1, b);
    SliceOfSlice(line, i, j, b + 1, |t| - 4);
    SuffixOfSlice(line, i, j, |t| - 4);
  }

  /** `TokenAt` from its parts: the dot, the end of each digit run, and the suffix. */
  lemma TokenAtIntro(s: string, p: nat, b: nat, m: nat)
    requires p < b < m && m + 4 <= |s| && s[p] == '.' && s[b] == '_'
    requires DigitRunEnd(s, p + 1) == b && DigitRunEnd(s, b + 1) == m
    requires s[m..m + 4] == MP4_SUFFIX
    ensures TokenAt(s, p)
  {
  }

  /** The recogniser decides exactly the substring search of the pre-filter pattern. */
  lemma ContainsMp4TokenIsFind(line: string)
    ensures ContainsMp4Token(line) <==> HasMp4Token(line)
  {
    if ContainsMp4Token(line) {
      var p :| 0 <= p < |line| && TokenAt(line, p);
      TokenAtIsToken(line, p);
    }
    if HasMp4Token(line) {
      var i, j :| 0 <= i <= j <= |line| && IsMp4Token(line[i..j]);
      var p := TokenIsTokenAt(line, i, j);
    }
  }

  // ------------------------------------------------------------------
  // The timestamp pattern  ([a-z-_]*)\.(\d{4})(\d{2})(\d{2})_(\d{2})(\d{2})(\d{2})\.mp4
  // ------------------------------------------------------------------

  /** Length of the fixed part `.YYYYMMDD_hhmmss.mp4`. */
  const STAMP_LENGTH: nat := 20

  /** The fixed part `.YYYYMMDD_hhmmss.mp4` occurs in `s` with its dot at `r`; one conjunct per capture group. */
  predicate StampAt(s: string, r: nat) {
    && r + STAMP_LENGTH <= |s|
    && s[r] == '.'
    && AllDigits(s[r + 1..r + 5])
    && AllDigits(s[r + 5..r + 7])
    && AllDigits(s[r + 7..r + 9])
    && s[r + 9] == '_'
    && AllDigits(s[r + 10..r + 12])
    && AllDigits(s[r + 12..r + 14])
    && AllDigits(s[r + 14..r + 16])
    && s[r + 16..r + 20] == MP4_SUFFIX
  }

  /** A match of the whole timestamp pattern spanning `s[p..q + STAMP_LENGTH]`, its name group being `s[p..q]`. */
  ghost predicate StampMatch(s: string, p: nat, q: nat) {
    StampAt(s, q) && p <= q && forall k :: p <= k < q ==> IsNamePrefixChar(s[k])
  }

  /** The leftmost position, from `i` on, at which the fixed part occurs. */
  function FirstStampFrom(s: string, i: nat): (r: Option<nat>)
    requires i <= |s|
    ensures r.Some? ==> i <= r.value < |s| && StampAt(s, r.value)
    ensures r.Some? ==> forall k :: i <= k < r.value ==> !StampAt(s, k)
    ensures r.None? ==> forall k :: i <= k < |s| ==> !StampAt(s, k)
    decreases |s| - i
  {
    if i == |s| then None
    else if StampAt(s, i) then Some(i)
    else FirstStampFrom(s, i + 1)
  }

  /** Which match `find()` returns: the leftmost-starting one has its dot at the first occurrence of the fixed part. */
  lemma FindPicksFirstStamp(s: string, p: nat, q: nat)
    requires StampMatch(s, p, q)
    requires forall p': nat, q': nat :: p' < p ==> !StampMatch(s, p', q')
    ensures FirstStampFrom(s, 0) == Some(q)
  {
    var r := FirstStampFrom(s, 0);
    assert r.Some?;
    if r.value < p {
      assert StampMatch(s, r.value, r.value);
    }
  }

  /** The timestamp pattern matches somewhere exactly when the fixed part occurs somewhere. */
  lemma StampFoundIffMatch(s: string)
    ensures FirstStampFrom(s, 0).Some? <==> exists p, q :: StampMatch(s, p, q)
  {
    var r := FirstStampFrom(s, 0);
    if r.Some? {
      assert StampMatch(s, r.value, r.value);
    }
    if exists p, q :: StampMatch(s, p, q) {
      var p, q :| StampMatch(s, p, q);
      assert StampAt(s, q);
    }
  }

  lemma AllDigitsJoin(s: string, i: nat, j: nat, k: nat)
    requires i <= j <= k <= |s| && AllDigits(s[i..j]) && AllDigits(s[j..k])
    ensures AllDigits(s[i..k])
  {
    forall x | 0 <= x < k - i ensures IsDigit(s[i..k][x]) {
      if x < j - i {
        assert s[i..j][x] == s[i + x];
      } else {
        assert s[j..k][x - (j - i)] == s[i + x];
      }
    }
  }

  /** Where the timestamp pattern occurs, so does the pre-filter pattern. */
  lemma StampIsToken(s: string, r: nat)
    requires StampAt(s, r)
    ensures TokenAt(s, r)
  {
    AllDigitsJoin(s, r + 1, r + 5, r + 7);
    AllDigitsJoin(s, r + 1, r + 7, r + 9);
    AllDigitsJoin(s, r + 10, r + 12, r + 14);
    AllDigitsJoin(s, r + 10, r + 14, r + 16);
    DigitRunEndAt(s, r + 1, r + 9);
    assert s[r + 16] == s[r + 16..r + 20][0];
    DigitRunEndAt(s, r + 10, r + 16);
  }

  /** Every line the timestamp pattern finds something in passes the pre-filter. */
  lemma StampedLinePassesFilter(s: string)
    requires FirstStampFrom(s, 0).Some?
    ensures ContainsMp4Token(s)
  {
    StampIsToken(s, FirstStampFrom(s, 0).value);
  }

  /**
   The wall-clock fields a `Calendar` is set to: `month` is the 0-based
   `Calendar.MONTH`, so it is the two-digit month of the name minus one.
   */
  datatype DateFields = DateFields(year: int, month: int, day: int, hour: int, minute: int, second: int)

  /** The fields read from the occurrence of the fixed part at `r` (capture groups 2 to 7). */
  function FieldsAt(s: string, r: nat): DateFields
    requires StampAt(s, r)
  {
    DateFields(
      DecimalValue(s[r + 1..r + 5]),
      DecimalValue(s[r + 5..r + 7]) - 1,
      DecimalValue(s[r + 7..r + 9]),
      DecimalValue(s[r + 10..r + 12]),
      DecimalValue(s[r + 12..r + 14]),
      DecimalValue(s[r + 14..r + 16]))
  }

  /** The fields of the first timestamp match in `s`, or None when the pattern does not occur. */
  function StampFields(s: string): (r: Option<DateFields>)
    ensures r.Some? <==> exists q :: 0 <= q < |s| && StampAt(s, q)
  {
    match FirstStampFrom(s, 0)
    case Some(q) => Some(FieldsAt(s, q))
    case None => None
  }

  /** Field values that a name of the convention can spell: four digits of year, two of everything else. */
  predicate Spellable(f: DateFields) {
    && 0 <= f.year < 10000
    && 0 <= f.month + 1 < 100
    && 0 <= f.day < 100
    && 0 <= f.hour < 100
    && 0 <= f.minute < 100
    && 0 <= f.second < 100
  }

  /** The fixed part `.YYYYMMDD_hhmmss.mp4` spelling `f`. */
  function StampText(f: DateFields): (t: string)
    requires Spellable(f)
    ensures |t| == STAMP_LENGTH
  {
    "." + PadDigits(f.year, 4) + PadDigits(f.month + 1, 2) + PadDigits(f.day, 2)
    + "_" + PadDigits(f.hour, 2) + PadDigits(f.minute, 2) + PadDigits(f.second, 2) + MP4_SUFFIX
  }

  /**
   Reading a line back recovers the fields its stamp was spelled from, whatever
   precedes or follows it, once no earlier position of the line starts a stamp.
   */
  lemma StampFieldsRoundTrip(head: string, f: DateFields, tail: string)
    requires Spellable(f)
    requires forall k :: 0 <= k < |head| ==> !StampAt(head + StampText(f) + tail, k)
    ensures StampFields(head + StampText(f) + tail) == Some(f)
  {
    var s := head + StampText(f) + tail;
    var q := |head|;
    assert Pow10(2) == 100 && Pow10(4) == 10000;
    assert s[q + 1..q + 5] == PadDigits(f.year, 4);
    assert s[q + 5..q + 7] == PadDigits(f.month + 1, 2);
    assert s[q + 7..q + 9] == PadDigits(f.day, 2);
    assert s[q + 10..q + 12] == PadDigits(f.hour, 2);
    assert s[q + 12..q + 14] == PadDigits(f.minute, 2);
    assert s[q + 14..q + 16] == PadDigits(f.second, 2);
    assert s[q + 16..q + 20] == MP4_SUFFIX;
    assert StampAt(s, q);
    var r := FirstStampFrom(s, 0);
    assert r == Some(q);
    PadDigitsValue(f.year, 4);
    PadDigitsValue(f.month + 1, 2);
    PadDigitsValue(f.day, 2);
    PadDigitsValue(f.hour, 2);
    PadDigitsValue(f.minute, 2);
    PadDigitsValue(f.second, 2);
  }

  /** A stamp starts at a dot, so none starts inside a head that holds no dot. */
  lemma DotFreeHeadHasNoStamp(head: string, rest: string)
    requires '.' !in head
    ensures forall k :: 0 <= k < |head| ==> !StampAt(head + rest, k)
  {
    forall k | 0 <= k < |head| ensures !StampAt(head + rest, k) {
      assert (head + rest)[k] == head[k];
    }
  }

  /** The conventional case: a name whose stamp has no dot before it is read back exactly. */
  lemma StampFieldsRoundTripDotFree(head: string, f: DateFields, tail: string)
    requires '.' !in head && Spellable(f)
    ensures StampFields(head + StampText(f) + tail) == Some(f)
  {
    DotFreeHeadHasNoStamp(head, StampText(f) + tail);
    assert head + StampText(f) + tail == head + (StampText(f) + tail);
    StampFieldsRoundTrip(head, f, tail);
  }

  /**
   A dot followed by a non-digit (`john.doe`, `latest.mp4`) never starts a stamp,
   so a head whose every dot is like that holds none.
   */
  lemma DotsBeforeStampNotDigits(head: string, rest: string)
    requires forall k :: 0 <= k < |head| && head[k] == '.' ==> k + 1 < |head| && !IsDigit(head[k + 1])
    ensures forall k :: 0 <= k < |head| ==> !StampAt(head + rest, k)
  {
    var s := head + rest;
    forall k | 0 <= k < |head| ensures !StampAt(s, k) {
      assert s[k] == head[k];
      if head[k] == '.' && k + STAMP_LENGTH <= |s| {
        assert s[k + 1] == head[k + 1];
        assert s[k + 1..k + 5][0] == s[k + 1];
      }
    }
  }
}
