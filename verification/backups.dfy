/**
 * The pure part of the backup service: how a backup's object key is formed
 * from its timestamp, how the listing reads timestamps back from keys, the
 * newest-first order offered for restore, which backups fall outside the
 * retention window, and what one backup cycle leaves in the bucket.
 *
 * Dates follow Python's `datetime`: the proleptic Gregorian calendar, years 1
 * to 9999, microsecond resolution. `Instant` counts microseconds from
 * 0001-01-01 00:00, the same scale `datetime` arithmetic uses.
 */
module Backups {
  import opened Common

  datatype DateTime = DateTime(year: int, month: int, day: int, hour: int, minute: int, second: int, microsecond: int)

  predicate IsLeapYear(y: int) {
    y % 4 == 0 && (y % 100 != 0 || y % 400 == 0)
  }

  function DaysInMonth(y: int, m: int): int {
    if m == 2 then (if IsLeapYear(y) then 29 else 28)
    else if m == 4 || m == 6 || m == 9 || m == 11 then 30
    else 31
  }

  predicate ValidDate(y: int, m: int, d: int) {
    1 <= y <= 9999 && 1 <= m <= 12 && 1 <= d <= DaysInMonth(y, m)
  }

  predicate ValidDateTime(dt: DateTime) {
    && ValidDate(dt.year, dt.month, dt.day)
    && 0 <= dt.hour < 24 && 0 <= dt.minute < 60 && 0 <= dt.second < 60
    && 0 <= dt.microsecond < 1000000
  }

  /** Days in the months of year `y` before month `m`. */
  function DaysBeforeMonth(y: int, m: int): int
    decreases m
  {
    if m <= 1 then 0 else DaysBeforeMonth(y, m - 1) + DaysInMonth(y, m - 1)
  }

  /** `date.toordinal()`: 0001-01-01 is day 1. */
  function Ordinal(y: int, m: int, d: int): int {
    365 * (y - 1) + (y - 1) / 4 - (y - 1) / 100 + (y - 1) / 400 + DaysBeforeMonth(y, m) + d
  }

  const Second: int := 1000000
  const DayLength: int := 86400 * Second

  function TimeOfDay(dt: DateTime): int {
    ((dt.hour * 60 + dt.minute) * 60 + dt.second) * Second + dt.microsecond
  }

  /** The position of `dt` on the `datetime` time line, in microseconds. */
  function Instant(dt: DateTime): int {
    (Ordinal(dt.year, dt.month, dt.day) - 1) * DayLength + TimeOfDay(dt)
  }

  /** What `datetime.strptime(s, '%Y%m%d')` returns: that day at midnight. */
  function Midnight(y: int, m: int, d: int): DateTime {
    DateTime(y, m, d, 0, 0, 0, 0)
  }

  lemma TimeOfDayBounds(dt: DateTime)
    requires ValidDateTime(dt)
    ensures 0 <= TimeOfDay(dt) < DayLength
    ensures Instant(dt) == Instant(Midnight(dt.year, dt.month, dt.day)) + TimeOfDay(dt)
  {
  }

  // ---------------------------------------------------------------------------
  // Keys
  // ---------------------------------------------------------------------------

  /** `dt.strftime('%Y%m%d_%H%M%S')`. */
  function TimestampText(dt: DateTime): (s: string)
    requires ValidDateTime(dt)
    ensures |s| == 15 && s[8] == '_'
  {
    ZeroPad(dt.year, 4) + ZeroPad(dt.month, 2) + ZeroPad(dt.day, 2) + "_"
    + ZeroPad(dt.hour, 2) + ZeroPad(dt.minute, 2) + ZeroPad(dt.second, 2)
  }

  /** The prefix every backup key of the directory starts with. */
  function BackupPrefix(dir: string): string {
    dir + "/backup_"
  }

  /** The object key `create_backup` uploads to: `{dir}/backup_{timestamp}.sql`. */
  function BackupKey(dir: string, dt: DateTime): (key: string)
    requires ValidDateTime(dt)
    ensures BackupPrefix(dir) <= key
  {
    BackupPrefix(dir) + TimestampText(dt) + ".sql"
  }

  /** `strptime(s, '%Y%m%d')` on the fixed-width form: eight digits naming a real day. */
  function ParseDate(s: string): (r: Option<(int, int, int)>)
    ensures r.Some? ==> |s| == 8 && AllDigits(s) && ValidDate(r.value.0, r.value.1, r.value.2)
  {
    if |s| != 8 then None
    else
      match (ParseDigits(s[..4]), ParseDigits(s[4..6]), ParseDigits(s[6..]))
      case (Some(y), Some(m), Some(d)) =>
        if ValidDate(y, m, d) then
          assert AllDigits(s) by {
            assert forall i :: 0 <= i < 4 ==> s[i] == s[..4][i];
            assert forall i :: 4 <= i < 6 ==> s[i] == s[4..6][i - 4];
            assert forall i :: 6 <= i < 8 ==> s[i] == s[6..][i - 6];
          }
          Some((y, m, d))
        else None
      case _ => None
  }

  /** `strptime(s, '%H%M%S')` on the fixed-width form: six digits naming a time of day. */
  function ParseTime(s: string): (r: Option<(int, int, int)>)
    ensures r.Some? ==> |s| == 6 && 0 <= r.value.0 < 24 && 0 <= r.value.1 < 60 && 0 <= r.value.2 < 60
  {
    if |s| != 6 then None
    else
      match (ParseDigits(s[..2]), ParseDigits(s[2..4]), ParseDigits(s[4..]))
      case (Some(h), Some(mi), Some(sec)) =>
        if h < 24 && mi < 60 && sec < 60 then Some((h, mi, sec)) else None
      case _ => None
  }

  /** A date and a time read from a key, as the `datetime` they make. */
  function Combine(date: (int, int, int), time: (int, int, int)): DateTime {
    DateTime(date.0, date.1, date.2, time.0, time.1, time.2, 0)
  }

  /** Every field of a timestamp reads back. */
  lemma ParseTimestampFields(dt: DateTime)
    requires ValidDateTime(dt)
    ensures var t := TimestampText(dt);
            && ParseDate(t[..8]) == Some((dt.year, dt.month, dt.day))
            && ParseTime(t[9..]) == Some((dt.hour, dt.minute, dt.second))
            && '_' !in t[..8] && '.' !in t[9..] && '_' !in t[9..]
  {
    var t := TimestampText(dt);
    var date := t[..8];
    var time := t[9..];
    assert date == ZeroPad(dt.year, 4) + ZeroPad(dt.month, 2) + ZeroPad(dt.day, 2);
    assert time == ZeroPad(dt.hour, 2) + ZeroPad(dt.minute, 2) + ZeroPad(dt.second, 2);
    assert date[..4] == ZeroPad(dt.year, 4) && date[4..6] == ZeroPad(dt.month, 2) && date[6..] == ZeroPad(dt.day, 2);
    assert time[..2] == ZeroPad(dt.hour, 2) && time[2..4] == ZeroPad(dt.minute, 2) && time[4..] == ZeroPad(dt.second, 2);
    ParseZeroPad(dt.year, 4);
    ParseZeroPad(dt.month, 2);
    ParseZeroPad(dt.day, 2);
    ParseZeroPad(dt.hour, 2);
    ParseZeroPad(dt.minute, 2);
    ParseZeroPad(dt.second, 2);
    assert AllDigits(date) && AllDigits(time);
  }

  /** How the part of a backup key after the directory splits on `_`. */
  lemma SplitTimestampTail(date: string, time: string)
    requires '_' !in date && '_' !in time && '.' !in time
    ensures Split(date + "_" + time + ".sql", '_') == [date, time + ".sql"]
  {
    assert date + "_" + time + ".sql" == date + ['_'] + (time + ".sql");
    SplitAtFirstSeparator(date, '_', time + ".sql");
    assert '_' !in time + ".sql";
    SplitWithoutSeparator(time + ".sql", '_');
  }

  /** Cutting the time field at its first `.` drops the extension. */
  lemma SplitExtension(time: string)
    requires '.' !in time
    ensures Split(time + ".sql", '.')[0] == time
  {
    assert time + ".sql" == time + ['.'] + "sql";
    SplitAtFirstSeparator(time, '.', "sql");
  }

  /** The timestamp text is its date field, `_`, and its time field. */
  lemma TimestampShape(dt: DateTime)
    requires ValidDateTime(dt)
    ensures var t := TimestampText(dt);
            && t == t[..8] + "_" + t[9..]
            && Split(t + ".sql", '_') == [t[..8], t[9..] + ".sql"]
            && Split(t[9..] + ".sql", '.')[0] == t[9..]
  {
    var t := TimestampText(dt);
    ParseTimestampFields(dt);
    assert t == t[..8] + "_" + t[9..];
    SplitTimestampTail(t[..8], t[9..]);
    SplitExtension(t[9..]);
  }

  /**
   * The timestamp a key carries: the key must start with the prefix; in the
   * rest, the first `_`-field is the date and the second, cut at its first
   * `.`, is the time. A missing field or a failed parse skips the key. This
   * is the reading `get_backup_files` intends; the code itself splits the
   * whole key (`ParseBackupTimeAsWritten`), which agrees whenever the
   * directory has no `_`.
   */
  function ParseBackupTime(dir: string, key: string): (r: Option<DateTime>)
    ensures r.Some? ==> BackupPrefix(dir) <= key && ValidDateTime(r.value) && r.value.microsecond == 0
  {
    var prefix := BackupPrefix(dir);
    if !(prefix <= key) then None
    else
      var fields := Split(key[|prefix|..], '_');
      if |fields| < 2 then None
      else
        match (ParseDate(fields[0]), ParseTime(Split(fields[1], '.')[0]))
        case (Some(date), Some(time)) => Some(Combine(date, time))
        case _ => None
  }

  /**
   * A key `create_backup` writes reads back as its timestamp, with the
   * microseconds `strftime` dropped, whatever the directory.
   */
  lemma BackupKeyRoundTrip(dir: string, dt: DateTime)
    requires ValidDateTime(dt)
    ensures ParseBackupTime(dir, BackupKey(dir, dt)) == Some(dt.(microsecond := 0))
  {
    var t := TimestampText(dt);
    var key := BackupKey(dir, dt);
    assert key[|BackupPrefix(dir)|..] == t + ".sql";
    ParseTimestampFields(dt);
    TimestampShape(dt);
  }

  /**
   * The timestamp `get_backup_files` reads from a key, as written: after the
   * prefix check the WHOLE key is split on `_`, the second field is taken as
   * the date and the third, cut at its first `.`, as the time.
   */
  function ParseBackupTimeAsWritten(dir: string, key: string): (r: Option<DateTime>)
    ensures r.Some? ==> BackupPrefix(dir) <= key && ValidDateTime(r.value) && r.value.microsecond == 0
  {
    if !(BackupPrefix(dir) <= key) then None
    else
      var fields := Split(key, '_');
      if |fields| < 3 then None
      else
        match (ParseDate(fields[1]), ParseTime(Split(fields[2], '.')[0]))
        case (Some(date), Some(time)) => Some(Combine(date, time))
        case _ => None
  }

  /** The day `list_old_backups` reads from a key, as written: the second `_`-field of the whole key. */
  function BackupDayAsWritten(dir: string, key: string): (r: Option<(int, int, int)>)
    ensures r.Some? ==> BackupPrefix(dir) <= key && ValidDate(r.value.0, r.value.1, r.value.2)
  {
    if !(BackupPrefix(dir) <= key) then None
    else
      var fields := Split(key, '_');
      if |fields| < 2 then None else ParseDate(fields[1])
  }

  /**
   * With the directory `db_backup` neither listing can read any key the
   * service writes: the second `_`-field of the key is `backup/backup`.
   */
  lemma UnderscoreDirectoryHidesBackups(dt: DateTime)
    requires ValidDateTime(dt)
    ensures ParseBackupTimeAsWritten("db_backup", BackupKey("db_backup", dt)) == None
    ensures BackupDayAsWritten("db_backup", BackupKey("db_backup", dt)) == None
    ensures ParseBackupTime("db_backup", BackupKey("db_backup", dt)) == Some(dt.(microsecond := 0))
  {
    var t := TimestampText(dt);
    var key := BackupKey("db_backup", dt);
    assert key == "db" + ['_'] + ("backup/backup" + ['_'] + (t + ".sql"));
    SplitAtFirstSeparator("db", '_', "backup/backup" + ['_'] + (t + ".sql"));
    SplitAtFirstSeparator("backup/backup", '_', t + ".sql");
    assert Split(key, '_')[1] == "backup/backup";
    BackupKeyRoundTrip("db_backup", dt);
  }

  /** For a directory without `_` the whole key's second `_`-field is the first one after the prefix. */
  lemma SplitAfterPrefix(dir: string, key: string)
    requires '_' !in dir && BackupPrefix(dir) <= key
    ensures Split(key, '_') == [dir + "/backup"] + Split(key[|BackupPrefix(dir)|..], '_')
  {
    var rest := key[|BackupPrefix(dir)|..];
    assert key == dir + "/backup" + ['_'] + rest;
    assert '_' !in dir + "/backup";
    SplitAtFirstSeparator(dir + "/backup", '_', rest);
  }

  /** Where the directory has no `_`, the code's readings agree with the intended ones on every key. */
  lemma BackupParsersAgree(dir: string, key: string)
    requires '_' !in dir
    ensures ParseBackupTimeAsWritten(dir, key) == ParseBackupTime(dir, key)
    ensures BackupDayAsWritten(dir, key) == BackupDay(dir, key)
  {
    if BackupPrefix(dir) <= key {
      SplitAfterPrefix(dir, key);
    }
  }

  /** So for such a directory the code reads back every key it writes. */
  lemma BackupKeyRoundTripAsWritten(dir: string, dt: DateTime)
    requires '_' !in dir && ValidDateTime(dt)
    ensures ParseBackupTimeAsWritten(dir, BackupKey(dir, dt)) == Some(dt.(microsecond := 0))
    ensures BackupDayAsWritten(dir, BackupKey(dir, dt)) == Some((dt.year, dt.month, dt.day))
  {
    BackupParsersAgree(dir, BackupKey(dir, dt));
    BackupKeyRoundTrip(dir, dt);
    BackupDayOfKey(dir, dt);
  }

  /**
   * With the directory `db_backup` the code reads no key at all: the second
   * `_`-field of every key with the prefix is `backup/backup`.
   */
  lemma UnderscoreDirectoryReadsNothing(key: string)
    ensures ParseBackupTimeAsWritten("db_backup", key) == None
    ensures BackupDayAsWritten("db_backup", key) == None
  {
    if BackupPrefix("db_backup") <= key {
      var rest := key[|BackupPrefix("db_backup")|..];
      assert key == "db" + ['_'] + ("backup/backup" + ['_'] + rest);
      SplitAtFirstSeparator("db", '_', "backup/backup" + ['_'] + rest);
      SplitAtFirstSeparator("backup/backup", '_', rest);
      assert Split(key, '_')[1] == "backup/backup";
    }
  }

  // ---------------------------------------------------------------------------
  // The two readings of a key
  // ---------------------------------------------------------------------------

  /**
   * Which reading of a key's fields an operation uses: `Intended` reads the
   * fields after the prefix; `AsWritten` splits the whole key, as
   * `get_backup_files` and `list_old_backups` do. The two agree whenever the
   * directory has no `_` (`BackupParsersAgree`).
   */
  datatype Reading = Intended | AsWritten

  function ReadTime(rd: Reading, dir: string, key: string): (r: Option<DateTime>)
    ensures r.Some? ==> BackupPrefix(dir) <= key && ValidDateTime(r.value) && r.value.microsecond == 0
  {
    match rd
    case Intended => ParseBackupTime(dir, key)
    case AsWritten => ParseBackupTimeAsWritten(dir, key)
  }

  function ReadDay(rd: Reading, dir: string, key: string): (r: Option<(int, int, int)>)
    ensures r.Some? ==> BackupPrefix(dir) <= key && ValidDate(r.value.0, r.value.1, r.value.2)
  {
    match rd
    case Intended => BackupDay(dir, key)
    case AsWritten => BackupDayAsWritten(dir, key)
  }

  /** A key the service writes reads back under the intended reading, and under the code's when the directory has no `_`. */
  lemma WrittenKeyReads(rd: Reading, dir: string, dt: DateTime)
    requires ValidDateTime(dt)
    requires rd.Intended? || '_' !in dir
    ensures ReadTime(rd, dir, BackupKey(dir, dt)) == Some(dt.(microsecond := 0))
    ensures ReadDay(rd, dir, BackupKey(dir, dt)) == Some((dt.year, dt.month, dt.day))
  {
    BackupKeyRoundTrip(dir, dt);
    BackupDayOfKey(dir, dt);
    if rd.AsWritten? {
      BackupKeyRoundTripAsWritten(dir, dt);
    }
  }

  // ---------------------------------------------------------------------------
  // get_backup_files
  // ---------------------------------------------------------------------------

  /** The keys with a readable timestamp, paired with it, in listing order. */
  function Collect(rd: Reading, dir: string, keys: seq<string>): (r: seq<(string, DateTime)>)
    ensures forall k, dt :: (k, dt) in r <==> k in keys && ReadTime(rd, dir, k) == Some(dt)
    ensures |r| <= |keys|
  {
    if |keys| == 0 then []
    else
      var rest := Collect(rd, dir, keys[1..]);
      assert forall k :: k in keys <==> k == keys[0] || k in keys[1..];
      match ReadTime(rd, dir, keys[0])
      case None => rest
      case Some(dt) => [(keys[0], dt)] + rest
  }

  predicate NewestFirst(r: seq<(string, DateTime)>) {
    forall i, j :: 0 <= i < j < |r| ==> Instant(r[i].1) >= Instant(r[j].1)
  }

  /** Put `x` in front of the first entry that is not newer than it. */
  function InsertNewestFirst(x: (string, DateTime), r: seq<(string, DateTime)>): (r': seq<(string, DateTime)>)
    ensures multiset(r') == multiset(r) + multiset{x}
    ensures |r'| == |r| + 1
    ensures forall i :: 0 <= i < |r'| ==> r'[i] == x || r'[i] in r
  {
    if |r| == 0 then [x]
    else if Instant(r[0].1) <= Instant(x.1) then [x] + r
    else
      var tail := InsertNewestFirst(x, r[1..]);
      assert r == [r[0]] + r[1..];
      var r' := [r[0]] + tail;
      assert forall i :: 1 <= i < |r'| ==> r'[i] == tail[i - 1];
      assert multiset(r') == multiset{r[0]} + multiset(tail);
      assert multiset(r) == multiset{r[0]} + multiset(r[1..]);
      r'
  }

  /** Inserting into a newest-first list keeps it newest first. */
  lemma {:induction false} InsertKeepsNewestFirst(x: (string, DateTime), r: seq<(string, DateTime)>)
    requires NewestFirst(r)
    ensures NewestFirst(InsertNewestFirst(x, r))
  {
    if |r| > 0 && Instant(r[0].1) > Instant(x.1) {
      var tail := InsertNewestFirst(x, r[1..]);
      InsertKeepsNewestFirst(x, r[1..]);
      forall i | 0 <= i < |tail| ensures Instant(tail[i].1) <= Instant(r[0].1) {
        if tail[i] != x {
          var k :| 0 <= k < |r[1..]| && r[1..][k] == tail[i];
          assert r[k + 1] == tail[i];
        }
      }
      assert InsertNewestFirst(x, r) == [r[0]] + tail;
    }
  }

  /** `sorted(entries, key=lambda e: e[1], reverse=True)`. */
  function SortNewestFirst(entries: seq<(string, DateTime)>): (r: seq<(string, DateTime)>)
    ensures NewestFirst(r)
    ensures multiset(r) == multiset(entries)
  {
    if |entries| == 0 then []
    else
      assert entries == [entries[0]] + entries[1..];
      InsertKeepsNewestFirst(entries[0], SortNewestFirst(entries[1..]));
      InsertNewestFirst(entries[0], SortNewestFirst(entries[1..]))
  }

  /**
   * `get_backup_files`: every readable backup key with its timestamp, newest
   * first; keys outside the directory or without a readable timestamp are
   * skipped.
   */
  function GetBackupFiles(rd: Reading, dir: string, keys: seq<string>): (r: seq<(string, DateTime)>)
    ensures NewestFirst(r)
    ensures multiset(r) == multiset(Collect(rd, dir, keys))
    ensures forall k, dt :: (k, dt) in r <==> k in keys && ReadTime(rd, dir, k) == Some(dt)
  {
    var r := SortNewestFirst(Collect(rd, dir, keys));
    assert forall e :: e in r <==> e in Collect(rd, dir, keys) by {
      forall e ensures e in r <==> e in Collect(rd, dir, keys) {
        assert e in r <==> e in multiset(r);
        assert e in Collect(rd, dir, keys) <==> e in multiset(Collect(rd, dir, keys));
      }
    }
    r
  }

  /**
   * Every backup the service wrote is offered for restore, under the
   * intended reading for every directory and under the code's reading for a
   * directory without `_`.
   */
  lemma WrittenBackupIsListed(rd: Reading, dir: string, keys: seq<string>, dt: DateTime)
    requires ValidDateTime(dt)
    requires rd.Intended? || '_' !in dir
    requires BackupKey(dir, dt) in keys
    ensures (BackupKey(dir, dt), dt.(microsecond := 0)) in GetBackupFiles(rd, dir, keys)
  {
    WrittenKeyReads(rd, dir, dt);
  }

  // ---------------------------------------------------------------------------
  // list_old_backups / delete_old_backups
  // ---------------------------------------------------------------------------

  /** The day a key carries: the first `_`-field after the prefix, as `%Y%m%d`. */
  function BackupDay(dir: string, key: string): (r: Option<(int, int, int)>)
    ensures r.Some? ==> BackupPrefix(dir) <= key && ValidDate(r.value.0, r.value.1, r.value.2)
  {
    var prefix := BackupPrefix(dir);
    if !(prefix <= key) then None
    else ParseDate(Split(key[|prefix|..], '_')[0])
  }

  /** Midnight of the key's day lies before the cutoff instant. */
  predicate IsOld(rd: Reading, dir: string, key: string, cutoff: int) {
    match ReadDay(rd, dir, key)
    case None => false
    case Some(d) => Instant(Midnight(d.0, d.1, d.2)) < cutoff
  }

  /** `datetime.now() - timedelta(days=retentionDays)`, on the `Instant` scale. */
  function Cutoff(now: DateTime, retentionDays: int): int {
    Instant(now) - retentionDays * DayLength
  }

  /**
   * `list_old_backups`: the listed keys, in listing order, whose day at
   * midnight is earlier than `retentionDays` days before `now`.
   */
  function ListOldBackups(rd: Reading, dir: string, keys: seq<string>, now: DateTime, retentionDays: int): (r: seq<string>)
    ensures forall k :: k in r <==> k in keys && IsOld(rd, dir, k, Cutoff(now, retentionDays))
    ensures |r| <= |keys|
  {
    if |keys| == 0 then []
    else
      var rest := ListOldBackups(rd, dir, keys[1..], now, retentionDays);
      assert forall k :: k in keys <==> k == keys[0] || k in keys[1..];
      if IsOld(rd, dir, keys[0], Cutoff(now, retentionDays)) then [keys[0]] + rest else rest
  }

  /**
   * The cutoff works on whole days: a backup from before the cutoff's day is
   * old, one from after it is kept, and one from that very day is old unless
   * `now` is exactly midnight.
   */
  lemma OldByDay(rd: Reading, dir: string, key: string, now: DateTime, retentionDays: int)
    requires ValidDateTime(now)
    requires ReadDay(rd, dir, key).Some?
    ensures var d := ReadDay(rd, dir, key).value;
            var day := Ordinal(d.0, d.1, d.2);
            var cutoffDay := Ordinal(now.year, now.month, now.day) - retentionDays;
            && (day < cutoffDay ==> IsOld(rd, dir, key, Cutoff(now, retentionDays)))
            && (day > cutoffDay ==> !IsOld(rd, dir, key, Cutoff(now, retentionDays)))
            && (day == cutoffDay ==> (IsOld(rd, dir, key, Cutoff(now, retentionDays)) <==> TimeOfDay(now) > 0))
  {
    TimeOfDayBounds(now);
    var d := ReadDay(rd, dir, key).value;
    var day := Ordinal(d.0, d.1, d.2);
    var cutoffDay := Ordinal(now.year, now.month, now.day) - retentionDays;
    assert Instant(Midnight(d.0, d.1, d.2)) == (day - 1) * DayLength;
    assert Cutoff(now, retentionDays) == (cutoffDay - 1) * DayLength + TimeOfDay(now);
    if day < cutoffDay {
      assert (day - 1) * DayLength <= (cutoffDay - 1) * DayLength - DayLength;
    } else if day > cutoffDay {
      assert (day - 1) * DayLength >= (cutoffDay - 1) * DayLength + DayLength;
    }
  }

  /** The one `delete_objects` request, or none for an empty list. */
  function DeleteOldBackups(oldKeys: seq<string>): (request: Option<seq<string>>)
    ensures request.None? <==> |oldKeys| == 0
    ensures request.Some? ==> request.value == oldKeys
  {
    if |oldKeys| == 0 then None else Some(oldKeys)
  }

  // ---------------------------------------------------------------------------
  // create_backup
  // ---------------------------------------------------------------------------

  /** The bucket after `delete_objects` with these keys. */
  function RemoveKeys(bucket: seq<string>, request: Option<seq<string>>): (r: seq<string>)
    ensures request.None? ==> r == bucket
    ensures forall k :: k in r <==> k in bucket && (request.None? || k !in request.value)
  {
    match request
    case None => bucket
    case Some(gone) =>
      if |bucket| == 0 then []
      else
        var rest := RemoveKeys(bucket[1..], request);
        assert forall k :: k in bucket <==> k == bucket[0] || k in bucket[1..];
        if bucket[0] in gone then rest else [bucket[0]] + rest
  }

  /** `upload_file` to a key: the listing gains the key once. */
  function Upload(bucket: seq<string>, key: string): (r: seq<string>)
    ensures forall k :: k in r <==> k in bucket || k == key
  {
    if key in bucket then bucket else bucket + [key]
  }

  /**
   * `create_backup`: when the dump succeeds, upload it under the key of the
   * moment `started` the cycle began, then delete what `list_old_backups`
   * finds at `now`. A failed dump leaves the bucket alone.
   */
  function BackupCycle(rd: Reading, dir: string, bucket: seq<string>, dumped: bool, started: DateTime, now: DateTime, retentionDays: int): (r: seq<string>)
    requires ValidDateTime(started)
    ensures !dumped ==> r == bucket
    ensures dumped ==> forall k :: k in r <==>
      (k in bucket || k == BackupKey(dir, started)) && !IsOld(rd, dir, k, Cutoff(now, retentionDays))
  {
    if !dumped then bucket
    else
      var uploaded := Upload(bucket, BackupKey(dir, started));
      RemoveKeys(uploaded, DeleteOldBackups(ListOldBackups(rd, dir, uploaded, now, retentionDays)))
  }

  /** The day a backup key names is the day the cycle started. */
  lemma BackupDayOfKey(dir: string, dt: DateTime)
    requires ValidDateTime(dt)
    ensures BackupDay(dir, BackupKey(dir, dt)) == Some((dt.year, dt.month, dt.day))
  {
    var t := TimestampText(dt);
    assert BackupKey(dir, dt)[|BackupPrefix(dir)|..] == t + ".sql";
    ParseTimestampFields(dt);
    TimestampShape(dt);
  }

  /**
   * With a retention of at least one day, the backup a cycle uploads
   * survives that cycle's pruning, provided the pruning starts at most
   * `retentionDays - 1` days after the cycle.
   */
  lemma FreshBackupSurvives(rd: Reading, dir: string, bucket: seq<string>, started: DateTime, now: DateTime, retentionDays: int)
    requires ValidDateTime(started) && ValidDateTime(now)
    requires rd.Intended? || '_' !in dir
    requires retentionDays >= 1
    requires Instant(started) <= Instant(now) <= Instant(started) + (retentionDays - 1) * DayLength
    ensures BackupKey(dir, started) in BackupCycle(rd, dir, bucket, true, started, now, retentionDays)
  {
    WrittenKeyReads(rd, dir, started);
    TimeOfDayBounds(started);
  }

  /**
   * With a retention of zero days the fresh backup is deleted in the same
   * cycle, unless it was started exactly at midnight.
   */
  lemma ZeroRetentionDeletesFresh(rd: Reading, dir: string, bucket: seq<string>, started: DateTime)
    requires ValidDateTime(started)
    requires rd.Intended? || '_' !in dir
    requires TimeOfDay(started) > 0
    ensures BackupKey(dir, started) !in BackupCycle(rd, dir, bucket, true, started, started, 0)
  {
    WrittenKeyReads(rd, dir, started);
    TimeOfDayBounds(started);
  }

  // ---------------------------------------------------------------------------
  // The code's reading, operation by operation
  // ---------------------------------------------------------------------------

  /**
   * With the directory `db_backup` the code offers nothing for restore,
   * finds nothing old, and so a backup cycle only ever adds its key.
   */
  lemma UnderscoreDirectoryListsNothing(keys: seq<string>, bucket: seq<string>, started: DateTime, now: DateTime, retentionDays: int)
    requires ValidDateTime(started)
    ensures GetBackupFiles(AsWritten, "db_backup", keys) == []
    ensures ListOldBackups(AsWritten, "db_backup", keys, now, retentionDays) == []
    ensures forall k :: k in BackupCycle(AsWritten, "db_backup", bucket, true, started, now, retentionDays)
                        <==> k in bucket || k == BackupKey("db_backup", started)
  {
    forall k {
      UnderscoreDirectoryReadsNothing(k);
    }
  }

  /**
   * With the directory `x_20240101_y` the code reads the same day from every
   * key: the second `_`-field of every key with the prefix is `20240101`.
   */
  lemma DatedDirectoryReadsOneDay(key: string)
    requires BackupPrefix("x_20240101_y") <= key
    ensures BackupDayAsWritten("x_20240101_y", key) == Some((2024, 1, 1))
  {
    var rest := key[|BackupPrefix("x_20240101_y")|..];
    assert key == "x" + ['_'] + ("20240101" + ['_'] + ("y/backup" + ['_'] + rest));
    SplitAtFirstSeparator("x", '_', "20240101" + ['_'] + ("y/backup" + ['_'] + rest));
    SplitAtFirstSeparator("20240101", '_', "y/backup" + ['_'] + rest);
    assert Split(key, '_')[1] == "20240101";
    DirectoryDateParses();
  }

  /** The date field of that directory names 2024-01-01. */
  lemma DirectoryDateParses()
    ensures ParseDate("20240101") == Some((2024, 1, 1))
  {
    var s := "20240101";
    assert s[..4] == "2024" && s[4..6] == "01" && s[6..] == "01";
    assert "2024"[..3] == "202" && "202"[..2] == "20" && "20"[..1] == "2";
    assert ParseDigits("2024") == Some(2024);
    assert "01"[..1] == "0";
    assert ParseDigits("01") == Some(1);
  }

  /**
   * So with that directory, once `now` is past the retention period after
   * 2024-01-01, a cycle deletes every backup, the one it just uploaded
   * included: exactly the bucket's keys without the prefix remain.
   */
  lemma DatedDirectoryPrunesEverything(bucket: seq<string>, started: DateTime, now: DateTime, retentionDays: int)
    requires ValidDateTime(started) && ValidDateTime(now)
    requires Ordinal(now.year, now.month, now.day) - retentionDays > Ordinal(2024, 1, 1)
    ensures forall k :: k in BackupCycle(AsWritten, "x_20240101_y", bucket, true, started, now, retentionDays)
                        <==> k in bucket && !(BackupPrefix("x_20240101_y") <= k)
    ensures BackupKey("x_20240101_y", started) !in BackupCycle(AsWritten, "x_20240101_y", bucket, true, started, now, retentionDays)
  {
    forall k | BackupPrefix("x_20240101_y") <= k
      ensures IsOld(AsWritten, "x_20240101_y", k, Cutoff(now, retentionDays))
    {
      DatedDirectoryReadsOneDay(k);
      OldByDay(AsWritten, "x_20240101_y", k, now, retentionDays);
    }
  }

  /** For a directory without `_` the code's listing equals the intended one. */
  lemma {:induction false} CollectAgrees(dir: string, keys: seq<string>)
    requires '_' !in dir
    ensures Collect(AsWritten, dir, keys) == Collect(Intended, dir, keys)
    decreases |keys|
  {
    if |keys| > 0 {
      BackupParsersAgree(dir, keys[0]);
      CollectAgrees(dir, keys[1..]);
    }
  }

  /** For a directory without `_` the code finds exactly the keys the intended reading finds old. */
  lemma {:induction false} ListOldAgrees(dir: string, keys: seq<string>, now: DateTime, retentionDays: int)
    requires '_' !in dir
    ensures ListOldBackups(AsWritten, dir, keys, now, retentionDays) == ListOldBackups(Intended, dir, keys, now, retentionDays)
    decreases |keys|
  {
    if |keys| > 0 {
      BackupParsersAgree(dir, keys[0]);
      ListOldAgrees(dir, keys[1..], now, retentionDays);
    }
  }

  /** For a directory without `_`, listing, pruning and the whole cycle behave as intended. */
  lemma ReadingsAgree(dir: string, keys: seq<string>, bucket: seq<string>, dumped: bool, started: DateTime, now: DateTime, retentionDays: int)
    requires '_' !in dir && ValidDateTime(started)
    ensures GetBackupFiles(AsWritten, dir, keys) == GetBackupFiles(Intended, dir, keys)
    ensures ListOldBackups(AsWritten, dir, keys, now, retentionDays) == ListOldBackups(Intended, dir, keys, now, retentionDays)
    ensures BackupCycle(AsWritten, dir, bucket, dumped, started, now, retentionDays)
         == BackupCycle(Intended, dir, bucket, dumped, started, now, retentionDays)
  {
    CollectAgrees(dir, keys);
    ListOldAgrees(dir, keys, now, retentionDays);
    ListOldAgrees(dir, Upload(bucket, BackupKey(dir, started)), now, retentionDays);
  }
}
