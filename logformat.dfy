/**
  One line of the backup log: the sample it is written from, the text
  `_write_to_backup_file` appends (serverApi/backup.py:81-83) and the per-line
  parse both history readers run (serverApi/backup.py:176-199 and 228-249).
  Numbers are kept as the text `str()` gives them; `float()` is the check that
  a piece is such a text.
 */
module LogFormat {
  import opened Wrappers
  import opened Text
  import opened Timestamp

  /** A number as written in the log: the text of a Python float. */
  type Num = string

  datatype CpuStatus = CpuStatus(percent: Num, cores: Option<nat>)
  datatype MemoryStatus = MemoryStatus(totalGb: Num, usedGb: Num, percent: Num)
  datatype DiskStatus = DiskStatus(totalGb: Num, usedGb: Num, percent: Num)

  /** The dictionary `GetSystemStatus` returns (serverApi/backup.py:27-39). */
  datatype Sample = Sample(cpu: CpuStatus, memory: MemoryStatus, disk: DiskStatus)

  // ---------------------------------------------------------------------------
  // float() on a piece of a line

  /** Plain decimal numerals as `float()` accepts them: an optional sign, then
      digits with at most one decimal point and at least one digit. */
  predicate IsFloatText(t: string) {
    var body := if |t| > 0 && (t[0] == '+' || t[0] == '-') then t[1..] else t;
    var parts := Split(body, '.');
    || (|parts| == 1 && |parts[0]| > 0 && AllDigits(parts[0]))
    || (|parts| == 2 && AllDigits(parts[0]) && AllDigits(parts[1]) && |parts[0]| + |parts[1]| > 0)
  }

  predicate IsNumeralChar(c: char) {
    IsDigit(c) || c == '.' || c == '+' || c == '-'
  }

  /** A numeral is non-empty and made of digits, a point and a sign only, so it
      holds no colon and no whitespace. */
  lemma FloatTextChars(t: string)
    requires IsFloatText(t)
    ensures |t| > 0
    ensures forall i | 0 <= i < |t| :: IsNumeralChar(t[i])
  {
    var signed := |t| > 0 && (t[0] == '+' || t[0] == '-');
    var body := if signed then t[1..] else t;
    var parts := Split(body, '.');
    JoinSplit(body, '.');
    if |parts| == 2 {
      assert body == parts[0] + ['.'] + parts[1];
    }
    assert forall i | 0 <= i < |body| :: IsNumeralChar(body[i]);
    if signed {
      forall i | 0 <= i < |t| ensures IsNumeralChar(t[i]) {
        if i > 0 { assert t[i] == body[i - 1]; }
      }
    }
  }

  lemma NumeralHasNoSeparator(t: string)
    requires IsFloatText(t)
    ensures |t| > 0 && ':' !in t && !IsSpace(t[0]) && !IsSpace(t[|t| - 1])
  {
    FloatTextChars(t);
  }

  // ---------------------------------------------------------------------------
  // the writer

  /** The four values one log line carries, and the clock reading it is stamped with. */
  datatype LoggedValues = LoggedValues(stamp: DateTime, cpu: Num, memoryUsed: Num,
                                       memoryPercent: Num, diskPercent: Num)

  /** What the writer is given from a sample (serverApi/backup.py:55-60): the cpu
      percent, memory used, memory percent and disk percent, in that order. */
  function LoggedValuesOf(s: Sample, stamp: DateTime): (v: LoggedValues)
    ensures v.stamp == stamp && v.cpu == s.cpu.percent && v.memoryUsed == s.memory.usedGb
    ensures v.memoryPercent == s.memory.percent && v.diskPercent == s.disk.percent
  {
    LoggedValues(stamp, s.cpu.percent, s.memory.usedGb, s.memory.percent, s.disk.percent)
  }

  /** The values a real run writes: a clock reading and four numerals. */
  predicate WellFormed(v: LoggedValues) {
    && ValidDateTime(v.stamp)
    && IsFloatText(v.cpu) && IsFloatText(v.memoryUsed)
    && IsFloatText(v.memoryPercent) && IsFloatText(v.diskPercent)
  }

  /** `f"{current_time}:{cpu_percent}:{memory_used_gb}:{memory_percent}:{disk_percent}"`. */
  function LineText(v: LoggedValues): string
    requires ValidDateTime(v.stamp)
  {
    Format(v.stamp) + ":" + v.cpu + ":" + v.memoryUsed + ":" + v.memoryPercent + ":" + v.diskPercent
  }

  /** The line appended to the log, newline included. */
  function BackupLine(v: LoggedValues): string
    requires ValidDateTime(v.stamp)
  {
    LineText(v) + "\n"
  }

  // ---------------------------------------------------------------------------
  // the reader's parse of one line

  /** One entry of the readers' result list (serverApi/backup.py:190-196). */
  datatype Record = Record(timestamp: string, cpu: Num, memoryUsed: Num,
                           memoryPercent: Num, diskPercent: Num)

  /** What the loop body does with one line: skip it for one of five reasons
      (each an exception caught by the loop or a `continue`), or parse it. */
  datatype LineOutcome =
    | Blank            // the stripped line is empty
    | TooFewFields     // fewer than 5 colon-separated pieces
    | BadTimestamp     // strptime raises on the rebuilt timestamp
    | MissingField     // 5 or 6 pieces: IndexError, unless float() already failed on an earlier piece
    | BadNumber        // float() raises on one of parts[3..6]
    | Parsed(time: DateTime, record: Record)

  /** The character the reader puts between `parts[0]`, `parts[1]` and
      `parts[2]` when it rebuilds the timestamp: a space at
      serverApi/backup.py:185 and 237. */
  const AsWrittenSep: char := ' '

  /** The character the comments at serverApi/backup.py:181 and 184 describe. */
  const IntendedSep: char := ':'

  function RebuildTimestamp(parts: seq<string>, sep: char): string
    requires |parts| >= 3
  {
    parts[0] + [sep] + parts[1] + [sep] + parts[2]
  }

  /** `float()` accepts each of the four value pieces `parts[3..6]`. */
  predicate NumeralsAt(parts: seq<string>)
    requires |parts| >= 7
  {
    IsFloatText(parts[3]) && IsFloatText(parts[4]) && IsFloatText(parts[5]) && IsFloatText(parts[6])
  }

  /** The per-line parse, with the timestamp rebuilt using `sep`. A line is
      parsed exactly when, once stripped, it is not empty, splits on ':' into at
      least seven pieces, the first three rejoin into a timestamp `strptime`
      accepts, and `float()` accepts pieces 3 to 6; the record then carries that
      time's text and those four pieces, in order. */
  function ParseLine(line: string, sep: char): (o: LineOutcome)
    ensures o.Blank? <==> Strip(line) == []
    ensures var parts := Split(Strip(line), ':');
            o.Parsed? <==> && Strip(line) != [] && |parts| >= 7
                           && ParseTimestamp(RebuildTimestamp(parts, sep)).Some? && NumeralsAt(parts)
    ensures var parts := Split(Strip(line), ':');
            o.Parsed? ==> && |parts| >= 7
                          && ParseTimestamp(RebuildTimestamp(parts, sep)) == Some(o.time)
                          && o.record == Record(Format(o.time), parts[3], parts[4], parts[5], parts[6])
    ensures o.Parsed? ==> ValidDateTime(o.time) && ParseTimestamp(o.record.timestamp) == Some(o.time)
  {
    var s := Strip(line);
    if s == [] then Blank else ParseFields(Split(s, ':'), sep)
  }

  /** The parse of a non-blank line's colon-separated pieces: skipped with fewer
      than five pieces, then when `strptime` rejects the rebuilt timestamp, then
      when a value piece is missing or `float()` rejects it. */
  function ParseFields(parts: seq<string>, sep: char): (o: LineOutcome)
    ensures !o.Blank?
    ensures o == TooFewFields <==> |parts| < 5
    ensures o == BadTimestamp <==> |parts| >= 5 && ParseTimestamp(RebuildTimestamp(parts, sep)).None?
    ensures o.Parsed? <==> && |parts| >= 7
                           && ParseTimestamp(RebuildTimestamp(parts, sep)).Some? && NumeralsAt(parts)
    ensures o.Parsed? ==> && |parts| >= 7
                          && ParseTimestamp(RebuildTimestamp(parts, sep)) == Some(o.time)
                          && o.record == Record(Format(o.time), parts[3], parts[4], parts[5], parts[6])
    ensures o.Parsed? ==> ValidDateTime(o.time) && ParseTimestamp(o.record.timestamp) == Some(o.time)
  {
    if |parts| < 5 then TooFewFields
    else match ParseTimestamp(RebuildTimestamp(parts, sep))
      case None => BadTimestamp
      case Some(t) => FieldsAt(t, parts)
  }

  /** The rest of the parse once the timestamp has been read as `t`: parsed
      exactly when the four value pieces are there and are numerals. */
  function FieldsAt(t: DateTime, parts: seq<string>): (o: LineOutcome)
    requires ValidDateTime(t)
    ensures o.Parsed? <==> |parts| >= 7 && NumeralsAt(parts)
    ensures o == MissingField <==> |parts| < 7
    ensures o.Parsed? ==> |parts| >= 7 && o == Parsed(t, Record(Format(t), parts[3], parts[4], parts[5], parts[6]))
    ensures o.Parsed? ==> ParseTimestamp(o.record.timestamp) == Some(t)
  {
    if |parts| < 7 then MissingField
    else if !NumeralsAt(parts) then BadNumber
    else
      ParseFormat(t);
      Parsed(t, Record(Format(t), parts[3], parts[4], parts[5], parts[6]))
  }

  /** The record a well-formed line should read back as. */
  function RecordOf(v: LoggedValues): Record
    requires ValidDateTime(v.stamp)
  {
    Record(Format(v.stamp), v.cpu, v.memoryUsed, v.memoryPercent, v.diskPercent)
  }

  // ---------------------------------------------------------------------------
  // properties of the line format

  /** Stripping a written line removes exactly its newline. */
  lemma StripBackupLine(v: LoggedValues)
    requires WellFormed(v)
    ensures Strip(BackupLine(v)) == LineText(v)
  {
    var line := LineText(v);
    NumeralHasNoSeparator(v.diskPercent);
    assert line[0] == Format(v.stamp)[0];
    assert line[|line| - 1] == v.diskPercent[|v.diskPercent| - 1];
    assert IsSpace("\n"[0]);
    StripWhitespaceTail(line, "\n");
  }

  /** A timestamp text is three colon-free pieces joined by colons. */
  lemma TimestampPieces(d: DateTime)
    requires ValidDateTime(d)
    ensures Format(d) == Format(d)[..13] + [':'] + Format(d)[14..16] + [':'] + Format(d)[17..]
    ensures ':' !in Format(d)[..13] && ':' !in Format(d)[14..16] && ':' !in Format(d)[17..]
  {
    var f := Format(d);
    var p0, p1, p2 := f[..13], f[14..16], f[17..];
    assert ':' !in p0 by {
      forall i | 0 <= i < 13 ensures p0[i] != ':' { assert p0[i] == f[i]; }
    }
    assert ':' !in p1 by {
      forall i | 0 <= i < 2 ensures p1[i] != ':' { assert p1[i] == f[i + 14]; }
    }
    assert ':' !in p2 by {
      forall i | 0 <= i < 2 ensures p2[i] != ':' { assert p2[i] == f[i + 17]; }
    }
  }

  /** Colon-free pieces joined by colons split back into the pieces: three, then seven. */
  lemma SplitThree(p0: string, p1: string, p2: string)
    requires ':' !in p0 && ':' !in p1 && ':' !in p2
    ensures Split(p0 + [':'] + (p1 + [':'] + p2), ':') == [p0, p1, p2]
  {
    SplitNone(p2, ':');
    SplitCons(p1, p2, ':');
    SplitCons(p0, p1 + [':'] + p2, ':');
  }

  lemma SplitFour(p0: string, p1: string, p2: string, p3: string)
    requires ':' !in p0 && ':' !in p1 && ':' !in p2 && ':' !in p3
    ensures Split(p0 + [':'] + (p1 + [':'] + (p2 + [':'] + p3)), ':') == [p0, p1, p2, p3]
  {
    SplitThree(p1, p2, p3);
    SplitCons(p0, p1 + [':'] + (p2 + [':'] + p3), ':');
  }

  lemma SevenNested(p0: string, p1: string, p2: string, p3: string, p4: string, p5: string, p6: string)
    ensures p0 + ":" + p1 + ":" + p2 + ":" + p3 + ":" + p4 + ":" + p5 + ":" + p6
         == p0 + [':'] + (p1 + [':'] + (p2 + [':'] + (p3 + [':'] + (p4 + [':'] + (p5 + [':'] + p6)))))
  {
  }

  lemma SplitSevenNested(p0: string, p1: string, p2: string, p3: string, p4: string, p5: string, p6: string)
    requires ':' !in p0 && ':' !in p1 && ':' !in p2 && ':' !in p3
    requires ':' !in p4 && ':' !in p5 && ':' !in p6
    ensures Split(p0 + [':'] + (p1 + [':'] + (p2 + [':'] + (p3 + [':'] + (p4 + [':'] + (p5 + [':'] + p6))))), ':')
         == [p0, p1, p2, p3, p4, p5, p6]
  {
    var r3 := p3 + [':'] + (p4 + [':'] + (p5 + [':'] + p6));
    var r2 := p2 + [':'] + r3;
    var r1 := p1 + [':'] + r2;
    SplitFour(p3, p4, p5, p6);
    SplitCons(p2, r3, ':');
    SplitCons(p1, r2, ':');
    SplitCons(p0, r1, ':');
  }

  lemma SplitSeven(p0: string, p1: string, p2: string, p3: string, p4: string, p5: string, p6: string)
    requires ':' !in p0 && ':' !in p1 && ':' !in p2 && ':' !in p3
    requires ':' !in p4 && ':' !in p5 && ':' !in p6
    ensures Split(p0 + ":" + p1 + ":" + p2 + ":" + p3 + ":" + p4 + ":" + p5 + ":" + p6, ':')
         == [p0, p1, p2, p3, p4, p5, p6]
  {
    SevenNested(p0, p1, p2, p3, p4, p5, p6);
    SplitSevenNested(p0, p1, p2, p3, p4, p5, p6);
  }

  /** The seven pieces of a written line: the timestamp's three (it holds two
      colons) and the four values in write order. */
  function WrittenPieces(v: LoggedValues): (ps: seq<string>)
    requires ValidDateTime(v.stamp)
    ensures |ps| == 7
  {
    var f := Format(v.stamp);
    [f[..13], f[14..16], f[17..], v.cpu, v.memoryUsed, v.memoryPercent, v.diskPercent]
  }

  /** A written line, once stripped, splits on ':' into exactly seven pieces. */
  lemma WrittenLineSplits(v: LoggedValues)
    requires WellFormed(v)
    ensures Strip(BackupLine(v)) == LineText(v)
    ensures Split(LineText(v), ':') == WrittenPieces(v)
  {
    StripBackupLine(v);
    var f := Format(v.stamp);
    TimestampPieces(v.stamp);
    NumeralHasNoSeparator(v.cpu);
    NumeralHasNoSeparator(v.memoryUsed);
    NumeralHasNoSeparator(v.memoryPercent);
    NumeralHasNoSeparator(v.diskPercent);
    var p0, p1, p2 := f[..13], f[14..16], f[17..];
    assert LineText(v) == p0 + ":" + p1 + ":" + p2 + ":" + v.cpu + ":" + v.memoryUsed
                          + ":" + v.memoryPercent + ":" + v.diskPercent;
    SplitSeven(p0, p1, p2, v.cpu, v.memoryUsed, v.memoryPercent, v.diskPercent);
  }

  /** The round trip the comments describe: with the pieces rejoined by ':', a
      written line parses back to its clock reading and its four values. */
  lemma ReadBackLine(v: LoggedValues)
    requires WellFormed(v)
    ensures ParseLine(BackupLine(v), IntendedSep) == Parsed(v.stamp, RecordOf(v))
  {
    WrittenLineSplits(v);
    ReadBackPieces(v);
  }

  lemma ReadBackPieces(v: LoggedValues)
    requires WellFormed(v)
    ensures ParseFields(WrittenPieces(v), IntendedSep) == Parsed(v.stamp, RecordOf(v))
  {
    RebuildWritten(v);
    ParseFormat(v.stamp);
    ParseSeven(WrittenPieces(v), IntendedSep, v.stamp);
  }

  /** Rejoining the first three pieces of a written line with ':' gives back its timestamp. */
  lemma RebuildWritten(v: LoggedValues)
    requires ValidDateTime(v.stamp)
    ensures RebuildTimestamp(WrittenPieces(v), IntendedSep) == Format(v.stamp)
  {
    TimestampPieces(v.stamp);
    RebuildOfPieces(WrittenPieces(v), Format(v.stamp), IntendedSep);
  }

  /** Seven pieces whose first three rejoin into a timestamp and whose last
      four are numerals parse as that time and those numerals. */
  lemma ParseSeven(parts: seq<string>, sep: char, t: DateTime)
    requires |parts| == 7 && ParseTimestamp(RebuildTimestamp(parts, sep)) == Some(t)
    requires IsFloatText(parts[3]) && IsFloatText(parts[4]) && IsFloatText(parts[5]) && IsFloatText(parts[6])
    ensures ParseFields(parts, sep) == Parsed(t, Record(Format(t), parts[3], parts[4], parts[5], parts[6]))
  {
    FieldsOfSeven(t, parts);
  }

  lemma FieldsOfSeven(t: DateTime, parts: seq<string>)
    requires ValidDateTime(t) && |parts| == 7
    requires IsFloatText(parts[3]) && IsFloatText(parts[4]) && IsFloatText(parts[5]) && IsFloatText(parts[6])
    ensures FieldsAt(t, parts) == Parsed(t, Record(Format(t), parts[3], parts[4], parts[5], parts[6]))
  {
  }

  lemma RebuildOfPieces(parts: seq<string>, f: string, sep: char)
    requires |f| == 19 && f == f[..13] + [sep] + f[14..16] + [sep] + f[17..]
    requires |parts| >= 3 && parts[0] == f[..13] && parts[1] == f[14..16] && parts[2] == f[17..]
    ensures RebuildTimestamp(parts, sep) == f
  {
  }

  /** A rebuilt timestamp holds a colon only if the rebuild separator is one:
      the pieces of a split on ':' hold none. */
  lemma RebuildHasNoColon(parts: seq<string>, sep: char)
    requires |parts| >= 3
    requires forall i | 0 <= i < |parts| :: ':' !in parts[i]
    requires sep != ':'
    ensures ':' !in RebuildTimestamp(parts, sep)
  {
  }

  /** As written, no line is ever parsed: `split(':')` removes every colon, the
      rebuild puts spaces back, and the format demands colons at positions 13
      and 16. Every non-blank line with five or more pieces ends as BadTimestamp. */
  lemma AsWrittenNeverParses(line: string)
    ensures !ParseLine(line, AsWrittenSep).Parsed?
    ensures ParseLine(line, AsWrittenSep) in {Blank, TooFewFields, BadTimestamp}
  {
    var s := Strip(line);
    if s != [] {
      AsWrittenFieldsNeverParse(Split(s, ':'));
    }
  }

  lemma AsWrittenFieldsNeverParse(parts: seq<string>)
    requires forall i | 0 <= i < |parts| :: ':' !in parts[i]
    ensures ParseFields(parts, AsWrittenSep) == if |parts| < 5 then TooFewFields else BadTimestamp
  {
    if |parts| >= 5 {
      var ts := RebuildTimestamp(parts, AsWrittenSep);
      RebuildHasNoColon(parts, AsWrittenSep);
      assert !HasTimestampShape(ts) by {
        if |ts| == 19 { assert ts[13] in ts; }
      }
    }
  }

  /** The same discrepancy on a line the writer produced: it is skipped as a bad
      timestamp although it is exactly in the writer's format. */
  lemma AsWrittenSkipsBackupLine(v: LoggedValues)
    requires WellFormed(v)
    ensures ParseLine(BackupLine(v), IntendedSep).Parsed?
    ensures ParseLine(BackupLine(v), AsWrittenSep) == BadTimestamp
  {
    ReadBackLine(v);
    WrittenLineSplits(v);
    TimestampPieces(v.stamp);
    NumeralHasNoSeparator(v.cpu);
    NumeralHasNoSeparator(v.memoryUsed);
    NumeralHasNoSeparator(v.memoryPercent);
    NumeralHasNoSeparator(v.diskPercent);
    AsWrittenFieldsNeverParse(WrittenPieces(v));
  }
}
