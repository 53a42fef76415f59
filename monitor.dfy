/**
  The monitor's state and its update cycle (serverApi/backup.py:8-159): the
  cached sample `_latest_status`, the time of the last cache refresh
  `_last_update_time`, and the backup log the updates append to.

  The clock is an integer count of microseconds on Python's proleptic
  Gregorian timeline (0 is 0001-01-01 00:00:00). Sampling the machine
  (`GetSystemStatus`) is a parameter: `Some(sample)` when it returns, `None`
  when it raises. The four values a sample logs are plain decimal numerals:
  psutil's percentages and the rounded gigabyte figures are bounded and carry
  one or two decimals, so their `str()` has no exponent, `inf` or `nan`, and no
  colon or newline. Whether the append to the log succeeds is a parameter too.
 */
module Monitor {
  import opened Wrappers
  import opened Timestamp
  import opened LogFormat
  import opened History

  /** The cache lifetime: `time_diff.total_seconds() >= 60` (serverApi/backup.py:104). */
  const CacheLifetime: int := 60 * MicrosPerSecond

  /** The decision at serverApi/backup.py:97-105: refresh when nothing was ever
      refreshed or the last refresh is at least a minute old. */
  predicate ShouldUpdate(last: Option<int>, now: int) {
    last.None? || now - last.value >= CacheLifetime
  }

  /** The text of a log, its lines put back together. */
  function Content(lines: seq<string>): string {
    if lines == [] then [] else Content(lines[..|lines| - 1]) + lines[|lines| - 1]
  }

  /** The text ends with a newline, as it does whenever only the writer wrote it. */
  predicate Terminated(lines: seq<string>) {
    lines == [] || (var last := lines[|lines| - 1]; |last| > 0 && last[|last| - 1] == '\n')
  }

  /** The log after `text` (one line and its newline) is appended in mode 'a':
      a missing file is created; a last line without its newline is continued
      by the text; a file that cannot be read back stays so. */
  function Appended(file: LogFile, text: string): (f: LogFile)
    requires |text| > 0 && text[|text| - 1] == '\n'
    ensures f.Present? <==> !file.Unreadable?
    ensures f.Present? ==> Content(f.lines) == (if file.Present? then Content(file.lines) else []) + text
    ensures f.Present? ==> Terminated(f.lines)
    ensures f.Present? ==> |f.lines| == BackupFileCount(file) + (if file.Present? && !Terminated(file.lines) then 0 else 1)
  {
    match file
    case Missing =>
      assert Content([text]) == Content([]) + text;
      Present([text])
    case Present(lines) =>
      if Terminated(lines) then
        assert (lines + [text])[..|lines|] == lines;
        Present(lines + [text])
      else
        var n := |lines|;
        var joined := lines[..n - 1] + [lines[n - 1] + text];
        assert joined[..n - 1] == lines[..n - 1];
        Present(joined)
    case Unreadable => Unreadable
  }

  /** What `get_monitor_status` reports (serverApi/backup.py:138-146). */
  datatype MonitorInfo = MonitorInfo(monitorActive: bool, lastUpdate: Option<int>, dataPoints: nat)

  class SystemMonitor {
    var latestStatus: Option<Sample>
    var lastUpdateTime: Option<int>
    var log: LogFile

    /** The module-level state at import (serverApi/backup.py:8-9), with the
        log as it is on disk. */
    constructor (file: LogFile)
      ensures latestStatus == None && lastUpdateTime == None && log == file
    {
      latestStatus := None;
      lastUpdateTime := None;
      log := file;
    }

    /** `_write_to_backup_file` (serverApi/backup.py:69-86): one line stamped
        with the writer's own clock reading. `writeOk` is false when creating
        the directory or appending raises; the exception is swallowed. A
        failed write is modelled as leaving the log as it was, including when
        part of the line had already reached the file. */
    method WriteToBackupFile(cpu: Num, memoryUsed: Num, memoryPercent: Num, diskPercent: Num,
                             stamp: DateTime, writeOk: bool)
      requires ValidDateTime(stamp)
      requires IsFloatText(cpu) && IsFloatText(memoryUsed) && IsFloatText(memoryPercent) && IsFloatText(diskPercent)
      modifies this
      ensures log == if writeOk then Appended(old(log), BackupLine(LoggedValues(stamp, cpu, memoryUsed, memoryPercent, diskPercent)))
                     else old(log)
      ensures latestStatus == old(latestStatus) && lastUpdateTime == old(lastUpdateTime)
    {
      if writeOk {
        var line := BackupLine(LoggedValues(stamp, cpu, memoryUsed, memoryPercent, diskPercent));
        log := Appended(log, line);
      }
    }

    /** `_update_system_status` (serverApi/backup.py:41-67): on a sample, cache
        it and log it; when sampling raises, keep the old cache and log
        nothing. It never touches the refresh time. */
    method UpdateSystemStatus(sampled: Option<Sample>, stamp: DateTime, writeOk: bool)
      requires ValidDateTime(stamp)
      requires sampled.Some? ==> WellFormed(LoggedValuesOf(sampled.value, stamp))
      modifies this
      ensures latestStatus == if sampled.Some? then sampled else old(latestStatus)
      ensures log == if sampled.Some? && writeOk then Appended(old(log), BackupLine(LoggedValuesOf(sampled.value, stamp)))
                     else old(log)
      ensures lastUpdateTime == old(lastUpdateTime)
    {
      if sampled.Some? {
        var s := sampled.value;
        latestStatus := Some(s);
        WriteToBackupFile(s.cpu.percent, s.memory.usedGb, s.memory.percent, s.disk.percent, stamp, writeOk);
      }
    }

    /** `GetSystemStatusWithCache` (serverApi/backup.py:88-111) with the clock
        reading `now`. On a hit nothing changes; on a miss the status is
        refreshed and the refresh time set to `now`, even when sampling
        raised. The cached status is returned either way. */
    method GetSystemStatusWithCache(now: int, sampled: Option<Sample>, stamp: DateTime, writeOk: bool)
      returns (status: Option<Sample>)
      requires ValidDateTime(stamp)
      requires sampled.Some? ==> WellFormed(LoggedValuesOf(sampled.value, stamp))
      modifies this
      ensures ShouldUpdate(old(lastUpdateTime), now) ==>
                && lastUpdateTime == Some(now)
                && latestStatus == (if sampled.Some? then sampled else old(latestStatus))
                && log == (if sampled.Some? && writeOk
                           then Appended(old(log), BackupLine(LoggedValuesOf(sampled.value, stamp)))
                           else old(log))
      ensures !ShouldUpdate(old(lastUpdateTime), now) ==>
                lastUpdateTime == old(lastUpdateTime) && latestStatus == old(latestStatus) && log == old(log)
      ensures status == latestStatus
    {
      var shouldUpdate := false;
      if lastUpdateTime == None {
        shouldUpdate := true;
      } else {
        var timeDiff := now - lastUpdateTime.value;
        if timeDiff >= CacheLifetime {
          shouldUpdate := true;
        }
      }
      if shouldUpdate {
        UpdateSystemStatus(sampled, stamp, writeOk);
        lastUpdateTime := Some(now);
      }
      status := latestStatus;
    }

    /** One turn of `start_background_monitor`'s loop (serverApi/backup.py:121-132):
        the wait until the next whole minute after `now`, then an update. The
        loop does not set the refresh time. */
    method BackgroundTick(now: int, sampled: Option<Sample>, stamp: DateTime, writeOk: bool)
      returns (waitMicros: int)
      requires ValidDateTime(stamp)
      requires sampled.Some? ==> WellFormed(LoggedValuesOf(sampled.value, stamp))
      modifies this
      ensures waitMicros == NextMinuteWait(now)
      ensures latestStatus == if sampled.Some? then sampled else old(latestStatus)
      ensures log == if sampled.Some? && writeOk then Appended(old(log), BackupLine(LoggedValuesOf(sampled.value, stamp)))
                     else old(log)
      ensures lastUpdateTime == old(lastUpdateTime)
    {
      var nextMinute := NextMinute(now);
      waitMicros := nextMinute - now;
      UpdateSystemStatus(sampled, stamp, writeOk);
    }

    /** `get_monitor_status` (serverApi/backup.py:138-146). */
    function MonitorStatus(): (info: MonitorInfo)
      reads this
      ensures info.monitorActive <==> latestStatus.Some?
      ensures info.lastUpdate == lastUpdateTime
      ensures info.dataPoints == BackupFileCount(log)
    {
      MonitorInfo(latestStatus.Some?, lastUpdateTime, BackupFileCount(log))
    }
  }

  // ---------------------------------------------------------------------------
  // the next whole minute

  /** `(now + timedelta(minutes=1)).replace(second=0, microsecond=0)`: the
      first whole minute strictly after `now` (the one before it is not after
      `now`). */
  function NextMinute(now: int): (next: int)
    ensures next % MicrosPerMinute == 0
    ensures now < next <= now + MicrosPerMinute
    ensures next - MicrosPerMinute <= now
  {
    var later := now + MicrosPerMinute;
    later - later % MicrosPerMinute
  }

  /** `wait_seconds`, in microseconds. */
  function NextMinuteWait(now: int): (w: int)
    ensures 0 < w <= MicrosPerMinute
    ensures w == MicrosPerMinute <==> now % MicrosPerMinute == 0
  {
    NextMinute(now) - now
  }

  // ---------------------------------------------------------------------------
  // the log as the monitor grows it

  /** `data_points` grows by one with each line appended to a log the writer
      left complete; it stays 0 for a file that cannot be read. */
  lemma AppendedCount(file: LogFile, text: string)
    requires |text| > 0 && text[|text| - 1] == '\n'
    ensures BackupFileCount(Appended(file, text))
         == BackupFileCount(file) + (if file.Unreadable? || (file.Present? && !Terminated(file.lines)) then 0 else 1)
  {
  }

  /** A line the monitor appends reads back, with the ':' rejoin, as one more
      record beside those already there. (As written the readers find none,
      whatever the log holds: `AsWrittenReadsNothing`.) */
  lemma WriteThenRead(file: LogFile, v: LoggedValues)
    requires WellFormed(v) && !file.Unreadable?
    requires file.Present? ==> Terminated(file.lines)
    ensures multiset(AllAvailable(Appended(file, BackupLine(v)), IntendedSep))
            == multiset(AllAvailable(file, IntendedSep)) + multiset{RecordOf(v)}
  {
    var lines := if file.Present? then file.lines else [];
    assert Appended(file, BackupLine(v)) == Present(lines + [BackupLine(v)]);
    assert AllAvailable(file, IntendedSep) == AllAvailable(Present(lines), IntendedSep);
    ReadBackLine(v);
    AppendParsedLine(lines, BackupLine(v), IntendedSep, v.stamp, RecordOf(v));
  }

  // ---------------------------------------------------------------------------
  // scenarios on a freshly started monitor

  /** Two requests at `t0` and then `t1`: the first always samples; the second
      serves the cached sample unless a minute has passed. Each sample taken
      adds one line to a readable log (the first one continues a last line
      left without its newline). */
  method CacheScenario(file: LogFile, t0: int, t1: int, s0: Sample, s1: Sample,
                       stamp0: DateTime, stamp1: DateTime)
    returns (first: Option<Sample>, second: Option<Sample>, dataPoints: nat)
    requires WellFormed(LoggedValuesOf(s0, stamp0)) && WellFormed(LoggedValuesOf(s1, stamp1))
    ensures first == Some(s0)
    ensures second == if t1 - t0 >= CacheLifetime then Some(s1) else Some(s0)
    ensures dataPoints == BackupFileCount(file)
                          + (if file.Unreadable? then 0
                             else (if file.Present? && !Terminated(file.lines) then 0 else 1)
                                  + (if t1 - t0 >= CacheLifetime then 1 else 0))
  {
    var m := new SystemMonitor(file);
    first := m.GetSystemStatusWithCache(t0, Some(s0), stamp0, true);
    AppendedCount(file, BackupLine(LoggedValuesOf(s0, stamp0)));
    var afterFirst := m.log;
    second := m.GetSystemStatusWithCache(t1, Some(s1), stamp1, true);
    AppendedCount(afterFirst, BackupLine(LoggedValuesOf(s1, stamp1)));
    dataPoints := m.MonitorStatus().dataPoints;
  }

  /** A first request whose sampling raises still sets the refresh time, so a
      request within the next minute serves `None` even though sampling would
      now succeed. */
  method FailedFirstSample(file: LogFile, t0: int, t1: int, s1: Sample, stamp: DateTime)
    returns (first: Option<Sample>, second: Option<Sample>, active: bool)
    requires WellFormed(LoggedValuesOf(s1, stamp))
    ensures first == None
    ensures second == if t1 - t0 >= CacheLifetime then Some(s1) else None
    ensures active <==> t1 - t0 >= CacheLifetime
  {
    var m := new SystemMonitor(file);
    first := m.GetSystemStatusWithCache(t0, None, stamp, true);
    second := m.GetSystemStatusWithCache(t1, Some(s1), stamp, true);
    active := m.MonitorStatus().monitorActive;
  }

  /** After a background update alone the monitor is active but reports no
      refresh time, and the next request samples again however soon it comes. */
  method BackgroundThenRequest(file: LogFile, now: int, later: int, s0: Sample, s1: Sample, stamp0: DateTime, stamp1: DateTime)
    returns (wait: int, info: MonitorInfo, served: Option<Sample>)
    requires WellFormed(LoggedValuesOf(s0, stamp0)) && WellFormed(LoggedValuesOf(s1, stamp1))
    ensures 0 < wait <= MicrosPerMinute
    ensures info.monitorActive && info.lastUpdate == None
    ensures served == Some(s1)
  {
    var m := new SystemMonitor(file);
    wait := m.BackgroundTick(now, Some(s0), stamp0, true);
    info := m.MonitorStatus();
    served := m.GetSystemStatusWithCache(later, Some(s1), stamp1, true);
  }
}
