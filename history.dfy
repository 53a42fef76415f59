/**
  The two history readers, `get_historical_data` and `get_all_available_data`
  (serverApi/backup.py:161-258): read every line of the backup log, keep the
  lines that parse (and, for the first, fall inside the time window), sort the
  records by their timestamp text, and fall back to all records when the
  window holds none.
 */
module History {
  import opened Wrappers
  import opened Text
  import opened Timestamp
  import opened LogFormat

  /** The backup log as a reader finds it. `Unreadable` stands for a file whose
      reading raises (a decoding error, say): both readers then return `[]` and
      the line count is 0 (serverApi/backup.py:158-159, 212-214, 256-258). */
  datatype LogFile = Missing | Unreadable | Present(lines: seq<string>)

  /** `_get_backup_file_count` (serverApi/backup.py:148-159). */
  function BackupFileCount(file: LogFile): nat {
    if file.Present? then |file.lines| else 0
  }

  // ---------------------------------------------------------------------------
  // which lines give a record

  /** The outcome of the loop body on each line, in file order. */
  function Outcomes(lines: seq<string>, sep: char): (os: seq<LineOutcome>)
    ensures |os| == |lines|
    ensures forall i | 0 <= i < |lines| :: os[i] == ParseLine(lines[i], sep)
  {
    seq(|lines|, i requires 0 <= i < |lines| => ParseLine(lines[i], sep))
  }

  /** The record one outcome adds to the result list: none when the line was
      skipped or, with a `window` cutoff, when its time is before the cutoff. */
  function Kept(o: LineOutcome, window: Option<int>): seq<Record> {
    match o
    case Parsed(t, r) => if window.None? || AtOrAfter(t, window.value) then [r] else []
    case _ => []
  }

  /** The result list before sorting: the kept records in file order. */
  function Collect(os: seq<LineOutcome>, window: Option<int>): seq<Record> {
    if os == [] then []
    else Collect(os[..|os| - 1], window) + Kept(os[|os| - 1], window)
  }

  /** `record_time >= cutoff_time`, on the timeline. */
  predicate AtOrAfter(t: DateTime, cutoff: int) {
    ValidDateTime(t) && Micros(t) >= cutoff
  }

  /** The number of lines that are not blank once stripped. */
  function NonBlank(os: seq<LineOutcome>): nat {
    if os == [] then 0
    else NonBlank(os[..|os| - 1]) + (if os[|os| - 1].Blank? then 0 else 1)
  }

  /** A record lies in the window when its timestamp text reads as a time at or
      after the cutoff. */
  predicate InWindow(r: Record, cutoff: int) {
    match ParseTimestamp(r.timestamp)
    case Some(t) => Micros(t) >= cutoff
    case None => false
  }

  // ---------------------------------------------------------------------------
  // list.sort(key=lambda x: x["timestamp"]): a stable sort on the timestamp text

  predicate Sorted(rs: seq<Record>) {
    forall i, j | 0 <= i < j < |rs| :: StrLe(rs[i].timestamp, rs[j].timestamp)
  }

  /** Puts `r` after every element whose timestamp is not greater than its own. */
  function Insert(r: Record, s: seq<Record>): (t: seq<Record>)
    ensures |t| == |s| + 1
  {
    if s == [] then [r]
    else if StrLe(s[0].timestamp, r.timestamp) then [s[0]] + Insert(r, s[1..])
    else [r] + s
  }

  /** Insertion sort taking the elements in list order, which keeps it stable. */
  function SortByTimestamp(rs: seq<Record>): (t: seq<Record>)
    ensures |t| == |rs|
  {
    if rs == [] then []
    else Insert(rs[|rs| - 1], SortByTimestamp(rs[..|rs| - 1]))
  }

  /** The records whose timestamp text is `k`, in order. */
  function WithKey(rs: seq<Record>, k: string): seq<Record> {
    if rs == [] then []
    else (if rs[0].timestamp == k then [rs[0]] else []) + WithKey(rs[1..], k)
  }

  // ---------------------------------------------------------------------------
  // the readers as specifications

  /** `now - timedelta(minutes=minutes)` on the microsecond timeline. */
  function Cutoff(now: int, minutes: int): int {
    now - minutes * MicrosPerMinute
  }

  /** What `get_all_available_data` returns. */
  function AllAvailable(file: LogFile, sep: char): seq<Record> {
    match file
    case Present(lines) => SortByTimestamp(Collect(Outcomes(lines, sep), None))
    case _ => []
  }

  /** What `get_historical_data(minutes)` returns when the clock reads `now`. */
  function Historical(file: LogFile, sep: char, minutes: int, now: int): seq<Record> {
    match file
    case Present(lines) =>
      var windowed := SortByTimestamp(Collect(Outcomes(lines, sep), Some(Cutoff(now, minutes))));
      if windowed == [] then AllAvailable(file, sep) else windowed
    case _ => []
  }

  // ---------------------------------------------------------------------------
  // the readers as the source runs them

  /** The reading loop shared by both readers (serverApi/backup.py:173-199 and
      225-249); `window` is the cutoff of the first, `None` for the second. */
  method CollectRecords(lines: seq<string>, sep: char, window: Option<int>) returns (data: seq<Record>)
    ensures data == Collect(Outcomes(lines, sep), window)
  {
    ghost var os := Outcomes(lines, sep);
    data := [];
    var i := 0;
    while i < |lines|
      invariant 0 <= i <= |lines|
      invariant data == Collect(os[..i], window)
    {
      var kept := ReadLine(lines[i], sep, window);
      CollectStep(os, i, window);
      data := data + kept;
      i := i + 1;
    }
    assert os[..|lines|] == os;
  }

  /** The body of the reading loop for one line: the record it appends, if any. */
  method ReadLine(line: string, sep: char, window: Option<int>) returns (kept: seq<Record>)
    ensures kept == Kept(ParseLine(line, sep), window)
  {
    kept := [];
    var outcome := ParseLine(line, sep);
    if outcome.Parsed? && (window.None? || AtOrAfter(outcome.time, window.value)) {
      kept := [outcome.record];
    }
  }

  lemma CollectStep(os: seq<LineOutcome>, i: nat, window: Option<int>)
    requires i < |os|
    ensures Collect(os[..i + 1], window) == Collect(os[..i], window) + Kept(os[i], window)
  {
    assert os[..i + 1][..i] == os[..i];
  }

  /** `get_all_available_data` (serverApi/backup.py:216-258). */
  method GetAllAvailableData(file: LogFile, sep: char) returns (data: seq<Record>)
    ensures data == AllAvailable(file, sep)
  {
    if !file.Present? {
      return [];
    }
    data := CollectRecords(file.lines, sep, None);
    data := SortByTimestamp(data);
  }

  /** `get_historical_data(minutes)` (serverApi/backup.py:161-214), the clock
      reading `now` microseconds. */
  method GetHistoricalData(file: LogFile, sep: char, minutes: int, now: int) returns (data: seq<Record>)
    ensures data == Historical(file, sep, minutes, now)
  {
    if !file.Present? {
      return [];
    }
    var cutoff := Cutoff(now, minutes);
    data := CollectRecords(file.lines, sep, Some(cutoff));
    data := SortByTimestamp(data);
    ghost var windowed := data;
    if data == [] {
      data := GetAllAvailableData(file, sep);
    }
    assert Historical(file, sep, minutes, now) == if windowed == [] then AllAvailable(file, sep) else windowed;
  }

  // ---------------------------------------------------------------------------
  // the sort: ordered, a permutation, stable

  lemma {:induction false} InsertPermutation(r: Record, s: seq<Record>)
    ensures multiset(Insert(r, s)) == multiset(s) + multiset{r}
  {
    if s != [] && StrLe(s[0].timestamp, r.timestamp) {
      InsertPermutation(r, s[1..]);
      assert s == [s[0]] + s[1..];
    }
  }

  /** The sorted list holds the same records, each as often, as the list sorted. */
  lemma {:induction false} SortPermutation(rs: seq<Record>)
    ensures multiset(SortByTimestamp(rs)) == multiset(rs)
  {
    if rs != [] {
      var init, last := rs[..|rs| - 1], rs[|rs| - 1];
      assert SortByTimestamp(rs) == Insert(last, SortByTimestamp(init));
      SortPermutation(init);
      InsertPermutation(last, SortByTimestamp(init));
      assert rs == init + [last];
      assert multiset(rs) == multiset(init) + multiset{last};
    }
  }

  lemma {:induction false} InsertSorted(r: Record, s: seq<Record>)
    requires Sorted(s)
    ensures Sorted(Insert(r, s))
  {
    if s != [] {
      if StrLe(s[0].timestamp, r.timestamp) {
        InsertSorted(r, s[1..]);
        InsertPermutation(r, s[1..]);
        var rest := Insert(r, s[1..]);
        forall j | 0 <= j < |rest| ensures StrLe(s[0].timestamp, rest[j].timestamp) {
          assert rest[j] in multiset(rest);
          if rest[j] != r {
            assert rest[j] in multiset(s[1..]);
            var k :| 0 <= k < |s[1..]| && s[1..][k] == rest[j];
            assert s[k + 1] == rest[j];
          }
        }
      } else {
        StrLeTotal(s[0].timestamp, r.timestamp);
        forall j | 0 <= j < |s| ensures StrLe(r.timestamp, s[j].timestamp) {
          if j > 0 { StrLeTrans(r.timestamp, s[0].timestamp, s[j].timestamp); }
        }
      }
    }
  }

  /** The sorted list is ordered by timestamp text. */
  lemma {:induction false} SortedBySort(rs: seq<Record>)
    ensures Sorted(SortByTimestamp(rs))
  {
    if rs != [] {
      SortedBySort(rs[..|rs| - 1]);
      InsertSorted(rs[|rs| - 1], SortByTimestamp(rs[..|rs| - 1]));
    }
  }

  lemma {:induction false} WithKeyAppend(a: seq<Record>, b: seq<Record>, k: string)
    ensures WithKey(a + b, k) == WithKey(a, k) + WithKey(b, k)
  {
    if a == [] {
      assert a + b == b;
    } else {
      assert a + b == [a[0]] + (a[1..] + b);
      assert a == [a[0]] + a[1..];
      WithKeyCons(a[0], a[1..] + b, k);
      WithKeyCons(a[0], a[1..], k);
      WithKeyAppend(a[1..], b, k);
    }
  }

  lemma {:induction false} WithKeyNone(s: seq<Record>, k: string)
    requires forall j | 0 <= j < |s| :: s[j].timestamp != k
    ensures WithKey(s, k) == []
  {
    if s != [] { WithKeyNone(s[1..], k); }
  }

  /** In a sorted list whose first key is above `k`, no record has key `k`. */
  lemma NoKeyAbove(s: seq<Record>, k: string)
    requires Sorted(s) && s != [] && !StrLe(s[0].timestamp, k)
    ensures WithKey(s, k) == []
  {
    forall j | 0 <= j < |s| ensures s[j].timestamp != k {
      if j == 0 {
        StrLeRefl(k);
      }
    }
    WithKeyNone(s, k);
  }

  lemma WithKeyCons(x: Record, rest: seq<Record>, k: string)
    ensures WithKey([x] + rest, k) == (if x.timestamp == k then [x] else []) + WithKey(rest, k)
  {
    assert ([x] + rest)[0] == x && ([x] + rest)[1..] == rest;
  }

  lemma SortedTail(s: seq<Record>)
    requires Sorted(s) && s != []
    ensures Sorted(s[1..])
  {
    forall i, j | 0 <= i < j < |s| - 1 ensures StrLe(s[1..][i].timestamp, s[1..][j].timestamp) {
      assert s[1..][i] == s[i + 1] && s[1..][j] == s[j + 1];
    }
  }

  lemma {:induction false} InsertWithKey(r: Record, s: seq<Record>, k: string)
    requires Sorted(s)
    ensures WithKey(Insert(r, s), k) == WithKey(s, k) + (if r.timestamp == k then [r] else [])
  {
    if s == [] {
      WithKeyCons(r, [], k);
    } else if StrLe(s[0].timestamp, r.timestamp) {
      assert Insert(r, s) == [s[0]] + Insert(r, s[1..]);
      SortedTail(s);
      InsertWithKey(r, s[1..], k);
      WithKeyCons(s[0], Insert(r, s[1..]), k);
      WithKeyCons(s[0], s[1..], k);
      assert [s[0]] + s[1..] == s;
    } else {
      assert Insert(r, s) == [r] + s;
      WithKeyCons(r, s, k);
      if r.timestamp == k {
        NoKeyAbove(s, k);
      }
    }
  }

  /** Records with equal timestamps keep their relative order: the sort is stable. */
  lemma {:induction false} SortStable(rs: seq<Record>, k: string)
    ensures WithKey(SortByTimestamp(rs), k) == WithKey(rs, k)
  {
    if rs != [] {
      var init, last := rs[..|rs| - 1], rs[|rs| - 1];
      var single := if last.timestamp == k then [last] else [];
      assert SortByTimestamp(rs) == Insert(last, SortByTimestamp(init));
      SortStable(init, k);
      SortedBySort(init);
      InsertWithKey(last, SortByTimestamp(init), k);
      assert WithKey(SortByTimestamp(rs), k) == WithKey(init, k) + single;
      assert rs == init + [last];
      WithKeyAppend(init, [last], k);
      assert WithKey([last], k) == single + WithKey([], k);
    }
  }

  lemma {:induction false} InsertAtEnd(r: Record, s: seq<Record>)
    requires forall j | 0 <= j < |s| :: StrLe(s[j].timestamp, r.timestamp)
    ensures Insert(r, s) == s + [r]
  {
    if s != [] {
      InsertAtEnd(r, s[1..]);
      assert s == [s[0]] + s[1..];
    }
  }

  /** A list already in timestamp order is left as it is. */
  lemma {:induction false} SortOfSorted(rs: seq<Record>)
    requires Sorted(rs)
    ensures SortByTimestamp(rs) == rs
  {
    if rs != [] {
      var init, last := rs[..|rs| - 1], rs[|rs| - 1];
      SortOfSorted(init);
      InsertAtEnd(last, init);
      assert rs == init + [last];
    }
  }

  // ---------------------------------------------------------------------------
  // where the records come from

  lemma CollectSnoc(os: seq<LineOutcome>, o: LineOutcome, window: Option<int>)
    ensures Collect(os + [o], window) == Collect(os, window) + Kept(o, window)
  {
    assert (os + [o])[..|os|] == os;
  }

  lemma {:induction false} CollectAppend(a: seq<LineOutcome>, b: seq<LineOutcome>, window: Option<int>)
    ensures Collect(a + b, window) == Collect(a, window) + Collect(b, window)
    decreases |b|
  {
    if b == [] {
      assert a + b == a;
    } else {
      var init, last := b[..|b| - 1], b[|b| - 1];
      var ai := a + init;
      assert b == init + [last];
      assert a + b == ai + [last];
      calc {
        Collect(a + b, window);
        { CollectSnoc(ai, last, window); }
        Collect(ai, window) + Kept(last, window);
        { CollectAppend(a, init, window); }
        Collect(a, window) + Collect(init, window) + Kept(last, window);
        { CollectSnoc(init, last, window); }
        Collect(a, window) + Collect(b, window);
      }
    }
  }

  /** An outcome gives at most one record and a blank line gives none, so there
      are at most as many records as non-blank lines. */
  lemma {:induction false} CollectBound(os: seq<LineOutcome>, window: Option<int>)
    ensures |Collect(os, window)| <= NonBlank(os) <= |os|
  {
    if os != [] {
      CollectBound(os[..|os| - 1], window);
    }
  }

  /** Every record is the record of one parsed outcome. */
  lemma {:induction false} CollectFrom(os: seq<LineOutcome>, window: Option<int>, r: Record)
    requires r in Collect(os, window)
    ensures exists i | 0 <= i < |os| :: os[i].Parsed? && os[i].record == r
  {
    var init := os[..|os| - 1];
    if r in Collect(init, window) {
      CollectFrom(init, window, r);
      var i :| 0 <= i < |init| && init[i].Parsed? && init[i].record == r;
      assert os[i] == init[i];
    } else {
      assert os[|os| - 1].Parsed?;
    }
  }

  /** The windowed records are among all records, none more often than there. */
  lemma {:induction false} WindowedAmongAll(os: seq<LineOutcome>, cutoff: int)
    ensures multiset(Collect(os, Some(cutoff))) <= multiset(Collect(os, None))
  {
    if os != [] {
      WindowedAmongAll(os[..|os| - 1], cutoff);
    }
  }

  /** Every windowed record of parsed lines has a time at or after the cutoff. */
  lemma {:induction false} WindowedInWindow(lines: seq<string>, sep: char, cutoff: int)
    ensures forall r | r in Collect(Outcomes(lines, sep), Some(cutoff)) :: InWindow(r, cutoff)
  {
    if lines != [] {
      var init := lines[..|lines| - 1];
      var os := Outcomes(lines, sep);
      assert os[..|os| - 1] == Outcomes(init, sep);
      WindowedInWindow(init, sep, cutoff);
    }
  }

  /** The records of `rs` that lie in the window, in their order. */
  function InWindowOnly(rs: seq<Record>, cutoff: int): seq<Record> {
    if rs == [] then []
    else InWindowOnly(rs[..|rs| - 1], cutoff) + (if InWindow(rs[|rs| - 1], cutoff) then [rs[|rs| - 1]] else [])
  }

  lemma InWindowOnlySnoc(rs: seq<Record>, kept: seq<Record>, cutoff: int)
    requires |kept| <= 1
    ensures InWindowOnly(rs + kept, cutoff) == InWindowOnly(rs, cutoff) + InWindowOnly(kept, cutoff)
  {
    if kept == [] {
      assert rs + kept == rs;
    } else {
      assert (rs + kept)[..|rs|] == rs;
      assert kept[..0] == [];
    }
  }

  /** The window keeps exactly the parsed records that lie in it: the windowed
      list is the list of all records with those outside the window left out. */
  lemma WindowIsFilter(lines: seq<string>, sep: char, cutoff: int)
    ensures Collect(Outcomes(lines, sep), Some(cutoff)) == InWindowOnly(Collect(Outcomes(lines, sep), None), cutoff)
  {
    var os := Outcomes(lines, sep);
    forall i | 0 <= i < |os| ensures Coherent(os[i]) {
      assert os[i] == ParseLine(lines[i], sep);
    }
    KeptIsFilter(os, cutoff);
  }

  /** A parsed outcome whose record's timestamp text reads back as its time, as
      every outcome of `ParseLine` is. */
  predicate Coherent(o: LineOutcome) {
    o.Parsed? ==> ValidDateTime(o.time) && ParseTimestamp(o.record.timestamp) == Some(o.time)
  }

  lemma {:induction false} KeptIsFilter(os: seq<LineOutcome>, cutoff: int)
    requires forall i | 0 <= i < |os| :: Coherent(os[i])
    ensures Collect(os, Some(cutoff)) == InWindowOnly(Collect(os, None), cutoff)
  {
    if os != [] {
      var pre, o := os[..|os| - 1], os[|os| - 1];
      assert os == pre + [o];
      CollectSnoc(pre, o, None);
      CollectSnoc(pre, o, Some(cutoff));
      KeptIsFilter(pre, cutoff);
      InWindowOnlySnoc(Collect(pre, None), Kept(o, None), cutoff);
      KeptInWindow(o, cutoff);
    }
  }

  /** For one outcome, the window keeps its record exactly when the record lies
      in the window. */
  lemma KeptInWindow(o: LineOutcome, cutoff: int)
    requires Coherent(o)
    ensures Kept(o, Some(cutoff)) == InWindowOnly(Kept(o, None), cutoff)
  {
    if o.Parsed? {
      assert [o.record][..0] == [];
    }
  }

  /** A record occurs in the window's list as often as in the list it is taken
      from when it lies in the window, and not at all otherwise. */
  lemma {:induction false} InWindowOnlyCount(rs: seq<Record>, cutoff: int, r: Record)
    ensures multiset(InWindowOnly(rs, cutoff))[r] == if InWindow(r, cutoff) then multiset(rs)[r] else 0
  {
    if rs != [] {
      var init, last := rs[..|rs| - 1], rs[|rs| - 1];
      InWindowOnlyCount(init, cutoff, r);
      assert rs == init + [last];
    }
  }

  /** Counting the window's records: each record lying in the window as often
      as in the whole list, no other; empty exactly when no record lies there. */
  lemma WindowCounts(rs: seq<Record>, cutoff: int)
    ensures forall r :: multiset(InWindowOnly(rs, cutoff))[r] == if InWindow(r, cutoff) then multiset(rs)[r] else 0
    ensures InWindowOnly(rs, cutoff) == [] <==> forall r | r in rs :: !InWindow(r, cutoff)
  {
    var w := InWindowOnly(rs, cutoff);
    forall r ensures multiset(w)[r] == if InWindow(r, cutoff) then multiset(rs)[r] else 0 {
      InWindowOnlyCount(rs, cutoff, r);
    }
    if w != [] {
      assert multiset(w)[w[0]] > 0;
    } else {
      forall r | r in rs ensures !InWindow(r, cutoff) {
        assert multiset(w)[r] == 0;
      }
    }
  }

  /** `get_historical_data` in terms of `get_all_available_data`: when some
      record lies in the window, it returns every record that lies there, each
      as often as all records hold it, and no other; when none does, it returns
      exactly all records. */
  lemma HistoricalWindow(file: LogFile, sep: char, minutes: int, now: int)
    ensures forall r | r in AllAvailable(file, sep) && InWindow(r, Cutoff(now, minutes)) ::
              r in Historical(file, sep, minutes, now)
    ensures (exists r | r in AllAvailable(file, sep) :: InWindow(r, Cutoff(now, minutes))) ==>
              forall r :: multiset(Historical(file, sep, minutes, now))[r]
                          == if InWindow(r, Cutoff(now, minutes)) then multiset(AllAvailable(file, sep))[r] else 0
    ensures (forall r | r in AllAvailable(file, sep) :: !InWindow(r, Cutoff(now, minutes))) ==>
              Historical(file, sep, minutes, now) == AllAvailable(file, sep)
  {
    if file.Present? {
      var c := Cutoff(now, minutes);
      var os := Outcomes(file.lines, sep);
      var all, w := Collect(os, None), Collect(os, Some(c));
      var aa, h := AllAvailable(file, sep), Historical(file, sep, minutes, now);
      WindowIsFilter(file.lines, sep, c);
      WindowCounts(all, c);
      SortPermutation(all);
      SortPermutation(w);
      assert aa == SortByTimestamp(all);
      assert h == if w == [] then aa else SortByTimestamp(w) by {
        SortEmpty(w);
      }
      assert forall r :: r in aa <==> r in all by {
        forall r ensures r in aa <==> r in all {
          assert r in aa <==> r in multiset(aa);
          assert r in all <==> r in multiset(all);
        }
      }
      if w != [] {
        forall r ensures multiset(h)[r] == if InWindow(r, c) then multiset(aa)[r] else 0 {
        }
        forall r | r in aa && InWindow(r, c) ensures r in h {
          assert multiset(h)[r] > 0;
        }
      }
    }
  }

  /** Each record either reader returns comes from exactly one line of the file:
      the records are the parsed lines' records rearranged, one per parsed line,
      and at most one per non-blank line. */
  lemma RecordsFromLines(lines: seq<string>, sep: char, r: Record)
    ensures |AllAvailable(Present(lines), sep)| <= NonBlank(Outcomes(lines, sep)) <= |lines|
    ensures multiset(AllAvailable(Present(lines), sep)) == multiset(Collect(Outcomes(lines, sep), None))
    ensures r in AllAvailable(Present(lines), sep) ==>
              exists i | 0 <= i < |lines| :: ParseLine(lines[i], sep).Parsed? && ParseLine(lines[i], sep).record == r
  {
    var os := Outcomes(lines, sep);
    CollectBound(os, None);
    SortPermutation(Collect(os, None));
    if r in AllAvailable(Present(lines), sep) {
      assert r in multiset(Collect(os, None));
      CollectFrom(os, None, r);
    }
  }

  /** `get_historical_data`'s result: sorted; made of records of
      `get_all_available_data`; when some record lies in the window, exactly the
      records in the window, each at or after `now - minutes`; otherwise all records. */
  lemma HistoricalSpec(file: LogFile, sep: char, minutes: int, now: int)
    ensures Sorted(Historical(file, sep, minutes, now)) && Sorted(AllAvailable(file, sep))
    ensures multiset(Historical(file, sep, minutes, now)) <= multiset(AllAvailable(file, sep))
    ensures file.Present? && Collect(Outcomes(file.lines, sep), Some(Cutoff(now, minutes))) != [] ==>
              && multiset(Historical(file, sep, minutes, now))
                 == multiset(Collect(Outcomes(file.lines, sep), Some(Cutoff(now, minutes))))
              && forall r | r in Historical(file, sep, minutes, now) :: InWindow(r, Cutoff(now, minutes))
    ensures file.Present? && Collect(Outcomes(file.lines, sep), Some(Cutoff(now, minutes))) == [] ==>
              Historical(file, sep, minutes, now) == AllAvailable(file, sep)
    ensures !file.Present? ==> Historical(file, sep, minutes, now) == [] && AllAvailable(file, sep) == []
  {
    if file.Present? {
      var cutoff := Cutoff(now, minutes);
      var os := Outcomes(file.lines, sep);
      var w := Collect(os, Some(cutoff));
      var all := Collect(os, None);
      assert AllAvailable(file, sep) == SortByTimestamp(all);
      assert Historical(file, sep, minutes, now) == if w == [] then SortByTimestamp(all) else SortByTimestamp(w) by {
        SortEmpty(w);
      }
      SortedBySort(all);
      SortPermutation(all);
      if w != [] {
        WindowedSorted(os, cutoff, file.lines, sep);
      }
    }
  }

  lemma SortEmpty(rs: seq<Record>)
    ensures SortByTimestamp(rs) == [] <==> rs == []
  {
  }

  /** The windowed branch: sorted, the windowed records rearranged, each in the window. */
  lemma WindowedSorted(os: seq<LineOutcome>, cutoff: int, lines: seq<string>, sep: char)
    requires os == Outcomes(lines, sep)
    ensures Sorted(SortByTimestamp(Collect(os, Some(cutoff))))
    ensures multiset(SortByTimestamp(Collect(os, Some(cutoff)))) == multiset(Collect(os, Some(cutoff)))
    ensures multiset(SortByTimestamp(Collect(os, Some(cutoff)))) <= multiset(SortByTimestamp(Collect(os, None)))
    ensures forall r | r in SortByTimestamp(Collect(os, Some(cutoff))) :: InWindow(r, cutoff)
  {
    var w := Collect(os, Some(cutoff));
    SortedBySort(w);
    SortPermutation(w);
    SortPermutation(Collect(os, None));
    WindowedAmongAll(os, cutoff);
    WindowedInWindow(lines, sep, cutoff);
    forall r | r in SortByTimestamp(w) ensures InWindow(r, cutoff) {
      assert r in multiset(SortByTimestamp(w));
    }
  }

  // ---------------------------------------------------------------------------
  // sorted by text is sorted by time

  /** A record whose timestamp text reads as a time, as every record the readers build does. */
  predicate Stamped(r: Record) {
    ParseTimestamp(r.timestamp).Some?
  }

  function TimeOf(r: Record): DateTime
    requires Stamped(r)
  {
    ParseTimestamp(r.timestamp).value
  }

  /** Records in chronological order on the timeline. */
  predicate Chronological(rs: seq<Record>) {
    forall i, j | 0 <= i < j < |rs| ::
      Stamped(rs[i]) && Stamped(rs[j]) && Micros(TimeOf(rs[i])) <= Micros(TimeOf(rs[j]))
  }

  lemma CollectStamped(lines: seq<string>, sep: char, window: Option<int>)
    ensures forall r | r in Collect(Outcomes(lines, sep), window) :: Stamped(r)
  {
    var os := Outcomes(lines, sep);
    forall r | r in Collect(os, window) ensures Stamped(r) {
      CollectFrom(os, window, r);
      var i :| 0 <= i < |os| && os[i].Parsed? && os[i].record == r;
      assert os[i] == ParseLine(lines[i], sep);
    }
  }

  /** Sorting on the fixed-width timestamp text puts the records in time order. */
  lemma SortedChronological(rs: seq<Record>)
    requires Sorted(rs)
    requires forall r | r in rs :: Stamped(r)
    ensures Chronological(rs)
  {
    forall i, j | 0 <= i < j < |rs|
      ensures Stamped(rs[i]) && Stamped(rs[j]) && Micros(TimeOf(rs[i])) <= Micros(TimeOf(rs[j]))
    {
      assert rs[i] in rs && rs[j] in rs;
      TextOrderIsTimeOrder(TimeOf(rs[i]), TimeOf(rs[j]));
    }
  }

  lemma SortedRecordsStamped(lines: seq<string>, sep: char, window: Option<int>)
    ensures forall r | r in SortByTimestamp(Collect(Outcomes(lines, sep), window)) :: Stamped(r)
  {
    var c := Collect(Outcomes(lines, sep), window);
    CollectStamped(lines, sep, window);
    SortPermutation(c);
    forall r | r in SortByTimestamp(c) ensures Stamped(r) {
      assert r in multiset(SortByTimestamp(c));
    }
  }

  /** Both readers return their records in chronological order. */
  lemma ReadersChronological(file: LogFile, sep: char, minutes: int, now: int)
    ensures Chronological(AllAvailable(file, sep))
    ensures Chronological(Historical(file, sep, minutes, now))
  {
    HistoricalSpec(file, sep, minutes, now);
    if file.Present? {
      SortedRecordsStamped(file.lines, sep, None);
      SortedRecordsStamped(file.lines, sep, Some(Cutoff(now, minutes)));
      SortedChronological(AllAvailable(file, sep));
      SortedChronological(Historical(file, sep, minutes, now));
    }
  }

  /** `data_points` bounds the number of records either reader returns. */
  lemma RecordsAtMostLines(file: LogFile, sep: char, minutes: int, now: int)
    ensures |AllAvailable(file, sep)| <= BackupFileCount(file)
    ensures |Historical(file, sep, minutes, now)| <= BackupFileCount(file)
  {
    if file.Present? {
      var os := Outcomes(file.lines, sep);
      CollectBound(os, None);
      CollectBound(os, Some(Cutoff(now, minutes)));
    }
  }

  lemma OutcomesAppend(x: seq<string>, y: seq<string>, sep: char)
    ensures Outcomes(x + y, sep) == Outcomes(x, sep) + Outcomes(y, sep)
  {
    var a, b := Outcomes(x + y, sep), Outcomes(x, sep) + Outcomes(y, sep);
    var ox, oy := Outcomes(x, sep), Outcomes(y, sep);
    assert |a| == |b|;
    forall i | 0 <= i < |a| ensures a[i] == b[i] {
      if i < |x| {
        assert (x + y)[i] == x[i];
        assert b[i] == ox[i];
      } else {
        assert (x + y)[i] == y[i - |x|];
        assert b[i] == oy[i - |x|];
      }
    }
  }

  lemma OutcomesSnoc(lines: seq<string>, line: string, sep: char)
    ensures Outcomes(lines + [line], sep) == Outcomes(lines, sep) + [ParseLine(line, sep)]
  {
    var a, b := Outcomes(lines + [line], sep), Outcomes(lines, sep) + [ParseLine(line, sep)];
    forall i | 0 <= i < |a| ensures a[i] == b[i] {
      if i < |lines| {
        assert (lines + [line])[i] == lines[i];
      }
    }
  }

  /** A line that parses adds its record to what the readers return. */
  lemma AppendParsedLine(lines: seq<string>, line: string, sep: char, t: DateTime, r: Record)
    requires ParseLine(line, sep) == Parsed(t, r)
    ensures multiset(AllAvailable(Present(lines + [line]), sep)) == multiset(AllAvailable(Present(lines), sep)) + multiset{r}
  {
    var os := Outcomes(lines, sep);
    OutcomesSnoc(lines, line, sep);
    CollectSnoc(os, Parsed(t, r), None);
    SortPermutation(Collect(os, None));
    SortPermutation(Collect(os + [Parsed(t, r)], None));
  }

  lemma CollectSkip(a: seq<LineOutcome>, o: LineOutcome, b: seq<LineOutcome>, window: Option<int>)
    requires !o.Parsed?
    ensures Collect(a + [o] + b, window) == Collect(a + b, window)
  {
    CollectAppend(a + [o], b, window);
    CollectSnoc(a, o, window);
    assert Kept(o, window) == [];
    assert Collect(a + [o], window) == Collect(a, window);
    CollectAppend(a, b, window);
  }

  /** A line that does not parse changes neither reader's result. */
  lemma SkippedLineIgnored(pre: seq<string>, bad: string, post: seq<string>, sep: char, minutes: int, now: int)
    requires !ParseLine(bad, sep).Parsed?
    ensures AllAvailable(Present(pre + [bad] + post), sep) == AllAvailable(Present(pre + post), sep)
    ensures Historical(Present(pre + [bad] + post), sep, minutes, now) == Historical(Present(pre + post), sep, minutes, now)
  {
    var with, without := pre + [bad] + post, pre + post;
    var cutoff := Cutoff(now, minutes);
    assert Collect(Outcomes(with, sep), None) == Collect(Outcomes(without, sep), None)
        && Collect(Outcomes(with, sep), Some(cutoff)) == Collect(Outcomes(without, sep), Some(cutoff)) by {
      var a, b := Outcomes(pre, sep), Outcomes(post, sep);
      OutcomesAppend(pre + [bad], post, sep);
      OutcomesAppend(pre, [bad], sep);
      OutcomesAppend(pre, post, sep);
      assert Outcomes([bad], sep) == [ParseLine(bad, sep)];
      CollectSkip(a, ParseLine(bad, sep), b, None);
      CollectSkip(a, ParseLine(bad, sep), b, Some(cutoff));
    }
    SameRecordsSameResults(with, without, sep, minutes, now);
  }

  /** The readers depend on the lines only through the records they keep. */
  lemma SameRecordsSameResults(x: seq<string>, y: seq<string>, sep: char, minutes: int, now: int)
    requires Collect(Outcomes(x, sep), None) == Collect(Outcomes(y, sep), None)
    requires Collect(Outcomes(x, sep), Some(Cutoff(now, minutes))) == Collect(Outcomes(y, sep), Some(Cutoff(now, minutes)))
    ensures AllAvailable(Present(x), sep) == AllAvailable(Present(y), sep)
    ensures Historical(Present(x), sep, minutes, now) == Historical(Present(y), sep, minutes, now)
  {
  }

  // ---------------------------------------------------------------------------
  // reading back what the writer wrote

  predicate AllWellFormed(ws: seq<LoggedValues>) {
    forall i | 0 <= i < |ws| :: WellFormed(ws[i])
  }

  /** The log lines for a sequence of writes, in write order. */
  function WrittenLog(ws: seq<LoggedValues>): (log: seq<string>)
    requires AllWellFormed(ws)
    ensures |log| == |ws| && forall i | 0 <= i < |ws| :: log[i] == BackupLine(ws[i])
  {
    seq(|ws|, i requires 0 <= i < |ws| => assert WellFormed(ws[i]); BackupLine(ws[i]))
  }

  /** The records those writes should read back as, in write order. */
  function WrittenRecords(ws: seq<LoggedValues>): (rs: seq<Record>)
    requires AllWellFormed(ws)
    ensures |rs| == |ws| && forall i | 0 <= i < |ws| :: rs[i] == RecordOf(ws[i])
  {
    seq(|ws|, i requires 0 <= i < |ws| => assert WellFormed(ws[i]); RecordOf(ws[i]))
  }

  /** The outcomes of written lines, rejoined with ':', are all parsed. */
  lemma {:induction false} CollectParsed(os: seq<LineOutcome>)
    requires forall i | 0 <= i < |os| :: os[i].Parsed?
    ensures Collect(os, None) == seq(|os|, i requires 0 <= i < |os| => os[i].record)
  {
    if os != [] {
      CollectParsed(os[..|os| - 1]);
    }
  }

  /** Reading back N written lines with the ':' rejoin gives exactly the N
      written records, sorted by timestamp. */
  lemma ReadBackLog(ws: seq<LoggedValues>)
    requires AllWellFormed(ws)
    ensures AllAvailable(Present(WrittenLog(ws)), IntendedSep) == SortByTimestamp(WrittenRecords(ws))
    ensures |AllAvailable(Present(WrittenLog(ws)), IntendedSep)| == |ws|
  {
    var os := Outcomes(WrittenLog(ws), IntendedSep);
    forall i | 0 <= i < |ws| ensures os[i] == Parsed(ws[i].stamp, RecordOf(ws[i])) {
      ReadBackLine(ws[i]);
    }
    CollectParsed(os);
    assert Collect(os, None) == WrittenRecords(ws);
  }

  /** When the writes were stamped in chronological order, as a clock that does
      not go back stamps them, the records come back exactly in write order. */
  lemma ReadBackInOrder(ws: seq<LoggedValues>)
    requires AllWellFormed(ws)
    requires forall i, j | 0 <= i < j < |ws| :: NotAfter(ws[i].stamp, ws[j].stamp)
    ensures AllAvailable(Present(WrittenLog(ws)), IntendedSep) == WrittenRecords(ws)
  {
    ReadBackLog(ws);
    var rs := WrittenRecords(ws);
    forall i, j | 0 <= i < j < |rs| ensures StrLe(rs[i].timestamp, rs[j].timestamp) {
      FormatOrder(ws[i].stamp, ws[j].stamp);
    }
    SortOfSorted(rs);
  }

  /** As written, neither reader ever returns a record, whatever the file holds. */
  lemma AsWrittenReadsNothing(file: LogFile, minutes: int, now: int)
    ensures AllAvailable(file, AsWrittenSep) == []
    ensures Historical(file, AsWrittenSep, minutes, now) == []
  {
    if file.Present? {
      var os := Outcomes(file.lines, AsWrittenSep);
      forall i | 0 <= i < |os| ensures !os[i].Parsed? {
        AsWrittenNeverParses(file.lines[i]);
      }
      NothingParsedNothingKept(os, None);
      NothingParsedNothingKept(os, Some(Cutoff(now, minutes)));
    }
  }

  lemma {:induction false} NothingParsedNothingKept(os: seq<LineOutcome>, window: Option<int>)
    requires forall i | 0 <= i < |os| :: !os[i].Parsed?
    ensures Collect(os, window) == []
  {
    if os != [] {
      NothingParsedNothingKept(os[..|os| - 1], window);
    }
  }
}
