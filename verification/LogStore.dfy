/**
 * audit-governance-service/src/log-storage.ts: batches of records appended to
 * day/service files, and the pointers that index them.
 */
module LogStore {
  import opened Lines
  import opened Options
  import Calendar
  import Sets

  /**
   * A record on its way to storage. `at` is its timestamp in milliseconds, as
   * finely as it was written, or None when Date cannot read it, in which case
   * dayParts uses the `clock`. Date itself keeps whole milliseconds.
   * `segment` is the sanitised service name, `json` its JSON.stringify image.
   */
  datatype LogRecord = LogRecord(at: Option<real>, clock: int, segment: string, json: Bytes)

  datatype Partition = Partition(year: int, month: int, day: int)

  /** The object key year/month/day/segment/suffix. */
  datatype Key = Key(partition: Partition, segment: string, suffix: string)

  datatype Pointer = Pointer(key: Key, offset: nat, bytes: nat)

  type Files = map<Key, Bytes>

  function DayParts(t: int): (p: Partition) {
    var d := Calendar.Day(t);
    Partition(Calendar.YearOf(d), Calendar.MonthOf(d) + 1, Calendar.DateOf(d))
  }

  function KeyOf(r: LogRecord, suffix: string): Key {
    Key(DayParts(if r.at.Some? then r.at.value.Floor else r.clock), r.segment, suffix)
  }

  function LineFor(r: LogRecord): (l: Bytes)
    ensures Terminated(l)
  {
    r.json + [NEWLINE]
  }

  function Content(files: Files, k: Key): Bytes {
    if k in files then files[k] else []
  }

  /** The lines that the first i records contribute to file k, in input order. */
  function Upto(rs: seq<LogRecord>, suffix: string, k: Key, i: nat): Bytes
    requires i <= |rs|
  {
    if i == 0 then []
    else Upto(rs, suffix, k, i - 1) + (if KeyOf(rs[i - 1], suffix) == k then LineFor(rs[i - 1]) else [])
  }

  /** What writeBatch promises: files only grow, by the batch's lines in input order, and pointer i is line i. */
  ghost predicate Written(files: Files, rs: seq<LogRecord>, suffix: string, files': Files, ps: seq<Pointer>) {
    && |ps| == |rs|
    && (forall k :: Content(files', k) == Content(files, k) + Upto(rs, suffix, k, |rs|))
    && (forall i :: 0 <= i < |rs| ==> ps[i] == PointerTo(files, rs, suffix, i))
  }

  function PointerTo(files: Files, rs: seq<LogRecord>, suffix: string, i: nat): Pointer
    requires i < |rs|
  {
    var k := KeyOf(rs[i], suffix);
    Pointer(k, |Content(files, k)| + |Upto(rs, suffix, k, i)|, |LineFor(rs[i])|)
  }

  // --------------------------------------------------------------- grouping

  datatype Entry = Entry(index: nat, line: Bytes)

  function Text(es: seq<Entry>): Bytes {
    if es == [] then [] else Text(es[..|es| - 1]) + es[|es| - 1].line
  }

  /** The group of key k after i records: its entries are the records of k, each at its place. */
  predicate GroupOk(rs: seq<LogRecord>, suffix: string, k: Key, es: seq<Entry>, i: nat)
    requires i <= |rs|
  {
    && Text(es) == Upto(rs, suffix, k, i)
    && (forall j :: 0 <= j < |es| ==> EntryOk(rs, suffix, k, es, j, i))
    && (forall n :: 0 <= n < i && KeyOf(rs[n], suffix) == k ==> exists j :: 0 <= j < |es| && es[j].index == n)
  }

  predicate EntryOk(rs: seq<LogRecord>, suffix: string, k: Key, es: seq<Entry>, j: nat, i: nat)
    requires j < |es| && i <= |rs|
  {
    && es[j].index < i && KeyOf(rs[es[j].index], suffix) == k && es[j].line == LineFor(rs[es[j].index])
    && Text(es[..j]) == Upto(rs, suffix, k, es[j].index)
  }

  function GroupAt(groups: map<Key, seq<Entry>>, k: Key): seq<Entry> {
    if k in groups then groups[k] else []
  }

  lemma GroupGrows(rs: seq<LogRecord>, suffix: string, k: Key, es: seq<Entry>, i: nat)
    requires i < |rs| && GroupOk(rs, suffix, k, es, i)
    ensures KeyOf(rs[i], suffix) == k ==> GroupOk(rs, suffix, k, es + [Entry(i, LineFor(rs[i]))], i + 1)
    ensures KeyOf(rs[i], suffix) != k ==> GroupOk(rs, suffix, k, es, i + 1)
  {
    hide KeyOf, LineFor;
    var m := i + 1;
    if KeyOf(rs[i], suffix) == k {
      var fs := es + [Entry(i, LineFor(rs[i]))];
      assert fs[..|es|] == es;
      forall j | 0 <= j < |fs| ensures EntryOk(rs, suffix, k, fs, j, m) {
        if j < |es| {
          assert EntryOk(rs, suffix, k, es, j, i) && fs[..j] == es[..j];
        }
      }
      forall n | 0 <= n < m && KeyOf(rs[n], suffix) == k ensures exists j :: 0 <= j < |fs| && fs[j].index == n {
        if n < i {
          var j :| 0 <= j < |es| && es[j].index == n;
          assert fs[j].index == n;
        } else {
          assert fs[|es|].index == n;
        }
      }
    } else {
      forall j | 0 <= j < |es| ensures EntryOk(rs, suffix, k, es, j, m) {
        assert EntryOk(rs, suffix, k, es, j, i);
      }
    }
  }

  ghost predicate Grouped(rs: seq<LogRecord>, suffix: string, order: seq<Key>, groups: map<Key, seq<Entry>>, i: nat)
    requires i <= |rs|
  {
    && (forall k :: GroupOk(rs, suffix, k, GroupAt(groups, k), i))
    && OrderOk(suffix, order, groups)
  }

  /** The keys of the groups, each once, in the order in which they came. */
  predicate OrderOk(suffix: string, order: seq<Key>, groups: map<Key, seq<Entry>>) {
    && (forall k <- groups :: k in order) && (forall k <- order :: k in groups && k.suffix == suffix)
    && (forall a, b :: 0 <= a < b < |order| ==> order[a] != order[b])
  }

  lemma OrderStep(suffix: string, order: seq<Key>, groups: map<Key, seq<Entry>>, key: Key, es: seq<Entry>)
    requires OrderOk(suffix, order, groups) && key.suffix == suffix
    ensures OrderOk(suffix, if key in groups then order else order + [key], groups[key := es])
  {
  }

  lemma GroupedStep(rs: seq<LogRecord>, suffix: string, order: seq<Key>, groups: map<Key, seq<Entry>>, i: nat)
    requires i < |rs| && Grouped(rs, suffix, order, groups, i)
    ensures var key := KeyOf(rs[i], suffix);
            Grouped(rs, suffix, if key in groups then order else order + [key],
                    groups[key := GroupAt(groups, key) + [Entry(i, LineFor(rs[i]))]], i + 1)
  {
    hide KeyOf, GroupOk, LineFor, OrderOk;
    var key := KeyOf(rs[i], suffix);
    var es := GroupAt(groups, key) + [Entry(i, LineFor(rs[i]))];
    var groups' := groups[key := es];
    KeySuffix(rs[i], suffix);
    OrderStep(suffix, order, groups, key, es);
    forall k ensures GroupOk(rs, suffix, k, GroupAt(groups', k), i + 1) {
      assert GroupOk(rs, suffix, k, GroupAt(groups, k), i);
      GroupGrows(rs, suffix, k, GroupAt(groups, k), i);
    }
  }

  lemma KeySuffix(r: LogRecord, suffix: string)
    ensures KeyOf(r, suffix).suffix == suffix
  {
    hide DayParts;
  }

  /** The forEach that fills `groups`; `order` is the insertion order of the Map. */
  method Group(rs: seq<LogRecord>, suffix: string) returns (order: seq<Key>, groups: map<Key, seq<Entry>>)
    ensures Grouped(rs, suffix, order, groups, |rs|)
  {
    order, groups := [], map[];
    var i := 0;
    assert Grouped(rs, suffix, order, groups, 0);
    hide *;
    while i < |rs|
      invariant 0 <= i <= |rs| && Grouped(rs, suffix, order, groups, i)
    {
      GroupedStep(rs, suffix, order, groups, i);
      var key := KeyOf(rs[i], suffix);
      var group := GroupAt(groups, key);
      var line := LineFor(rs[i]);
      if key !in groups {
        order := order + [key];
      }
      groups := groups[key := group + [Entry(i, line)]];
      i := i + 1;
    }
  }

  // ------------------------------------------------------------- partitions

  function Partitions(files: Files): set<Partition> {
    set k | k in files :: k.partition
  }

  /**
   * The directory has a four-digit year, and Date.UTC(year, month - 1, day + 1) is at or before the cutoff.
   * (Years 0 to 99, which Date.UTC would move to the 20th century, never have four digits here.)
   */
  predicate Expired(p: Partition, cutoff: int) {
    1000 <= p.year <= 9999 && Calendar.MS_PER_DAY * Calendar.MakeDay(p.year, p.month - 1, p.day + 1) <= cutoff
  }

  function Without(files: Files, ps: set<Partition>): Files {
    map k | k in files && k.partition !in ps :: files[k]
  }

  function Kept(files: Files, cutoff: int): Files {
    map k | k in files && !Expired(k.partition, cutoff) :: files[k]
  }

  lemma ListedIfKept(files: Files, done: set<Partition>)
    ensures Partitions(Without(files, done)) == Partitions(files) - done
  {
    forall p | p in Partitions(files) - done ensures p in Partitions(Without(files, done)) {
      var k :| k in files && k.partition == p;
      assert k in Without(files, done);
    }
  }

  lemma ExpiredYears(cutoff: int)
    ensures forall p :: Expired(p, cutoff) ==> 1000 <= p.year <= 9999
  {
  }

  // ------------------------------------------------------- the two backends

  /** Pointers of the records whose key is listed are set. */
  predicate Placed(files: Files, rs: seq<LogRecord>, suffix: string, keys: seq<Key>, ps: seq<Pointer>)
    requires |ps| == |rs|
  {
    forall i :: 0 <= i < |rs| && KeyOf(rs[i], suffix) in keys ==> ps[i] == PointerTo(files, rs, suffix, i)
  }

  class FilesystemLogStorage {
    var files: Files

    /** Appends each group to its file and hands out the pointers by input index. */
    method WriteBatch(rs: seq<LogRecord>) returns (pointers: seq<Pointer>)
      modifies this
      ensures Written(old(files), rs, "logs.ndjson", files, pointers)
    {
      var suffix := "logs.ndjson";
      var slots := new Pointer[|rs|];
      var order, groups := Group(rs, suffix);
      ghost var start := files;
      var g := 0;
      hide Placed, Appended, GroupOk, KeyOf, PointerTo;
      Untouched(start, rs, suffix, groups, slots[..]);
      while g < |order|
        invariant 0 <= g <= |order|
        invariant Appended(start, order[..g], groups, files)
        invariant Placed(start, rs, suffix, order[..g], slots[..])
      {
        var key := order[g];
        GroupFacts(rs, suffix, order, groups, g);
        var entries := groups[key];
        ghost var before, filled := files, slots[..];
        NotYet(start, order[..g], groups, files, key);
        var offset := |Content(files, key)|;
        var content := Joined(entries);
        files := files[key := Content(files, key) + content];
        Place(start, rs, suffix, key, entries, offset, slots);
        OneMore(start, rs, suffix, order, g, groups, before, files, filled, slots[..]);
        g := g + 1;
      }
      assert order[..|order|] == order;
      pointers := slots[..];
      AllWritten(start, rs, suffix, order, groups, files, pointers);
    }

    /** The innermost loop: the expired days of one month. */
    method PruneMonth(year: int, month: int, cutoff: int) returns (deleted: nat, ghost gone: set<Partition>)
      modifies this
      ensures gone == set p | p in Partitions(old(files)) && Expired(p, cutoff) && p.year == year && p.month == month
      ensures files == Without(old(files), gone) && deleted == |gone|
    {
            hide *;
      deleted, gone := 0, {};
      ghost var all := Partitions(files);
      var days := DaysOf(files, year, month);
      DaysAreListed(files, year, month);
      WithoutMore(files, {}, {});
      NoDayGone(all, cutoff, year, month, days);
      while days != {}
        invariant files == Without(old(files), gone) && deleted == |gone|
        invariant gone == GoneDays(all, cutoff, year, month, days)
        invariant forall d <- days :: Partition(year, month, d) in all
      {
        var day := Sets.AnyOf(days);
        var partition := Partition(year, month, day);
        OneDayMore(all, cutoff, days, partition);
        if Expired(partition, cutoff) {
          RemoveDayIs(files, partition);
          files := RemoveDay(files, partition);
          deleted := deleted + 1;
          WithoutMore(old(files), gone, {partition});
          gone := gone + {partition};
        }
        days := days - {day};
      }
      AllDaysGone(all, cutoff, year, month);
    }

    method PruneYear(year: int, cutoff: int) returns (deleted: nat, ghost gone: set<Partition>)
      modifies this
      ensures gone == set p | p in Partitions(old(files)) && Expired(p, cutoff) && p.year == year
      ensures files == Without(old(files), gone) && deleted == |gone|
    {
      deleted, gone := 0, {};
      ghost var all := Partitions(files);
      var months := set k | k in files && k.partition.year == year :: k.partition.month;
      assert forall p :: p in all && p.year == year ==> p.month in months;
      WithoutMore(files, {}, {});
      assert GoneMonths(all, cutoff, year, months) == {};
      hide Expired, Partitions, Without, GoneMonths;
      while months != {}
        invariant files == Without(old(files), gone) && deleted == |gone|
        invariant gone == GoneMonths(all, cutoff, year, months)
      {
        var month :| month in months;
        var n, part := PruneMonth(year, month, cutoff);
        ListedIfKept(old(files), gone);
        OneMonthMore(all, cutoff, year, months, month, gone, part);
        WithoutMore(old(files), gone, part);
        deleted, gone, months := deleted + n, gone + part, months - {month};
      }
      AllMonthsGone(all, cutoff, year);
    }

    /** Removes the day directories that ended at or before the cutoff; returns how many there were. */
    method PruneBefore(cutoff: int) returns (deletedPartitions: nat)
      modifies this
      ensures files == Kept(old(files), cutoff)
      ensures deletedPartitions == |set p | p in Partitions(old(files)) && Expired(p, cutoff)|
    {
      ghost var all, gone := Partitions(files), {};
      deletedPartitions := 0;
      var years := set k | k in files && 1000 <= k.partition.year <= 9999 :: k.partition.year;
      assert forall p :: p in all && 1000 <= p.year <= 9999 ==> p.year in years;
      WithoutMore(files, {}, {});
      ExpiredYears(cutoff);
      KeptIsWithout(files, cutoff);
      assert GoneYears(all, cutoff, years) == {} by { hide Expired; }
      hide Expired, Partitions, Without, GoneYears;
      while years != {}
        invariant files == Without(old(files), gone) && deletedPartitions == |gone|
        invariant gone == GoneYears(all, cutoff, years)
      {
        var year :| year in years;
        var n, part := PruneYear(year, cutoff);
        ListedIfKept(old(files), gone);
        OneYearMore(all, cutoff, years, year, gone, part);
        WithoutMore(old(files), gone, part);
        deletedPartitions, gone, years := deletedPartitions + n, gone + part, years - {year};
      }
      AllYearsGone(all, cutoff);
    }
  }

  /** The expired partitions of one month whose day is not left to do. */
  function GoneDays(all: set<Partition>, cutoff: int, year: int, month: int, left: set<int>): set<Partition> {
    set p | p in all && Expired(p, cutoff) && p.year == year && p.month == month && p.day !in left
  }

  /** What readdir lists in the directory of a month. */
  function DaysOf(files: Files, year: int, month: int): set<int> {
    set k | k in files && k.partition.year == year && k.partition.month == month :: k.partition.day
  }

  lemma DaysAreListed(files: Files, year: int, month: int)
    ensures forall d <- DaysOf(files, year, month) :: Partition(year, month, d) in Partitions(files)
    ensures forall p <- Partitions(files) :: p.year == year && p.month == month ==> p.day in DaysOf(files, year, month)
  {
  }

  lemma RemoveDayIs(files: Files, p: Partition)
    ensures RemoveDay(files, p) == Without(files, {p})
  {
    hide Without;
  }

  lemma NoDayGone(all: set<Partition>, cutoff: int, year: int, month: int, days: set<int>)
    requires forall p <- all :: p.year == year && p.month == month ==> p.day in days
    ensures GoneDays(all, cutoff, year, month, days) == {}
  {
    hide Expired;
  }

  lemma OneDayMore(all: set<Partition>, cutoff: int, left: set<int>, p: Partition)
    requires p in all && p.day in left
    ensures var gone := GoneDays(all, cutoff, p.year, p.month, left);
            var next := GoneDays(all, cutoff, p.year, p.month, left - {p.day});
            p !in gone && next == if Expired(p, cutoff) then gone + {p} else gone
  {
    hide Expired;
  }

  lemma AllDaysGone(all: set<Partition>, cutoff: int, year: int, month: int)
    ensures GoneDays(all, cutoff, year, month, {})
         == set p | p in all && Expired(p, cutoff) && p.year == year && p.month == month
  {
    hide Expired;
  }

  /** The expired partitions of one year whose month is not left to do. */
  function GoneMonths(all: set<Partition>, cutoff: int, year: int, left: set<int>): set<Partition> {
    set p | p in all && Expired(p, cutoff) && p.year == year && p.month !in left
  }

  lemma OneMonthMore(all: set<Partition>, cutoff: int, year: int, left: set<int>, month: int,
                     gone: set<Partition>, part: set<Partition>)
    requires gone == GoneMonths(all, cutoff, year, left) && month in left
    requires part == set p | p in all - gone && Expired(p, cutoff) && p.year == year && p.month == month
    ensures gone !! part && gone + part == GoneMonths(all, cutoff, year, left - {month})
  {
    hide Expired;
  }

  lemma AllMonthsGone(all: set<Partition>, cutoff: int, year: int)
    ensures GoneMonths(all, cutoff, year, {}) == set p | p in all && Expired(p, cutoff) && p.year == year
  {
    hide Expired;
  }

  /** The expired partitions whose year is not left to do. */
  function GoneYears(all: set<Partition>, cutoff: int, left: set<int>): set<Partition> {
    set p | p in all && Expired(p, cutoff) && p.year !in left
  }

  lemma OneYearMore(all: set<Partition>, cutoff: int, left: set<int>, year: int, gone: set<Partition>,
                    part: set<Partition>)
    requires gone == GoneYears(all, cutoff, left) && year in left
    requires part == set p | p in all - gone && Expired(p, cutoff) && p.year == year
    ensures gone !! part && gone + part == GoneYears(all, cutoff, left - {year})
  {
    hide Expired;
  }

  lemma AllYearsGone(all: set<Partition>, cutoff: int)
    ensures GoneYears(all, cutoff, {}) == set p | p in all && Expired(p, cutoff)
  {
    hide Expired;
  }

  lemma KeptIsWithout(files: Files, cutoff: int)
    ensures Kept(files, cutoff) == Without(files, set p | p in Partitions(files) && Expired(p, cutoff))
  {
    hide Expired;
  }

  function RemoveDay(files: Files, p: Partition): Files {
    Without(files, {p})
  }

  lemma WithoutMore(files: Files, a: set<Partition>, b: set<Partition>)
    ensures Without(files, {}) == files
    ensures Without(Without(files, a), b) == Without(files, a + b)
    ensures a !! b ==> |a + b| == |a| + |b|
  {
  }

  lemma Untouched(start: Files, rs: seq<LogRecord>, suffix: string, groups: map<Key, seq<Entry>>, ps: seq<Pointer>)
    requires |ps| == |rs|
    ensures Appended(start, [], groups, start) && Placed(start, rs, suffix, [], ps)
  {
  }

  lemma NotYet(start: Files, keys: seq<Key>, groups: map<Key, seq<Entry>>, files: Files, key: Key)
    requires Appended(start, keys, groups, files) && key !in keys
    ensures Content(files, key) == Content(start, key)
  {
  }

  lemma OneMore(start: Files, rs: seq<LogRecord>, suffix: string, order: seq<Key>, g: nat, groups: map<Key, seq<Entry>>,
                files: Files, files': Files, ps: seq<Pointer>, ps': seq<Pointer>)
    requires g < |order| && order[g] in groups && order[g] !in order[..g] && |ps| == |ps'| == |rs|
    requires Appended(start, order[..g], groups, files) && Placed(start, rs, suffix, order[..g], ps)
    requires files' == files[order[g] := Content(files, order[g]) + Text(groups[order[g]])]
    requires forall i :: 0 <= i < |rs| ==>
               ps'[i] == if KeyOf(rs[i], suffix) == order[g] then PointerTo(start, rs, suffix, i) else ps[i]
    ensures Appended(start, order[..g + 1], groups, files') && Placed(start, rs, suffix, order[..g + 1], ps')
  {
    hide KeyOf, PointerTo, Text, Appended, Placed;
    var done, key := order[..g], order[g];
    var more := order[..g + 1];
    assert more == done + [key];
    assert forall k :: k in more <==> k in done || k == key;
    AppendedMore(start, done, more, groups, files, files', key);
    PlacedMore(start, rs, suffix, done, more, ps, ps', key);
  }

  lemma AppendedMore(start: Files, done: seq<Key>, more: seq<Key>, groups: map<Key, seq<Entry>>,
                     files: Files, files': Files, key: Key)
    requires Appended(start, done, groups, files) && key in groups && key !in done
    requires forall k :: k in more <==> k in done || k == key
    requires files' == files[key := Content(files, key) + Text(groups[key])]
    ensures Appended(start, more, groups, files')
  {
    hide Text;
  }

  lemma PlacedMore(start: Files, rs: seq<LogRecord>, suffix: string, done: seq<Key>, more: seq<Key>,
                   ps: seq<Pointer>, ps': seq<Pointer>, key: Key)
    requires |ps| == |ps'| == |rs| && Placed(start, rs, suffix, done, ps)
    requires forall k :: k in more <==> k in done || k == key
    requires forall i :: 0 <= i < |rs| ==>
               ps'[i] == if KeyOf(rs[i], suffix) == key then PointerTo(start, rs, suffix, i) else ps[i]
    ensures Placed(start, rs, suffix, more, ps')
  {
    hide KeyOf, PointerTo;
  }

  ghost predicate Appended(start: Files, keys: seq<Key>, groups: map<Key, seq<Entry>>, files: Files)
  {
    && (forall k :: k in keys ==> k in groups && Content(files, k) == Content(start, k) + Text(groups[k]))
    && (forall k :: k !in keys ==> Content(files, k) == Content(start, k))
  }

  method Joined(es: seq<Entry>) returns (content: Bytes)
    ensures content == Text(es)
  {
    content := [];
    for j := 0 to |es|
      invariant content == Text(es[..j])
    {
      assert es[..j + 1][..j] == es[..j];
      content := content + es[j].line;
    }
    assert es[..|es|] == es;
  }

  /** The cursor loop over one group; pointers of other groups stay. */
  method Place(ghost start: Files, rs: seq<LogRecord>, suffix: string, key: Key, entries: seq<Entry>, offset: nat,
               slots: array<Pointer>)
    requires slots.Length == |rs| && GroupOk(rs, suffix, key, entries, |rs|) && offset == |Content(start, key)|
    modifies slots
    ensures forall i :: 0 <= i < |rs| ==>
              slots[i] == if KeyOf(rs[i], suffix) == key then PointerTo(start, rs, suffix, i) else old(slots[i])
  {
    hide *;
    var cursor := offset;
    var j := 0;
    NothingPlaced(start, rs, suffix, key, entries, slots[..]);
    while j < |entries|
      invariant 0 <= j <= |entries| && cursor == offset + |Text(entries[..j])|
      invariant Filled(start, rs, suffix, key, entries, j, old(slots[..]), slots[..])
    {
      var entry := entries[j];
      ghost var before := slots[..];
      EntryPointer(start, rs, suffix, key, entries, j);
      slots[entry.index] := Pointer(key, cursor, |entry.line|);
      FilledMore(start, rs, suffix, key, entries, j, old(slots[..]), before, slots[..]);
      cursor := cursor + |entry.line|;
      j := j + 1;
    }
    AllFilled(start, rs, suffix, key, entries, old(slots[..]), slots[..]);
    assert forall i :: 0 <= i < |rs| ==> old(slots[..])[i] == old(slots[i]) && slots[..][i] == slots[i];
  }

  /** The pointers of the first j entries are set; those of other keys are as before. */
  predicate Filled(start: Files, rs: seq<LogRecord>, suffix: string, key: Key, entries: seq<Entry>, j: nat,
                   was: seq<Pointer>, ps: seq<Pointer>)
    requires j <= |entries|
  {
    && |was| == |ps| == |rs|
    && (forall n :: 0 <= n < j ==>
          entries[n].index < |rs| && ps[entries[n].index] == PointerTo(start, rs, suffix, entries[n].index))
    && (forall i :: 0 <= i < |rs| && KeyOf(rs[i], suffix) != key ==> ps[i] == was[i])
  }

  lemma NothingPlaced(start: Files, rs: seq<LogRecord>, suffix: string, key: Key, entries: seq<Entry>,
                      was: seq<Pointer>)
    requires |was| == |rs|
    ensures Filled(start, rs, suffix, key, entries, 0, was, was) && Text(entries[..0]) == []
  {
  }

  /** The next entry: its index, its key, and the pointer that the cursor gives it. */
  lemma EntryPointer(start: Files, rs: seq<LogRecord>, suffix: string, key: Key, entries: seq<Entry>, j: nat)
    requires j < |entries| && GroupOk(rs, suffix, key, entries, |rs|)
    ensures var e := entries[j];
            && e.index < |rs| && KeyOf(rs[e.index], suffix) == key
            && PointerTo(start, rs, suffix, e.index)
               == Pointer(key, |Content(start, key)| + |Text(entries[..j])|, |e.line|)
            && |Text(entries[..j + 1])| == |Text(entries[..j])| + |e.line|
  {
    hide KeyOf, LineFor, GroupOk, Content;
    EntryIn(rs, suffix, key, entries, j);
    assert entries[..j + 1][..j] == entries[..j];
  }

  lemma FilledMore(start: Files, rs: seq<LogRecord>, suffix: string, key: Key, entries: seq<Entry>, j: nat,
                   was: seq<Pointer>, ps: seq<Pointer>, ps': seq<Pointer>)
    requires j < |entries| && Filled(start, rs, suffix, key, entries, j, was, ps)
    requires entries[j].index < |rs| && KeyOf(rs[entries[j].index], suffix) == key
    requires ps' == ps[entries[j].index := PointerTo(start, rs, suffix, entries[j].index)]
    ensures Filled(start, rs, suffix, key, entries, j + 1, was, ps')
  {
    hide KeyOf, PointerTo;
  }

  lemma AllFilled(start: Files, rs: seq<LogRecord>, suffix: string, key: Key, entries: seq<Entry>,
                  was: seq<Pointer>, ps: seq<Pointer>)
    requires GroupOk(rs, suffix, key, entries, |rs|) && Filled(start, rs, suffix, key, entries, |entries|, was, ps)
    ensures |ps| == |was| == |rs|
    ensures forall i :: 0 <= i < |rs| ==>
              ps[i] == if KeyOf(rs[i], suffix) == key then PointerTo(start, rs, suffix, i) else was[i]
  {
    hide KeyOf, PointerTo, GroupOk;
    forall i | 0 <= i < |rs| && KeyOf(rs[i], suffix) == key ensures ps[i] == PointerTo(start, rs, suffix, i) {
      var n := EntryFor(rs, suffix, key, entries, i);
    }
  }

  lemma EntryIn(rs: seq<LogRecord>, suffix: string, k: Key, es: seq<Entry>, j: nat)
    requires j < |es| && GroupOk(rs, suffix, k, es, |rs|)
    ensures EntryOk(rs, suffix, k, es, j, |rs|)
  {
  }

  lemma EntryFor(rs: seq<LogRecord>, suffix: string, k: Key, es: seq<Entry>, i: nat) returns (n: nat)
    requires i < |rs| && KeyOf(rs[i], suffix) == k && GroupOk(rs, suffix, k, es, |rs|)
    ensures n < |es| && es[n].index == i
  {
    n :| 0 <= n < |es| && es[n].index == i;
  }

  lemma AllWritten(start: Files, rs: seq<LogRecord>, suffix: string, order: seq<Key>, groups: map<Key, seq<Entry>>,
                   files: Files, ps: seq<Pointer>)
    requires Grouped(rs, suffix, order, groups, |rs|) && |ps| == |rs|
    requires Appended(start, order, groups, files) && Placed(start, rs, suffix, order, ps)
    ensures Written(start, rs, suffix, files, ps)
  {
    hide KeyOf, PointerTo;
    forall k ensures Content(files, k) == Content(start, k) + Upto(rs, suffix, k, |rs|) {
      assert GroupOk(rs, suffix, k, GroupAt(groups, k), |rs|);
      assert Content(start, k) + [] == Content(start, k);
    }
    forall i | 0 <= i < |rs| ensures KeyOf(rs[i], suffix) in order {
      var k := KeyOf(rs[i], suffix);
      assert GroupOk(rs, suffix, k, GroupAt(groups, k), |rs|);
      var j := EntryFor(rs, suffix, k, GroupAt(groups, k), i);
    }
  }

  class S3LogStorage {
    var objects: Files

    /** One new object per key, named after a batch id that no object has used yet. */
    method WriteBatch(rs: seq<LogRecord>, batchId: string) returns (pointers: seq<Pointer>)
      requires forall k :: k in objects ==> k.suffix != batchId + ".ndjson"
      modifies this
      ensures Written(old(objects), rs, batchId + ".ndjson", objects, pointers)
      ensures forall i :: 0 <= i < |rs| ==>
                pointers[i].offset == |Upto(rs, batchId + ".ndjson", pointers[i].key, i)|
    {
      hide Placed, Appended, GroupOk, KeyOf, PointerTo, Written, Upto, Grouped;
      var suffix := batchId + ".ndjson";
      var slots := new Pointer[|rs|];
      var order, groups := Group(rs, suffix);
      ghost var start := objects;
      var g := 0;
      Untouched(start, rs, suffix, groups, slots[..]);
      while g < |order|
        invariant 0 <= g <= |order|
        invariant Appended(start, order[..g], groups, objects)
        invariant Placed(start, rs, suffix, order[..g], slots[..])
      {
        var key := order[g];
        GroupFacts(rs, suffix, order, groups, g);
        var entries := groups[key];
        assert Content(start, key) == [];
        ghost var before, filled := objects, slots[..];
        NotYet(start, order[..g], groups, objects, key);
        var body := Joined(entries);
        objects := objects[key := body];
        assert [] + body == body;
        Place(start, rs, suffix, key, entries, 0, slots);
        OneMore(start, rs, suffix, order, g, groups, before, objects, filled, slots[..]);
        g := g + 1;
      }
      assert order[..|order|] == order;
      pointers := slots[..];
      AllWritten(start, rs, suffix, order, groups, objects, pointers);
      OffsetsFromZero(start, rs, suffix, objects, pointers);
    }
  }

  lemma GroupFacts(rs: seq<LogRecord>, suffix: string, order: seq<Key>, groups: map<Key, seq<Entry>>, g: nat)
    requires Grouped(rs, suffix, order, groups, |rs|) && g < |order|
    ensures order[g] in groups && order[g] !in order[..g] && order[g].suffix == suffix
    ensures order[g] in groups ==> GroupOk(rs, suffix, order[g], groups[order[g]], |rs|)
  {
    assert GroupOk(rs, suffix, order[g], GroupAt(groups, order[g]), |rs|);
  }

  lemma OffsetsFromZero(start: Files, rs: seq<LogRecord>, suffix: string, objects: Files, ps: seq<Pointer>)
    requires Written(start, rs, suffix, objects, ps) && forall k :: k in start ==> k.suffix != suffix
    ensures forall i :: 0 <= i < |rs| ==> ps[i].offset == |Upto(rs, suffix, ps[i].key, i)|
  {
  }

  // ------------------------------------------------ whole runs of one writer

  /** Batches appended one after the other: batch n turns fs[n] into fs[n + 1] and returns ps[n]. */
  ghost predicate Appending(fs: seq<Files>, bs: seq<seq<LogRecord>>, suffixes: seq<string>, ps: seq<seq<Pointer>>) {
    && |fs| == |bs| + 1 && |ps| == |suffixes| == |bs|
    && (forall n :: 0 <= n < |bs| ==> |ps[n]| == |bs[n]|)
    && (forall n :: 0 <= n < |bs| ==> Written(fs[n], bs[n], suffixes[n], fs[n + 1], ps[n]))
  }

  predicate IsPrefix(a: Bytes, b: Bytes) { |a| <= |b| && b[..|a|] == a }

  lemma PrefixTrans(a: Bytes, b: Bytes, c: Bytes)
    requires IsPrefix(a, b) && IsPrefix(b, c)
    ensures IsPrefix(a, c)
  {
    assert c[..|a|] == c[..|b|][..|a|];
  }

  lemma {:induction false} UptoPrefix(rs: seq<LogRecord>, suffix: string, k: Key, i: nat, j: nat)
    requires i <= j <= |rs|
    ensures IsPrefix(Upto(rs, suffix, k, i), Upto(rs, suffix, k, j))
    decreases j
  {
    hide KeyOf, LineFor;
    if i < j {
      UptoPrefix(rs, suffix, k, i, j - 1);
      PrefixTrans(Upto(rs, suffix, k, i), Upto(rs, suffix, k, j - 1), Upto(rs, suffix, k, j));
    }
  }

  lemma {:induction false} FilesOnlyGrow(fs: seq<Files>, bs: seq<seq<LogRecord>>, suffixes: seq<string>,
                                         ps: seq<seq<Pointer>>, n: nat, m: nat, k: Key)
    requires Appending(fs, bs, suffixes, ps) && n <= m <= |bs|
    ensures IsPrefix(Content(fs[n], k), Content(fs[m], k))
    decreases m
  {
    hide Upto;
    if n < m {
      FilesOnlyGrow(fs, bs, suffixes, ps, n, m - 1, k);
      assert Written(fs[m - 1], bs[m - 1], suffixes[m - 1], fs[m - 1 + 1], ps[m - 1]);
      PrefixTrans(Content(fs[n], k), Content(fs[m - 1], k), Content(fs[m], k));
    }
  }

  /** Reads what a pointer names, if the file is long enough. */
  function ReadAt(files: Files, p: Pointer): Option<Bytes> {
    var c := Content(files, p.key);
    if p.offset + p.bytes <= |c| then Some(c[p.offset..p.offset + p.bytes]) else None
  }

  lemma SliceInMiddle(file: Bytes, before: Bytes, line: Bytes, all: Bytes)
    requires IsPrefix(before + line, all)
    ensures var o := |file| + |before|;
            o + |line| <= |file + all| && (file + all)[o..o + |line|] == line
  {
    var o := |file| + |before|;
    forall j | 0 <= j < |line| ensures (file + all)[o + j] == line[j] {
      assert all[|before| + j] == all[..|before + line|][|before| + j];
    }
  }

  /** The two clauses of Written, at one record. */
  lemma WrittenAt(files: Files, rs: seq<LogRecord>, suffix: string, files': Files, ps: seq<Pointer>, i: nat)
    requires Written(files, rs, suffix, files', ps) && i < |rs|
    ensures i < |ps|
    ensures var k, line := ps[i].key, LineFor(rs[i]);
            && k == KeyOf(rs[i], suffix)
            && ps[i].offset == |Content(files, k)| + |Upto(rs, suffix, k, i)| && ps[i].bytes == |line|
            && Upto(rs, suffix, k, i + 1) == Upto(rs, suffix, k, i) + line
            && Content(files', k) == Content(files, k) + Upto(rs, suffix, k, |rs|)
  {
    assert ps[i] == PointerTo(files, rs, suffix, i);
  }

  /** Right after the batch, pointer i ends where line i ends, and reads it back. */
  lemma PointerInBatch(files: Files, rs: seq<LogRecord>, suffix: string, files': Files, ps: seq<Pointer>, i: nat)
    requires Written(files, rs, suffix, files', ps) && i < |rs| && i < |ps|
    ensures ReadAt(files', ps[i]) == Some(LineFor(rs[i]))
    ensures ps[i].offset + ps[i].bytes == |Content(files, ps[i].key)| + |Upto(rs, suffix, ps[i].key, i + 1)|
    ensures ps[i].offset + ps[i].bytes <= |Content(files', ps[i].key)|
  {
    hide Written, Upto, KeyOf, LineFor, Content, PointerTo;
    var k, line := ps[i].key, LineFor(rs[i]);
    var before, all := Upto(rs, suffix, k, i), Upto(rs, suffix, k, |rs|);
    WrittenAt(files, rs, suffix, files', ps, i);
    UptoPrefix(rs, suffix, k, i + 1, |rs|);
    var file, file' := Content(files, k), Content(files', k);
    assert file' == file + all && ps[i].offset == |file| + |before| && ps[i].bytes == |line|;
    assert ReadAt(files', ps[i]) ==
           if |file| + |before| + |line| <= |file'| then Some(file'[|file| + |before|..|file| + |before| + |line|])
               else None;
    hide *;
    SliceInMiddle(file, before, line, all);
  }

  /** Every pointer ever returned still reads back exactly the JSON of its own record and a newline. */
  lemma EveryPointerReadsBack(fs: seq<Files>, bs: seq<seq<LogRecord>>, suffixes: seq<string>,
                              ps: seq<seq<Pointer>>, n: nat, i: nat)
    requires Appending(fs, bs, suffixes, ps) && n < |bs| && i < |bs[n]|
    ensures ReadAt(fs[|bs|], ps[n][i]) == Some(bs[n][i].json + [10])
  {
    assert LineFor(bs[n][i]) == bs[n][i].json + [10];
    hide Written, LineFor, Upto, Content, ReadAt, IsPrefix;
    PointerInBatch(fs[n], bs[n], suffixes[n], fs[n + 1], ps[n], i);
    FilesOnlyGrow(fs, bs, suffixes, ps, n + 1, |bs|, ps[n][i].key);
    StillReadAt(fs[n + 1], fs[|bs|], ps[n][i], LineFor(bs[n][i]));
  }

  lemma StillReadAt(files: Files, files': Files, p: Pointer, line: Bytes)
    requires IsPrefix(Content(files, p.key), Content(files', p.key)) && ReadAt(files, p) == Some(line)
    ensures ReadAt(files', p) == Some(line)
  {
    hide Content;
    SliceOfPrefix(Content(files, p.key), Content(files', p.key), p.offset, p.offset + p.bytes);
  }

  /** Pointers into one file never overlap, and lie in the order of the records. */
  lemma PointersInOrder(fs: seq<Files>, bs: seq<seq<LogRecord>>, suffixes: seq<string>,
                        ps: seq<seq<Pointer>>, n: nat, i: nat, m: nat, j: nat)
    requires Appending(fs, bs, suffixes, ps) && n < |bs| && i < |bs[n]| && m < |bs| && j < |bs[m]|
    requires n < m || (n == m && i < j)
    requires ps[n][i].key == ps[m][j].key
    ensures ps[n][i].offset + ps[n][i].bytes <= ps[m][j].offset
  {
    var k := ps[n][i].key;
    PointerInBatch(fs[n], bs[n], suffixes[n], fs[n + 1], ps[n], i);
    WrittenAt(fs[m], bs[m], suffixes[m], fs[m + 1], ps[m], j);
    if n < m {
      FilesOnlyGrow(fs, bs, suffixes, ps, n + 1, m, k);
    } else {
      UptoPrefix(bs[n], suffixes[n], k, i + 1, j);
    }
    hide *;
  }

  /** Every byte that a batch appended belongs to the pointer of one of its records. */
  lemma {:induction false} PointersTile(files: Files, rs: seq<LogRecord>, suffix: string, files': Files,
                                        ps: seq<Pointer>, k: Key, x: nat, i: nat) returns (r: nat)
    requires Written(files, rs, suffix, files', ps) && i <= |rs| == |ps|
    requires |Content(files, k)| <= x < |Content(files, k)| + |Upto(rs, suffix, k, i)|
    ensures r < i && ps[r].key == k && ps[r].offset <= x < ps[r].offset + ps[r].bytes
  {
    NothingYet(rs, suffix, k);
    hide *;
    if x < |Content(files, k)| + |Upto(rs, suffix, k, i - 1)| {
      r := PointersTile(files, rs, suffix, files', ps, k, x, i - 1);
    } else {
      r := i - 1;
      TileLast(files, rs, suffix, files', ps, k, r);
    }
  }

  lemma NothingYet(rs: seq<LogRecord>, suffix: string, k: Key)
    ensures Upto(rs, suffix, k, 0) == []
  {
  }

  lemma TileLast(files: Files, rs: seq<LogRecord>, suffix: string, files': Files, ps: seq<Pointer>, k: Key, r: nat)
    requires Written(files, rs, suffix, files', ps) && r < |rs| == |ps|
    requires |Upto(rs, suffix, k, r)| < |Upto(rs, suffix, k, r + 1)|
    ensures ps[r].key == k && ps[r].offset == |Content(files, k)| + |Upto(rs, suffix, k, r)|
    ensures ps[r].offset + ps[r].bytes == |Content(files, k)| + |Upto(rs, suffix, k, r + 1)|
  {
    hide LineFor;
    WrittenAt(files, rs, suffix, files', ps, r);
  }

  // -------------------------------------------- what a file holds, line by line

  /** The file of a record: its service, and the UTC date of its time, or of the clock if it has none. */
  predicate FiledUnder(r: LogRecord, suffix: string, k: Key) {
    && k.segment == r.segment && k.suffix == suffix
    && Calendar.Date(k.partition.year, k.partition.month - 1, k.partition.day)
       == Calendar.DateAt((match r.at case Some(at) => at.Floor case None => r.clock) / 86_400_000)
  }

  lemma KeyOfIff(r: LogRecord, suffix: string, k: Key)
    ensures KeyOf(r, suffix) == k <==> FiledUnder(r, suffix, k)
  {
    hide Calendar.YearOf, Calendar.MonthOf, Calendar.DateOf;
  }

  function LinesIn(rs: seq<LogRecord>, suffix: string, k: Key): seq<Bytes> {
    if rs == [] then []
    else
      var n := |rs| - 1;
      LinesIn(rs[..n], suffix, k) + if FiledUnder(rs[n], suffix, k) then [rs[n].json + [10]] else []
  }

  function AllLines(bs: seq<seq<LogRecord>>, suffixes: seq<string>, k: Key): seq<Bytes>
    requires |bs| <= |suffixes|
  {
    if bs == [] then []
    else
      var n := |bs| - 1;
      AllLines(bs[..n], suffixes, k) + LinesIn(bs[n], suffixes[n], k)
  }

  lemma {:induction false} UptoIsLines(rs: seq<LogRecord>, suffix: string, k: Key, i: nat)
    requires i <= |rs|
    ensures Upto(rs, suffix, k, i) == Join(LinesIn(rs[..i], suffix, k))
    decreases i
  {
    hide KeyOf, FiledUnder;
    if i > 0 {
      var front, l := rs[..i - 1], rs[i - 1].json + [10];
      UptoIsLines(rs, suffix, k, i - 1);
      KeyOfIff(rs[i - 1], suffix, k);
      assert rs[..i][..i - 1] == front;
      JoinConcat(LinesIn(front, suffix, k), [l]);
      assert Join([l]) == l;
      assert LinesIn(front, suffix, k) + [] == LinesIn(front, suffix, k);
    }
  }

  lemma BatchIsLines(files: Files, rs: seq<LogRecord>, suffix: string, files': Files, ps: seq<Pointer>, k: Key)
    requires Written(files, rs, suffix, files', ps)
    ensures Content(files', k) == Content(files, k) + Join(LinesIn(rs, suffix, k))
  {
    UptoIsLines(rs, suffix, k, |rs|);
    assert rs[..|rs|] == rs;
    hide Upto, LinesIn, Content, Join;
  }

  lemma BatchOfRun(fs: seq<Files>, bs: seq<seq<LogRecord>>, suffixes: seq<string>, ps: seq<seq<Pointer>>, n: nat)
    requires Appending(fs, bs, suffixes, ps) && n <= |bs|
    ensures |fs| == |bs| + 1 && |ps| == |suffixes| == |bs|
    ensures n < |bs| ==> Written(fs[n], bs[n], suffixes[n], fs[n + 1], ps[n])
  {
    hide Written;
  }

  lemma MoreLines(bs: seq<seq<LogRecord>>, suffixes: seq<string>, k: Key, n: nat)
    requires n < |bs| <= |suffixes|
    ensures AllLines(bs[..n + 1], suffixes, k) == AllLines(bs[..n], suffixes, k) + LinesIn(bs[n], suffixes[n], k)
  {
    hide LinesIn;
    assert bs[..n + 1][..n] == bs[..n];
  }

  lemma NoLines(suffixes: seq<string>, k: Key, c: Bytes)
    ensures c + Join(AllLines([], suffixes, k)) == c
  {
  }

  lemma {:induction false} ContentIsLines(fs: seq<Files>, bs: seq<seq<LogRecord>>, suffixes: seq<string>,
                                          ps: seq<seq<Pointer>>, n: nat, k: Key)
    requires Appending(fs, bs, suffixes, ps) && n <= |bs|
    ensures Content(fs[n], k) == Content(fs[0], k) + Join(AllLines(bs[..n], suffixes, k))
    decreases n
  {
    hide *;
    if n > 0 {
      var m := n - 1;
      BatchOfRun(fs, bs, suffixes, ps, m);
      ContentIsLines(fs, bs, suffixes, ps, m, k);
      BatchIsLines(fs[m], bs[m], suffixes[m], fs[n], ps[m], k);
      MoreLines(bs, suffixes, k, m);
      JoinConcat(AllLines(bs[..m], suffixes, k), LinesIn(bs[m], suffixes[m], k));
    } else {
      assert bs[..0] == [];
      BatchOfRun(fs, bs, suffixes, ps, n);
      NoLines(suffixes, k, Content(fs[0], k));
    }
  }

  /** JSON.stringify escapes newlines. */
  predicate OneLiners(rs: seq<LogRecord>) { forall r <- rs :: 10 !in r.json }

  predicate AreLines(ls: seq<Bytes>) { forall i :: 0 <= i < |ls| ==> IsPiece(ls[i]) && Terminated(ls[i]) }

  lemma {:induction false} LinesInAreLines(rs: seq<LogRecord>, suffix: string, k: Key)
    requires OneLiners(rs)
    ensures AreLines(LinesIn(rs, suffix, k))
  {
    hide FiledUnder;
    if rs != [] {
      var n := |rs| - 1;
      assert forall r <- rs[..n] :: r in rs;
      LinesInAreLines(rs[..n], suffix, k);
      assert rs[n] in rs;
    }
  }

  lemma {:induction false} AllLinesAreLines(bs: seq<seq<LogRecord>>, suffixes: seq<string>, k: Key)
    requires |bs| <= |suffixes| && forall n :: 0 <= n < |bs| ==> OneLiners(bs[n])
    ensures AreLines(AllLines(bs, suffixes, k))
  {
    hide OneLiners, IsPiece, Terminated, LinesIn;
    if bs != [] {
      var n := |bs| - 1;
      AllLinesAreLines(bs[..n], suffixes, k);
      LinesInAreLines(bs[n], suffixes[n], k);
    }
  }

  /**
   * Files that start empty hold, whatever the batches, exactly the JSON of the records filed under them, one line
   * each, in the order in which they came.
   */
  lemma FilesHoldLines(fs: seq<Files>, bs: seq<seq<LogRecord>>, suffixes: seq<string>, ps: seq<seq<Pointer>>, k: Key)
    requires Appending(fs, bs, suffixes, ps) && fs[0] == map[]
    requires forall n :: 0 <= n < |bs| ==> OneLiners(bs[n])
    ensures Pieces(Content(fs[|bs|], k)) == AllLines(bs, suffixes, k)
  {
    var ls := AllLines(bs, suffixes, k);
    ContentIsLines(fs, bs, suffixes, ps, |bs|, k);
    AllLinesAreLines(bs, suffixes, k);
    assert bs[..|bs|] == bs && [] + Join(ls) == Join(ls);
    hide Appending, AllLines, Join;
    PiecesUnique(ls);
  }
}
