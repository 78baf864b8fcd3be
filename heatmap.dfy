/** The meeting heatmap of shared/components/Heatmap.tsx: entries counted per day, one cell per day of
    the range, and the cells grouped into Sunday-to-Saturday columns. Times are milliseconds since the
    epoch, local time is UTC, and `isoDateOf` stands for `toISOString()`. */
module Heatmap {
  import Text
  import Collections
  import Calendar
  import opened Wrappers

  // ---------------------------------------------------------------------------
  // Counting entries per day
  // ---------------------------------------------------------------------------

  /** `date.split('T')[0]`: the text before the first `T`. */
  function Key(date: string): string
  {
    Text.Split(date, 'T')[0]
  }

  /** The key is the longest prefix of the date free of `T`. */
  lemma {:induction false} KeyBeforeT(date: string)
    ensures 'T' !in Key(date) && |Key(date)| <= |date| && Key(date) == date[..|Key(date)|]
    ensures |Key(date)| < |date| ==> date[|Key(date)|] == 'T'
  {
    if date != [] && date[0] != 'T' {
      KeyBeforeT(date[1..]);
    }
  }

  /** The key of every entry, in order. */
  function DayKeys(dates: seq<string>): (keys: seq<string>)
    ensures |keys| == |dates| && forall i :: 0 <= i < |dates| ==> keys[i] == Key(dates[i])
  {
    if dates == [] then [] else DayKeys(dates[..|dates| - 1]) + [Key(dates[|dates| - 1])]
  }

  /** The sum of the counts of the keys, in the order of `keys`. */
  function SumOver(keys: seq<string>, counts: map<string, nat>): nat
    requires forall k :: k in keys ==> k in counts
  {
    if keys == [] then 0 else SumOver(keys[..|keys| - 1], counts) + counts[keys[|keys| - 1]]
  }

  /** The count of a key outside `keys` does not enter the sum. */
  lemma {:induction false} SumOverFrame(keys: seq<string>, counts: map<string, nat>, k: string, v: nat)
    requires forall x :: x in keys ==> x in counts
    requires k !in keys
    ensures SumOver(keys, counts[k := v]) == SumOver(keys, counts)
  {
    if keys != [] {
      SumOverFrame(keys[..|keys| - 1], counts, k, v);
    }
  }

  /** A new key enters the sum with its count. */
  lemma SumOverAppend(keys: seq<string>, counts: map<string, nat>, k: string, v: nat)
    requires forall x :: x in keys ==> x in counts
    requires k !in keys
    ensures Collections.Distinct(keys) ==> Collections.Distinct(keys + [k])
    ensures SumOver(keys + [k], counts[k := v]) == SumOver(keys, counts) + v
  {
    assert (keys + [k])[..|keys|] == keys;
    SumOverFrame(keys, counts, k, v);
  }

  /** Adding one to a key the keys hold once adds one to the sum. */
  lemma {:induction false} SumOverIncrement(keys: seq<string>, counts: map<string, nat>, k: string)
    requires forall x :: x in keys ==> x in counts
    requires Collections.Distinct(keys) && k in keys
    ensures SumOver(keys, counts[k := counts[k] + 1]) == SumOver(keys, counts) + 1
  {
    var init := keys[..|keys| - 1];
    var last := keys[|keys| - 1];
    if last == k {
      assert k !in init by {
        forall i | 0 <= i < |init| ensures init[i] != k {
          assert keys[i] != keys[|keys| - 1];
        }
      }
      SumOverFrame(init, counts, k, counts[k] + 1);
    } else {
      assert k in init by {
        var i :| 0 <= i < |keys| && keys[i] == k;
        assert init[i] == k;
      }
      SumOverIncrement(init, counts, k);
    }
  }

  /** The map after the entries whose keys are `seen`: each key seen, once, in `keys`, with the number of
      entries carrying it; the counts add up to the number of entries. */
  ghost predicate Tally(seen: seq<string>, keys: seq<string>, counts: map<string, nat>)
  {
    && Collections.Distinct(keys)
    && (forall k :: k in counts <==> k in keys)
    && (forall k :: k in counts <==> k in seen)
    && (forall k :: k in counts ==> counts[k] == multiset(seen)[k] && counts[k] >= 1)
    && SumOver(keys, counts) == |seen|
  }

  /** One more entry adds its key once. */
  lemma KeysStep(dates: seq<string>, i: int)
    requires 0 <= i < |dates|
    ensures DayKeys(dates[..i + 1]) == DayKeys(dates[..i]) + [Key(dates[i])]
  {
    assert dates[..i + 1][..i] == dates[..i];
  }

  lemma TallySeen(seen: seq<string>, keys: seq<string>, counts: map<string, nat>, k: string)
    requires Tally(seen, keys, counts) && k in counts
    ensures Tally(seen + [k], keys, counts[k := counts[k] + 1])
  {
    SumOverIncrement(keys, counts, k);
  }

  lemma TallyNew(seen: seq<string>, keys: seq<string>, counts: map<string, nat>, k: string)
    requires Tally(seen, keys, counts) && k !in counts
    ensures Tally(seen + [k], keys + [k], counts[k := 1])
  {
    SumOverAppend(keys, counts, k, 1);
  }

  /** The `forEach` filling `dateCountMap`. The map is a JavaScript `Map`, so its keys are kept in insertion
      order in `keys`. Each day key maps to the number of entries carrying it, and the counts add up to
      the number of entries. */
  method CountByDay(dates: seq<string>) returns (keys: seq<string>, counts: map<string, nat>)
    ensures Collections.Distinct(keys)
    ensures forall k :: k in counts <==> k in keys
    ensures forall k :: k in counts <==> k in DayKeys(dates)
    ensures forall k :: k in counts ==> counts[k] == multiset(DayKeys(dates))[k] && counts[k] >= 1
    ensures SumOver(keys, counts) == |dates|
  {
    keys, counts := [], map[];
    ghost var seen: seq<string> := [];
    var i := 0;
    while i < |dates|
      invariant 0 <= i <= |dates|
      invariant seen == DayKeys(dates[..i])
      invariant Tally(seen, keys, counts)
    {
      var k := Key(dates[i]);
      KeysStep(dates, i);
      if k in counts {
        TallySeen(seen, keys, counts, k);
        counts := counts[k := counts[k] + 1];
      } else {
        TallyNew(seen, keys, counts, k);
        keys := keys + [k];
        counts := counts[k := 1];
      }
      seen := seen + [k];
      i := i + 1;
    }
    assert dates[..|dates|] == dates;
  }

  /** `Math.max(...dateCountMap.values(), 1)`, visiting the values in the map's order. */
  method MaxCount(keys: seq<string>, counts: map<string, nat>) returns (maxCount: nat)
    requires forall k :: k in keys ==> k in counts
    ensures maxCount >= 1
    ensures forall k :: k in keys ==> counts[k] <= maxCount
    ensures maxCount == 1 || exists k :: k in keys && counts[k] == maxCount
  {
    maxCount := 1;
    var i := 0;
    while i < |keys|
      invariant 0 <= i <= |keys|
      invariant maxCount >= 1
      invariant forall j :: 0 <= j < i ==> counts[keys[j]] <= maxCount
      invariant maxCount == 1 || exists j :: 0 <= j < i && counts[keys[j]] == maxCount
    {
      if counts[keys[i]] > maxCount {
        maxCount := counts[keys[i]];
      }
      i := i + 1;
    }
    forall k | k in keys ensures counts[k] <= maxCount {
      var j :| 0 <= j < |keys| && keys[j] == k;
    }
  }

  // ---------------------------------------------------------------------------
  // Cells
  // ---------------------------------------------------------------------------

  /** A cell of the grid; a placeholder that pads the first column has intensity -1. */
  datatype Cell = Cell(time: int, count: nat, intensity: real)

  const PLACEHOLDER: Cell := Cell(0, 0, -1.0)

  /** `count > 0 ? count / maxCount : 0`. */
  function Intensity(count: nat, maxCount: nat): (intensity: real)
    requires maxCount >= 1
    ensures intensity == 0.0 <==> count == 0
    ensures count > 0 ==> intensity > 0.0
    ensures count <= maxCount ==> intensity <= 1.0
    ensures intensity * maxCount as real == count as real
  {
    if count > 0 then count as real / maxCount as real else 0.0
  }

  /** The cell of the day starting at `time`: the count of its day key, `0` when the map has none. */
  function CellAt(time: int, counts: map<string, nat>, maxCount: nat, isoDateOf: int -> string): Cell
    requires maxCount >= 1
  {
    var key := Key(isoDateOf(time));
    var count := if key in counts then counts[key] else 0;
    Cell(time, count, Intensity(count, maxCount))
  }

  /** The number of days from `start` to `end`, both ends included. */
  function DayCount(start: int, end: int): (n: nat)
    ensures n > 0 <==> start <= end
    ensures n > 0 ==> start + (n - 1) * Calendar.DAY_MS <= end < start + n * Calendar.DAY_MS
  {
    if start <= end then (end - start) / Calendar.DAY_MS + 1 else 0
  }

  /** Each cell one day after the one before it. */
  predicate Consecutive(cells: seq<Cell>)
  {
    forall i :: 0 <= i < |cells| - 1 ==> cells[i + 1].time == cells[i].time + Calendar.DAY_MS
  }

  /** The cell loop: one cell per day from `start` while the day has not passed `end`. `setDate(getDate() + 1)`
      advances by one day, which under UTC is `DAY_MS`. */
  method Cells(start: int, end: int, counts: map<string, nat>, maxCount: nat, isoDateOf: int -> string)
    returns (cells: seq<Cell>)
    requires maxCount >= 1
    ensures |cells| == DayCount(start, end)
    ensures forall i :: 0 <= i < |cells| ==>
      cells[i] == CellAt(start + i * Calendar.DAY_MS, counts, maxCount, isoDateOf)
    ensures forall i :: 0 <= i < |cells| ==> start <= cells[i].time <= end
    ensures Consecutive(cells)
  {
    cells := [];
    var current := start;
    while current <= end
      invariant current == start + |cells| * Calendar.DAY_MS
      invariant |cells| == 0 || start + (|cells| - 1) * Calendar.DAY_MS <= end
      invariant forall i :: 0 <= i < |cells| ==>
        cells[i] == CellAt(start + i * Calendar.DAY_MS, counts, maxCount, isoDateOf)
      invariant forall i :: 0 <= i < |cells| ==> start <= cells[i].time <= end
      invariant Consecutive(cells)
      decreases end - current
    {
      cells := cells + [CellAt(current, counts, maxCount, isoDateOf)];
      current := current + Calendar.DAY_MS;
    }
    DayCountExact(start, end, |cells|);
  }

  /** The count of days is the only `n` the two bounds of `DayCount` admit. */
  lemma DayCountExact(start: int, end: int, n: nat)
    requires n == 0 ==> start > end
    requires n > 0 ==> start + (n - 1) * Calendar.DAY_MS <= end < start + n * Calendar.DAY_MS
    ensures n == DayCount(start, end)
  {
  }

  /** The colour of a cell: the surface for an empty day, otherwise the accent with opacity rising from
      0.2 to 1 with the intensity. */
  datatype Colour = Surface | Accent(alpha: real)

  function IntensityColour(intensity: real): (c: Colour)
    ensures c.Surface? <==> intensity == 0.0
    ensures 0.0 < intensity <= 1.0 ==> c.Accent? && 0.2 < c.alpha <= 1.0
    ensures c.Accent? ==> c.alpha - 0.2 == intensity * 0.8
  {
    if intensity == 0.0 then Surface else Accent(0.2 + intensity * 0.8)
  }

  // ---------------------------------------------------------------------------
  // Columns of weeks
  // ---------------------------------------------------------------------------

  /** `cell.date.getDay()`. */
  function WeekdayOf(c: Cell): (w: int)
    ensures 0 <= w < 7
  {
    Calendar.Weekday(c.time / Calendar.DAY_MS)
  }

  function Placeholders(n: nat): (r: seq<Cell>)
    ensures |r| == n && forall i :: 0 <= i < n ==> r[i] == PLACEHOLDER
  {
    if n == 0 then [] else Placeholders(n - 1) + [PLACEHOLDER]
  }

  /** The placeholders in front of the first cell: one per weekday before it. */
  function Padding(cells: seq<Cell>): (r: seq<Cell>)
    ensures cells != [] ==> r == Placeholders(WeekdayOf(cells[0]))
    ensures cells == [] ==> r == []
  {
    if cells == [] then [] else Placeholders(WeekdayOf(cells[0]))
  }

  function Flatten(weeks: seq<seq<Cell>>): seq<Cell>
  {
    if weeks == [] then [] else Flatten(weeks[..|weeks| - 1]) + weeks[|weeks| - 1]
  }

  lemma FlattenAppend(weeks: seq<seq<Cell>>, w: seq<Cell>)
    ensures Flatten(weeks + [w]) == Flatten(weeks) + w
  {
    assert (weeks + [w])[..|weeks|] == weeks;
  }

  /** The day after a cell's day has the next weekday. */
  lemma NextWeekday(c: Cell, d: Cell)
    requires d.time == c.time + Calendar.DAY_MS
    ensures WeekdayOf(d) == (WeekdayOf(c) + 1) % 7
  {
    assert d.time / Calendar.DAY_MS == c.time / Calendar.DAY_MS + 1;
    Calendar.WeekdayNext(c.time / Calendar.DAY_MS);
  }

  function Last(w: seq<Cell>): Cell
    requires w != []
  {
    w[|w| - 1]
  }

  /** Read column by column, the columns closed so far and the open one are the padding and the cells up to
      `index`. */
  ghost predicate Layout(cells: seq<Cell>, index: int, weeks: seq<seq<Cell>>, open: seq<Cell>)
  {
    && 0 <= index <= |cells|
    && (index == 0 ==> weeks == [] && open == [])
    && (index > 0 ==> Flatten(weeks) + open == Padding(cells) + cells[..index])
  }

  /** Every closed column is non-empty and ends on a Saturday, but for one the last cell closed; the open
      column ends with the cell before `index`. */
  ghost predicate Columns(cells: seq<Cell>, index: int, weeks: seq<seq<Cell>>, open: seq<Cell>)
  {
    && 0 <= index <= |cells|
    && (forall j :: 0 <= j < |weeks| ==> weeks[j] != [])
    && (forall j :: 0 <= j < |weeks| ==> WeekdayOf(Last(weeks[j])) == 6 || (j == |weeks| - 1 && index == |cells|))
    && (index == |cells| ==> open == [])
    && (open != [] ==> 0 < index && Last(open) == cells[index - 1] && WeekdayOf(cells[index - 1]) != 6)
  }

  /** For consecutive days: no closed column is longer than a week, and the open one holds one entry per
      weekday up to the last cell's. */
  ghost predicate Sized(cells: seq<Cell>, index: int, weeks: seq<seq<Cell>>, open: seq<Cell>)
  {
    && 0 <= index <= |cells|
    && (forall j :: 0 <= j < |weeks| ==> |weeks[j]| <= 7)
    && (open != [] ==> 0 < index && |open| == WeekdayOf(cells[index - 1]) + 1)
    && (0 < index < |cells| && open == [] ==> WeekdayOf(cells[index - 1]) == 6)
  }

  lemma LayoutStep(cells: seq<Cell>, index: int, weeks: seq<seq<Cell>>, open: seq<Cell>, next: seq<Cell>,
                   close: bool)
    requires Layout(cells, index, weeks, open) && index < |cells|
    requires next == (if index == 0 then Padding(cells) else open) + [cells[index]]
    ensures close ==> Layout(cells, index + 1, weeks + [next], [])
    ensures !close ==> Layout(cells, index + 1, weeks, next)
  {
    assert cells[..index + 1] == cells[..index] + [cells[index]];
    if index == 0 {
      assert Flatten(weeks) == [];
      assert cells[..1] == [cells[0]];
    } else {
      assert Flatten(weeks) + next == (Flatten(weeks) + open) + [cells[index]];
    }
    assert Flatten(weeks) + next == Padding(cells) + cells[..index + 1];
    FlattenAppend(weeks, next);
  }

  lemma ColumnsStep(cells: seq<Cell>, index: int, weeks: seq<seq<Cell>>, open: seq<Cell>, next: seq<Cell>,
                    close: bool)
    requires Columns(cells, index, weeks, open) && index < |cells|
    requires next == (if index == 0 then Padding(cells) else open) + [cells[index]]
    requires close == (WeekdayOf(cells[index]) == 6 || index == |cells| - 1)
    ensures close ==> Columns(cells, index + 1, weeks + [next], [])
    ensures !close ==> Columns(cells, index + 1, weeks, next)
  {
    if close {
      var w := weeks + [next];
      assert Last(next) == cells[index];
      forall j | 0 <= j < |w| ensures WeekdayOf(Last(w[j])) == 6 || (j == |w| - 1 && index + 1 == |cells|) {
        if j < |weeks| {
          assert w[j] == weeks[j];
        }
      }
    }
  }

  lemma SizedStep(cells: seq<Cell>, index: int, weeks: seq<seq<Cell>>, open: seq<Cell>, next: seq<Cell>,
                  close: bool)
    requires Consecutive(cells)
    requires Sized(cells, index, weeks, open) && Columns(cells, index, weeks, open) && index < |cells|
    requires next == (if index == 0 then Padding(cells) else open) + [cells[index]]
    requires close == (WeekdayOf(cells[index]) == 6 || index == |cells| - 1)
    ensures close ==> Sized(cells, index + 1, weeks + [next], [])
    ensures !close ==> Sized(cells, index + 1, weeks, next)
  {
    if index > 0 {
      NextWeekday(cells[index - 1], cells[index]);
    }
    assert |next| == WeekdayOf(cells[index]) + 1;
    if close {
      var w := weeks + [next];
      forall j | 0 <= j < |w| ensures |w[j]| <= 7 {
        if j < |weeks| {
          assert w[j] == weeks[j];
        }
      }
    }
  }

  /** The week grouping: the first column is padded up to the first cell's weekday, and a column closes after
      a Saturday or after the last cell. Read column by column, the grid is the padding followed by the
      cells. Every column but the last ends on a Saturday, and when the cells are consecutive days no
      column holds more than seven entries. */
  method GroupWeeks(cells: seq<Cell>) returns (weeks: seq<seq<Cell>>)
    ensures Flatten(weeks) == Padding(cells) + cells
    ensures forall j :: 0 <= j < |weeks| ==> weeks[j] != []
    ensures forall j :: 0 <= j < |weeks| - 1 ==> WeekdayOf(Last(weeks[j])) == 6
    ensures Consecutive(cells) ==> forall j :: 0 <= j < |weeks| ==> |weeks[j]| <= 7
  {
    weeks := [];
    var currentWeek: seq<Cell> := [];
    var index := 0;
    while index < |cells|
      invariant Layout(cells, index, weeks, currentWeek)
      invariant Columns(cells, index, weeks, currentWeek)
      invariant Consecutive(cells) ==> Sized(cells, index, weeks, currentWeek)
    {
      var cell := cells[index];
      var dayOfWeek := WeekdayOf(cell);
      if index == 0 && dayOfWeek != 0 {
        var i := 0;
        while i < dayOfWeek
          invariant 0 <= i <= dayOfWeek
          invariant currentWeek == Placeholders(i)
        {
          currentWeek := currentWeek + [PLACEHOLDER];
          i := i + 1;
        }
      }
      ghost var open := if index == 0 then [] else currentWeek;
      assert currentWeek == if index == 0 then Padding(cells) else open;
      currentWeek := currentWeek + [cell];
      var close := dayOfWeek == 6 || index == |cells| - 1;
      LayoutStep(cells, index, weeks, open, currentWeek, close);
      ColumnsStep(cells, index, weeks, open, currentWeek, close);
      if Consecutive(cells) {
        SizedStep(cells, index, weeks, open, currentWeek, close);
      }
      if close {
        weeks := weeks + [currentWeek];
        currentWeek := [];
      }
      index := index + 1;
    }
    if cells == [] {
      assert Flatten(weeks) == [];
    } else {
      assert cells[..index] == cells;
    }
  }

  /** A cell the grid draws rather than leaves empty. */
  predicate IsDay(c: Cell) { c.intensity != -1.0 }

  /** Dropping the placeholders from the grid gives back the cells. */
  lemma PaddingDropped(cells: seq<Cell>)
    requires forall i :: 0 <= i < |cells| ==> cells[i].intensity >= 0.0
    ensures Collections.Filter(Padding(cells) + cells, IsDay) == cells
  {
    Collections.FilterConcat(Padding(cells), cells, IsDay);
    Collections.FilterAll(cells, IsDay);
    NoDays(Padding(cells));
  }

  lemma NoDays(pad: seq<Cell>)
    requires forall i :: 0 <= i < |pad| ==> pad[i] == PLACEHOLDER
    ensures Collections.Filter(pad, IsDay) == []
  {
  }

  // ---------------------------------------------------------------------------
  // The default range
  // ---------------------------------------------------------------------------

  /** `new Date(end.getFullYear() - 1, end.getMonth(), end.getDate())`: midnight of the same calendar day one
      year earlier. */
  function DefaultStart(end: Calendar.DateTime): int
    requires end.Valid()
  {
    Calendar.DaysFromCivil(end.year - 1, end.month, end.day) * Calendar.DAY_MS
  }

  /** The default range starts one year, 365 or 366 days, before the end's day, and so holds 366 or 367
      cells. */
  lemma DefaultRange(end: Calendar.DateTime)
    requires end.Valid()
    ensures var days := Calendar.DayNumber(end) - DefaultStart(end) / Calendar.DAY_MS;
      days == (if Calendar.IsLeap(if end.month <= 2 then end.year - 1 else end.year) then 366 else 365)
    ensures DayCount(DefaultStart(end), Calendar.TimeOf(end))
      == Calendar.DayNumber(end) - DefaultStart(end) / Calendar.DAY_MS + 1
  {
    Calendar.YearLength(end.year - 1, end.month, end.day);
    var startDay := Calendar.DaysFromCivil(end.year - 1, end.month, end.day);
    assert DefaultStart(end) / Calendar.DAY_MS == startDay;
    var n := Calendar.DayNumber(end) - startDay + 1;
    assert Calendar.TimeOf(end) == Calendar.DayNumber(end) * Calendar.DAY_MS + end.msOfDay;
    assert DefaultStart(end) + (n - 1) * Calendar.DAY_MS == Calendar.DayNumber(end) * Calendar.DAY_MS;
    assert DefaultStart(end) + n * Calendar.DAY_MS == Calendar.DayNumber(end) * Calendar.DAY_MS + Calendar.DAY_MS;
    DayCountExact(DefaultStart(end), Calendar.TimeOf(end), n);
  }

  // ---------------------------------------------------------------------------
  // The component
  // ---------------------------------------------------------------------------

  /** With every count at most `maxCount`, each cell's intensity lies between 0 and 1, and a cell counts
      entries only on a day some entry carries. */
  lemma CellsBounded(cells: seq<Cell>, start: int, counts: map<string, nat>, maxCount: nat,
                     isoDateOf: int -> string)
    requires maxCount >= 1
    requires forall k :: k in counts ==> counts[k] <= maxCount
    requires forall i :: 0 <= i < |cells| ==>
      cells[i] == CellAt(start + i * Calendar.DAY_MS, counts, maxCount, isoDateOf)
    ensures forall i :: 0 <= i < |cells| ==> 0.0 <= cells[i].intensity <= 1.0
    ensures forall i :: 0 <= i < |cells| ==> (cells[i].count > 0 ==> Key(isoDateOf(cells[i].time)) in counts)
  {
  }

  /** `counts` holds, for each day key of the entries, how many entries carry it. */
  ghost predicate Tallied(dates: seq<string>, counts: map<string, nat>)
  {
    && (forall k :: k in counts <==> k in DayKeys(dates))
    && forall k :: k in counts ==> counts[k] == multiset(DayKeys(dates))[k]
  }

  /** A tally holds every key as often as the entries carry it, and no other key. */
  lemma TalliedCounts(dates: seq<string>, counts: map<string, nat>)
    requires Tallied(dates, counts)
    ensures forall k :: multiset(DayKeys(dates))[k] == if k in counts then counts[k] else 0
  {
    forall k | k !in counts ensures multiset(DayKeys(dates))[k] == 0 {
      assert k !in DayKeys(dates);
    }
  }

  /** Each cell stands at its own day from `start` and counts the entries of that day's key, `keys` being
      the multiset of the entries' day keys. */
  lemma CellsCounted(cells: seq<Cell>, start: int, keys: multiset<string>, counts: map<string, nat>,
                     maxCount: nat, isoDateOf: int -> string)
    requires maxCount >= 1
    requires forall k :: keys[k] == if k in counts then counts[k] else 0
    requires forall i :: 0 <= i < |cells| ==>
      cells[i] == CellAt(start + i * Calendar.DAY_MS, counts, maxCount, isoDateOf)
    ensures forall i :: 0 <= i < |cells| ==> cells[i].time == start + i * Calendar.DAY_MS
    ensures forall i :: 0 <= i < |cells| ==> cells[i].count == keys[Key(isoDateOf(cells[i].time))]
  {
  }

  /** The heatmap of the entries' dates: `end` defaults to now and `start` to one year before `end`. */
  method Build(dates: seq<string>, startDate: Option<int>, end: Calendar.DateTime, isoDateOf: int -> string)
    returns (cells: seq<Cell>, weeks: seq<seq<Cell>>)
    requires end.Valid()
    ensures var start := if startDate.Some? then startDate.value else DefaultStart(end);
      |cells| == DayCount(start, Calendar.TimeOf(end))
    ensures var start := if startDate.Some? then startDate.value else DefaultStart(end);
      forall i :: 0 <= i < |cells| ==> cells[i].time == start + i * Calendar.DAY_MS
    ensures forall i :: 0 <= i < |cells| ==>
      cells[i].count == multiset(DayKeys(dates))[Key(isoDateOf(cells[i].time))]
    ensures forall i :: 0 <= i < |cells| ==> 0.0 <= cells[i].intensity <= 1.0
    ensures forall i :: 0 <= i < |cells| ==> (cells[i].count > 0 ==> Key(isoDateOf(cells[i].time)) in DayKeys(dates))
    ensures Flatten(weeks) == Padding(cells) + cells
    ensures Collections.Filter(Flatten(weeks), IsDay) == cells
    ensures forall j :: 0 <= j < |weeks| ==> 1 <= |weeks[j]| <= 7
  {
    var start := if startDate.Some? then startDate.value else DefaultStart(end);
    var keys, counts := CountByDay(dates);
    var maxCount := MaxCount(keys, counts);
    cells := Cells(start, Calendar.TimeOf(end), counts, maxCount, isoDateOf);
    CellsBounded(cells, start, counts, maxCount, isoDateOf);
    TalliedCounts(dates, counts);
    CellsCounted(cells, start, multiset(DayKeys(dates)), counts, maxCount, isoDateOf);
    weeks := GroupWeeks(cells);
    PaddingDropped(cells);
  }
}
