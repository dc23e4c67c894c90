/** The calendar projection of `renderCalendar`: events grouped by their date
    string, the Sunday-first month grid, and for each day the events on it
    and the number of available vendors per category. */
module CalendarView {

  import opened Seqs
  import opened Dates
  import opened DateKeys
  import opened Entities

  function EventDate(e: Event): string { e.date }

  /** The events whose `date` is exactly `date`, in creation order. */
  function EventsOn(events: seq<Event>, date: string): seq<Event>
  {
    Group(events, EventDate, date)
  }

  /** `byDate` has one bucket per date string that some event carries,
      holding the events of that date in creation order. */
  ghost predicate IsIndexByDate(byDate: map<string, seq<Event>>, events: seq<Event>)
  {
    && (forall d :: d in byDate <==> exists i :: 0 <= i < |events| && events[i].date == d)
    && (forall d :: d in byDate ==> byDate[d] == EventsOn(events, d))
  }

  /** `eventsByDate`. */
  method EventsByDate(events: seq<Event>) returns (byDate: map<string, seq<Event>>)
    ensures IsIndexByDate(byDate, events)
  {
    byDate := map[];
    var n := 0;
    while n < |events|
      invariant 0 <= n <= |events|
      invariant forall d :: d in byDate <==> exists i :: 0 <= i < n && events[i].date == d
      invariant forall d :: d in byDate ==> byDate[d] == EventsOn(events[..n], d)
    {
      var e := events[n];
      if e.date !in byDate {
        assert forall i :: 0 <= i < n ==> events[..n][i] == events[i];
        NoEventsOn(events[..n], e.date);
        byDate := byDate[e.date := []];
      }
      ghost var before := byDate;
      byDate := byDate[e.date := byDate[e.date] + [e]];
      assert events[..n + 1] == events[..n] + [e];
      forall d | d in byDate
        ensures byDate[d] == EventsOn(events[..n + 1], d)
      {
        FilterSnoc(events[..n], e, HasKey(EventDate, d));
        assert HasKey(EventDate, d)(e) == (EventDate(e) == d);
        assert before[d] == EventsOn(events[..n], d);
      }
      n := n + 1;
    }
    assert events[..n] == events;
  }

  /** A date no event carries has no events. */
  lemma NoEventsOn(events: seq<Event>, date: string)
    requires forall i :: 0 <= i < |events| ==> events[i].date != date
    ensures EventsOn(events, date) == []
  {
    forall i | 0 <= i < |events| ensures !HasKey(EventDate, date)(events[i]) {
      assert HasKey(EventDate, date)(events[i]) == (EventDate(events[i]) == date);
    }
    FilterNone(events, HasKey(EventDate, date));
  }

  /** Every event lies in the bucket of its own date and in no other, and each
      bucket keeps the creation order of its events. */
  lemma EventBuckets(events: seq<Event>, date: string)
    ensures forall e :: e in EventsOn(events, date) <==> e in events && e.date == date
    ensures IsSubsequence(EventsOn(events, date), events)
  {
    FilterIsSubsequence(events, HasKey(EventDate, date));
    FilterMembers(events, HasKey(EventDate, date));
    forall e ensures e in EventsOn(events, date) <==> e in events && e.date == date {
      assert HasKey(EventDate, date)(e) == (EventDate(e) == date);
    }
  }

  /** Over all dates the buckets hold exactly as many events as there are. */
  lemma BucketsTotal(events: seq<Event>)
    ensures forall d :: d in Keys(events, EventDate) <==> exists i :: 0 <= i < |events| && events[i].date == d
    ensures GroupSizes(Keys(events, EventDate), events, EventDate) == |events|
  {
    GroupSizesTotal(events, EventDate);
  }

  // ---------------------------------------------------------------------
  // Vendors available on a day, counted per category.

  function VendorCategory(v: Vendor): Category { v.category }

  /** The predicate `v => v.availability.includes(date)`. */
  function IsAvailableOn(date: string): Vendor -> bool
  {
    (v: Vendor) => date in v.availability
  }

  /** `vendors.filter(v => v.availability.includes(date))`. */
  function AvailableVendors(vendors: seq<Vendor>, date: string): seq<Vendor>
  {
    Filter(vendors, IsAvailableOn(date))
  }

  datatype CategoryCount = CategoryCount(category: Category, count: nat)

  function CountsFor(categories: seq<Category>, available: seq<Vendor>): (r: seq<CategoryCount>)
    ensures |r| == |categories|
    ensures forall i :: 0 <= i < |r| ==>
      r[i].category == categories[i] && r[i].count == |Group(available, VendorCategory, categories[i])|
  {
    if categories == [] then []
    else [CategoryCount(categories[0], |Group(available, VendorCategory, categories[0])|)]
         + CountsFor(categories[1..], available)
  }

  /** `c` has a line in `lines`. */
  predicate Lists(lines: seq<CategoryCount>, c: Category)
  {
    exists i :: 0 <= i < |lines| && lines[i].category == c
  }

  /** Some vendor of category `c` is available on `date`. */
  predicate HasAvailable(vendors: seq<Vendor>, date: string, c: Category)
  {
    exists k :: 0 <= k < |vendors| && date in vendors[k].availability && vendors[k].category == c
  }

  /** The category lines of a day cell: each category that has an available
      vendor on `date`, once, with the number of such vendors. */
  function VendorSummary(vendors: seq<Vendor>, date: string): (r: seq<CategoryCount>)
    ensures forall i, j :: 0 <= i < j < |r| ==> r[i].category != r[j].category
    ensures forall c :: Lists(r, c) <==> HasAvailable(vendors, date, c)
    ensures forall i :: 0 <= i < |r| ==> r[i].count >= 1
  {
    var available := AvailableVendors(vendors, date);
    var r := CountsFor(Keys(available, VendorCategory), available);
    SummaryPositive(available, r);
    SummaryListsAvailable(vendors, date, r);
    r
  }

  lemma SummaryPositive(available: seq<Vendor>, r: seq<CategoryCount>)
    requires r == CountsFor(Keys(available, VendorCategory), available)
    ensures forall i :: 0 <= i < |r| ==> r[i].count >= 1
  {
    var keys := Keys(available, VendorCategory);
    forall i | 0 <= i < |r| ensures r[i].count >= 1 {
      var c := r[i].category;
      assert c == keys[i] && c in keys;
      var k :| 0 <= k < |available| && VendorCategory(available[k]) == c;
      assert HasKey(VendorCategory, c)(available[k]);
      FilterMembers(available, HasKey(VendorCategory, c));
      assert available[k] in Group(available, VendorCategory, c);
    }
  }

  lemma SummaryListsAvailable(vendors: seq<Vendor>, date: string, r: seq<CategoryCount>)
    requires r == CountsFor(Keys(AvailableVendors(vendors, date), VendorCategory), AvailableVendors(vendors, date))
    ensures forall c :: Lists(r, c) <==> HasAvailable(vendors, date, c)
  {
    var available := AvailableVendors(vendors, date);
    var keys := Keys(available, VendorCategory);
    FilterMembers(vendors, IsAvailableOn(date));
    forall c ensures Lists(r, c) <==> HasAvailable(vendors, date, c) {
      if HasAvailable(vendors, date, c) {
        var k :| 0 <= k < |vendors| && date in vendors[k].availability && vendors[k].category == c;
        assert IsAvailableOn(date)(vendors[k]);
        assert vendors[k] in available;
        var a :| 0 <= a < |available| && available[a] == vendors[k];
        assert VendorCategory(available[a]) == c;
        assert c in keys;
        var i :| 0 <= i < |keys| && keys[i] == c;
        assert r[i].category == c;
      }
      if Lists(r, c) {
        var i :| 0 <= i < |r| && r[i].category == c;
        assert c in keys;
        var a :| 0 <= a < |available| && VendorCategory(available[a]) == c;
        assert available[a] in vendors && IsAvailableOn(date)(available[a]);
        var k :| 0 <= k < |vendors| && vendors[k] == available[a];
        assert date in vendors[k].availability && vendors[k].category == c;
      }
    }
  }

  /** Each count is the number of vendors of that category available on the date. */
  lemma SummaryCounts(vendors: seq<Vendor>, date: string, i: int)
    requires 0 <= i < |VendorSummary(vendors, date)|
    ensures var line := VendorSummary(vendors, date)[i];
      line.count == |Group(AvailableVendors(vendors, date), VendorCategory, line.category)|
  {
  }

  function SumCounts(lines: seq<CategoryCount>): nat
  {
    if lines == [] then 0 else lines[0].count + SumCounts(lines[1..])
  }

  lemma {:induction false} SumCountsFor(categories: seq<Category>, available: seq<Vendor>)
    ensures SumCounts(CountsFor(categories, available)) == GroupSizes(categories, available, VendorCategory)
  {
    if categories != [] {
      SumCountsFor(categories[1..], available);
      assert CountsFor(categories, available)[1..] == CountsFor(categories[1..], available);
    }
  }

  /** The counts of a day add up to the number of vendors available on it. */
  lemma SummaryTotal(vendors: seq<Vendor>, date: string)
    ensures SumCounts(VendorSummary(vendors, date)) == |AvailableVendors(vendors, date)|
  {
    var available := AvailableVendors(vendors, date);
    SumCountsFor(Keys(available, VendorCategory), available);
    GroupSizesTotal(available, VendorCategory);
  }

  /** Categories are listed in the order in which they first occur among the
      available vendors, as a JavaScript `Set` keeps them. */
  lemma SummaryOrder(vendors: seq<Vendor>, date: string)
    ensures var r := VendorSummary(vendors, date);
      var available := AvailableVendors(vendors, date);
      forall a, b, q :: 0 <= a < b < |r| && 0 <= q < |available| && available[q].category == r[b].category ==>
        exists p :: 0 <= p < q && available[p].category == r[a].category
  {
    var available := AvailableVendors(vendors, date);
    KeysInFirstOccurrenceOrder(available, VendorCategory);
  }

  // ---------------------------------------------------------------------
  // The month grid.

  /** A grid cell: a leading blank, or a day with its key, its events and its
      category lines. */
  datatype Cell = Blank | Day(day: int, key: string, events: seq<Event>, vendorTypes: seq<CategoryCount>)

  /** The cell of day `d`: its key, the events of `eventsByDate[key] || []`
      and the category lines of the vendors available that day. */
  function DayCell(view: YearMonth, events: seq<Event>, vendors: seq<Vendor>, d: int): (c: Cell)
    requires view.Valid() && 1 <= d <= 31
  {
    var key := DateKey(view.year, view.month, d);
    Day(d, key, EventsOn(events, key), VendorSummary(vendors, key))
  }

  /** The cell of day `d` is a day cell for `d` whose key names its own
      date; it shows exactly the events of that date, and a category line
      exactly for each category with a vendor available that day. */
  lemma DayCellContents(view: YearMonth, events: seq<Event>, vendors: seq<Vendor>, d: int)
    requires view.Valid() && 1 <= d <= 31
    ensures DayCell(view, events, vendors, d).Day? && DayCell(view, events, vendors, d).day == d
    ensures ParseKey(DayCell(view, events, vendors, d).key) == Some((view.year, view.month, d))
    ensures var c := DayCell(view, events, vendors, d);
      forall e :: e in c.events <==> e in events && e.date == c.key
    ensures var c := DayCell(view, events, vendors, d);
      forall cat :: Lists(c.vendorTypes, cat) <==> HasAvailable(vendors, c.key, cat)
  {
    EventBuckets(events, DateKey(view.year, view.month, d));
  }

  /** `eventsByDate[date] || []`: the events on `date`, whether or not it has a bucket. */
  method BucketOf(byDate: map<string, seq<Event>>, events: seq<Event>, date: string) returns (r: seq<Event>)
    requires IsIndexByDate(byDate, events)
    ensures r == EventsOn(events, date)
  {
    if date in byDate {
      r := byDate[date];
    } else {
      NoEventsOn(events, date);
      r := [];
    }
  }

  /** The body of the day loop: the key of `day`, its events looked up in
      `byDate`, and its category lines. */
  method DayCellOf(view: YearMonth, byDate: map<string, seq<Event>>, events: seq<Event>, vendors: seq<Vendor>, day: int)
    returns (cell: Cell)
    requires view.Valid() && 1 <= day <= 31
    requires IsIndexByDate(byDate, events)
    ensures cell == DayCell(view, events, vendors, day)
  {
    var date := DateKey(view.year, view.month, day);
    var dayEvents := BucketOf(byDate, events, date);
    cell := Day(day, date, dayEvents, VendorSummary(vendors, date));
  }

  /** A grid of `first` leading blanks followed by the cells of days 1 to
      `days` of month `view`. */
  function Grid(view: YearMonth, first: nat, days: nat, events: seq<Event>, vendors: seq<Vendor>): (g: seq<Cell>)
    requires view.Valid() && days <= 31
    ensures |g| == first + days
    ensures forall i :: 0 <= i < first ==> g[i] == Blank
    ensures forall d :: 1 <= d <= days ==> g[first + d - 1] == DayCell(view, events, vendors, d)
  {
    seq(first, _ => Blank) + seq(days, i requires 0 <= i < days => DayCell(view, events, vendors, i + 1))
  }

  /** The grid of month `view`: a blank for each weekday before day 1 (0 =
      Sunday), then the cells of days 1 to the last day of the month. */
  function MonthGrid(view: YearMonth, events: seq<Event>, vendors: seq<Vendor>): (g: seq<Cell>)
    requires view.Valid()
    ensures |g| == FirstWeekday(view.year, view.month) + DaysInMonth(view.year, view.month)
    ensures forall i :: 0 <= i < FirstWeekday(view.year, view.month) ==> g[i] == Blank
    ensures forall d :: 1 <= d <= DaysInMonth(view.year, view.month) ==>
      g[FirstWeekday(view.year, view.month) + d - 1] == DayCell(view, events, vendors, d)
  {
    Grid(view, FirstWeekday(view.year, view.month), DaysInMonth(view.year, view.month), events, vendors)
  }

  /** The grid the component builds for month `view`: `firstDay` and
      `daysInMonth` come from `new Date(year, month, 1)` and
      `new Date(year, month + 1, 0)`, which read years 0..99 as 1900..1999;
      the keys keep the displayed year. */
  function MonthGridAsWritten(view: YearMonth, events: seq<Event>, vendors: seq<Vendor>): (g: seq<Cell>)
    requires view.Valid()
    ensures |g| == FirstWeekdayAsWritten(view) + DaysInMonthAsWritten(view)
    ensures forall i :: 0 <= i < FirstWeekdayAsWritten(view) ==> g[i] == Blank
    ensures forall d :: 1 <= d <= DaysInMonthAsWritten(view) ==>
      g[FirstWeekdayAsWritten(view) + d - 1] == DayCell(view, events, vendors, d)
  {
    var first, days := FirstWeekdayAsWritten(view), DaysInMonthAsWritten(view);
    Grid(view, first, days, events, vendors)
  }

  /** Outside years 0..99 the component's grid is the calendar's month grid. */
  lemma GridAgreesOutsideTwoDigitYears(view: YearMonth, events: seq<Event>, vendors: seq<Vendor>)
    requires view.Valid() && !(0 <= view.year <= 99)
    ensures MonthGridAsWritten(view, events, vendors) == MonthGrid(view, events, vendors)
  {
    AsWrittenAgreesOutsideTwoDigitYears(view);
  }

  /** December 99 gets three leading blanks, those of December 1999, instead
      of the two of December 99. */
  lemma TwoDigitYearMonthGrid(events: seq<Event>, vendors: seq<Vendor>)
    ensures var g := MonthGridAsWritten(YearMonth(99, 11), events, vendors);
      |g| == 34 && g[2] == Blank
    ensures var g := MonthGrid(YearMonth(99, 11), events, vendors);
      |g| == 33 && g[2] == DayCell(YearMonth(99, 11), events, vendors, 1)
  {
    TwoDigitYearGrid();
  }

  /** `renderCalendar` for the month `view`: the weekday of day 1 and the
      length of the month, then the cells. */
  method RenderCalendar(view: YearMonth, events: seq<Event>, vendors: seq<Vendor>) returns (cells: seq<Cell>)
    requires view.Valid()
    ensures cells == MonthGridAsWritten(view, events, vendors)
  {
    var firstDay := FirstWeekdayAsWritten(view);
    var daysInMonth := DaysInMonthAsWritten(view);
    cells := FillGrid(view, firstDay, daysInMonth, events, vendors);
  }

  /** The two loops of `renderCalendar`: `firstDay` blanks, then one cell per
      day from 1 to `daysInMonth`. */
  method FillGrid(view: YearMonth, firstDay: nat, daysInMonth: nat, events: seq<Event>, vendors: seq<Vendor>)
    returns (cells: seq<Cell>)
    requires view.Valid() && daysInMonth <= 31
    ensures cells == Grid(view, firstDay, daysInMonth, events, vendors)
  {
    ghost var grid := Grid(view, firstDay, daysInMonth, events, vendors);
    var byDate := EventsByDate(events);
    cells := [];
    var i := 0;
    while i < firstDay
      invariant 0 <= i <= firstDay
      invariant |cells| == i
      invariant forall j :: 0 <= j < i ==> cells[j] == grid[j]
    {
      cells := cells + [Blank];
      i := i + 1;
    }
    var day := 1;
    while day <= daysInMonth
      invariant 1 <= day <= daysInMonth + 1
      invariant |cells| == firstDay + day - 1
      invariant forall j :: 0 <= j < |cells| ==> cells[j] == grid[j]
    {
      var cell := DayCellOf(view, byDate, events, vendors, day);
      cells := cells + [cell];
      day := day + 1;
    }
    assert |cells| == |grid|;
  }
}


