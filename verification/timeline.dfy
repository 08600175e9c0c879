/** The inventory timeline of one asset: the upload rows proposed for it and
    its open ownership records, folded into one bucket per date holding the
    quantity that leaves the stock on that date ("start") and the quantity
    that comes back ("end"), sorted by date. */
module Timeline {
  import opened Wrappers
  import opened Seqs
  import opened Sorting
  import opened Models

  /** `TimeLineUnit`: the quantities starting and ending on one date. */
  datatype Unit = Unit(date: Day, startQuantity: int, endQuantity: int)

  /** A requisition over time: `quantity` units leave the stock on `start`
      and come back on `end`. */
  datatype Span = Span(start: Day, end: Day, quantity: int)

  /** One row of an uploaded file, its dates already parsed to days. */
  datatype UploadRow = UploadRow(userId: UserId, assetId: AssetId, quantity: int, startDate: Day, endDate: Day)

  /** The sort key of the timeline (`attrgetter("date")`). */
  function DateOf(u: Unit): int {
    u.date
  }

  /** The span of a proposed row as the timeline reads it: both of its dates
      come from the "Start Date" column, so it ends on the day it starts. */
  function RowSpan(r: UploadRow): (sp: Span)
    ensures sp.start == sp.end == r.startDate && sp.quantity == r.quantity
  {
    Span(r.startDate, r.startDate, r.quantity)
  }

  /** The span of an ownership record: the calendar dates of its start and
      end instants. */
  function HistorySpan(h: AssetOwnerHistory): (sp: Span)
    ensures sp.start == DayOf(h.startDate) && sp.end == DayOf(h.endDate)
    ensures sp.quantity == h.requisitionQuantity
  {
    Span(DayOf(h.startDate), DayOf(h.endDate), h.requisitionQuantity)
  }

  /** The records still open at instant `now`: the query
      `end_date__gte=now`. */
  function OpenAt(history: seq<AssetOwnerHistory>, now: Instant): (r: seq<AssetOwnerHistory>)
    ensures forall h :: h in r <==> h in history && h.endDate >= now
  {
    Filter((h: AssetOwnerHistory) => h.endDate >= now, history)
  }

  /** All spans the timeline is built from: the proposed rows first, then the
      open records, as the two loops visit them. */
  function Spans(rows: seq<UploadRow>, open: seq<AssetOwnerHistory>): (r: seq<Span>)
    ensures |r| == |rows| + |open|
  {
    Map(RowSpan, rows) + Map(HistorySpan, open)
  }

  // ---------------------------------------------------------------------------
  // Buckets
  // ---------------------------------------------------------------------------

  /** The position of the unit dated `d`, if there is one. */
  function IndexOfDate(units: seq<Unit>, d: Day): (r: Option<nat>)
    ensures r.Some? ==> r.value < |units| && units[r.value].date == d
    ensures r.None? ==> forall k :: 0 <= k < |units| ==> units[k].date != d
  {
    if |units| == 0 then None
    else if units[|units| - 1].date == d then Some(|units| - 1)
    else IndexOfDate(units[..|units| - 1], d)
  }

  /** Adds to the buckets of date `d`, creating them when `d` is new (a
      dictionary keyed by date, which keeps insertion order). */
  function Bump(units: seq<Unit>, d: Day, starting: int, ending: int): seq<Unit> {
    match IndexOfDate(units, d)
    case Some(i) => units[i := Unit(d, units[i].startQuantity + starting, units[i].endQuantity + ending)]
    case None => units + [Unit(d, starting, ending)]
  }

  /** One iteration of either loop of `__create_timeline`. */
  function AddSpan(units: seq<Unit>, sp: Span): seq<Unit> {
    Bump(Bump(units, sp.start, sp.quantity, 0), sp.end, 0, sp.quantity)
  }

  /** The dictionary after both loops, in insertion order. */
  function Buckets(spans: seq<Span>): seq<Unit> {
    if |spans| == 0 then []
    else AddSpan(Buckets(spans[..|spans| - 1]), spans[|spans| - 1])
  }

  /** `__create_timeline`: the buckets sorted by date. */
  function CreateTimeline(rows: seq<UploadRow>, open: seq<AssetOwnerHistory>): seq<Unit> {
    SortBy(DateOf, Buckets(Spans(rows, open)))
  }

  // ---------------------------------------------------------------------------
  // Measures: the sums the timeline is judged by
  // ---------------------------------------------------------------------------

  /** A quantity read off the units:
      - what starts on day `d`;
      - what ends on day `d`;
      - the net change (ending minus starting) over the days `lo..hi`;
      - the net change over the days from `lo` on. */
  datatype Measure = StartedOn(d: Day) | EndedOn(d: Day) | NetWithin(lo: Day, hi: Day) | NetFrom(lo: Day)

  /** The measure of one unit. */
  function Weigh(m: Measure, u: Unit): int {
    match m
    case StartedOn(d) => if u.date == d then u.startQuantity else 0
    case EndedOn(d) => if u.date == d then u.endQuantity else 0
    case NetWithin(lo, hi) => if lo <= u.date <= hi then u.endQuantity - u.startQuantity else 0
    case NetFrom(lo) => if lo <= u.date then u.endQuantity - u.startQuantity else 0
  }

  /** The measure summed over a sequence of units. */
  function Total(m: Measure, units: seq<Unit>): int {
    if |units| == 0 then 0
    else Total(m, units[..|units| - 1]) + Weigh(m, units[|units| - 1])
  }

  /** The reference: the measure summed straight over the spans, each span
      counting its quantity as starting on its start day and as ending on
      its end day. */
  function SpanTotal(m: Measure, spans: seq<Span>): int {
    if |spans| == 0 then 0
    else
      var sp := spans[|spans| - 1];
      SpanTotal(m, spans[..|spans| - 1]) + Weigh(m, Unit(sp.start, sp.quantity, 0)) + Weigh(m, Unit(sp.end, 0, sp.quantity))
  }

  /** The days on which some span starts or ends. */
  function Endpoints(spans: seq<Span>): (r: set<Day>)
    ensures forall d :: d in r <==> exists k :: 0 <= k < |spans| && (spans[k].start == d || spans[k].end == d)
  {
    if |spans| == 0 then {}
    else
      var sp := spans[|spans| - 1];
      var front := spans[..|spans| - 1];
      assert forall k :: 0 <= k < |front| ==> front[k] == spans[k];
      Endpoints(front) + {sp.start, sp.end}
  }

  /** The dates of the units. */
  function DatesOf(units: seq<Unit>): (r: set<Day>)
    ensures forall d :: d in r <==> exists k :: 0 <= k < |units| && units[k].date == d
  {
    set u | u in units :: u.date
  }

  /** No two units share a date. */
  predicate DistinctDates(units: seq<Unit>) {
    forall i, j :: 0 <= i < j < |units| ==> units[i].date != units[j].date
  }

  // ---------------------------------------------------------------------------
  // Sums over sequences of units
  // ---------------------------------------------------------------------------

  /** A total splits over concatenation. */
  lemma {:induction false} TotalAppend(m: Measure, a: seq<Unit>, b: seq<Unit>)
    ensures Total(m, a + b) == Total(m, a) + Total(m, b)
  {
    if |b| > 0 {
      var n := |b| - 1;
      assert (a + b)[..|a + b| - 1] == a + b[..n];
      TotalAppend(m, a, b[..n]);
    } else {
      assert a + b == a;
    }
  }

  /** The total of a unit put in front. */
  lemma TotalCons(m: Measure, x: Unit, s: seq<Unit>)
    ensures Total(m, [x] + s) == Weigh(m, x) + Total(m, s)
  {
    TotalAppend(m, [x], s);
    assert [x][..0] == [];
  }

  /** The dates of a unit put in front, and when they stay distinct. */
  lemma DatesCons(x: Unit, s: seq<Unit>)
    ensures DatesOf([x] + s) == {x.date} + DatesOf(s)
    ensures DistinctDates([x] + s) <==> x.date !in DatesOf(s) && DistinctDates(s)
  {
    var r := [x] + s;
    assert forall k :: 0 <= k < |s| ==> r[k + 1] == s[k];
    if DistinctDates(r) {
      forall i, j | 0 <= i < j < |s| ensures s[i].date != s[j].date {
        assert r[i + 1].date != r[j + 1].date;
      }
      forall k | 0 <= k < |s| ensures s[k].date != x.date {
        assert r[0].date != r[k + 1].date;
      }
    }
  }

  /** Replacing one unit changes the total by the difference of the two. */
  lemma {:induction false} TotalUpdate(m: Measure, s: seq<Unit>, i: nat, x: Unit)
    requires i < |s|
    ensures Total(m, s[i := x]) == Total(m, s) - Weigh(m, s[i]) + Weigh(m, x)
  {
    var n := |s| - 1;
    if i < n {
      assert s[i := x][..n] == s[..n][i := x];
      TotalUpdate(m, s[..n], i, x);
    } else {
      assert s[i := x][..n] == s[..n];
    }
  }

  /** Adding to the buckets of one date adds that much to every measure. */
  lemma TotalBump(m: Measure, units: seq<Unit>, d: Day, starting: int, ending: int)
    ensures Total(m, Bump(units, d, starting, ending)) == Total(m, units) + Weigh(m, Unit(d, starting, ending))
  {
    match IndexOfDate(units, d)
    case Some(i) =>
      TotalUpdate(m, units, i, Unit(d, units[i].startQuantity + starting, units[i].endQuantity + ending));
    case None =>
      TotalAppend(m, units, [Unit(d, starting, ending)]);
      assert Total(m, [Unit(d, starting, ending)]) == Weigh(m, Unit(d, starting, ending)) by {
        assert [Unit(d, starting, ending)][..0] == [];
      }
  }

  /** Every measure of the buckets equals the same measure taken straight
      over the spans: each quantity lands in the start bucket of its start
      date and the end bucket of its end date, summed per date. */
  lemma {:induction false} BucketsTotal(m: Measure, spans: seq<Span>)
    ensures Total(m, Buckets(spans)) == SpanTotal(m, spans)
  {
    if |spans| > 0 {
      var sp := spans[|spans| - 1];
      var prev := Buckets(spans[..|spans| - 1]);
      BucketsTotal(m, spans[..|spans| - 1]);
      TotalBump(m, prev, sp.start, sp.quantity, 0);
      TotalBump(m, Bump(prev, sp.start, sp.quantity, 0), sp.end, 0, sp.quantity);
    }
  }

  /** Adding to the buckets of a date keeps one unit per date and adds that
      date to the dates present. */
  lemma BumpDates(units: seq<Unit>, d: Day, starting: int, ending: int)
    requires DistinctDates(units)
    ensures DistinctDates(Bump(units, d, starting, ending))
    ensures DatesOf(Bump(units, d, starting, ending)) == DatesOf(units) + {d}
  {
    var r := Bump(units, d, starting, ending);
    match IndexOfDate(units, d)
    case Some(i) =>
      assert forall k :: 0 <= k < |units| ==> r[k].date == units[k].date;
    case None =>
      assert forall k :: 0 <= k < |units| ==> r[k] == units[k];
      assert r[|units|].date == d;
  }

  /** The buckets hold one unit per date, and their dates are exactly the
      start and end days of the spans. */
  lemma {:induction false} BucketsDates(spans: seq<Span>)
    ensures DistinctDates(Buckets(spans))
    ensures DatesOf(Buckets(spans)) == Endpoints(spans)
  {
    if |spans| > 0 {
      var sp := spans[|spans| - 1];
      var prev := Buckets(spans[..|spans| - 1]);
      BucketsDates(spans[..|spans| - 1]);
      BumpDates(prev, sp.start, sp.quantity, 0);
      BumpDates(Bump(prev, sp.start, sp.quantity, 0), sp.end, 0, sp.quantity);
    }
  }

  /** Where dates are distinct, what starts (ends) on a unit's date is that
      unit's own start (end) quantity. */
  lemma {:induction false} TotalAtDate(units: seq<Unit>, k: nat)
    requires DistinctDates(units) && k < |units|
    ensures Total(StartedOn(units[k].date), units) == units[k].startQuantity
    ensures Total(EndedOn(units[k].date), units) == units[k].endQuantity
  {
    var n := |units| - 1;
    var front := units[..n];
    assert forall i :: 0 <= i < n ==> front[i] == units[i];
    if k < n {
      TotalAtDate(front, k);
    } else {
      TotalAbsent(front, units[k].date);
    }
  }

  /** Nothing starts or ends on a date no unit carries. */
  lemma {:induction false} TotalAbsent(units: seq<Unit>, d: Day)
    requires forall i :: 0 <= i < |units| ==> units[i].date != d
    ensures Total(StartedOn(d), units) == 0 && Total(EndedOn(d), units) == 0
  {
    if |units| > 0 {
      var n := |units| - 1;
      assert forall i :: 0 <= i < n ==> units[..n][i] == units[i];
      TotalAbsent(units[..n], d);
    }
  }

  // ---------------------------------------------------------------------------
  // Sorting keeps every measure and the dates
  // ---------------------------------------------------------------------------

  /** Inserting a unit adds its measure. */
  lemma {:induction false} TotalInsert(m: Measure, x: Unit, s: seq<Unit>)
    requires SortedBy(DateOf, s)
    ensures Total(m, Insert(DateOf, x, s)) == Weigh(m, x) + Total(m, s)
  {
    if |s| > 0 && DateOf(x) > DateOf(s[0]) {
      assert s == [s[0]] + s[1..];
      TotalInsert(m, x, s[1..]);
      TotalCons(m, s[0], Insert(DateOf, x, s[1..]));
      TotalCons(m, s[0], s[1..]);
    } else {
      TotalCons(m, x, s);
    }
  }

  /** Inserting a unit adds its date. */
  lemma DatesInsert(x: Unit, s: seq<Unit>)
    requires SortedBy(DateOf, s)
    ensures DatesOf(Insert(DateOf, x, s)) == {x.date} + DatesOf(s)
  {
    var r := Insert(DateOf, x, s);
    forall u ensures u in r <==> u in s || u == x {
      assert u in r <==> u in multiset(r);
      assert u in s <==> u in multiset(s);
    }
  }

  /** Inserting a unit with a new date keeps one unit per date. */
  lemma {:induction false} DistinctInsert(x: Unit, s: seq<Unit>)
    requires SortedBy(DateOf, s) && DistinctDates(s) && x.date !in DatesOf(s)
    ensures DistinctDates(Insert(DateOf, x, s))
  {
    if |s| > 0 && DateOf(x) > DateOf(s[0]) {
      assert s == [s[0]] + s[1..];
      DatesCons(s[0], s[1..]);
      DistinctInsert(x, s[1..]);
      DatesInsert(x, s[1..]);
      DatesCons(s[0], Insert(DateOf, x, s[1..]));
    } else {
      DatesCons(x, s);
    }
  }

  /** Sorting by date keeps every measure. */
  lemma {:induction false} TotalSort(m: Measure, s: seq<Unit>)
    ensures Total(m, SortBy(DateOf, s)) == Total(m, s)
  {
    if |s| > 0 {
      assert s == [s[0]] + s[1..];
      TotalSort(m, s[1..]);
      TotalInsert(m, s[0], SortBy(DateOf, s[1..]));
      TotalCons(m, s[0], s[1..]);
    }
  }

  /** Sorting by date keeps the dates and one unit per date. */
  lemma {:induction false} DatesSort(s: seq<Unit>)
    ensures DatesOf(SortBy(DateOf, s)) == DatesOf(s)
    ensures DistinctDates(s) ==> DistinctDates(SortBy(DateOf, s))
  {
    if |s| > 0 {
      assert s == [s[0]] + s[1..];
      DatesSort(s[1..]);
      DatesInsert(s[0], SortBy(DateOf, s[1..]));
      DatesCons(s[0], s[1..]);
      if DistinctDates(s) {
        DistinctInsert(s[0], SortBy(DateOf, s[1..]));
      }
    }
  }

  // ---------------------------------------------------------------------------
  // What the timeline holds
  // ---------------------------------------------------------------------------

  /** The timeline is sorted ascending by date, holds exactly one unit per
      start or end day of the rows and open records, and each unit holds
      the sum of the quantities starting and the sum of those ending on its
      date. Every measure of it agrees with the spans. */
  lemma TimelineContents(rows: seq<UploadRow>, open: seq<AssetOwnerHistory>)
    ensures var tl := CreateTimeline(rows, open);
            && SortedBy(DateOf, tl)
            && DistinctDates(tl)
            && DatesOf(tl) == Endpoints(Spans(rows, open))
            && (forall k :: 0 <= k < |tl| ==>
                  && tl[k].startQuantity == SpanTotal(StartedOn(tl[k].date), Spans(rows, open))
                  && tl[k].endQuantity == SpanTotal(EndedOn(tl[k].date), Spans(rows, open)))
  {
    var spans := Spans(rows, open);
    var tl := CreateTimeline(rows, open);
    BucketsDates(spans);
    DatesSort(Buckets(spans));
    forall k | 0 <= k < |tl|
      ensures tl[k].startQuantity == SpanTotal(StartedOn(tl[k].date), spans)
      ensures tl[k].endQuantity == SpanTotal(EndedOn(tl[k].date), spans)
    {
      TotalAtDate(tl, k);
      TotalSort(StartedOn(tl[k].date), Buckets(spans));
      TotalSort(EndedOn(tl[k].date), Buckets(spans));
      BucketsTotal(StartedOn(tl[k].date), spans);
      BucketsTotal(EndedOn(tl[k].date), spans);
    }
  }

  /** Every measure of the timeline equals that measure over the spans. */
  lemma TimelineTotal(m: Measure, rows: seq<UploadRow>, open: seq<AssetOwnerHistory>)
    ensures Total(m, CreateTimeline(rows, open)) == SpanTotal(m, Spans(rows, open))
  {
    TotalSort(m, Buckets(Spans(rows, open)));
    BucketsTotal(m, Spans(rows, open));
  }
}
