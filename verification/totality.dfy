/** The totality check of one asset: walking its timeline forward from the
    stored quantity and flagging every date on which the running quantity
    would be negative. */
module Totality {
  import opened Wrappers
  import opened Seqs
  import opened Sorting
  import opened Models
  import opened Timeline

  /** One error entry of the walk: on `date`, `startQuantity` units leave
      and the running quantity becomes `projected`, below zero. */
  datatype Violation = Violation(assetId: AssetId, date: Day, startQuantity: int, projected: int)

  /** The running quantity after unit `i`: the stored quantity plus the net
      change of every unit up to `i` that is not in the past. */
  function Running(stored: int, today: Day, tl: seq<Unit>, i: nat): int
    requires i < |tl|
  {
    stored + Total(NetFrom(today), tl[..i + 1])
  }

  /** The walk passes: after every unit that is not in the past, the running
      quantity is non-negative. */
  predicate TotalityOk(stored: int, today: Day, tl: seq<Unit>) {
    forall i :: 0 <= i < |tl| && tl[i].date >= today ==> Running(stored, today, tl, i) >= 0
  }

  /** The error entries of the walk, one per violating unit, in timeline
      order. */
  function Violations(assetId: AssetId, stored: int, today: Day, tl: seq<Unit>): (r: seq<Violation>)
    ensures forall v :: v in r ==> v.assetId == assetId && v.date >= today && v.projected < 0
  {
    if |tl| == 0 then []
    else
      var n := |tl| - 1;
      var front := Violations(assetId, stored, today, tl[..n]);
      var q := stored + Total(NetFrom(today), tl);
      front + (if tl[n].date >= today && q < 0 then [Violation(assetId, tl[n].date, tl[n].startQuantity, q)] else [])
  }

  /** There are no error entries exactly when the walk passes. */
  lemma {:induction false} ViolationsEmptyIff(assetId: AssetId, stored: int, today: Day, tl: seq<Unit>)
    ensures Violations(assetId, stored, today, tl) == [] <==> TotalityOk(stored, today, tl)
  {
    if |tl| > 0 {
      var n := |tl| - 1;
      ViolationsEmptyIff(assetId, stored, today, tl[..n]);
      assert forall i :: 0 <= i < n ==> tl[..n][..i + 1] == tl[..i + 1] && tl[..n][i] == tl[i];
      assert tl[..n + 1] == tl;
    }
  }

  /** Unit `i` is not in the past, the running quantity after it is
      negative, and `v` is the error entry reporting it. */
  predicate ReportsUnit(assetId: AssetId, stored: int, today: Day, tl: seq<Unit>, i: nat, v: Violation)
    requires i < |tl|
  {
    tl[i].date >= today && Running(stored, today, tl, i) < 0
    && v == Violation(assetId, tl[i].date, tl[i].startQuantity, Running(stored, today, tl, i))
  }

  /** The error entries are exactly the reports of the violating units:
      every unit not in the past after which the running quantity is
      negative is reported, with its date, its starting quantity and that
      running quantity, and nothing else is. */
  lemma {:induction false} ViolationsExact(assetId: AssetId, stored: int, today: Day, tl: seq<Unit>)
    ensures forall v :: v in Violations(assetId, stored, today, tl) <==>
              exists i :: 0 <= i < |tl| && ReportsUnit(assetId, stored, today, tl, i, v)
  {
    if |tl| > 0 {
      var n := |tl| - 1;
      var pre := tl[..n];
      ViolationsExact(assetId, stored, today, pre);
      assert tl[..n + 1] == tl;
      assert forall i :: 0 <= i < n ==> pre[..i + 1] == tl[..i + 1] && pre[i] == tl[i];
      assert forall i, v :: 0 <= i < n ==> (ReportsUnit(assetId, stored, today, pre, i, v) <==> ReportsUnit(assetId, stored, today, tl, i, v));
      forall v | v in Violations(assetId, stored, today, tl)
        ensures exists i :: 0 <= i < |tl| && ReportsUnit(assetId, stored, today, tl, i, v)
      {
        if v in Violations(assetId, stored, today, pre) {
          var i :| 0 <= i < n && ReportsUnit(assetId, stored, today, pre, i, v);
          assert ReportsUnit(assetId, stored, today, tl, i, v);
        } else {
          assert ReportsUnit(assetId, stored, today, tl, n, v);
        }
      }
      forall v, i | 0 <= i < |tl| && ReportsUnit(assetId, stored, today, tl, i, v)
        ensures v in Violations(assetId, stored, today, tl)
      {
        if i < n {
          assert ReportsUnit(assetId, stored, today, pre, i, v);
        }
      }
    }
  }

  /** `__run_totality_check` on a built timeline: units dated before today
      are skipped, each other unit adds its ending and subtracts its starting
      quantity, and every unit after which the quantity is negative is
      reported. The walk does not stop at the first violation. */
  method RunTotalityCheck(assetId: AssetId, stored: int, today: Day, tl: seq<Unit>)
    returns (ok: bool, messages: seq<Violation>)
    ensures messages == Violations(assetId, stored, today, tl)
    ensures ok <==> messages == []
    ensures ok <==> TotalityOk(stored, today, tl)
  {
    var quantity := stored;
    ok := true;
    messages := [];
    var i := 0;
    while i < |tl|
      invariant 0 <= i <= |tl|
      invariant quantity == stored + Total(NetFrom(today), tl[..i])
      invariant messages == Violations(assetId, stored, today, tl[..i])
      invariant ok <==> messages == []
    {
      var unit := tl[i];
      WalkStep(assetId, stored, today, tl, i);
      if unit.date >= today {
        quantity := quantity + (-unit.startQuantity + unit.endQuantity);
        if quantity < 0 {
          messages := messages + [Violation(assetId, unit.date, unit.startQuantity, quantity)];
          ok := false;
        }
      }
      i := i + 1;
    }
    assert tl[..|tl|] == tl;
    ViolationsEmptyIff(assetId, stored, today, tl);
  }

  /** One more unit of the walk: its net change is added when it is not in
      the past, and it is reported when the quantity then is negative. */
  lemma WalkStep(assetId: AssetId, stored: int, today: Day, tl: seq<Unit>, i: nat)
    requires i < |tl|
    ensures Total(NetFrom(today), tl[..i + 1])
            == Total(NetFrom(today), tl[..i]) + (if tl[i].date >= today then tl[i].endQuantity - tl[i].startQuantity else 0)
    ensures var q := stored + Total(NetFrom(today), tl[..i + 1]);
            Violations(assetId, stored, today, tl[..i + 1])
            == Violations(assetId, stored, today, tl[..i])
               + (if tl[i].date >= today && q < 0 then [Violation(assetId, tl[i].date, tl[i].startQuantity, q)] else [])
  {
    var seen := tl[..i + 1];
    assert seen[..i] == tl[..i] && seen[i] == tl[i];
  }

  // ---------------------------------------------------------------------------
  // The criterion in terms of the spans
  // ---------------------------------------------------------------------------

  /** A measure that every unit of `s` weighs at zero totals zero. */
  lemma {:induction false} TotalVanishes(m: Measure, s: seq<Unit>)
    requires forall k :: 0 <= k < |s| ==> Weigh(m, s[k]) == 0
    ensures Total(m, s) == 0
  {
    if |s| > 0 {
      var n := |s| - 1;
      assert forall k :: 0 <= k < n ==> s[..n][k] == s[k];
      TotalVanishes(m, s[..n]);
    }
  }

  /** Two measures that weigh every unit of `s` alike total alike. */
  lemma {:induction false} TotalAgree(m1: Measure, m2: Measure, s: seq<Unit>)
    requires forall k :: 0 <= k < |s| ==> Weigh(m1, s[k]) == Weigh(m2, s[k])
    ensures Total(m1, s) == Total(m2, s)
  {
    if |s| > 0 {
      var n := |s| - 1;
      assert forall k :: 0 <= k < n ==> s[..n][k] == s[k];
      TotalAgree(m1, m2, s[..n]);
    }
  }

  /** On a timeline sorted by distinct dates, the running quantity after unit
      `i` is the stored quantity plus the net change of all units dated from
      today up to unit `i`'s date. */
  lemma PrefixIsWindow(stored: int, today: Day, tl: seq<Unit>, i: nat)
    requires SortedBy(DateOf, tl) && DistinctDates(tl) && i < |tl|
    ensures Running(stored, today, tl, i) == stored + Total(NetWithin(today, tl[i].date), tl)
  {
    var d := tl[i].date;
    assert tl == tl[..i + 1] + tl[i + 1..];
    TotalAppend(NetWithin(today, d), tl[..i + 1], tl[i + 1..]);
    WindowFront(today, tl, i);
    WindowBack(today, tl, i);
  }

  /** Up to unit `i`, counting from today and counting from today to unit
      `i`'s date agree. */
  lemma WindowFront(today: Day, tl: seq<Unit>, i: nat)
    requires SortedBy(DateOf, tl) && i < |tl|
    ensures Total(NetFrom(today), tl[..i + 1]) == Total(NetWithin(today, tl[i].date), tl[..i + 1])
  {
    var d := tl[i].date;
    var front := tl[..i + 1];
    forall k | 0 <= k < |front| ensures Weigh(NetFrom(today), front[k]) == Weigh(NetWithin(today, d), front[k]) {
      assert front[k] == tl[k];
      assert DateOf(tl[k]) <= DateOf(tl[i]);
    }
    TotalAgree(NetFrom(today), NetWithin(today, d), front);
  }

  /** On distinct sorted dates, every unit after unit `i` lies past its date
      and so outside the window ending there. */
  lemma WindowBack(today: Day, tl: seq<Unit>, i: nat)
    requires SortedBy(DateOf, tl) && DistinctDates(tl) && i < |tl|
    ensures Total(NetWithin(today, tl[i].date), tl[i + 1..]) == 0
  {
    var d := tl[i].date;
    var back := tl[i + 1..];
    forall k | 0 <= k < |back| ensures Weigh(NetWithin(today, d), back[k]) == 0 {
      assert back[k] == tl[i + 1 + k];
      assert DateOf(tl[i]) <= DateOf(tl[i + 1 + k]);
    }
    TotalVanishes(NetWithin(today, d), back);
  }

  /** The timeline's check passes exactly when, on every start or end day
      from today on, the stored quantity plus what came back minus what left
      between today and that day is non-negative. */
  lemma Criterion(stored: int, today: Day, rows: seq<UploadRow>, open: seq<AssetOwnerHistory>)
    ensures var spans := Spans(rows, open);
            TotalityOk(stored, today, CreateTimeline(rows, open))
            <==> forall d :: d in Endpoints(spans) && d >= today ==> stored + SpanTotal(NetWithin(today, d), spans) >= 0
  {
    var spans := Spans(rows, open);
    var tl := CreateTimeline(rows, open);
    TimelineContents(rows, open);
    forall i | 0 <= i < |tl|
      ensures Running(stored, today, tl, i) == stored + SpanTotal(NetWithin(today, tl[i].date), spans)
    {
      PrefixIsWindow(stored, today, tl, i);
      TimelineTotal(NetWithin(today, tl[i].date), rows, open);
    }
    if TotalityOk(stored, today, tl) {
      forall d | d in Endpoints(spans) && d >= today
        ensures stored + SpanTotal(NetWithin(today, d), spans) >= 0
      {
        assert d in DatesOf(tl);
        var k :| 0 <= k < |tl| && tl[k].date == d;
      }
    }
  }

  // ---------------------------------------------------------------------------
  // Consequences of reading the end date from the "Start Date" column
  // ---------------------------------------------------------------------------

  /** Span totals split over concatenation. */
  lemma {:induction false} SpanTotalAppend(m: Measure, a: seq<Span>, b: seq<Span>)
    ensures SpanTotal(m, a + b) == SpanTotal(m, a) + SpanTotal(m, b)
  {
    if |b| > 0 {
      var n := |b| - 1;
      assert (a + b)[..|a + b| - 1] == a + b[..n];
      SpanTotalAppend(m, a, b[..n]);
    } else {
      assert a + b == a;
    }
  }

  /** A proposed row leaves and returns on the same day, so it changes no
      net quantity over any window. */
  lemma {:induction false} RowsNetNothing(lo: Day, hi: Day, rows: seq<UploadRow>)
    ensures SpanTotal(NetWithin(lo, hi), Map(RowSpan, rows)) == 0
  {
    if |rows| > 0 {
      var n := |rows| - 1;
      assert Map(RowSpan, rows)[..n] == Map(RowSpan, rows[..n]);
      RowsNetNothing(lo, hi, rows[..n]);
    }
  }

  /** The net change over a window is the one the open records alone give. */
  lemma NetIgnoresRows(lo: Day, hi: Day, rows: seq<UploadRow>, open: seq<AssetOwnerHistory>)
    ensures SpanTotal(NetWithin(lo, hi), Spans(rows, open)) == SpanTotal(NetWithin(lo, hi), Spans([], open))
  {
    SpanTotalAppend(NetWithin(lo, hi), Map(RowSpan, rows), Map(HistorySpan, open));
    SpanTotalAppend(NetWithin(lo, hi), Map(RowSpan, []), Map(HistorySpan, open));
    RowsNetNothing(lo, hi, rows);
    RowsNetNothing(lo, hi, []);
  }

  /** Widening a window over days on which nothing starts or ends does not
      change its net. */
  lemma {:induction false} NetStable(spans: seq<Span>, lo: Day, a: Day, b: Day)
    requires a <= b
    requires forall e :: e in Endpoints(spans) ==> !(a < e <= b)
    ensures SpanTotal(NetWithin(lo, a), spans) == SpanTotal(NetWithin(lo, b), spans)
  {
    if |spans| > 0 {
      var n := |spans| - 1;
      assert forall e :: e in Endpoints(spans[..n]) ==> e in Endpoints(spans) by {
        forall e | e in Endpoints(spans[..n]) ensures e in Endpoints(spans) {
          var k :| 0 <= k < n && (spans[..n][k].start == e || spans[..n][k].end == e);
          assert spans[..n][k] == spans[k];
        }
      }
      NetStable(spans[..n], lo, a, b);
      assert spans[n].start in Endpoints(spans) && spans[n].end in Endpoints(spans);
    }
  }

  /** The latest start or end day in `lo..hi`, if any. */
  function LatestEndpoint(spans: seq<Span>, lo: Day, hi: Day): (r: Option<Day>)
    ensures r.Some? ==> r.value in Endpoints(spans) && lo <= r.value <= hi
    ensures r.Some? ==> forall e :: e in Endpoints(spans) && lo <= e <= hi ==> e <= r.value
    ensures r.None? ==> forall e :: e in Endpoints(spans) ==> !(lo <= e <= hi)
  {
    if |spans| == 0 then None
    else
      var n := |spans| - 1;
      var sp := spans[n];
      assert Endpoints(spans) == Endpoints(spans[..n]) + {sp.start, sp.end};
      var prev := LatestEndpoint(spans[..n], lo, hi);
      var a := if lo <= sp.start <= hi then Some(sp.start) else None;
      var b := if lo <= sp.end <= hi then Some(sp.end) else None;
      Latest(Latest(prev, a), b)
  }

  /** The later of two optional days. */
  function Latest(x: Option<Day>, y: Option<Day>): (r: Option<Day>)
    ensures r.None? <==> x.None? && y.None?
    ensures r.Some? ==> (r == x || r == y)
    ensures x.Some? ==> r.Some? && x.value <= r.value
    ensures y.Some? ==> r.Some? && y.value <= r.value
  {
    match (x, y)
    case (None, _) => y
    case (_, None) => x
    case (Some(a), Some(b)) => if a <= b then y else x
  }

  /** With no start or end day in the window, the window's net is zero. */
  lemma {:induction false} NetEmpty(spans: seq<Span>, lo: Day, hi: Day)
    requires forall e :: e in Endpoints(spans) ==> !(lo <= e <= hi)
    ensures SpanTotal(NetWithin(lo, hi), spans) == 0
  {
    if |spans| > 0 {
      var n := |spans| - 1;
      assert Endpoints(spans) == Endpoints(spans[..n]) + {spans[n].start, spans[n].end};
      NetEmpty(spans[..n], lo, hi);
    }
  }

  /** When the stored quantity plus the window's net is non-negative on every
      start or end day from `lo` on, and the stored quantity itself is, it is
      on every day from `lo` on: between such days the net does not move. */
  lemma NetBetweenEndpoints(stored: int, spans: seq<Span>, lo: Day, d: Day)
    requires stored >= 0 && d >= lo
    requires forall e :: e in Endpoints(spans) && e >= lo ==> stored + SpanTotal(NetWithin(lo, e), spans) >= 0
    ensures stored + SpanTotal(NetWithin(lo, d), spans) >= 0
  {
    match LatestEndpoint(spans, lo, d)
    case None =>
      NetEmpty(spans, lo, d);
    case Some(e) =>
      NetStable(spans, lo, e, d);
  }

  /** The start and end days of a tail are among those of the whole. */
  lemma EndpointsSuffix(a: seq<Span>, b: seq<Span>)
    ensures Endpoints(b) <= Endpoints(a + b)
  {
    forall e | e in Endpoints(b) ensures e in Endpoints(a + b) {
      var k :| 0 <= k < |b| && (b[k].start == e || b[k].end == e);
      assert b[k] == (a + b)[|a| + k];
    }
  }

  /** The open records' start and end days are among all start and end days. */
  lemma HistoryEndpoints(rows: seq<UploadRow>, open: seq<AssetOwnerHistory>)
    ensures Endpoints(Spans([], open)) <= Endpoints(Spans(rows, open))
  {
    var hist := Map(HistorySpan, open);
    assert Spans([], open) == hist by {
      assert Map(RowSpan, []) == [];
    }
    EndpointsSuffix(Map(RowSpan, rows), hist);
  }

  /** With a non-negative stored quantity, the open records alone decide the
      check: proposed rows never change whether it passes. */
  lemma RowsNeverDecide(stored: int, today: Day, rows: seq<UploadRow>, open: seq<AssetOwnerHistory>)
    requires stored >= 0
    ensures TotalityOk(stored, today, CreateTimeline(rows, open))
            <==> TotalityOk(stored, today, CreateTimeline([], open))
  {
    var all := Spans(rows, open);
    var hist := Spans([], open);
    Criterion(stored, today, rows, open);
    Criterion(stored, today, [], open);
    HistoryEndpoints(rows, open);
    forall d | d >= today
      ensures SpanTotal(NetWithin(today, d), all) == SpanTotal(NetWithin(today, d), hist)
    {
      NetIgnoresRows(today, d, rows, open);
    }
    if TotalityOk(stored, today, CreateTimeline([], open)) {
      forall d | d in Endpoints(all) && d >= today
        ensures stored + SpanTotal(NetWithin(today, d), hist) >= 0
      {
        NetBetweenEndpoints(stored, hist, today, d);
      }
    }
  }

  /** Nine units in stock, no open records, and two proposed rows of five
      units from today: ten units are asked for, yet the check passes. */
  lemma OverbookedUploadPasses(today: Day, user: UserId)
    ensures var rows := [UploadRow(user, 12, 5, today, today + 10), UploadRow(user, 12, 5, today, today + 10)];
            TotalityOk(9, today, CreateTimeline(rows, []))
  {
    var rows := [UploadRow(user, 12, 5, today, today + 10), UploadRow(user, 12, 5, today, today + 10)];
    RowsNeverDecide(9, today, rows, []);
    assert Buckets(Spans([], [])) == [];
  }
}
