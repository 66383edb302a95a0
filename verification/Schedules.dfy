/** Delivery zone bands and weekly opening hours.
    Models the zone-band check of assertValidDeliveryConfiguration, normalizeOpeningHours,
    normalizeOpeningHourBreakTimes and readOpeningHours. */
module Schedules {
  import opened Prelude
  import opened Texts
  import opened Sorting
  import opened Intervals

  // ----- Zone bands -----

  datatype Band = Band(fromKm: Option<real>, toKm: Option<real>)

  function BandSpan(b: Band): Span { Span(b.fromKm.GetOr(0.0), b.toKm.GetOr(0.0)) }

  predicate BandBounded(b: Band) {
    b.fromKm.Some? && b.toKm.Some? && b.fromKm.value >= 0.0 && b.fromKm.value < b.toKm.value
  }

  /** Zone bands are accepted exactly when there are some, each has proper bounds and all are pairwise apart. */
  method CheckZoneBands(bands: seq<Band>) returns (ok: bool)
    ensures ok <==> bands != [] && (forall i :: 0 <= i < |bands| ==> BandBounded(bands[i])) && PairwiseApart(bands, BandSpan)
  {
    if |bands| == 0 {
      return false;
    }
    var sorted := SortSpans(bands, BandSpan);
    FitsDecide(bands);
    hide PairwiseApart, SortSpans;
    for index := 0 to |sorted|
      invariant forall i :: 0 <= i < index ==> BandFits(sorted, i)
    {
      var band := sorted[index];
      if band.fromKm.None? || band.toKm.None? || band.fromKm.value < 0.0 || band.toKm.value <= band.fromKm.value {
        assert !BandFits(sorted, index);
        return false;
      }
      if index > 0 && band.fromKm.value < sorted[index - 1].toKm.GetOr(0.0) {
        assert !BandFits(sorted, index);
        return false;
      }
    }
    return true;
  }

  /** Bounded, and beginning no earlier than the band before it ends. */
  predicate BandFits(sorted: seq<Band>, i: nat)
    requires i < |sorted|
  {
    && BandBounded(sorted[i])
    && (i > 0 ==> sorted[i - 1].toKm.GetOr(0.0) <= sorted[i].fromKm.GetOr(0.0))
  }

  lemma {:induction false} FitsDecide(bands: seq<Band>)
    ensures var sorted := SortSpans(bands, BandSpan);
      (forall i :: 0 <= i < |sorted| ==> BandFits(sorted, i))
      <==> (forall i :: 0 <= i < |bands| ==> BandBounded(bands[i])) && PairwiseApart(bands, BandSpan)
  {
    var sorted := SortSpans(bands, BandSpan);
    SortKeeps(bands, FromOf(BandSpan), AtMost);
    SameMembers(bands, sorted);
    AllBounded(bands, sorted);
    hide PairwiseApart, SortSpans;
    if forall i :: 0 <= i < |sorted| ==> BandFits(sorted, i) {
      forall i | 0 <= i < |sorted|
        ensures BandBounded(sorted[i])
      {
        assert BandFits(sorted, i);
      }
    }
    if forall i :: 0 <= i < |bands| ==> BandBounded(bands[i]) {
      NeighboursDecide(bands, BandSpan);
      FitsAreNeighbours(sorted);
    }
  }

  lemma {:induction false} FitsAreNeighbours(sorted: seq<Band>)
    requires forall i :: 0 <= i < |sorted| ==> BandBounded(sorted[i])
    ensures NeighboursApart(sorted, BandSpan) <==> forall i :: 0 <= i < |sorted| ==> BandFits(sorted, i)
  {
    if NeighboursApart(sorted, BandSpan) {
      forall i | 0 <= i < |sorted|
        ensures BandFits(sorted, i)
      {
        assert i > 0 ==> BandSpan(sorted[i - 1]).to <= BandSpan(sorted[i]).from;
      }
    }
    if forall i :: 0 <= i < |sorted| ==> BandFits(sorted, i) {
      forall i | 0 < i < |sorted|
        ensures BandSpan(sorted[i - 1]).to <= BandSpan(sorted[i]).from
      {
        assert BandFits(sorted, i);
      }
    }
  }

  lemma {:induction false} AllBounded(xs: seq<Band>, ys: seq<Band>)
    requires forall b :: b in xs <==> b in ys
    ensures (forall i :: 0 <= i < |xs| ==> BandBounded(xs[i])) <==> (forall i :: 0 <= i < |ys| ==> BandBounded(ys[i]))
    ensures (forall i :: 0 <= i < |xs| ==> BandBounded(xs[i])) ==> AllSpans(xs, BandSpan)
  {
    assert (forall i :: 0 <= i < |xs| ==> BandBounded(xs[i])) <==> (forall b :: b in xs ==> BandBounded(b));
    assert (forall i :: 0 <= i < |ys| ==> BandBounded(ys[i])) <==> (forall b :: b in ys ==> BandBounded(b));
  }

  // ----- Breaks -----

  /** Times are minutes of the day; a note left out and a null note are alike. */
  datatype Break = Break(start: int, end: int, note: Option<string>)

  function BreakSpan(b: Break): Span { Span(b.start as real, b.end as real) }

  predicate BreakInside(b: Break, open: int, close: int) {
    b.start < b.end && open <= b.start && b.end <= close
  }

  ghost predicate AllInside(breaks: seq<Break>, open: int, close: int) {
    forall i :: 0 <= i < |breaks| ==> BreakInside(breaks[i], open, close)
  }

  function CleanBreak(b: Break): Break { b.(note := Cleaned(b.note)) }

  function CleanBreaks(breaks: seq<Break>): (clean: seq<Break>)
    ensures |clean| == |breaks|
    ensures forall i :: 0 <= i < |breaks| ==> clean[i] == CleanBreak(breaks[i])
  {
    seq(|breaks|, i requires 0 <= i < |breaks| => CleanBreak(breaks[i]))
  }

  /** The breaks in order of beginning, with trimmed notes; None when they are refused. */
  ghost function NormalBreaks(breaks: seq<Break>, open: int, close: int): Option<seq<Break>> {
    if AllInside(breaks, open, close) && PairwiseApart(breaks, BreakSpan)
    then Some(SortSpans(CleanBreaks(breaks), BreakSpan)) else None
  }

  method NormalizeBreaks(breaks: seq<Break>, open: int, close: int) returns (result: Option<seq<Break>>)
    ensures result == NormalBreaks(breaks, open, close)
  {
    var normalized: seq<Break> := [];
    for i := 0 to |breaks|
      invariant AllInside(breaks[..i], open, close)
      invariant normalized == CleanBreaks(breaks[..i])
    {
      var b := breaks[i];
      if b.start >= b.end || b.start < open || b.end > close {
        assert !BreakInside(breaks[i], open, close);
        return None;
      }
      normalized := normalized + [b.(note := Cleaned(b.note))];
    }
    assert breaks[..|breaks|] == breaks;
    var sorted := SortSpans(normalized, BreakSpan);
    CleanApart(breaks);
    assert AllSpans(normalized, BreakSpan);
    NeighboursDecide(normalized, BreakSpan);
    hide PairwiseApart, SortSpans, CleanBreaks;
    var index := 1;
    while index < |sorted|
      invariant 1 <= index
      invariant forall i :: 0 < i < index && i < |sorted| ==> BreakSpan(sorted[i - 1]).to <= BreakSpan(sorted[i]).from
    {
      if sorted[index - 1].end > sorted[index].start {
        assert BreakSpan(sorted[index - 1]).to > BreakSpan(sorted[index]).from;
        return None;
      }
      index := index + 1;
    }
    return Some(sorted);
  }

  lemma {:induction false} CleanApart(breaks: seq<Break>)
    ensures PairwiseApart(CleanBreaks(breaks), BreakSpan) <==> PairwiseApart(breaks, BreakSpan)
  {
    var clean := CleanBreaks(breaks);
    assert forall i :: 0 <= i < |breaks| ==> BreakSpan(clean[i]) == BreakSpan(breaks[i]);
    if PairwiseApart(clean, BreakSpan) {
      forall i, j | 0 <= i < j < |breaks|
        ensures Apart(BreakSpan(breaks[i]), BreakSpan(breaks[j]))
      {
        assert Apart(BreakSpan(clean[i]), BreakSpan(clean[j]));
      }
    }
  }

  // ----- Opening hours -----

  datatype Day = Monday | Tuesday | Wednesday | Thursday | Friday | Saturday | Sunday

  function DayIndex(d: Day): nat {
    match d
    case Monday => 0
    case Tuesday => 1
    case Wednesday => 2
    case Thursday => 3
    case Friday => 4
    case Saturday => 5
    case Sunday => 6
  }

  /** A missing list of breaks is an empty one. */
  datatype DayHours = DayHours(day: Day, isClosed: bool, open: Option<int>, close: Option<int>, breaks: seq<Break>, note: Option<string>)

  function DayKey(h: DayHours): real { DayIndex(h.day) as real }

  /** Either closed, or open before it closes with proper breaks inside that are pairwise apart. */
  ghost predicate DayAccepted(h: DayHours) {
    h.isClosed
    || (&& h.open.Some? && h.close.Some? && h.open.value < h.close.value
        && AllInside(h.breaks, h.open.value, h.close.value) && PairwiseApart(h.breaks, BreakSpan))
  }

  function NormalDay(h: DayHours): DayHours {
    if h.isClosed then DayHours(h.day, true, None, None, [], Cleaned(h.note))
    else DayHours(h.day, false, h.open, h.close, SortSpans(CleanBreaks(h.breaks), BreakSpan), Cleaned(h.note))
  }

  ghost predicate DistinctDays(hours: seq<DayHours>) {
    forall i, j :: 0 <= i < j < |hours| ==> hours[i].day != hours[j].day
  }

  ghost predicate AllAccepted(hours: seq<DayHours>) {
    forall i :: 0 <= i < |hours| ==> DayAccepted(hours[i])
  }

  function NormalDays(hours: seq<DayHours>): (normal: seq<DayHours>)
    ensures |normal| == |hours|
    ensures forall i :: 0 <= i < |hours| ==> normal[i] == NormalDay(hours[i])
  {
    seq(|hours|, i requires 0 <= i < |hours| => NormalDay(hours[i]))
  }

  /** The days in week order; None when the hours are refused. */
  ghost function NormalHours(hours: seq<DayHours>): Option<seq<DayHours>> {
    if DistinctDays(hours) && AllAccepted(hours) then Some(Sort(NormalDays(hours), DayKey, AtMost)) else None
  }

  method NormalizeDay(h: DayHours) returns (result: Option<DayHours>)
    ensures result == if DayAccepted(h) then Some(NormalDay(h)) else None
  {
    var note := Cleaned(h.note);
    if h.isClosed {
      return Some(DayHours(h.day, true, None, None, [], note));
    }
    if h.open.None? || h.close.None? {
      return None;
    }
    if h.open.value >= h.close.value {
      return None;
    }
    var breaks := NormalizeBreaks(h.breaks, h.open.value, h.close.value);
    if breaks.None? {
      return None;
    }
    return Some(DayHours(h.day, false, h.open, h.close, breaks.value, note));
  }

  method NormalizeOpeningHours(hours: seq<DayHours>) returns (result: Option<seq<DayHours>>)
    ensures result == NormalHours(hours)
  {
    hide DayAccepted, NormalDay;
    var seenDays: set<Day> := {};
    var normalized: seq<DayHours> := [];
    for i := 0 to |hours|
      invariant DistinctDays(hours[..i]) && AllAccepted(hours[..i])
      invariant forall d :: d in seenDays <==> exists k :: 0 <= k < i && hours[k].day == d
      invariant normalized == NormalDays(hours[..i])
    {
      if hours[i].day in seenDays {
        var k :| 0 <= k < i && hours[k].day == hours[i].day;
        assert !DistinctDays(hours);
        return None;
      }
      seenDays := seenDays + {hours[i].day};
      var day := NormalizeDay(hours[i]);
      if day.None? {
        assert !AllAccepted(hours);
        return None;
      }
      normalized := normalized + [day.value];
    }
    assert hours[..|hours|] == hours;
    return Some(Sort(normalized, DayKey, AtMost));
  }

  // ----- Normalizing again changes nothing -----

  lemma {:induction false} NormalBreaksAgain(breaks: seq<Break>, open: int, close: int)
    requires AllInside(breaks, open, close) && PairwiseApart(breaks, BreakSpan)
    ensures var again := SortSpans(CleanBreaks(breaks), BreakSpan);
      && AllInside(again, open, close) && PairwiseApart(again, BreakSpan)
      && SortSpans(CleanBreaks(again), BreakSpan) == again
  {
    var clean := CleanBreaks(breaks);
    var again := SortSpans(clean, BreakSpan);
    CleanApart(breaks);
    SortPairwise(clean, BreakSpan);
    SortKeeps(clean, FromOf(BreakSpan), AtMost);
    SameMembers(clean, again);
    forall i | 0 <= i < |again|
      ensures BreakInside(again[i], open, close) && CleanBreak(again[i]) == again[i]
    {
      assert again[i] in clean;
      var k :| 0 <= k < |clean| && clean[k] == again[i];
      assert BreakInside(breaks[k], open, close);
      CleanedIdempotent(breaks[k].note);
    }
    hide Cleaned;
    assert CleanBreaks(again) == again;
    SortIdempotent(clean, FromOf(BreakSpan), AtMost);
  }

  lemma {:induction false} NormalDayAgain(h: DayHours)
    requires DayAccepted(h)
    ensures DayAccepted(NormalDay(h)) && NormalDay(NormalDay(h)) == NormalDay(h) && NormalDay(h).day == h.day
  {
    CleanedIdempotent(h.note);
    if !h.isClosed {
      NormalBreaksAgain(h.breaks, h.open.value, h.close.value);
    }
  }

  lemma {:induction false} DaysApart(hours: seq<DayHours>)
    ensures DistinctDays(Sort(hours, DayKey, AtMost)) <==> DistinctDays(hours)
  {
    if hours != [] {
      var front, last := hours[..|hours| - 1], hours[|hours| - 1];
      DaysApart(front);
      assert hours == front + [last];
      InsertDays(last, Sort(front, DayKey, AtMost));
      SortKeeps(front, DayKey, AtMost);
      SameMembers(front, Sort(front, DayKey, AtMost));
      hide Sort, Insert;
      DaysSnoc(front, last);
    }
  }

  ghost predicate DayAbsent(d: Day, hours: seq<DayHours>) {
    forall h :: h in hours ==> h.day != d
  }

  lemma {:induction false} DaysSnoc(hours: seq<DayHours>, h: DayHours)
    ensures DistinctDays(hours + [h]) <==> DistinctDays(hours) && DayAbsent(h.day, hours)
  {
    var all := hours + [h];
    if DistinctDays(all) {
      forall i, j | 0 <= i < j < |hours|
        ensures hours[i].day != hours[j].day
      {
        assert all[i] == hours[i] && all[j] == hours[j];
      }
      forall i | 0 <= i < |hours|
        ensures hours[i].day != h.day
      {
        assert all[i] == hours[i] && all[|hours|] == h;
      }
    }
  }

  lemma {:induction false} DayAbsentMore(d: Day, xs: seq<DayHours>, ys: seq<DayHours>, h: DayHours)
    requires multiset(ys) == multiset(xs) + multiset{h}
    ensures DayAbsent(d, ys) <==> DayAbsent(d, xs) && h.day != d
  {
    SameElements(xs, ys, h);
  }

  lemma {:induction false} InsertDays(h: DayHours, hours: seq<DayHours>)
    ensures DistinctDays(Insert(h, hours, DayKey, AtMost)) <==> DistinctDays(hours) && DayAbsent(h.day, hours)
  {
    if hours == [] {
      assert Insert(h, hours, DayKey, AtMost) == [h];
    } else {
      var front, last := hours[..|hours| - 1], hours[|hours| - 1];
      assert hours == front + [last];
      if AtMost(DayKey(last), DayKey(h)) {
        DaysSnoc(hours, h);
      } else {
        var more := Insert(h, front, DayKey, AtMost);
        InsertDays(h, front);
        InsertKeeps(h, front, DayKey, AtMost);
        assert Insert(h, hours, DayKey, AtMost) == more + [last];
        hide Insert, DistinctDays, DayAbsent;
        DaysSnoc(more, last);
        DaysSnoc(front, last);
        DayAbsentMore(last.day, front, more, h);
        DayAbsentMore(h.day, front, hours, last);
      }
    }
  }

  /** What was stored is accepted again and comes back unchanged, so reading stored hours never fails; its days are in
      strict week order. */
  lemma {:induction false} NormalHoursAgain(hours: seq<DayHours>)
    requires NormalHours(hours).Some?
    ensures NormalHours(NormalHours(hours).value) == NormalHours(hours)
    ensures var result := NormalHours(hours).value;
      && |result| == |hours|
      && forall i, j :: 0 <= i < j < |result| ==> DayIndex(result[i].day) < DayIndex(result[j].day)
  {
    var normal := NormalDays(hours);
    var result := Sort(normal, DayKey, AtMost);
    NormalElements(hours);
    DaysApart(normal);
    SortKeeps(normal, DayKey, AtMost);
    assert |multiset(result)| == |result| && |multiset(normal)| == |normal|;
    SortIdempotent(normal, DayKey, AtMost);
    SortSorts(normal, DayKey, AtMost);
    hide DayAccepted, NormalDay, Sort;
    SameMembers(normal, result);
    forall i | 0 <= i < |result|
      ensures DayAccepted(result[i]) && NormalDay(result[i]) == result[i]
    {
      assert result[i] in normal;
    }
    assert NormalDays(result) == result;
    forall i, j | 0 <= i < j < |result|
      ensures DayIndex(result[i].day) < DayIndex(result[j].day)
    {
      assert AtMost(DayKey(result[i]), DayKey(result[j]));
      DayIndexInjective(result[i].day, result[j].day);
    }
  }

  lemma {:induction false} DayIndexInjective(d: Day, e: Day)
    ensures d != e ==> DayIndex(d) != DayIndex(e)
  {}

  lemma {:induction false} NormalElements(hours: seq<DayHours>)
    requires DistinctDays(hours) && AllAccepted(hours)
    ensures DistinctDays(NormalDays(hours))
    ensures forall h :: h in NormalDays(hours) ==> DayAccepted(h) && NormalDay(h) == h
  {
    var normal := NormalDays(hours);
    forall i | 0 <= i < |hours|
      ensures DayAccepted(normal[i]) && NormalDay(normal[i]) == normal[i] && normal[i].day == hours[i].day
    {
      NormalDayAgain(hours[i]);
    }
  }

  // ----- Times as texts -----

  function TwoDigits(n: nat): string
    requires n < 100
  {
    [('0' + (n / 10) as char), ('0' + (n % 10) as char)]
  }

  /** HH:mm. */
  function ClockText(minutes: nat): string
    requires minutes < 1440
  {
    TwoDigits(minutes / 60) + ":" + TwoDigits(minutes % 60)
  }

  /** How the comparison operators order texts. */
  predicate TextBefore(s: string, t: string) {
    if s == [] || t == [] then s == [] && t != []
    else s[0] < t[0] || (s[0] == t[0] && TextBefore(s[1..], t[1..]))
  }

  lemma {:induction false} TwoDigitsOrder(m: nat, n: nat, s: string, t: string)
    requires m < 100 && n < 100
    ensures TextBefore(TwoDigits(m) + s, TwoDigits(n) + t) <==> m < n || (m == n && TextBefore(s, t))
  {
    var a, b := TwoDigits(m) + s, TwoDigits(n) + t;
    assert a[0] == TwoDigits(m)[0] && b[0] == TwoDigits(n)[0];
    assert a[1..][0] == TwoDigits(m)[1] && b[1..][0] == TwoDigits(n)[1];
    assert a[1..][1..] == s && b[1..][1..] == t;
  }

  /** Comparing HH:mm texts is comparing minutes. */
  lemma {:induction false} ClockTextOrder(m: nat, n: nat)
    requires m < 1440 && n < 1440
    ensures TextBefore(ClockText(m), ClockText(n)) <==> m < n
  {
    var s, t := TwoDigits(m % 60), TwoDigits(n % 60);
    assert ClockText(m) == TwoDigits(m / 60) + (":" + s) && ClockText(n) == TwoDigits(n / 60) + (":" + t);
    TwoDigitsOrder(m / 60, n / 60, ":" + s, ":" + t);
    assert (":" + s)[1..] == s && (":" + t)[1..] == t;
    assert s + [] == s && t + [] == t;
    TwoDigitsOrder(m % 60, n % 60, [], []);
  }

  // ----- What is stored -----

  ghost predicate IsTrimmedNote(requested: Option<string>, stored: Option<string>) {
    stored == if requested.Some? && Trim(requested.value) != [] then Some(Trim(requested.value)) else None
  }

  /** The same breaks, each as often, with their notes trimmed, and none begins before the one before it has ended. */
  ghost predicate HoldsBreaks(requested: seq<Break>, stored: seq<Break>) {
    && (exists trimmed: seq<Break> ::
      |trimmed| == |requested| && AllTrimmed(requested, trimmed) && multiset(stored) == multiset(trimmed))
    && forall i :: 0 < i < |stored| ==> stored[i - 1].end <= stored[i].start
  }

  ghost predicate AllTrimmed(requested: seq<Break>, trimmed: seq<Break>)
    requires |trimmed| == |requested|
  {
    forall k :: 0 <= k < |requested| ==>
      trimmed[k].start == requested[k].start && trimmed[k].end == requested[k].end && IsTrimmedNote(requested[k].note, trimmed[k].note)
  }

  /** A closed day is stored without times and breaks, an open one with its times and all its breaks. */
  ghost predicate HoldsDay(requested: DayHours, stored: DayHours) {
    && stored.day == requested.day && stored.isClosed == requested.isClosed
    && IsTrimmedNote(requested.note, stored.note)
    && if requested.isClosed then stored.open.None? && stored.close.None? && stored.breaks == []
       else stored.open == requested.open && stored.close == requested.close && HoldsBreaks(requested.breaks, stored.breaks)
  }

  lemma {:induction false} CleanIsTrimmed(breaks: seq<Break>)
    ensures AllTrimmed(breaks, CleanBreaks(breaks))
  {
    hide Trim;
  }

  lemma {:induction false} NormalBreaksHeld(breaks: seq<Break>, open: int, close: int)
    requires AllInside(breaks, open, close) && PairwiseApart(breaks, BreakSpan)
    ensures HoldsBreaks(breaks, SortSpans(CleanBreaks(breaks), BreakSpan))
  {
    var clean := CleanBreaks(breaks);
    CleanIsTrimmed(breaks);
    CleanApart(breaks);
    assert AllSpans(clean, BreakSpan);
    NeighboursDecide(clean, BreakSpan);
    SortKeeps(clean, FromOf(BreakSpan), AtMost);
    hide SortSpans, CleanBreaks, AllTrimmed, PairwiseApart;
    var sorted := SortSpans(clean, BreakSpan);
    forall i | 0 < i < |sorted|
      ensures sorted[i - 1].end <= sorted[i].start
    {
      assert BreakSpan(sorted[i - 1]).to <= BreakSpan(sorted[i]).from;
    }
    assert multiset(sorted) == multiset(clean);
  }

  lemma {:induction false} NormalDayHeld(h: DayHours)
    requires DayAccepted(h)
    ensures HoldsDay(h, NormalDay(h))
  {
    hide HoldsBreaks, SortSpans, Trim;
    if !h.isClosed {
      NormalBreaksHeld(h.breaks, h.open.value, h.close.value);
    }
  }

  /** Accepted hours are stored with every requested day as it was requested, and with no other day. */
  lemma {:induction false} HoursHeld(hours: seq<DayHours>)
    requires NormalHours(hours).Some?
    ensures |NormalHours(hours).value| == |hours|
    ensures forall i :: 0 <= i < |hours| ==> exists stored :: stored in NormalHours(hours).value && HoldsDay(hours[i], stored)
    ensures forall stored :: stored in NormalHours(hours).value ==> exists i :: 0 <= i < |hours| && HoldsDay(hours[i], stored)
  {
    hide HoldsDay, NormalDay, DayAccepted, Sort, DistinctDays;
    var normal := NormalDays(hours);
    var result := Sort(normal, DayKey, AtMost);
    SortKeeps(normal, DayKey, AtMost);
    assert |multiset(result)| == |result| && |multiset(normal)| == |normal|;
    SameMembers(normal, result);
    forall i | 0 <= i < |hours|
      ensures normal[i] in result && HoldsDay(hours[i], normal[i])
    {
      NormalDayHeld(hours[i]);
      assert normal[i] in normal;
    }
    forall stored | stored in result
      ensures exists i :: 0 <= i < |hours| && HoldsDay(hours[i], stored)
    {
      var i :| 0 <= i < |normal| && normal[i] == stored;
    }
  }
}
