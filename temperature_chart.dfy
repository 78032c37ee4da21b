/**
 * The data pipeline of the temperature chart: keep the hourly points of the
 * current local day, label each with its time, and choose which X-axis ticks
 * keep their text. The day is given as the window
 * [dayStart, nextDayStart) of epoch milliseconds, so days of any length work.
 */
module TemperatureChart {
  import opened Wrappers
  import opened JsText
  import opened WeatherData

  /** Local midnight today and local midnight tomorrow, in epoch milliseconds. */
  datatype DayWindow = DayWindow(dayStart: int, nextDayStart: int)

  /** `itemDate >= today && itemDate < tomorrow`. */
  predicate InWindow(w: DayWindow, item: HourlyItem) {
    w.dayStart <= item.dt * 1000 < w.nextDayStart
  }

  /** One entry of `chartData`. */
  datatype ChartPoint = ChartPoint(time: string, temperature: int, hours: nat, minutes: nat)

  /** A string followed by `:00` splits back into the string and `:00`. */
  lemma OnTheHourShape(h: string)
    ensures var t := h + ":00"; |t| == |h| + 3 && t[..|h|] == h && t[|h|..] == ":00"
  {
    var t := h + ":00";
    assert t[..|h|] == h;
  }

  /** Two two-digit strings around a colon give `DD:DD`. */
  lemma PaddedShape(h: string, m: string)
    requires |h| == 2 && |m| == 2 && IsDigits(h) && IsDigits(m)
    ensures var t := h + ":" + m; |t| == 5 && IsDigits(t[..2]) && t[2] == ':' && IsDigits(t[3..])
  {
    var t := h + ":" + m;
    assert t[..2] == h && t[3..] == m;
  }

  /** The time label: `H:00` on the hour, otherwise `HH:MM` with both parts zero-padded. */
  function TimeLabel(hours: nat, minutes: nat): (t: string)
    ensures minutes == 0 ==> |t| >= 4 && t[..|t| - 3] == NatToString(hours) && t[|t| - 3..] == ":00"
    ensures minutes != 0 && hours < 100 && minutes < 100 ==>
      |t| == 5 && IsDigits(t[..2]) && t[2] == ':' && IsDigits(t[3..])
  {
    if minutes == 0 then
      var h := NatToString(hours);
      OnTheHourShape(h);
      h + ":00"
    else
      var h, m := PadStart2(NatToString(hours)), PadStart2(NatToString(minutes));
      if hours < 100 && minutes < 100 then
        PadStart2Below100(hours);
        PadStart2Below100(minutes);
        PaddedShape(h, m);
        h + ":" + m
      else h + ":" + m
  }

  /** Position of the first ':' in `s`, or `|s|` when there is none. */
  function ColonIndex(s: string): (i: nat)
    ensures i <= |s|
    ensures i < |s| ==> s[i] == ':'
    ensures forall k :: 0 <= k < i ==> s[k] != ':'
  {
    if s == [] then 0 else if s[0] == ':' then 0 else 1 + ColonIndex(s[1..])
  }

  /** Reads an hour and a minute back from a label: the digits before and after the first ':'. */
  function ParseTimeLabel(s: string): Option<(nat, nat)> {
    var i := ColonIndex(s);
    if i == |s| then None else Some((DecimalValue(s[..i]), DecimalValue(s[i + 1..])))
  }

  lemma {:induction false} ColonIndexAfterDigits(a: string, b: string)
    requires IsDigits(a)
    ensures ColonIndex(a + [':'] + b) == |a|
  {
    if a != [] {
      assert (a + [':'] + b)[1..] == a[1..] + [':'] + b;
      ColonIndexAfterDigits(a[1..], b);
    }
  }

  /** A digit string, a colon and anything after it read back as the two values. */
  lemma ParseJoined(a: string, b: string)
    requires IsDigits(a)
    ensures ParseTimeLabel(a + [':'] + b) == Some((DecimalValue(a), DecimalValue(b)))
  {
    ColonIndexAfterDigits(a, b);
    var s := a + [':'] + b;
    assert s[..|a|] == a && s[|a| + 1..] == b;
  }

  /** Every label reads back as the hour and minute it was made from, so distinct times get distinct labels. */
  lemma TimeLabelRoundTrip(hours: nat, minutes: nat)
    ensures ParseTimeLabel(TimeLabel(hours, minutes)) == Some((hours, minutes))
  {
    if minutes == 0 {
      var h := NatToString(hours);
      assert TimeLabel(hours, minutes) == h + [':'] + "00";
      ParseJoined(h, "00");
      DecimalValueOfNatToString(hours);
      assert DecimalValue("00") == 0;
    } else {
      var h, m := PadStart2(NatToString(hours)), PadStart2(NatToString(minutes));
      assert TimeLabel(hours, minutes) == h + [':'] + m;
      ParseJoined(h, m);
      DecimalValueOfPadded(hours);
      DecimalValueOfPadded(minutes);
    }
  }

  /** For a clock reading the label is four or five characters, five exactly when it is off the hour or the hour has two digits. */
  lemma TimeLabelLength(hours: nat, minutes: nat)
    requires hours < 24 && minutes < 60
    ensures 4 <= |TimeLabel(hours, minutes)| <= 5
    ensures |TimeLabel(hours, minutes)| == 5 <==> minutes != 0 || hours >= 10
  {
    assert NatToString(hours / 10) == [DigitChar(hours / 10)];
  }

  function ToPoint(item: HourlyItem): (p: ChartPoint)
    ensures p.temperature == item.roundedTemp && p.hours == item.localHours && p.minutes == item.localMinutes
    ensures ParseTimeLabel(p.time) == Some((item.localHours, item.localMinutes))
  {
    TimeLabelRoundTrip(item.localHours, item.localMinutes);
    ChartPoint(TimeLabel(item.localHours, item.localMinutes), item.roundedTemp, item.localHours, item.localMinutes)
  }

  /** The `filter` step: the items inside the window, in input order. */
  function KeepInWindow(items: seq<HourlyItem>, w: DayWindow): (r: seq<HourlyItem>)
    ensures |r| <= |items|
  {
    if items == [] then []
    else
      var rest := KeepInWindow(items[1..], w);
      if InWindow(w, items[0]) then [items[0]] + rest else rest
  }

  /** An item is kept exactly when it is one of the input items and lies in the window. */
  lemma {:induction false} KeepInWindowMembership(items: seq<HourlyItem>, w: DayWindow)
    ensures forall x :: x in KeepInWindow(items, w) <==> x in items && InWindow(w, x)
  {
    if items != [] {
      KeepInWindowMembership(items[1..], w);
      assert items == [items[0]] + items[1..];
    }
  }

  function Shift(idx: seq<nat>): (r: seq<nat>)
    ensures |r| == |idx| && forall k :: 0 <= k < |idx| ==> r[k] == idx[k] + 1
  {
    seq(|idx|, k requires 0 <= k < |idx| => idx[k] + 1)
  }

  /** The positions of the in-window items, increasing; a position is listed exactly when its item is in the window. */
  function WindowIndices(items: seq<HourlyItem>, w: DayWindow): (idx: seq<nat>)
    ensures forall k :: 0 <= k < |idx| ==> idx[k] < |items|
    ensures forall k, l :: 0 <= k < l < |idx| ==> idx[k] < idx[l]
  {
    if items == [] then []
    else
      var shifted := Shift(WindowIndices(items[1..], w));
      if InWindow(w, items[0]) then [0] + shifted else shifted
  }

  /** A position is listed exactly when its item lies in the window. */
  lemma {:induction false} WindowIndicesComplete(items: seq<HourlyItem>, w: DayWindow)
    ensures forall i :: 0 <= i < |items| ==> (InWindow(w, items[i]) <==> i in WindowIndices(items, w))
  {
    if items != [] {
      var rest := WindowIndices(items[1..], w);
      WindowIndicesComplete(items[1..], w);
      var shifted := Shift(rest);
      assert forall i :: 1 <= i < |items| ==> (i in shifted <==> i - 1 in rest);
      assert 0 !in shifted;
      assert forall i :: 1 <= i < |items| ==> items[i] == items[1..][i - 1];
    }
  }

  /** `kept[k] == items[idx[k]]` for every k, with every index in range. */
  predicate PicksAt(items: seq<HourlyItem>, kept: seq<HourlyItem>, idx: seq<nat>) {
    |kept| == |idx| && forall k :: 0 <= k < |idx| ==> idx[k] < |items| && kept[k] == items[idx[k]]
  }

  lemma PicksAtCons(x: HourlyItem, rest: seq<HourlyItem>, kept: seq<HourlyItem>, idx: seq<nat>, taken: bool)
    requires PicksAt(rest, kept, idx)
    ensures PicksAt([x] + rest, (if taken then [x] else []) + kept, (if taken then [0] else []) + Shift(idx))
  {
    var items := [x] + rest;
    forall k | 0 <= k < |idx| ensures items[idx[k] + 1] == kept[k] {
      assert items[idx[k] + 1] == rest[idx[k]];
    }
  }

  /** The k-th kept item is the item at the k-th in-window position. */
  lemma {:induction false} KeptAtWindowIndices(items: seq<HourlyItem>, w: DayWindow)
    ensures PicksAt(items, KeepInWindow(items, w), WindowIndices(items, w))
  {
    if items != [] {
      KeptAtWindowIndices(items[1..], w);
      PicksAtCons(items[0], items[1..], KeepInWindow(items[1..], w), WindowIndices(items[1..], w), InWindow(w, items[0]));
      assert [items[0]] + items[1..] == items;
    }
  }

  /** The `map` step: one labelled point per kept item. */
  function ToPoints(items: seq<HourlyItem>): (r: seq<ChartPoint>)
    ensures |r| == |items|
  {
    seq(|items|, k requires 0 <= k < |items| => ToPoint(items[k]))
  }

  /** `chartData`: nothing for a missing or empty input or when no item is in the window, otherwise the labelled points. */
  function ChartData(hourlyData: Option<seq<HourlyItem>>, w: DayWindow): (r: Option<seq<ChartPoint>>)
    ensures r.Some? <==> hourlyData.Some? && exists i :: 0 <= i < |hourlyData.value| && InWindow(w, hourlyData.value[i])
    ensures r.Some? ==> 0 < |r.value| <= |hourlyData.value|
  {
    if hourlyData.None? || |hourlyData.value| == 0 then None
    else
      var kept := KeepInWindow(hourlyData.value, w);
      KeepInWindowMembership(hourlyData.value, w);
      assert forall i :: 0 <= i < |hourlyData.value| && InWindow(w, hourlyData.value[i]) ==> hourlyData.value[i] in kept;
      var todayData := ToPoints(kept);
      if |todayData| == 0 then None
      else
        assert kept[0] in hourlyData.value;
        var i :| 0 <= i < |hourlyData.value| && hourlyData.value[i] == kept[0];
        assert InWindow(w, hourlyData.value[i]);
        Some(todayData)
  }

  /** Each chart point is, in order, the labelled form of one in-window item, and every in-window item has its point. */
  lemma ChartDataCorrespondence(items: seq<HourlyItem>, w: DayWindow)
    requires ChartData(Some(items), w).Some?
    ensures var pts, idx := ChartData(Some(items), w).value, WindowIndices(items, w);
      |pts| == |idx| &&
      (forall k :: 0 <= k < |pts| ==> pts[k] == ToPoint(items[idx[k]])) &&
      (forall i :: 0 <= i < |items| ==> (InWindow(w, items[i]) <==> i in idx))
  {
    KeptAtWindowIndices(items, w);
    WindowIndicesComplete(items, w);
  }

  /** What the component renders. */
  datatype ChartView = NoDataMessage | AreaChart(points: seq<ChartPoint>)

  /** `TemperatureChart`: the "No data to display the graph" box unless there is chart data. */
  function Render(hourlyData: Option<seq<HourlyItem>>, w: DayWindow): (v: ChartView)
    ensures v.NoDataMessage? <==> ChartData(hourlyData, w).None?
    ensures v.AreaChart? ==> |v.points| > 0 && Some(v.points) == ChartData(hourlyData, w)
  {
    var chartData := ChartData(hourlyData, w);
    if chartData.None? || |chartData.value| == 0 then NoDataMessage else AreaChart(chartData.value)
  }

  /** A null or empty input, or one with no point today, shows the empty state. */
  lemma RenderEmptyCases(hourlyData: Option<seq<HourlyItem>>, w: DayWindow)
    requires hourlyData == None || hourlyData == Some([]) ||
      (hourlyData.Some? && forall x :: x in hourlyData.value ==> !InWindow(w, x))
    ensures Render(hourlyData, w) == NoDataMessage
  {
  }

  /** The tick-visibility rule of `formatXAxis` for an existing point. */
  predicate ShowsTick(chartData: seq<ChartPoint>, index: nat)
    requires index < |chartData|
  {
    |chartData| <= 10 || chartData[index].minutes == 0 || index == 0 || index == |chartData| - 1
  }

  /** `formatXAxis`: ticks with no point pass through; a point's tick keeps its text when it is shown, else becomes empty. */
  function FormatXAxis(chartData: seq<ChartPoint>, tickItem: string, index: int): (r: string)
    ensures !(0 <= index < |chartData|) ==> r == tickItem
    ensures 0 <= index < |chartData| && ShowsTick(chartData, index) ==> r == tickItem
    ensures 0 <= index < |chartData| && !ShowsTick(chartData, index) ==> r == ""
  {
    if !(0 <= index < |chartData|) then tickItem
    else if ShowsTick(chartData, index) then tickItem
    else ""
  }

  /** On a chart built from forecast items, the first and last ticks and every on-the-hour tick keep their text, and a chart of at most ten points hides no tick. */
  lemma ChartTicksShown(items: seq<HourlyItem>, w: DayWindow, tickItem: string, index: int)
    requires ChartData(Some(items), w).Some?
    requires var idx := WindowIndices(items, w);
      0 <= index < |idx| &&
      (|idx| <= 10 || index == 0 || index == |idx| - 1 || items[idx[index]].localMinutes == 0)
    ensures FormatXAxis(ChartData(Some(items), w).value, tickItem, index) == tickItem
  {
    ChartDataCorrespondence(items, w);
  }
}
