/** The browser page's state: the append-only `historicalData`, the chart paths, and the
    live chart; and the three handlers that change them (a pushed message, the Plot button
    and the Export button). */
module Client {
  import opened Wrappers
  import opened Strings
  import opened Json
  import opened Wire
  import opened Paths
  import opened Series
  import Csv

  /** A plotted chart: the x labels and the y values, as two parallel lists. Turning an x
      value into a `Date` belongs to the charting library and is not modelled. */
  datatype Chart = Chart(labels: seq<JValue>, values: seq<JValue>)

  function ChartOf(ps: seq<Point>): (c: Chart)
    ensures |c.labels| == |ps| && |c.values| == |ps|
    ensures forall i :: 0 <= i < |ps| ==> c.labels[i] == ps[i].x && c.values[i] == ps[i].y
  {
    if ps == [] then Chart([], [])
    else
      var rest := ChartOf(ps[1..]);
      Chart([ps[0].x] + rest.labels, [ps[0].y] + rest.values)
  }

  /** The record a pushed line becomes: its payload parsed (`parse` stands for `JSON.parse`,
      which is not modelled), or `{text: payload}` when parsing fails, given a
      `receivedTime` of `now` unless it already has a truthy one. A payload that parses to
      `null` makes the handler throw before anything is stored. */
  function Arrival(line: string, parse: string -> Option<JValue>, now: int): (r: Completion<JValue>)
    ensures r.Normal? ==> !r.value.IsNullish()
  {
    var payload := Decode(line).jsonString;
    var dataObj := match parse(payload)
      case Some(v) => v
      case None => JObj([("text", JStr(payload))]);
    match Get(dataObj, "receivedTime")
    case Throw => Throw
    case Normal(rt) =>
      if rt.Truthy() then Normal(dataObj) else Put(dataObj, "receivedTime", JNum(now))
  }

  /** What an arrival stores: nothing for a `null` payload; for an unparsable payload the
      object `{text, receivedTime}`; for a parsed object, the same members with
      `receivedTime` filled in only when it was falsy; any other parsed value as it is, or,
      for an array, with the property added. */
  lemma ArrivalSpec(line: string, parse: string -> Option<JValue>, now: int)
    ensures var payload := Decode(line).jsonString;
      && (Arrival(line, parse, now).Throw? <==> parse(payload).Some? && parse(payload).value.IsNullish())
      && (parse(payload).None? ==>
            Arrival(line, parse, now) == Normal(JObj([("text", JStr(payload)), ("receivedTime", JNum(now))])))
      && (parse(payload).Some? && parse(payload).value.JObj? ==>
            var fields := parse(payload).value.fields;
            var rec := Arrival(line, parse, now).value;
            && rec.JObj?
            && (Lookup(fields, "receivedTime").Truthy() ==> rec == parse(payload).value)
            && (!Lookup(fields, "receivedTime").Truthy() ==>
                  && Lookup(rec.fields, "receivedTime") == JNum(now)
                  && (forall key :: key != "receivedTime" ==> Lookup(rec.fields, key) == Lookup(fields, key))
                  && KeysOf(rec.fields) == if "receivedTime" in KeysOf(fields) then KeysOf(fields)
                                           else KeysOf(fields) + ["receivedTime"]))
      && (parse(payload).Some? && parse(payload).value.JArr? ==>
            var props := parse(payload).value.props;
            var rec := Arrival(line, parse, now).value;
            && rec.JArr? && rec.items == parse(payload).value.items
            && (Lookup(props, "receivedTime").Truthy() ==> rec == parse(payload).value)
            && (!Lookup(props, "receivedTime").Truthy() ==>
                  && Lookup(rec.props, "receivedTime") == JNum(now)
                  && (forall key :: key != "receivedTime" ==> Lookup(rec.props, key) == Lookup(props, key))
                  && KeysOf(rec.props) == if "receivedTime" in KeysOf(props) then KeysOf(props)
                                          else KeysOf(props) + ["receivedTime"]))
      && (parse(payload).Some? && !parse(payload).value.JObj? && !parse(payload).value.JArr?
          && !parse(payload).value.IsNullish() ==>
            Arrival(line, parse, now) == Normal(parse(payload).value))
  {
    var payload := Decode(line).jsonString;
    if parse(payload).None? {
      var fields := [("text", JStr(payload))];
      assert "text"[0] != "receivedTime"[0];
      assert Lookup(fields[1..], "receivedTime") == JUndef;
      assert Get(JObj(fields), "receivedTime") == Normal(JUndef);
      assert fields[1..] == [];
      assert SetMember(fields, "receivedTime", JNum(now)) == fields + [("receivedTime", JNum(now))];
      assert Put(JObj(fields), "receivedTime", JNum(now)) == Normal(JObj(fields + [("receivedTime", JNum(now))]));
      assert Arrival(line, parse, now) == Put(JObj(fields), "receivedTime", JNum(now));
      assert fields + [("receivedTime", JNum(now))] == [("text", JStr(payload)), ("receivedTime", JNum(now))];
    } else if parse(payload).value.JArr? {
      assert ArrayIndex("receivedTime").None?;
    }
  }

  /** The chart after a record arrives: when a chart is shown and both paths are set, the
      record's point, if it has one, is appended at the end, unsorted. */
  function LiveUpdate(chart: Option<Chart>, xPath: Option<string>, yPath: Option<string>, item: JValue): Option<Chart>
  {
    if chart.Some? && xPath.Some? && yPath.Some? then
      match LatestPoint(item, xPath.value, yPath.value)
      case Normal(Some(p)) => Some(Chart(chart.value.labels + [p.x], chart.value.values + [p.y]))
      case _ => chart
    else chart
  }

  /** The live update appends exactly the record's point, when a chart is shown, both paths
      are set, both reads succeed and neither first value is `null`; in every other case the
      chart is left as it was. */
  lemma LiveUpdateSpec(chart: Option<Chart>, xPath: Option<string>, yPath: Option<string>, item: JValue)
    ensures chart.None? || xPath.None? || yPath.None? ==> LiveUpdate(chart, xPath, yPath, item) == chart
    ensures chart.Some? && xPath.Some? && yPath.Some? ==>
      var rx, ry := Resolve(item, xPath.value), Resolve(item, yPath.value);
      if rx.Normal? && ry.Normal? && FirstIfArray(rx.value) != JNull && FirstIfArray(ry.value) != JNull
      then LiveUpdate(chart, xPath, yPath, item)
           == Some(Chart(chart.value.labels + [FirstIfArray(rx.value)], chart.value.values + [FirstIfArray(ry.value)]))
      else LiveUpdate(chart, xPath, yPath, item) == chart
  {
  }

  /** A live update never drops or changes what the chart already shows: it adds at most one
      label and one value, neither of them `null`, at the end. */
  lemma LiveUpdateExtends(chart: Option<Chart>, xPath: Option<string>, yPath: Option<string>, item: JValue)
    ensures var u := LiveUpdate(chart, xPath, yPath, item);
      u != chart ==>
        && chart.Some? && u.Some?
        && |u.value.labels| == |chart.value.labels| + 1 && u.value.labels[..|chart.value.labels|] == chart.value.labels
        && |u.value.values| == |chart.value.values| + 1 && u.value.values[..|chart.value.values|] == chart.value.values
        && u.value.labels[|chart.value.labels|] != JNull && u.value.values[|chart.value.values|] != JNull
  {
  }

  /** The x path the Plot button stores: the trimmed field, or `current` when empty. */
  function XPathOf(xField: string): string {
    if Trim(xField) == "" then "current" else Trim(xField)
  }

  /** The y path the Plot button stores: the trimmed field, or `value` when empty. */
  function YPathOf(yField: string): string {
    if Trim(yField) == "" then "value" else Trim(yField)
  }

  class Dashboard {
    var history: seq<JValue>
    var chartXPath: Option<string>
    var chartYPath: Option<string>
    var chart: Option<Chart>

    /** No stored record is `null` or `undefined`: such a payload throws before the push. */
    ghost predicate Valid()
      reads this
    {
      Csv.NoNullish(history)
    }

    constructor ()
      ensures Valid()
      ensures history == [] && chartXPath == None && chartYPath == None && chart == None
    {
      history := [];
      chartXPath := None;
      chartYPath := None;
      chart := None;
    }

    /** `eventSource.onmessage`: decode, parse, stamp, append to the history, then extend a
        live chart by at most one point. Display markup is not modelled. */
    method OnMessage(line: string, parse: string -> Option<JValue>, now: int)
      requires Valid()
      modifies this
      ensures Valid()
      ensures chartXPath == old(chartXPath) && chartYPath == old(chartYPath)
      ensures Arrival(line, parse, now).Throw? ==> history == old(history) && chart == old(chart)
      ensures Arrival(line, parse, now).Normal? ==>
        && history == old(history) + [Arrival(line, parse, now).value]
        && chart == LiveUpdate(old(chart), chartXPath, chartYPath, Arrival(line, parse, now).value)
    {
      var arrived := Arrival(line, parse, now);
      if arrived.Throw? {
        return;
      }
      var dataObj := arrived.value;
      Csv.NoNullishAppend(history, dataObj);
      history := history + [dataObj];
      if chart.Some? && chartXPath.Some? && chartYPath.Some? {
        var newX := Resolve(dataObj, chartXPath.value);
        if newX.Throw? {
          return;
        }
        var newY := Resolve(dataObj, chartYPath.value);
        if newY.Throw? {
          return;
        }
        var x, y := FirstIfArray(newX.value), FirstIfArray(newY.value);
        if x != JNull && y != JNull {
          chart := Some(Chart(chart.value.labels + [x], chart.value.values + [y]));
        }
      }
    }

    /** The Plot button: store both paths first, then rebuild every point from the history
        and sort it by x. If reading a record throws, the paths are already stored and the
        old chart stays. */
    method Plot(xField: string, yField: string)
      requires Valid()
      modifies this
      ensures Valid()
      ensures history == old(history)
      ensures chartXPath == Some(XPathOf(xField)) && chartYPath == Some(YPathOf(yField))
      ensures Collected(history, XPathOf(xField), YPathOf(yField)).Throw? ==> chart == old(chart)
      ensures Collected(history, XPathOf(xField), YPathOf(yField)).Normal? ==>
        chart == Some(ChartOf(SortByX(Collected(history, XPathOf(xField), YPathOf(yField)).value)))
    {
      chartXPath := Some(XPathOf(xField));
      chartYPath := Some(YPathOf(yField));
      var dataPoints := CollectPoints(history, chartXPath.value, chartYPath.value);
      if dataPoints.Throw? {
        return;
      }
      chart := Some(ChartOf(SortByX(dataPoints.value)));
    }

    /** The Export button: the CSV text, or nothing when the history is empty. */
    method ExportCsv() returns (csv: Option<string>)
      requires Valid()
      ensures csv == Csv.CsvText(history)
    {
      csv := Csv.Export(history);
    }
  }
}
