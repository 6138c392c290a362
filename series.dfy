/** The chart series the client builds from its history and two paths: the four rules that
    combine two resolved values into points, the stable sort on x, and the single point an
    arriving message adds to a live chart. */
module Series {
  import opened Wrappers
  import opened Json
  import opened Paths

  datatype Point = Point(x: JValue, y: JValue)

  function Min(a: nat, b: nat): nat {
    if a <= b then a else b
  }

  /** Rule 1 (both values arrays), over the first `n` pairs: each pair with neither side
      `null` becomes a point. */
  function ZipPoints(xs: seq<JValue>, ys: seq<JValue>, n: nat): seq<Point>
    requires n <= |xs| && n <= |ys|
  {
    if n == 0 then []
    else
      ZipPoints(xs, ys, n - 1)
      + (if xs[n - 1] != JNull && ys[n - 1] != JNull then [Point(xs[n - 1], ys[n - 1])] else [])
  }

  /** Rule 2 (only x an array), over its first `n` elements: each non-`null` element is
      paired with `y`, unless `y` is `null`. */
  function SpreadX(xs: seq<JValue>, y: JValue, n: nat): seq<Point>
    requires n <= |xs|
  {
    if n == 0 then []
    else SpreadX(xs, y, n - 1) + (if xs[n - 1] != JNull && y != JNull then [Point(xs[n - 1], y)] else [])
  }

  /** Rule 3 (only y an array), the mirror of rule 2. */
  function SpreadY(x: JValue, ys: seq<JValue>, n: nat): seq<Point>
    requires n <= |ys|
  {
    if n == 0 then []
    else SpreadY(x, ys, n - 1) + (if x != JNull && ys[n - 1] != JNull then [Point(x, ys[n - 1])] else [])
  }

  /** The points one record contributes, given its resolved x and y values; rule 4 (neither
      an array) gives at most one point. Only `null` is dropped: `undefined` is kept. */
  function PointsOf(rx: JValue, ry: JValue): seq<Point> {
    if rx.JArr? && ry.JArr? then ZipPoints(rx.items, ry.items, Min(|rx.items|, |ry.items|))
    else if rx.JArr? then SpreadX(rx.items, ry, |rx.items|)
    else if ry.JArr? then SpreadY(rx, ry.items, |ry.items|)
    else if rx != JNull && ry != JNull then [Point(rx, ry)]
    else []
  }

  lemma {:induction false} ZipPointsSpec(xs: seq<JValue>, ys: seq<JValue>, n: nat, p: Point)
    requires n <= |xs| && n <= |ys|
    ensures |ZipPoints(xs, ys, n)| <= n
    ensures p in ZipPoints(xs, ys, n) <==>
      exists i :: 0 <= i < n && xs[i] != JNull && ys[i] != JNull && p == Point(xs[i], ys[i])
  {
    if n > 0 {
      ZipPointsSpec(xs, ys, n - 1, p);
    }
  }

  lemma {:induction false} SpreadXSpec(xs: seq<JValue>, y: JValue, n: nat, p: Point)
    requires n <= |xs|
    ensures |SpreadX(xs, y, n)| <= n
    ensures y == JNull ==> SpreadX(xs, y, n) == []
    ensures p in SpreadX(xs, y, n) <==>
      y != JNull && exists i :: 0 <= i < n && xs[i] != JNull && p == Point(xs[i], y)
  {
    if n > 0 {
      SpreadXSpec(xs, y, n - 1, p);
    }
  }

  lemma {:induction false} SpreadYSpec(x: JValue, ys: seq<JValue>, n: nat, p: Point)
    requires n <= |ys|
    ensures |SpreadY(x, ys, n)| <= n
    ensures x == JNull ==> SpreadY(x, ys, n) == []
    ensures p in SpreadY(x, ys, n) <==>
      x != JNull && exists i :: 0 <= i < n && ys[i] != JNull && p == Point(x, ys[i])
  {
    if n > 0 {
      SpreadYSpec(x, ys, n - 1, p);
    }
  }

  /** The four combination rules, as the points they admit. */
  lemma PointsOfSpec(rx: JValue, ry: JValue, p: Point)
    ensures rx.JArr? && ry.JArr? ==>
      && |PointsOf(rx, ry)| <= Min(|rx.items|, |ry.items|)
      && (p in PointsOf(rx, ry) <==>
            exists i :: 0 <= i < |rx.items| && i < |ry.items| && rx.items[i] != JNull
                        && ry.items[i] != JNull && p == Point(rx.items[i], ry.items[i]))
    ensures rx.JArr? && !ry.JArr? ==>
      && |PointsOf(rx, ry)| <= |rx.items|
      && (p in PointsOf(rx, ry) <==>
            ry != JNull && exists i :: 0 <= i < |rx.items| && rx.items[i] != JNull && p == Point(rx.items[i], ry))
    ensures !rx.JArr? && ry.JArr? ==>
      && |PointsOf(rx, ry)| <= |ry.items|
      && (p in PointsOf(rx, ry) <==>
            rx != JNull && exists i :: 0 <= i < |ry.items| && ry.items[i] != JNull && p == Point(rx, ry.items[i]))
    ensures !rx.JArr? && !ry.JArr? ==>
      PointsOf(rx, ry) == if rx != JNull && ry != JNull then [Point(rx, ry)] else []
    ensures p in PointsOf(rx, ry) ==> p.x != JNull && p.y != JNull
  {
    if rx.JArr? && ry.JArr? {
      ZipPointsSpec(rx.items, ry.items, Min(|rx.items|, |ry.items|), p);
    } else if rx.JArr? {
      SpreadXSpec(rx.items, ry, |rx.items|, p);
    } else if ry.JArr? {
      SpreadYSpec(rx, ry.items, |ry.items|, p);
    }
  }

  /** Strictly increasing positions. */
  predicate Increasing(idx: seq<nat>) {
    forall a, b :: 0 <= a < b < |idx| ==> idx[a] < idx[b]
  }

  /** Rule 1 exactly: the points are the pairs at the positions, in increasing order, where
      neither side is `null`. */
  lemma {:induction false} ZipIndices(xs: seq<JValue>, ys: seq<JValue>, n: nat) returns (idx: seq<nat>)
    requires n <= |xs| && n <= |ys|
    ensures Increasing(idx)
    ensures forall i: nat :: i in idx <==> i < n && xs[i] != JNull && ys[i] != JNull
    ensures |ZipPoints(xs, ys, n)| == |idx|
    ensures forall j :: 0 <= j < |idx| ==>
      idx[j] < n && ZipPoints(xs, ys, n)[j] == Point(xs[idx[j]], ys[idx[j]])
  {
    if n == 0 {
      idx := [];
    } else {
      var prev := ZipIndices(xs, ys, n - 1);
      if xs[n - 1] != JNull && ys[n - 1] != JNull {
        idx := prev + [n - 1];
      } else {
        idx := prev;
      }
    }
  }

  /** Rule 2 exactly: with `y` not `null`, the points pair `y` with the non-`null` elements
      of `xs`, in order. */
  lemma {:induction false} SpreadXIndices(xs: seq<JValue>, y: JValue, n: nat) returns (idx: seq<nat>)
    requires n <= |xs|
    ensures Increasing(idx)
    ensures forall i: nat :: i in idx <==> i < n && xs[i] != JNull && y != JNull
    ensures |SpreadX(xs, y, n)| == |idx|
    ensures forall j :: 0 <= j < |idx| ==> idx[j] < n && SpreadX(xs, y, n)[j] == Point(xs[idx[j]], y)
  {
    if n == 0 {
      idx := [];
    } else {
      var prev := SpreadXIndices(xs, y, n - 1);
      if xs[n - 1] != JNull && y != JNull {
        idx := prev + [n - 1];
      } else {
        idx := prev;
      }
    }
  }

  /** Rule 3 exactly: the mirror of rule 2. */
  lemma {:induction false} SpreadYIndices(x: JValue, ys: seq<JValue>, n: nat) returns (idx: seq<nat>)
    requires n <= |ys|
    ensures Increasing(idx)
    ensures forall i: nat :: i in idx <==> i < n && x != JNull && ys[i] != JNull
    ensures |SpreadY(x, ys, n)| == |idx|
    ensures forall j :: 0 <= j < |idx| ==> idx[j] < n && SpreadY(x, ys, n)[j] == Point(x, ys[idx[j]])
  {
    if n == 0 {
      idx := [];
    } else {
      var prev := SpreadYIndices(x, ys, n - 1);
      if x != JNull && ys[n - 1] != JNull {
        idx := prev + [n - 1];
      } else {
        idx := prev;
      }
    }
  }

  /** How many positions a record offers: the shorter array when both values are arrays,
      the one array when only one is, and a single position otherwise. */
  function Span(rx: JValue, ry: JValue): nat {
    if rx.JArr? && ry.JArr? then Min(|rx.items|, |ry.items|)
    else if rx.JArr? then |rx.items|
    else if ry.JArr? then |ry.items|
    else 1
  }

  /** The value at position `i`: an array's element, or the value itself when it is not an
      array. */
  function At(v: JValue, i: nat): JValue
    requires v.JArr? ==> i < |v.items|
  {
    if v.JArr? then v.items[i] else v
  }

  /** The four rules as one: the points of a record are the pairs at its positions, in
      increasing order, where neither side is `null`. */
  lemma PointsOfIndices(rx: JValue, ry: JValue) returns (idx: seq<nat>)
    ensures Increasing(idx)
    ensures forall i: nat :: i in idx <==>
      i < Span(rx, ry) && At(rx, i) != JNull && At(ry, i) != JNull
    ensures |PointsOf(rx, ry)| == |idx|
    ensures forall j :: 0 <= j < |idx| ==>
      idx[j] < Span(rx, ry) && PointsOf(rx, ry)[j] == Point(At(rx, idx[j]), At(ry, idx[j]))
  {
    if rx.JArr? && ry.JArr? {
      idx := ZipIndices(rx.items, ry.items, Min(|rx.items|, |ry.items|));
    } else if rx.JArr? {
      idx := SpreadXIndices(rx.items, ry, |rx.items|);
    } else if ry.JArr? {
      idx := SpreadYIndices(rx, ry.items, |ry.items|);
    } else if rx != JNull && ry != JNull {
      idx := [0];
    } else {
      idx := [];
    }
  }

  /** The points one historical record contributes; reading either path may throw. */
  function RecordPoints(item: JValue, xPath: string, yPath: string): Completion<seq<Point>> {
    match Resolve(item, xPath)
    case Throw => Throw
    case Normal(rx) =>
      match Resolve(item, yPath)
      case Throw => Throw
      case Normal(ry) => Normal(PointsOf(rx, ry))
  }

  /** The unsorted points of a history, record by record in history order. */
  function Collected(history: seq<JValue>, xPath: string, yPath: string): Completion<seq<Point>> {
    if history == [] then Normal([])
    else
      match Collected(history[..|history| - 1], xPath, yPath)
      case Throw => Throw
      case Normal(ps) =>
        match RecordPoints(history[|history| - 1], xPath, yPath)
        case Throw => Throw
        case Normal(qs) => Normal(ps + qs)
  }

  /** A record whose reading throws makes the whole build throw. */
  lemma {:induction false} CollectedThrowsAt(history: seq<JValue>, xPath: string, yPath: string, k: nat)
    requires k < |history| && RecordPoints(history[k], xPath, yPath).Throw?
    ensures Collected(history, xPath, yPath).Throw?
  {
    if k < |history| - 1 {
      var init := history[..|history| - 1];
      assert init[k] == history[k];
      CollectedThrowsAt(init, xPath, yPath, k);
    }
  }

  /** A build that throws has a record whose reading throws; the first such record is
      returned. */
  lemma {:induction false} ThrowingRecord(history: seq<JValue>, xPath: string, yPath: string) returns (k: nat)
    requires Collected(history, xPath, yPath).Throw?
    ensures k < |history| && RecordPoints(history[k], xPath, yPath).Throw?
  {
    var init := history[..|history| - 1];
    if Collected(init, xPath, yPath).Throw? {
      k := ThrowingRecord(init, xPath, yPath);
      assert init[k] == history[k];
    } else {
      k := |history| - 1;
    }
  }

  /** Building throws exactly when reading some record throws. */
  lemma CollectedThrows(history: seq<JValue>, xPath: string, yPath: string)
    ensures Collected(history, xPath, yPath).Throw? <==>
      exists k :: 0 <= k < |history| && RecordPoints(history[k], xPath, yPath).Throw?
  {
    if Collected(history, xPath, yPath).Throw? {
      var k := ThrowingRecord(history, xPath, yPath);
    } else {
      forall k | 0 <= k < |history|
        ensures !RecordPoints(history[k], xPath, yPath).Throw?
      {
        if RecordPoints(history[k], xPath, yPath).Throw? {
          CollectedThrowsAt(history, xPath, yPath, k);
        }
      }
    }
  }

  /** The plot handler's loop: walk the history in order and push every point the four
      rules admit. */
  method CollectPoints(history: seq<JValue>, xPath: string, yPath: string) returns (r: Completion<seq<Point>>)
    ensures r == Collected(history, xPath, yPath)
  {
    var dataPoints: seq<Point> := [];
    var i := 0;
    while i < |history|
      invariant 0 <= i <= |history|
      invariant Collected(history[..i], xPath, yPath) == Normal(dataPoints)
    {
      var item := history[i];
      assert history[..i + 1][..i] == history[..i];
      var resolvedX := Resolve(item, xPath);
      var resolvedY := if resolvedX.Normal? then Resolve(item, yPath) else Throw;
      if resolvedX.Throw? || resolvedY.Throw? {
        assert RecordPoints(history[i], xPath, yPath).Throw?;
        CollectedThrowsAt(history, xPath, yPath, i);
        return Throw;
      }
      dataPoints := PushPoints(dataPoints, resolvedX.value, resolvedY.value);
      i := i + 1;
    }
    assert history[..i] == history;
    return Normal(dataPoints);
  }

  /** The body of the `forEach` for one record: push, in order, the points the four rules
      admit for its resolved x and y. */
  method PushPoints(dataPoints: seq<Point>, rawX: JValue, rawY: JValue) returns (out: seq<Point>)
    ensures out == dataPoints + PointsOf(rawX, rawY)
  {
    out := dataPoints;
    if rawX.JArr? && rawY.JArr? {
      var len := Min(|rawX.items|, |rawY.items|);
      for j := 0 to len
        invariant out == dataPoints + ZipPoints(rawX.items, rawY.items, j)
      {
        if rawX.items[j] != JNull && rawY.items[j] != JNull {
          out := out + [Point(rawX.items[j], rawY.items[j])];
        }
      }
    } else if rawX.JArr? {
      for j := 0 to |rawX.items|
        invariant out == dataPoints + SpreadX(rawX.items, rawY, j)
      {
        if rawX.items[j] != JNull && rawY != JNull {
          out := out + [Point(rawX.items[j], rawY)];
        }
      }
    } else if rawY.JArr? {
      for j := 0 to |rawY.items|
        invariant out == dataPoints + SpreadY(rawX, rawY.items, j)
      {
        if rawX != JNull && rawY.items[j] != JNull {
          out := out + [Point(rawX, rawY.items[j])];
        }
      }
    } else if rawX != JNull && rawY != JNull {
      out := out + [Point(rawX, rawY)];
    }
  }

  /** The number the comparator `a.x - b.x` sees for a numeric x. Points whose x is not a
      number are given key 0 (see the README). */
  function Key(p: Point): int {
    if p.x.JNum? then p.x.n else 0
  }

  predicate SortedByX(ps: seq<Point>) {
    forall i, j :: 0 <= i < j < |ps| ==> Key(ps[i]) <= Key(ps[j])
  }

  predicate AllNumericX(ps: seq<Point>) {
    forall i :: 0 <= i < |ps| ==> ps[i].x.JNum?
  }

  /** The points whose key is `k`, in their order. */
  function WithKey(ps: seq<Point>, k: int): seq<Point> {
    if ps == [] then []
    else (if Key(ps[0]) == k then [ps[0]] else []) + WithKey(ps[1..], k)
  }

  /** Insert `p` in front of the first point whose key is not smaller, so that a point
      taken from earlier in the input stays ahead of equal keys. */
  function InsertByX(p: Point, ps: seq<Point>): seq<Point> {
    if ps == [] || Key(p) <= Key(ps[0]) then [p] + ps
    else [ps[0]] + InsertByX(p, ps[1..])
  }

  /** `dataPoints.sort((a, b) => a.x - b.x)`: a stable sort, ascending by x. */
  function SortByX(ps: seq<Point>): seq<Point> {
    if ps == [] then [] else InsertByX(ps[0], SortByX(ps[1..]))
  }

  lemma {:induction false} InsertByXSorted(p: Point, ps: seq<Point>)
    requires SortedByX(ps)
    ensures SortedByX(InsertByX(p, ps))
    ensures InsertByX(p, ps)[0] == p || (ps != [] && InsertByX(p, ps)[0] == ps[0])
  {
    if ps != [] && Key(p) > Key(ps[0]) {
      InsertByXSorted(p, ps[1..]);
    }
  }

  lemma {:induction false} InsertByXPermutes(p: Point, ps: seq<Point>)
    ensures multiset(InsertByX(p, ps)) == multiset([p] + ps)
  {
    if ps != [] && Key(p) > Key(ps[0]) {
      InsertByXPermutes(p, ps[1..]);
      assert [ps[0]] + ps[1..] == ps;
    }
  }

  lemma {:induction false} InsertByXStable(p: Point, ps: seq<Point>, k: int)
    ensures WithKey(InsertByX(p, ps), k) == (if Key(p) == k then [p] else []) + WithKey(ps, k)
  {
    if ps == [] || Key(p) <= Key(ps[0]) {
      assert ([p] + ps)[1..] == ps;
    } else {
      InsertByXStable(p, ps[1..], k);
      var rest := InsertByX(p, ps[1..]);
      assert ([ps[0]] + rest)[1..] == rest;
      if Key(ps[0]) == k {
        assert Key(p) != k;
      }
    }
  }

  /** The sorted points are ascending by x, a permutation of the input, and keep the input
      order among points with equal x (stability). */
  lemma {:induction false} SortByXSpec(ps: seq<Point>, k: int)
    ensures SortedByX(SortByX(ps))
    ensures multiset(SortByX(ps)) == multiset(ps)
    ensures WithKey(SortByX(ps), k) == WithKey(ps, k)
  {
    if ps != [] {
      SortByXSpec(ps[1..], k);
      InsertByXSorted(ps[0], SortByX(ps[1..]));
      InsertByXPermutes(ps[0], SortByX(ps[1..]));
      InsertByXStable(ps[0], SortByX(ps[1..]), k);
      assert [ps[0]] + ps[1..] == ps;
    }
  }

  /** With numeric x, sorted means ascending by the x value itself. */
  lemma NumericSortAscending(ps: seq<Point>)
    requires AllNumericX(ps)
    ensures AllNumericX(SortByX(ps))
    ensures forall i, j :: 0 <= i < j < |SortByX(ps)| ==> SortByX(ps)[i].x.n <= SortByX(ps)[j].x.n
  {
    SortByXSpec(ps, 0);
    var r := SortByX(ps);
    forall i | 0 <= i < |r| ensures r[i].x.JNum? {
      assert r[i] in multiset(ps);
    }
  }

  /** Sorting already sorted points changes nothing; so sorting twice is sorting once. */
  lemma {:induction false} SortSortedIsIdentity(ps: seq<Point>)
    requires SortedByX(ps)
    ensures SortByX(ps) == ps
  {
    if ps != [] {
      SortSortedIsIdentity(ps[1..]);
    }
  }

  lemma SortIdempotent(ps: seq<Point>)
    ensures SortByX(SortByX(ps)) == SortByX(ps)
  {
    SortByXSpec(ps, 0);
    SortSortedIsIdentity(SortByX(ps));
  }

  /** `if (Array.isArray(v)) v = v[0]`: an empty array gives `undefined`. */
  function FirstIfArray(v: JValue): (r: JValue)
    ensures !v.JArr? ==> r == v
    ensures v.JArr? && v.items != [] ==> r == v.items[0]
    ensures v.JArr? && v.items == [] ==> r == JUndef
  {
    if !v.JArr? then v else if v.items == [] then JUndef else v.items[0]
  }

  /** The point a live chart gains from the resolved x and y of an arriving record: both
      reduced to their first element, and kept only when neither is `null`. */
  function LatestOf(rx: JValue, ry: JValue): (r: Option<Point>)
    ensures r.Some? ==> r.value.x != JNull && r.value.y != JNull
    ensures r.Some? <==> FirstIfArray(rx) != JNull && FirstIfArray(ry) != JNull
  {
    var x, y := FirstIfArray(rx), FirstIfArray(ry);
    if x != JNull && y != JNull then Some(Point(x, y)) else None
  }

  /** The point an arriving record adds to a live chart; reading either path may throw. */
  function LatestPoint(item: JValue, xPath: string, yPath: string): Completion<Option<Point>> {
    match Resolve(item, xPath)
    case Throw => Throw
    case Normal(rx) =>
      match Resolve(item, yPath)
      case Throw => Throw
      case Normal(ry) => Normal(LatestOf(rx, ry))
  }

  /** The incremental update agrees with a rebuild of the same record whenever its values
      are two scalars (the rebuild's single point, or none) or two non-empty arrays whose
      first elements are both non-`null` (the rebuild's first point). */
  lemma LatestAgreesWithRebuild(rx: JValue, ry: JValue)
    ensures !rx.JArr? && !ry.JArr? ==>
      LatestOf(rx, ry) == if PointsOf(rx, ry) == [] then None else Some(PointsOf(rx, ry)[0])
    ensures rx.JArr? && ry.JArr? && rx.items != [] && ry.items != []
            && rx.items[0] != JNull && ry.items[0] != JNull ==>
      PointsOf(rx, ry) != [] && LatestOf(rx, ry) == Some(PointsOf(rx, ry)[0])
  {
    if rx.JArr? && ry.JArr? && rx.items != [] && ry.items != [] && rx.items[0] != JNull && ry.items[0] != JNull {
      ZipFirst(rx.items, ry.items, Min(|rx.items|, |ry.items|));
    }
  }

  /** Where the two disagree. An empty array reduces to `undefined`, which the live update
      keeps, while a rebuild of the same record adds nothing. */
  lemma LiveEmptyArrayPoint(props: seq<(string, JValue)>, ry: JValue)
    requires !ry.JArr? && ry != JNull
    ensures LatestOf(JArr([], props), ry) == Some(Point(JUndef, ry))
    ensures PointsOf(JArr([], props), ry) == []
  {
  }

  /** A leading `null` hides the whole record from the live update, while a rebuild still
      plots the later pairs. */
  lemma LiveLeadingNull(x: JValue, y: JValue, ry0: JValue)
    requires x != JNull && y != JNull
    ensures LatestOf(JArr([JNull, x], []), JArr([ry0, y], [])) == None
    ensures Point(x, y) in PointsOf(JArr([JNull, x], []), JArr([ry0, y], []))
  {
    assert ZipPoints([JNull, x], [ry0, y], 2) == ZipPoints([JNull, x], [ry0, y], 1) + [Point(x, y)];
  }

  /** When the first pair qualifies, it is the first point of the zip. */
  lemma {:induction false} ZipFirst(xs: seq<JValue>, ys: seq<JValue>, n: nat)
    requires 0 < n <= |xs| && n <= |ys|
    requires xs[0] != JNull && ys[0] != JNull
    ensures ZipPoints(xs, ys, n) != [] && ZipPoints(xs, ys, n)[0] == Point(xs[0], ys[0])
  {
    if n > 1 {
      ZipFirst(xs, ys, n - 1);
    }
  }
}
