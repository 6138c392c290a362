/** `getValueByPath`: how the client picks a value, or one level of array-flattened values,
    out of a historical record by a textual path. */
module Paths {
  import opened Wrappers
  import opened Strings
  import opened Json

  /** Where a path splits when it holds a dot: the trimmed text before the first dot (the
      array property) and the trimmed text after it (the sub-property, dots included). */
  datatype DottedPath = DottedPath(arrProp: string, subProp: string)

  /** The path with surrounding whitespace removed, split at its first dot if it has one. */
  function SplitPath(path: string): (r: Option<DottedPath>)
    ensures r.None? <==> '.' !in Trim(path)
    ensures r.Some? ==> '.' !in r.value.arrProp
  {
    var p := Trim(path);
    match IndexOf(p, '.')
    case None => None
    case Some(d) =>
      TrimKeepsOut(p[..d], '.');
      Some(DottedPath(Trim(p[..d]), Trim(p[d + 1..])))
  }

  /** A dotted path splits at the first dot of its trimmed form, and both halves are
      trimmed again. */
  lemma SplitPathSpec(path: string) returns (d: nat)
    requires '.' in Trim(path)
    ensures d < |Trim(path)| && Trim(path)[d] == '.' && '.' !in Trim(path)[..d]
    ensures SplitPath(path) == Some(DottedPath(Trim(Trim(path)[..d]), Trim(Trim(path)[d + 1..])))
  {
    d := IndexOf(Trim(path), '.').value;
  }

  /** Trimming never brings in a character the text did not have. */
  lemma TrimKeepsOut(s: string, c: char)
    requires c !in s
    ensures c !in Trim(s)
  {
    InfixKeepsOut(s, |s| - |TrimStart(s)|, |s|, c);
    var t := TrimStart(s);
    InfixKeepsOut(t, 0, |TrimEnd(t)|, c);
  }

  lemma InfixKeepsOut(s: string, i: nat, j: nat, c: char)
    requires i <= j <= |s| && c !in s
    ensures c !in s[i..j]
  {
    forall k | 0 <= k < j - i ensures s[i..j][k] != c {
      assert s[i..j][k] == s[i + k];
    }
  }

  /** `getValueByPath(item, path)`. */
  function Resolve(item: JValue, path: string): Completion<JValue> {
    if path == "" || path == "current" then Get(item, "receivedTime")
    else
      match SplitPath(path)
      case Some(dp) =>
        (match Get(item, dp.arrProp)
         case Throw => Throw
         case Normal(arrVal) =>
           if !arrVal.JArr? || |arrVal.items| == 0 then Normal(JNull)
           else
             match Pluck(arrVal.items, dp.subProp)
             case Throw => Throw
             case Normal(vs) => Normal(JArr(vs, [])))
      case None =>
        match Get(item, Trim(path))
        case Throw => Throw
        case Normal(v) => Normal(CoerceDigits(if v.Truthy() then v else JNull))
  }

  /** `elems.map(elem => coerce(elem[sub]))`: the first `null` or `undefined` element makes
      the read throw. */
  function Pluck(elems: seq<JValue>, sub: string): Completion<seq<JValue>> {
    if elems == [] then Normal([])
    else
      match Get(elems[0], sub)
      case Throw => Throw
      case Normal(v) =>
        match Pluck(elems[1..], sub)
        case Throw => Throw
        case Normal(rest) => Normal([CoerceDigits(v)] + rest)
  }

  /** The flattening keeps one value per element, in order, and throws exactly when some
      element is `null` or `undefined`. */
  lemma {:induction false} PluckSpec(elems: seq<JValue>, sub: string)
    ensures Pluck(elems, sub).Throw? <==> exists k :: 0 <= k < |elems| && elems[k].IsNullish()
    ensures Pluck(elems, sub).Normal? ==>
      && |Pluck(elems, sub).value| == |elems|
      && forall k :: 0 <= k < |elems| ==>
           Pluck(elems, sub).value[k] == CoerceDigits(Get(elems[k], sub).value)
  {
    if elems != [] {
      PluckSpec(elems[1..], sub);
      if Pluck(elems, sub).Throw? && !elems[0].IsNullish() {
        var k :| 0 <= k < |elems| - 1 && elems[1..][k].IsNullish();
        assert elems[k + 1].IsNullish();
      }
      if exists k :: 0 <= k < |elems| && elems[k].IsNullish() {
        var k :| 0 <= k < |elems| && elems[k].IsNullish();
        if k > 0 {
          assert elems[1..][k - 1].IsNullish();
        }
      }
    }
  }

  /** Reading any path of `null` or `undefined` throws; on a record only a dotted path can
      throw. */
  lemma ResolveThrows(item: JValue, path: string)
    ensures item.IsNullish() ==> Resolve(item, path).Throw?
    ensures Resolve(item, path).Throw? ==>
      item.IsNullish() || (path != "" && path != "current" && '.' in Trim(path))
  {
  }

  /** An empty path and the word `current` both select the record's `receivedTime`,
      read without numeric coercion. */
  lemma ResolveCurrent(item: JValue)
    requires !item.IsNullish()
    ensures Resolve(item, "") == Resolve(item, "current") == Get(item, "receivedTime")
    ensures Resolve(item, "").Normal?
  {
  }

  /** A dotted path yields `null` unless the array property is a non-empty array; then it
      yields an array as long as that one whose element k is element k's sub-property,
      digit strings read as numbers. It throws only on a `null` or `undefined` element. */
  lemma DottedResolve(item: JValue, path: string, dp: DottedPath)
    requires !item.IsNullish()
    requires path != "" && path != "current"
    requires SplitPath(path) == Some(dp)
    ensures var arrVal := Get(item, dp.arrProp).value;
      && (!arrVal.JArr? || |arrVal.items| == 0 ==> Resolve(item, path) == Normal(JNull))
      && (arrVal.JArr? && |arrVal.items| > 0 ==>
            && (Resolve(item, path).Throw? <==> exists k :: 0 <= k < |arrVal.items| && arrVal.items[k].IsNullish())
            && (Resolve(item, path).Normal? ==>
                  var r := Resolve(item, path).value;
                  && r.JArr? && r.props == []
                  && |r.items| == |arrVal.items|
                  && forall k :: 0 <= k < |r.items| ==>
                       r.items[k] == CoerceDigits(Get(arrVal.items[k], dp.subProp).value)))
  {
    var arrVal := Get(item, dp.arrProp).value;
    if arrVal.JArr? && |arrVal.items| > 0 {
      PluckSpec(arrVal.items, dp.subProp);
    }
  }

  /** A path without a dot reads the trimmed key: a falsy value (missing, `0`, `false`,
      `""`, `null`) becomes `null`, a digit string becomes its number, and any other value,
      an array included, passes through. It never throws on a record. */
  lemma PlainResolve(item: JValue, path: string)
    requires !item.IsNullish()
    requires path != "" && path != "current"
    requires '.' !in Trim(path)
    ensures var v := Get(item, Trim(path)).value;
      && Resolve(item, path).Normal?
      && (!v.Truthy() ==> Resolve(item, path).value == JNull)
      && (v.JStr? && IsDigitString(v.s) ==> Resolve(item, path).value == JNum(DigitsValue(v.s)))
      && (v.Truthy() && !(v.JStr? && IsDigitString(v.s)) ==> Resolve(item, path).value == v)
  {
  }
}
