/** The JavaScript values a decoded payload can hold, and the property reads and writes the
    client performs on them. Numbers are exact integers. */
module Json {
  import opened Wrappers
  import opened Strings

  /** A JavaScript value as `JSON.parse` produces it, plus `undefined`. Object members are kept
      in the engine's enumeration order; an array may also carry named (non-index) properties,
      as the client gives one a `receivedTime`. */
  datatype JValue =
    | JUndef
    | JNull
    | JBool(b: bool)
    | JNum(n: int)
    | JStr(s: string)
    | JArr(items: seq<JValue>, props: seq<(string, JValue)>)
    | JObj(fields: seq<(string, JValue)>)
  {
    /** `null` or `undefined`: reading a property of either throws a TypeError. */
    predicate IsNullish() {
      JUndef? || JNull?
    }

    /** JavaScript truthiness (`NaN` is not representable). */
    predicate Truthy() {
      match this
      case JUndef => false
      case JNull => false
      case JBool(b) => b
      case JNum(n) => n != 0
      case JStr(s) => s != ""
      case _ => true
    }
  }

  /** Value of the first member named `key`, `undefined` when there is none. */
  function Lookup(fields: seq<(string, JValue)>, key: string): JValue {
    if fields == [] then JUndef
    else if fields[0].0 == key then fields[0].1
    else Lookup(fields[1..], key)
  }

  function KeysOf(fields: seq<(string, JValue)>): (ks: seq<string>)
    ensures |ks| == |fields|
    ensures forall k :: 0 <= k < |fields| ==> ks[k] == fields[k].0
  {
    if fields == [] then [] else [fields[0].0] + KeysOf(fields[1..])
  }

  function ValuesOf(fields: seq<(string, JValue)>): (vs: seq<JValue>)
    ensures |vs| == |fields|
    ensures forall k :: 0 <= k < |fields| ==> vs[k] == fields[k].1
  {
    if fields == [] then [] else [fields[0].1] + ValuesOf(fields[1..])
  }

  /** `o[key] = v` on an ordinary object: an existing member keeps its place, a new one
      goes last. */
  function SetMember(fields: seq<(string, JValue)>, key: string, v: JValue): seq<(string, JValue)> {
    if fields == [] then [(key, v)]
    else if fields[0].0 == key then [(key, v)] + fields[1..]
    else [fields[0]] + SetMember(fields[1..], key, v)
  }

  /** After `o[key] = v`, reading `key` gives `v`, every other member reads as before, and the
      member order is unchanged except that a new key is appended. */
  lemma {:induction false} SetMemberSpec(fields: seq<(string, JValue)>, key: string, v: JValue)
    ensures Lookup(SetMember(fields, key, v), key) == v
    ensures forall other :: other != key ==> Lookup(SetMember(fields, key, v), other) == Lookup(fields, other)
    ensures KeysOf(SetMember(fields, key, v)) == if key in KeysOf(fields) then KeysOf(fields) else KeysOf(fields) + [key]
  {
    if fields != [] && fields[0].0 != key {
      SetMemberSpec(fields[1..], key, v);
      assert KeysOf(fields) == [fields[0].0] + KeysOf(fields[1..]);
    }
  }

  /** The array index a property key denotes: a canonical decimal numeral. */
  function ArrayIndex(key: string): (r: Option<nat>)
    ensures r.Some? ==> key == NatToString(r.value)
  {
    if IsDigitString(key) && (key[0] != '0' || key == "0") then
      CanonicalNumeral(key);
      Some(DigitsValue(key))
    else None
  }

  /** A digit string without a leading zero is the decimal notation of its value. */
  lemma {:induction false} CanonicalNumeral(key: string)
    requires IsDigitString(key) && (key[0] != '0' || key == "0")
    ensures NatToString(DigitsValue(key)) == key
  {
    var n := DigitsValue(key);
    if |key| == 1 {
    } else {
      var init := key[..|key| - 1];
      assert init[0] == key[0];
      CanonicalNumeral(init);
      assert n / 10 == DigitsValue(init) && n % 10 == key[|key| - 1] as int - '0' as int;
      assert key == init + [key[|key| - 1]];
    }
  }

  /** Every decimal numeral names the array index it spells. */
  lemma ArrayIndexOfNumeral(i: nat)
    ensures ArrayIndex(NatToString(i)) == Some(i)
  {
    DigitsValueOfNatToString(i);
  }

  /** `v[key]`: property read, which throws on `null` and `undefined`. Arrays and strings
      answer index keys and `length`; numbers and booleans have no own properties.
      Inherited (prototype) properties are not modelled. */
  function Get(v: JValue, key: string): (r: Completion<JValue>)
    ensures r.Throw? <==> v.IsNullish()
  {
    match v
    case JUndef => Throw
    case JNull => Throw
    case JObj(fields) => Normal(Lookup(fields, key))
    case JArr(items, props) =>
      var i := ArrayIndex(key);
      if i.Some? && i.value < |items| then Normal(items[i.value])
      else if key == "length" then Normal(JNum(|items|))
      else Normal(Lookup(props, key))
    case JStr(s) =>
      var i := ArrayIndex(key);
      if i.Some? && i.value < |s| then Normal(JStr([s[i.value]]))
      else if key == "length" then Normal(JNum(|s|))
      else Normal(JUndef)
    case _ => Normal(JUndef)
  }

  /** `v[key] = x` in a non-strict script: objects and arrays gain or update a named member;
      on a number, string or boolean the assignment is silently lost; on `null` or
      `undefined` it throws. Only keys that are neither array indices nor `length` are
      written (the client writes `receivedTime`). */
  function Put(v: JValue, key: string, x: JValue): (r: Completion<JValue>)
    requires ArrayIndex(key).None? && key != "length"
    ensures r.Throw? <==> v.IsNullish()
    ensures r.Normal? && (v.JObj? || v.JArr?) ==> Get(r.value, key) == Normal(x)
    ensures r.Normal? && v.JObj? ==>
      && r.value.JObj?
      && (forall other :: other != key ==> Lookup(r.value.fields, other) == Lookup(v.fields, other))
      && KeysOf(r.value.fields) == if key in KeysOf(v.fields) then KeysOf(v.fields) else KeysOf(v.fields) + [key]
    ensures r.Normal? && v.JArr? ==>
      && r.value.JArr? && r.value.items == v.items
      && (forall other :: other != key ==> Lookup(r.value.props, other) == Lookup(v.props, other))
      && KeysOf(r.value.props) == if key in KeysOf(v.props) then KeysOf(v.props) else KeysOf(v.props) + [key]
    ensures r.Normal? && !(v.JObj? || v.JArr?) ==> r.value == v
  {
    match v
    case JUndef => Throw
    case JNull => Throw
    case JObj(fields) => SetMemberSpec(fields, key, x); Normal(JObj(SetMember(fields, key, x)))
    case JArr(items, props) => SetMemberSpec(props, key, x); Normal(JArr(items, SetMember(props, key, x)))
    case _ => Normal(v)
  }

  /** The client's numeric-string rule: a string of ASCII digits becomes its number,
      everything else is returned as it is. */
  function CoerceDigits(v: JValue): (r: JValue)
    ensures v.JStr? && IsDigitString(v.s) ==> r == JNum(DigitsValue(v.s))
    ensures !(v.JStr? && IsDigitString(v.s)) ==> r == v
    ensures !(r.JStr? && IsDigitString(r.s))
  {
    if v.JStr? && IsDigitString(v.s) then JNum(DigitsValue(v.s)) else v
  }

  /** A string holding the decimal numeral of `n` is coerced to the number `n`. */
  lemma CoerceNumeral(n: nat)
    ensures CoerceDigits(JStr(NatToString(n))) == JNum(n)
  {
    DigitsValueOfNatToString(n);
  }

  /** Decimal numerals 0 .. n-1, the index keys of a length-n array or string. */
  function IndexKeys(n: nat): (ks: seq<string>)
    ensures |ks| == n
    ensures forall k :: 0 <= k < n ==> ks[k] == NatToString(k)
  {
    if n == 0 then [] else IndexKeys(n - 1) + [NatToString(n - 1)]
  }

  /** `Object.keys(v)`, for a value that is not `null` or `undefined`. */
  function Keys(v: JValue): seq<string>
    requires !v.IsNullish()
  {
    match v
    case JObj(fields) => KeysOf(fields)
    case JArr(items, props) => IndexKeys(|items|) + KeysOf(props)
    case JStr(s) => IndexKeys(|s|)
    case _ => []
  }

  /** `Object.values(v)`, in the same order as `Keys(v)`. */
  function Values(v: JValue): (vs: seq<JValue>)
    requires !v.IsNullish()
    ensures |vs| == |Keys(v)|
  {
    match v
    case JObj(fields) => ValuesOf(fields)
    case JArr(items, props) => items + ValuesOf(props)
    case JStr(s) => CharStrings(s)
    case _ => []
  }

  /** No own key occurs twice, and an array's named properties are neither indices nor
      `length`: how `JSON.parse` builds values, and how the client's writes keep them. */
  predicate DistinctKeys(fields: seq<(string, JValue)>) {
    forall i, j :: 0 <= i < j < |fields| ==> fields[i].0 != fields[j].0
  }

  predicate WellKeyed(v: JValue) {
    match v
    case JObj(fields) => DistinctKeys(fields)
    case JArr(_, props) =>
      DistinctKeys(props) && forall i :: 0 <= i < |props| ==> ArrayIndex(props[i].0).None? && props[i].0 != "length"
    case _ => true
  }

  /** With distinct keys, a member's own key reads its own value. */
  lemma {:induction false} LookupDistinct(fields: seq<(string, JValue)>, k: nat)
    requires DistinctKeys(fields) && k < |fields|
    ensures Lookup(fields, fields[k].0) == fields[k].1
  {
    if k > 0 {
      assert fields[0].0 != fields[k].0;
      assert DistinctKeys(fields[1..]) by {
        forall i, j | 0 <= i < j < |fields| - 1 ensures fields[1..][i].0 != fields[1..][j].0 {
          assert fields[1..][i] == fields[i + 1] && fields[1..][j] == fields[j + 1];
        }
      }
      LookupDistinct(fields[1..], k - 1);
    }
  }

  /** `Object.values(v)[k]` is what reading the key `Object.keys(v)[k]` gives. */
  lemma ValuesReadKeys(v: JValue, k: nat)
    requires !v.IsNullish() && WellKeyed(v) && k < |Keys(v)|
    ensures Get(v, Keys(v)[k]) == Normal(Values(v)[k])
  {
    match v
    case JObj(fields) =>
      LookupDistinct(fields, k);
    case JArr(items, props) =>
      if k < |items| {
        ArrayIndexOfNumeral(k);
      } else {
        PropsReadKeys(items, props, k - |items|);
      }
    case JStr(s) =>
      ArrayIndexOfNumeral(k);
    case _ =>
  }

  /** An array's named property reads its own value: it is not an index, not `length`, and
      no other property has its name. */
  lemma PropsReadKeys(items: seq<JValue>, props: seq<(string, JValue)>, j: nat)
    requires WellKeyed(JArr(items, props)) && j < |props|
    ensures Keys(JArr(items, props))[|items| + j] == props[j].0
    ensures Get(JArr(items, props), props[j].0) == Normal(Values(JArr(items, props))[|items| + j])
  {
    LookupDistinct(props, j);
    assert ArrayIndex(props[j].0).None? && props[j].0 != "length";
  }

  /** The one-character strings a string's index keys read. */
  function CharStrings(s: string): (vs: seq<JValue>)
    ensures |vs| == |s|
    ensures forall k :: 0 <= k < |s| ==> vs[k] == JStr([s[k]])
  {
    if s == [] then [] else [JStr([s[0]])] + CharStrings(s[1..])
  }

  /** How `Array.prototype.join` renders one element: `null` and `undefined` as the empty
      string, arrays as their own comma join, plain objects as `[object Object]`. */
  function JoinString(v: JValue): string {
    match v
    case JUndef => ""
    case JNull => ""
    case JBool(b) => if b then "true" else "false"
    case JNum(n) => IntToString(n)
    case JStr(s) => s
    case JArr(items, _) => Join(JoinStrings(items), ",")
    case JObj(_) => "[object Object]"
  }

  /** `JoinString` of each element, in order. */
  function JoinStrings(vs: seq<JValue>): (ss: seq<string>)
    ensures |ss| == |vs|
    decreases vs
  {
    if vs == [] then [] else [JoinString(vs[0])] + JoinStrings(vs[1..])
  }
}
