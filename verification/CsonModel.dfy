// src/cson.c, src/cson.h and src/cjson_impl.c: reflection tables, struct
// memory, JSON trees, and what the two integer conversions keep.
module CsonModel {

  datatype Option<T> = None | Some(value: T)

  // ---- Reflection tables (reflect_item_t).

  datatype Kind = KObject | KArray | KString | KInteger | KReal | KTrue | KFalse | KNull

  datatype Row = Row(field: string, size: nat, kind: Kind, sub: nat, countField: Option<string>,
                     nullable: bool, excludeDecode: bool, excludeEncode: bool)

  type Table = seq<Row>

  // A struct embedded in another is laid out before it, so object rows refer
  // to earlier tables; arrays are pointers and may refer to any table.
  predicate Layout(tables: seq<Table>) {
    forall t, i :: 0 <= t < |tables| && 0 <= i < |tables[t]| ==>
      && (tables[t][i].kind == KObject ==> tables[t][i].sub < t)
      && (tables[t][i].kind == KArray ==> tables[t][i].sub < |tables|)
  }

  type Schema = s: seq<Table> | Layout(s) witness []

  // ---- Struct memory: one value per row of the table.

  datatype Value =
    | Int(n: int)
    | Real(r: real)
    | Str(s: Option<string>)
    | Obj(fields: seq<Value>)
    | NoArr                     // a null array pointer
    | Arr(items: seq<Value>)    // an array of structs, each an Obj

  function ZeroValue(sch: Schema, t: nat, i: nat): Value
    requires t < |sch| && i < |sch[t]|
    decreases t, 0, 0
  {
    match sch[t][i].kind
    case KObject => Obj(Zero(sch, sch[t][i].sub))
    case KArray => NoArr
    case KString => Str(None)
    case KReal => Real(0.0)
    case _ => Int(0)
  }

  // A struct all of whose bytes are zero.
  function Zero(sch: Schema, t: nat): (s: seq<Value>)
    requires t < |sch|
    ensures |s| == |sch[t]|
    ensures forall i :: 0 <= i < |s| ==> s[i] == ZeroValue(sch, t, i)
    decreases t, 1
  {
    seq(|sch[t]|, i requires 0 <= i < |sch[t]| => ZeroValue(sch, t, i))
  }

  // ---- JSON trees, with numbers as doubles.

  datatype Json =
    | JObject(members: seq<(string, Json)>)
    | JArray(items: seq<Json>)
    | JString(s: string)
    | JNumber(d: real)
    | JBool(b: bool)
    | JNull

  function TypeOf(j: Json): Kind {
    match j
    case JObject(_) => KObject
    case JArray(_) => KArray
    case JString(_) => KString
    case JNumber(_) => KReal
    case JBool(b) => if b then KTrue else KFalse
    case JNull => KNull
  }

  predicate IsNumber(k: Kind) {
    k == KReal || k == KInteger
  }

  predicate IsBool(k: Kind) {
    k == KTrue || k == KFalse
  }

  predicate TypesMatch(found: Kind, wanted: Kind) {
    found == wanted || (IsNumber(found) && IsNumber(wanted)) || (IsBool(found) && IsBool(wanted))
  }

  function Lower(c: char): char {
    if 'A' <= c <= 'Z' then (c as int + 32) as char else c
  }

  predicate SameName(a: string, b: string) {
    |a| == |b| && forall i :: 0 <= i < |a| ==> Lower(a[i]) == Lower(b[i])
  }

  // The first member whose name matches, without regard to case; an item
  // that is not an object has no members.
  function LookupIn(members: seq<(string, Json)>, field: string): (r: Option<Json>)
    ensures r.Some? ==> exists k :: 0 <= k < |members| && members[k].1 == r.value
  {
    if members == [] then None
    else if SameName(field, members[0].0) then Some(members[0].1)
    else
      var r := LookupIn(members[1..], field);
      assert r.Some? ==> exists k :: 0 <= k < |members[1..]| && members[1..][k].1 == r.value && members[k + 1].1 == r.value;
      r
  }

  function Lookup(j: Json, field: string): (r: Option<Json>)
    ensures r.Some? ==> r.value < j
  {
    match j
    case JObject(members) => LookupIn(members, field)
    case _ => None
  }

  // ---- Integers and doubles.

  const LlongMax: int := 0x7fff_ffff_ffff_ffff
  const LlongMin: int := -0x8000_0000_0000_0000

  predicate IntegerSize(size: nat) {
    size == 1 || size == 2 || size == 4 || size == 8
  }

  // The width check of checkInteger.
  predicate InRange(n: int, size: nat) {
    && IntegerSize(size)
    && (size == 1 ==> -0x80 <= n <= 0x7f)
    && (size == 2 ==> -0x8000 <= n <= 0x7fff)
    && (size == 4 ==> -0x8000_0000 <= n <= 0x7fff_ffff)
    && LlongMin <= n <= LlongMax
  }

  const TwoTo53: int := 0x20_0000_0000_0000

  // The distance between neighbouring doubles at n >= 0.
  function Spacing(n: nat): (u: nat)
    ensures u >= 1
  {
    if n < TwoTo53 then 1 else 2 * Spacing(n / 2)
  }

  // n >= 0 rounded to the nearest multiple of u, ties to the even multiple.
  function RoundTo(n: nat, u: nat): (r: int)
    requires u >= 1
  {
    var q, rest := n / u, n % u;
    if 2 * rest < u || (2 * rest == u && q % 2 == 0) then q * u else (q + 1) * u
  }

  // Conversion of a 64-bit integer to double, rounding to nearest even.
  function ToDouble(n: int): (d: int) {
    if n >= 0 then RoundTo(n, Spacing(n)) else -RoundTo(-n, Spacing(-n))
  }

  predicate ExactAsDouble(n: int) {
    ToDouble(n) == n
  }

  // Truncation towards zero.
  function Truncated(d: real): int {
    if d >= 0.0 then d.Floor else -((-d).Floor)
  }

  lemma {:induction false} RoundedExactly(n: nat, u: nat)
    requires u >= 1
    ensures RoundTo(n, u) == n <==> n % u == 0
  {
    assert n == n / u * u + n % u;
    assert (n / u + 1) * u == n / u * u + u;
  }

  // An integer is kept by the trip through a double exactly when it is a
  // multiple of the spacing of doubles at its size.
  lemma ExactWhenMultiple(n: int)
    ensures ExactAsDouble(n) <==> (if n >= 0 then n % Spacing(n) == 0 else (-n) % Spacing(-n) == 0)
  {
    if n >= 0 { RoundedExactly(n, Spacing(n)); } else { RoundedExactly(-n, Spacing(-n)); }
  }

  lemma SmallIsExact(n: int)
    requires -TwoTo53 <= n <= TwoTo53
    ensures ExactAsDouble(n)
  {
    assert Spacing(TwoTo53) == 2 * Spacing(TwoTo53 / 2) == 2;
    ExactWhenMultiple(n);
  }

  lemma TooPrecise()
    ensures !ExactAsDouble(TwoTo53 + 1)
  {
    assert Spacing(TwoTo53 + 1) == 2 * Spacing((TwoTo53 + 1) / 2) == 2;
    ExactWhenMultiple(TwoTo53 + 1);
  }
}
