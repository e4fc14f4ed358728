// src/cson.c: packing a struct and parsing the result into a zeroed struct
// gives the struct back.
module CsonRoundTrip {
  import opened CsonModel
  import opened CsonCodec

  // ---- What the round trip asks of the tables.

  predicate SizeOk(row: Row) {
    && (row.kind == KInteger || IsBool(row.kind) ==> IntegerSize(row.size))
    && (row.kind == KReal ==> row.size == 8)
  }

  predicate RowOk(sch: Schema, t: nat, i: nat)
    requires t < |sch| && i < |sch[t]|
  {
    var row := sch[t][i];
    && SizeOk(row)
    && row.kind != KNull
    && (row.kind == KArray ==>
          && sch[row.sub] != []
          && CountIndex(sch[t], i).Some?
          && sch[t][CountIndex(sch[t], i).value].kind == KInteger)
  }

  predicate TableOk(sch: Schema, t: nat)
    requires t < |sch|
  {
    && (forall i :: 0 <= i < |sch[t]| ==> RowOk(sch, t, i))
    && (forall i, k :: 0 <= i < k < |sch[t]| ==> !SameName(sch[t][k].field, sch[t][i].field))
    && (Basic(sch[t]) ==> |sch[t]| == 1 && sch[t][0].kind != KObject && sch[t][0].kind != KArray)
  }

  ghost predicate WellFormed(sch: Schema) {
    forall t :: 0 <= t < |sch| ==> TableOk(sch, t)
  }

  // ---- What it asks of a struct.

  predicate Sent(row: Row) {
    !row.excludeEncode && !row.excludeDecode
  }

  // Left out of the JSON, but looked for when parsing, and so reset.
  predicate EncodeOnly(row: Row) {
    row.excludeEncode && !row.excludeDecode
  }

  // Row a is a transported array with items, whose number is kept in row k.
  predicate Counts(sch: Schema, t: nat, s: seq<Value>, a: nat, k: nat)
    requires t < |sch| && |s| == |sch[t]| && a < |s|
  {
    sch[t][a].kind == KArray && Sent(sch[t][a]) && s[a].Arr? && s[a].items != [] && CountIndex(sch[t], a) == Some(k)
  }

  // The value of a packed row can make the trip.
  ghost predicate FitsValue(sch: Schema, t: nat, s: seq<Value>, i: nat)
    requires t < |sch| && |s| == |sch[t]| && i < |s|
    decreases s, 0
  {
    var row := sch[t][i];
    match row.kind
    case KInteger => s[i].Int? && InRange(s[i].n, row.size) && ExactAsDouble(s[i].n)
    case KTrue => s[i] == Int(0) || s[i] == Int(1)
    case KFalse => s[i] == Int(0) || s[i] == Int(1)
    case KReal => s[i].Real?
    case KString => s[i].Str? && (s[i].s.None? ==> row.nullable)
    case KObject => s[i].Obj? && Fits(sch, row.sub, s[i].fields)
    case KArray =>
      if s[i].NoArr? then row.nullable
      else
        && s[i].Arr? && (s[i].items == [] ==> row.nullable)
        && CountIndex(sch[t], i).Some?
        && s[CountIndex(sch[t], i).value] == Int(|s[i].items|)
        && InRange(|s[i].items|, sch[t][CountIndex(sch[t], i).value].size)
        && forall m :: 0 <= m < |s[i].items| ==> FitsItem(sch, row.sub, s[i].items[m])
    case KNull => false
  }

  ghost predicate FitsItem(sch: Schema, sub: nat, item: Value)
    requires sub < |sch|
    decreases item, 0
  {
    && item.Obj?
    && |item.fields| == |sch[sub]| > 0
    && if Basic(sch[sub]) then FitsValue(sch, sub, item.fields, 0) && item.fields[0] != Str(None)
       else Fits(sch, sub, item.fields)
  }

  // What is not transported is zero, or is a count that an array brings along.
  // A row left out of the JSON only is not found, so it must be nullable.
  predicate FitsExcluded(sch: Schema, t: nat, s: seq<Value>, i: nat)
    requires t < |sch| && |s| == |sch[t]| && i < |s|
  {
    var row := sch[t][i];
    && (!Sent(row) && (forall a :: 0 <= a < |s| ==> !Counts(sch, t, s, a, i)) ==> s[i] == ZeroValue(sch, t, i))
    && (EncodeOnly(row) ==> row.nullable && row.kind != KObject)
  }

  ghost predicate Fits(sch: Schema, t: nat, s: seq<Value>)
    requires t < |sch|
    decreases s, 1
  {
    && |s| == |sch[t]|
    && (forall i :: 0 <= i < |s| && !sch[t][i].excludeEncode ==> FitsValue(sch, t, s, i))
    && (forall i :: 0 <= i < |s| ==> FitsExcluded(sch, t, s, i))
  }

  // ---- What comes back.

  // A count that is not transported itself comes with an array: with any, or,
  // where it is reset on the way, with one that stands after it.
  predicate Brought(sch: Schema, t: nat, s: seq<Value>, k: nat)
    requires t < |sch| && |s| == |sch[t]| && k < |s|
  {
    exists a :: 0 <= a < |s| && Counts(sch, t, s, a, k) && (EncodeOnly(sch[t][k]) ==> k < a)
  }

  function Returned(sch: Schema, t: nat, s: seq<Value>): (r: seq<Value>)
    requires t < |sch|
    ensures |r| == |s|
    decreases s, 1
  {
    if |s| != |sch[t]| then s
    else
      seq(|s|, i requires 0 <= i < |s| =>
        if Sent(sch[t][i]) || Brought(sch, t, s, i) then ReturnedValue(sch, t, s, i) else ZeroValue(sch, t, i))
  }

  // An array without items is not packed, and is not told from a null one.
  function ReturnedValue(sch: Schema, t: nat, s: seq<Value>, i: nat): Value
    requires t < |sch| && |s| == |sch[t]| && i < |s|
    decreases s, 0
  {
    var row := sch[t][i];
    if row.kind == KObject && s[i].Obj? then Obj(Returned(sch, row.sub, s[i].fields))
    else if row.kind == KArray && s[i].Arr? then
      if s[i].items == [] then NoArr else Arr(ReturnedItems(sch, row.sub, s[i].items))
    else s[i]
  }

  function ReturnedItems(sch: Schema, sub: nat, items: seq<Value>): (r: seq<Value>)
    requires sub < |sch|
    ensures |r| == |items|
    decreases items, 0
  {
    seq(|items|, m requires 0 <= m < |items| => ReturnedItem(sch, sub, items[m]))
  }

  function ReturnedItem(sch: Schema, sub: nat, item: Value): Value
    requires sub < |sch|
    decreases item, 0
  {
    if item.Obj? && !Basic(sch[sub]) then Obj(Returned(sch, sub, item.fields)) else item
  }

  // Nothing is lost, at any depth: no transported array is without items, and a
  // count reset on the way has an array after it.
  predicate Kept(sch: Schema, t: nat, s: seq<Value>)
    requires t < |sch|
    decreases s, 1
  {
    |s| == |sch[t]| && forall i :: 0 <= i < |s| ==> KeptRow(sch, t, s, i)
  }

  predicate KeptRow(sch: Schema, t: nat, s: seq<Value>, i: nat)
    requires t < |sch| && |s| == |sch[t]| && i < |s|
    decreases s, 0
  {
    var row := sch[t][i];
    && (Sent(row) && row.kind == KObject && s[i].Obj? ==> Kept(sch, row.sub, s[i].fields))
    && (Sent(row) && row.kind == KArray && s[i].Arr? ==>
          s[i].items != [] && forall m :: 0 <= m < |s[i].items| ==> KeptItem(sch, row.sub, s[i].items[m]))
    && (EncodeOnly(row) && (exists a :: 0 <= a < |s| && Counts(sch, t, s, a, i)) ==> Brought(sch, t, s, i))
  }

  predicate KeptItem(sch: Schema, sub: nat, item: Value)
    requires sub < |sch|
    decreases item, 0
  {
    item.Obj? && !Basic(sch[sub]) ==> Kept(sch, sub, item.fields)
  }

  // ---- Lookup in what was packed.

  lemma {:induction false} LookupAppended(m: seq<(string, Json)>, f: string, j: Json, g: string)
    ensures LookupIn(m + [(f, j)], g)
            == if LookupIn(m, g).Some? then LookupIn(m, g) else if SameName(g, f) then Some(j) else None
  {
    if m == [] {
      assert m + [(f, j)] == [(f, j)];
      assert LookupIn([(f, j)][1..], g) == None;
    } else {
      assert (m + [(f, j)])[1..] == m[1..] + [(f, j)];
      LookupAppended(m[1..], f, j, g);
    }
  }

  // Every row that packs is found under its own name, and no other.
  lemma {:induction false} PackedLookup(sch: Schema, t: nat, s: seq<Value>, n: nat, k: nat)
    requires WellFormed(sch) && t < |sch| && |s| == |sch[t]| && n <= |s| && k < |s|
    requires PackRows(sch, t, s, n).Packed?
    ensures Lookup(PackRows(sch, t, s, n).json, sch[t][k].field)
            == if k < n && !sch[t][k].excludeEncode && PackRow(sch, t, s, k).Packed?
               then Some(PackRow(sch, t, s, k).json) else None
    decreases n
  {
    hide PackRow;
    if n > 0 {
      assert TableOk(sch, t) && RowOk(sch, t, n - 1);
      PackedLookup(sch, t, s, n - 1, k);
      var row := sch[t][n - 1];
      if !row.excludeEncode && PackRow(sch, t, s, n - 1).Packed? {
        LookupAppended(PackRows(sch, t, s, n - 1).json.members, row.field, PackRow(sch, t, s, n - 1).json, sch[t][k].field);
        SameNameSymmetric(sch[t][k].field, row.field);
      }
    }
  }

  lemma SameNameSymmetric(a: string, b: string)
    ensures SameName(a, b) <==> SameName(b, a)
    ensures SameName(a, a)
  {
  }

  // ---- Packing succeeds.

  // Values that are not packed: null strings, and arrays null or without items.
  predicate Absent(v: Value) {
    v == Str(None) || v == NoArr || v == Arr([])
  }

  lemma {:induction false} PackRowFits(sch: Schema, t: nat, s: seq<Value>, i: nat)
    requires WellFormed(sch) && t < |sch| && |s| == |sch[t]| && i < |s| && FitsValue(sch, t, s, i)
    ensures PackRow(sch, t, s, i).Packed? || (Absent(s[i]) && sch[t][i].nullable && PackRow(sch, t, s, i).Refused?)
    ensures PackRow(sch, t, s, i).Packed? <==> !Absent(s[i])
    decreases s, 0, 0
  {
    assert TableOk(sch, t) && RowOk(sch, t, i);
    var row := sch[t][i];
    if row.kind == KObject {
      PackStructFits(sch, row.sub, s[i].fields);
    } else if row.kind == KArray && s[i].Arr? {
      PackItemsFit(sch, row.sub, s[i].items, |s[i].items|);
    }
  }

  lemma {:induction false} PackItemsFit(sch: Schema, sub: nat, items: seq<Value>, n: nat)
    requires WellFormed(sch) && sub < |sch| && n <= |items| && sch[sub] != []
    requires forall m :: 0 <= m < n ==> FitsItem(sch, sub, items[m])
    ensures var packed := PackItems(sch, sub, items, n);
            && packed.Some? && |packed.value| == n
            && forall m :: 0 <= m < n ==> PackItem(sch, sub, items[m]) == Packed(packed.value[m])
    decreases items, 1, n
  {
    if n > 0 {
      PackItemsFit(sch, sub, items, n - 1);
      PackItemFits(sch, sub, items[n - 1]);
    }
  }

  lemma {:induction false} PackItemFits(sch: Schema, sub: nat, item: Value)
    requires WellFormed(sch) && sub < |sch| && sch[sub] != [] && FitsItem(sch, sub, item)
    ensures PackItem(sch, sub, item).Packed?
    decreases item, 2, 0
  {
    assert TableOk(sch, sub);
    if Basic(sch[sub]) {
      PackRowFits(sch, sub, item.fields, 0);
    } else {
      PackStructFits(sch, sub, item.fields);
    }
  }

  lemma {:induction false} PackStructFits(sch: Schema, t: nat, s: seq<Value>)
    requires WellFormed(sch) && t < |sch| && Fits(sch, t, s)
    ensures PackStruct(sch, t, s).Packed? && PackStruct(sch, t, s).json.JObject?
    decreases s, 1, |sch[t]| + 1
  {
    PackRowsFit(sch, t, s, |s|);
  }

  lemma {:induction false} PackRowsFit(sch: Schema, t: nat, s: seq<Value>, n: nat)
    requires WellFormed(sch) && t < |sch| && Fits(sch, t, s) && n <= |s|
    ensures PackRows(sch, t, s, n).Packed?
    decreases s, 1, n
  {
    if n > 0 {
      PackRowsFit(sch, t, s, n - 1);
      assert TableOk(sch, t) && RowOk(sch, t, n - 1);
      if !sch[t][n - 1].excludeEncode { PackRowFits(sch, t, s, n - 1); }
    }
  }

  // ---- Parsing restores.

  // An integer field comes back exactly when a double can hold its value.
  lemma IntegerBack(n: int, size: nat)
    requires InRange(n, size)
    ensures IntegerOf(JNumber(ToDouble(n) as real), size) == Number(n) <==> ExactAsDouble(n)
  {
    hide ToDouble;
    var d := ToDouble(n) as real;
    assert Truncated(d) == ToDouble(n);
    LargestDouble();
  }

  // A bool field comes back exactly when it holds 0 or 1.
  lemma BoolBack(row: Row, n: int)
    requires InRange(n, row.size)
    ensures PackBool(row, Int(n)).Packed? && IntegerOf(PackBool(row, Int(n)).json, row.size) == Number(n) <==> n == 0 || n == 1
  {
  }

  // The largest 64-bit integer becomes 2 to the 63rd as a double.
  lemma LargestDouble()
    ensures ToDouble(LlongMax) == LlongMax + 1
  {
  }

  // The struct with row i restored; an array brings its count along.
  function Restored(sch: Schema, t: nat, s: seq<Value>, i: nat, out: seq<Value>): (r: seq<Value>)
    requires t < |sch| && |s| == |sch[t]| == |out| && i < |s|
    ensures |r| == |out|
  {
    if sch[t][i].kind == KArray && CountIndex(sch[t], i).Some? then
      out[CountIndex(sch[t], i).value := s[CountIndex(sch[t], i).value]][i := ReturnedValue(sch, t, s, i)]
    else out[i := ReturnedValue(sch, t, s, i)]
  }

  // Room for row i to be parsed into.
  predicate Room(sch: Schema, t: nat, out: seq<Value>, i: nat)
    requires t < |sch| && |out| == |sch[t]| && i < |out|
  {
    && (sch[t][i].kind == KObject ==> out[i] == ZeroValue(sch, t, i))
    && (sch[t][i].kind == KArray && CountIndex(sch[t], i).Some? ==> out[CountIndex(sch[t], i).value].Int?)
  }

  lemma {:induction false} RowBack(sch: Schema, t: nat, s: seq<Value>, i: nat, out: seq<Value>)
    requires WellFormed(sch) && t < |sch| && |s| == |sch[t]| == |out| && i < |s|
    requires FitsValue(sch, t, s, i) && PackRow(sch, t, s, i).Packed? && Room(sch, t, out, i)
    ensures TypesMatch(TypeOf(PackRow(sch, t, s, i).json), sch[t][i].kind)
    ensures ParseRow(sch, t, PackRow(sch, t, s, i).json, out, i) == Done(Restored(sch, t, s, i, out))
    decreases s, 1, 0
  {
    assert TableOk(sch, t) && RowOk(sch, t, i);
    var row := sch[t][i];
    match row.kind
    case KInteger => IntegerBack(s[i].n, row.size);
    case KObject =>
      PackStructFits(sch, row.sub, s[i].fields);
      Returns(sch, row.sub, s[i].fields);
    case KArray =>
      PackRowFits(sch, t, s, i);
      ArrayValue(sch, t, s, i);
      assert s[i].items != [];
      ArrayBack(sch, t, s, i, out);
    case KNull =>
    case KString =>
    case KReal =>
    case KTrue =>
    case KFalse =>
  }

  lemma {:induction false} ArrayBack(sch: Schema, t: nat, s: seq<Value>, i: nat, out: seq<Value>)
    requires WellFormed(sch) && t < |sch| && |s| == |sch[t]| == |out| && i < |s| && sch[t][i].kind == KArray
    requires FitsValue(sch, t, s, i) && s[i].Arr? && s[i].items != [] && Room(sch, t, out, i)
    ensures PackRow(sch, t, s, i).Packed? && PackRow(sch, t, s, i).json.JArray?
    ensures ParseArray(sch, t, PackRow(sch, t, s, i).json, out, i) == Done(Restored(sch, t, s, i, out))
    decreases s, 0, 0
  {
    hide PackItems, ParseItems, Zero, InRange;
    assert TableOk(sch, t) && RowOk(sch, t, i);
    var sub, items := sch[t][i].sub, s[i].items;
    PackItemsFit(sch, sub, items, |items|);
    var packed := PackItems(sch, sub, items, |items|).value;
    var memory := seq(|packed|, _ => Obj(Zero(sch, sub)));
    ItemsBack(sch, sub, items, packed, memory, 0);
    assert IntegerSize(sch[t][CountIndex(sch[t], i).value].size) by { assert RowOk(sch, t, CountIndex(sch[t], i).value); }
  }

  lemma {:induction false} ItemsBack(sch: Schema, sub: nat, items: seq<Value>, packed: seq<Json>, memory: seq<Value>, n: nat)
    requires WellFormed(sch) && sub < |sch| && sch[sub] != [] && n <= |items| == |packed| == |memory|
    requires forall m :: 0 <= m < |items| ==> FitsItem(sch, sub, items[m]) && PackItem(sch, sub, items[m]) == Packed(packed[m])
    requires forall m :: 0 <= m < n ==> memory[m] == ReturnedItem(sch, sub, items[m])
    requires forall m :: n <= m < |memory| ==> memory[m] == Obj(Zero(sch, sub))
    requires forall m :: 0 <= m < |memory| ==> memory[m].Obj? && |memory[m].fields| == |sch[sub]|
    ensures ParseItems(sch, sub, packed, memory, n, n) == Some((ReturnedItems(sch, sub, items), |items|))
    decreases items, 1, |items| - n
  {
    hide PackItem, ParseItem, FitsItem, Zero, WellFormed, Basic, ReturnedItem;
    if n == |items| {
      assert memory == ReturnedItems(sch, sub, items);
    } else {
      ItemBack(sch, sub, items[n]);
      ItemShape(sch, sub, items[n]);
      ItemsBack(sch, sub, items, packed, memory[n := ReturnedItem(sch, sub, items[n])], n + 1);
    }
  }

  lemma ItemShape(sch: Schema, sub: nat, item: Value)
    requires sub < |sch| && FitsItem(sch, sub, item)
    ensures ReturnedItem(sch, sub, item).Obj? && |ReturnedItem(sch, sub, item).fields| == |sch[sub]|
  {
  }

  lemma {:induction false} ItemBack(sch: Schema, sub: nat, item: Value)
    requires WellFormed(sch) && sub < |sch| && sch[sub] != [] && FitsItem(sch, sub, item)
    ensures PackItem(sch, sub, item).Packed?
    ensures ReturnedItem(sch, sub, item).Obj?
    ensures ParseItem(sch, sub, PackItem(sch, sub, item).json, Zero(sch, sub)) == Done(ReturnedItem(sch, sub, item).fields)
    decreases item, 2, 0
  {
    assert TableOk(sch, sub);
    PackItemFits(sch, sub, item);
    if Basic(sch[sub]) {
      RowBack(sch, sub, item.fields, 0, Zero(sch, sub));
      assert Zero(sch, sub)[0 := item.fields[0]] == item.fields;
    } else {
      Returns(sch, sub, item.fields);
    }
  }

  // Row k has its value when row i is reached: it has been parsed, or an array
  // has brought it, and it has not been reset since.
  ghost predicate Known(sch: Schema, t: nat, s: seq<Value>, i: nat, k: nat)
    requires t < |sch| && |s| == |sch[t]| && i <= |s| && k < |s|
  {
    (k < i && Sent(sch[t][k])) ||
    exists a :: 0 <= a < i && Counts(sch, t, s, a, k) && !(EncodeOnly(sch[t][k]) && a < k < i)
  }

  // The output struct then: known rows restored, others zero.
  ghost predicate Midway(sch: Schema, t: nat, s: seq<Value>, i: nat, out: seq<Value>)
    requires t < |sch| && |s| == |sch[t]| && i <= |s|
  {
    && |out| == |s|
    && forall k :: 0 <= k < |s| ==>
         out[k] == if Known(sch, t, s, i, k) then ReturnedValue(sch, t, s, k) else ZeroValue(sch, t, k)
  }

  // A fitting struct is packed, and parsing into zeroed memory gives what comes back.
  lemma {:induction false} Returns(sch: Schema, t: nat, s: seq<Value>)
    requires WellFormed(sch) && t < |sch| && Fits(sch, t, s)
    ensures PackStruct(sch, t, s).Packed?
    ensures ParseRows(sch, t, PackStruct(sch, t, s).json, Zero(sch, t), 0) == Done(Returned(sch, t, s))
    decreases s, 3, 0
  {
    PackStructFits(sch, t, s);
    RowsBack(sch, t, s, Zero(sch, t), 0);
  }

  lemma {:induction false} RowsBack(sch: Schema, t: nat, s: seq<Value>, out: seq<Value>, i: nat)
    requires WellFormed(sch) && t < |sch| && Fits(sch, t, s) && i <= |s| && Midway(sch, t, s, i, out)
    ensures PackStruct(sch, t, s).Packed? && |out| == |s|
    ensures ParseRows(sch, t, PackStruct(sch, t, s).json, out, i) == Done(Returned(sch, t, s))
    decreases s, 2, |s| - i
  {
    hide Fits, Midway, WellFormed, PackRow, PackRows, FitsValue, Counts, Known, Restored, DefaultRow, ParseRow, Returned;
    PackStructFits(sch, t, s);
    MidwayLength(sch, t, s, i, out);
    if i == |s| {
      AllKnown(sch, t, s, out);
    } else if sch[t][i].excludeDecode {
      StepSkipped(sch, t, s, out, i);
      RowsBack(sch, t, s, out, i + 1);
    } else {
      PackedLookup(sch, t, s, |s|, i);
      var row := sch[t][i];
      if !row.excludeEncode && PackRow(sch, t, s, i).Packed? {
        FitsAt(sch, t, s, i);
        RoomMidway(sch, t, s, out, i);
        RowBack(sch, t, s, i, out);
        StepRestored(sch, t, s, out, i);
        RowsBack(sch, t, s, Restored(sch, t, s, i, out), i + 1);
      } else {
        StepDefault(sch, t, s, out, i);
        RowsBack(sch, t, s, DefaultRow(row, out, i).out, i + 1);
      }
    }
  }

  lemma MidwayLength(sch: Schema, t: nat, s: seq<Value>, i: nat, out: seq<Value>)
    requires t < |sch| && |s| == |sch[t]| && i <= |s| && Midway(sch, t, s, i, out)
    ensures |out| == |s|
  {
  }

  lemma FitsAt(sch: Schema, t: nat, s: seq<Value>, i: nat)
    requires t < |sch| && Fits(sch, t, s) && i < |s|
    ensures !sch[t][i].excludeEncode ==> FitsValue(sch, t, s, i)
    ensures FitsExcluded(sch, t, s, i)
  {
    hide FitsValue, FitsExcluded;
  }

  // The rows whose count is kept in row k keep it in an integer row.
  lemma CountRow(sch: Schema, t: nat, s: seq<Value>, a: nat, k: nat)
    requires WellFormed(sch) && t < |sch| && Fits(sch, t, s) && a < |s| && k < |s| && Counts(sch, t, s, a, k)
    ensures sch[t][k].kind == KInteger && s[k].Int? && a != k
  {
    assert TableOk(sch, t) && RowOk(sch, t, a);
    FitsAt(sch, t, s, a);
  }

  lemma AllKnown(sch: Schema, t: nat, s: seq<Value>, out: seq<Value>)
    requires WellFormed(sch) && t < |sch| && Fits(sch, t, s) && Midway(sch, t, s, |s|, out)
    ensures out == Returned(sch, t, s)
  {
    hide Counts, FitsValue, ReturnedValue, WellFormed;
    forall k | 0 <= k < |s|
      ensures Known(sch, t, s, |s|, k) <==> Sent(sch[t][k]) || Brought(sch, t, s, k)
    {
      if a :| 0 <= a < |s| && Counts(sch, t, s, a, k) && !(EncodeOnly(sch[t][k]) && a < k < |s|) {
        CountRow(sch, t, s, a, k);
      }
    }
  }

  lemma RoomMidway(sch: Schema, t: nat, s: seq<Value>, out: seq<Value>, i: nat)
    requires WellFormed(sch) && t < |sch| && |s| == |sch[t]| && Fits(sch, t, s) && i < |s| && Midway(sch, t, s, i, out)
    requires FitsValue(sch, t, s, i)
    ensures Room(sch, t, out, i)
  {
    hide Fits;
    assert TableOk(sch, t) && RowOk(sch, t, i);
    if sch[t][i].kind == KObject && Known(sch, t, s, i, i) {
      var a :| 0 <= a < i && Counts(sch, t, s, a, i);
      CountRow(sch, t, s, a, i);
    }
    if sch[t][i].kind == KArray && CountIndex(sch[t], i).Some? {
      var c := CountIndex(sch[t], i).value;
      if Known(sch, t, s, i, c) && !s[c].Int? {
        if a :| 0 <= a < i && Counts(sch, t, s, a, c) {
          CountRow(sch, t, s, a, c);
        } else {
          FitsAt(sch, t, s, c);
        }
      }
    }
  }

  lemma KnownStep(sch: Schema, t: nat, s: seq<Value>, i: nat, k: nat)
    requires t < |sch| && |s| == |sch[t]| && i < |s| && k < |s|
    ensures Known(sch, t, s, i + 1, k) <==>
      || (Known(sch, t, s, i, k) && !(k == i && EncodeOnly(sch[t][k])))
      || (k == i && Sent(sch[t][k])) || Counts(sch, t, s, i, k)
  {
    hide Counts;
  }

  lemma StepSkipped(sch: Schema, t: nat, s: seq<Value>, out: seq<Value>, i: nat)
    requires t < |sch| && |s| == |sch[t]| && i < |s| && Midway(sch, t, s, i, out) && sch[t][i].excludeDecode
    ensures Midway(sch, t, s, i + 1, out)
  {
    hide Known;
    forall k | 0 <= k < |s|
      ensures Known(sch, t, s, i + 1, k) <==> Known(sch, t, s, i, k)
    {
      KnownStep(sch, t, s, i, k);
    }
  }

  lemma StepRestored(sch: Schema, t: nat, s: seq<Value>, out: seq<Value>, i: nat)
    requires WellFormed(sch) && t < |sch| && |s| == |sch[t]| && Fits(sch, t, s) && i < |s| && |out| == |s| && Midway(sch, t, s, i, out)
    requires Sent(sch[t][i]) && PackRow(sch, t, s, i).Packed? && FitsValue(sch, t, s, i)
    ensures Midway(sch, t, s, i + 1, Restored(sch, t, s, i, out))
  {
    hide Known, Fits, FitsValue, PackRow, WellFormed;
    PackRowFits(sch, t, s, i);
    ArrayValue(sch, t, s, i);
    if sch[t][i].kind == KArray {
      var c := CountIndex(sch[t], i).value;
      assert Counts(sch, t, s, i, c);
      CountRow(sch, t, s, i, c);
      assert ReturnedValue(sch, t, s, c) == s[c];
    }
    hide ReturnedValue;
    forall k | 0 <= k < |s|
      ensures Restored(sch, t, s, i, out)[k] == if Known(sch, t, s, i + 1, k) then ReturnedValue(sch, t, s, k) else ZeroValue(sch, t, k)
    {
      KnownStep(sch, t, s, i, k);
    }
  }

  lemma ArrayValue(sch: Schema, t: nat, s: seq<Value>, i: nat)
    requires t < |sch| && |s| == |sch[t]| && i < |s| && FitsValue(sch, t, s, i)
    ensures sch[t][i].kind == KArray ==> s[i].NoArr? || (s[i].Arr? && CountIndex(sch[t], i).Some?)
  {
  }

  // A row that was not packed is not found; its default leaves the struct as it is.
  lemma StepDefault(sch: Schema, t: nat, s: seq<Value>, out: seq<Value>, i: nat)
    requires WellFormed(sch) && t < |sch| && |s| == |sch[t]| && Fits(sch, t, s) && i < |s| && |out| == |s| && Midway(sch, t, s, i, out)
    requires !sch[t][i].excludeDecode && (sch[t][i].excludeEncode || !PackRow(sch, t, s, i).Packed?)
    ensures sch[t][i].nullable && DefaultRow(sch[t][i], out, i).Done? && |DefaultRow(sch[t][i], out, i).out| == |s|
    ensures Midway(sch, t, s, i + 1, DefaultRow(sch[t][i], out, i).out)
  {
    hide Known, Fits, FitsValue, PackRow;
    assert TableOk(sch, t) && RowOk(sch, t, i);
    FitsAt(sch, t, s, i);
    if !sch[t][i].excludeEncode { PackRowFits(sch, t, s, i); ArrayValue(sch, t, s, i); NullKind(sch, t, s, i); }
    CountsNone(sch, t, s, i);
    forall k | 0 <= k < |s|
      ensures DefaultRow(sch[t][i], out, i).out[k] == if Known(sch, t, s, i + 1, k) then ReturnedValue(sch, t, s, k) else ZeroValue(sch, t, k)
    {
      KnownStep(sch, t, s, i, k);
    }
  }

  lemma NullKind(sch: Schema, t: nat, s: seq<Value>, i: nat)
    requires t < |sch| && |s| == |sch[t]| && i < |s| && FitsValue(sch, t, s, i)
    ensures s[i] == Str(None) ==> sch[t][i].kind == KString
    ensures s[i] == NoArr || s[i] == Arr([]) ==> sch[t][i].kind == KArray
  {
  }

  lemma CountsNone(sch: Schema, t: nat, s: seq<Value>, i: nat)
    requires WellFormed(sch) && t < |sch| && |s| == |sch[t]| && Fits(sch, t, s) && i < |s|
    requires EncodeOnly(sch[t][i]) || Absent(s[i])
    ensures forall k :: 0 <= k < |s| ==> !Counts(sch, t, s, i, k)
  {
    hide Fits, FitsValue;
  }

  // ---- The round trip.

  // What comes back is the struct itself exactly when nothing is lost.
  lemma {:induction false} ReturnedKept(sch: Schema, t: nat, s: seq<Value>)
    requires WellFormed(sch) && t < |sch| && Fits(sch, t, s)
    ensures Returned(sch, t, s) == s <==> Kept(sch, t, s)
    decreases s, 1
  {
    hide WellFormed, FitsValue;
    forall i | 0 <= i < |s|
      ensures Returned(sch, t, s)[i] == s[i] <==> KeptRow(sch, t, s, i)
    {
      FitsAt(sch, t, s, i);
      RowReturned(sch, t, s, i);
    }
  }

  lemma {:induction false} RowReturned(sch: Schema, t: nat, s: seq<Value>, i: nat)
    requires WellFormed(sch) && t < |sch| && Fits(sch, t, s) && i < |s|
    ensures Returned(sch, t, s)[i] == s[i] <==> KeptRow(sch, t, s, i)
    decreases s, 0
  {
    hide Fits, WellFormed;
    assert |s| == |sch[t]| by { FitsLength(sch, t, s); }
    FitsAt(sch, t, s, i);
    var row := sch[t][i];
    if Sent(row) {
      if row.kind == KObject {
        ReturnedKept(sch, row.sub, s[i].fields);
      } else if row.kind == KArray && s[i].Arr? {
        ItemsReturned(sch, row.sub, s[i].items);
      }
    } else {
      ExcludedReturned(sch, t, s, i);
    }
  }

  lemma FitsLength(sch: Schema, t: nat, s: seq<Value>)
    requires t < |sch| && Fits(sch, t, s)
    ensures |s| == |sch[t]|
  {
  }

  lemma {:induction false} ItemsReturned(sch: Schema, sub: nat, items: seq<Value>)
    requires WellFormed(sch) && sub < |sch| && forall m :: 0 <= m < |items| ==> FitsItem(sch, sub, items[m])
    ensures ReturnedItems(sch, sub, items) == items <==> forall m :: 0 <= m < |items| ==> KeptItem(sch, sub, items[m])
    decreases items, 0
  {
    hide WellFormed;
    var r := ReturnedItems(sch, sub, items);
    forall m | 0 <= m < |items|
      ensures r[m] == items[m] <==> KeptItem(sch, sub, items[m])
    {
      assert FitsItem(sch, sub, items[m]) && r[m] == ReturnedItem(sch, sub, items[m]);
      if !Basic(sch[sub]) { ReturnedKept(sch, sub, items[m].fields); }
    }
  }

  // Of the rows not transported, only a count reset after its arrays is lost.
  lemma ExcludedReturned(sch: Schema, t: nat, s: seq<Value>, i: nat)
    requires WellFormed(sch) && t < |sch| && Fits(sch, t, s) && i < |s| && !Sent(sch[t][i])
    ensures Returned(sch, t, s)[i] == s[i] <==> KeptRow(sch, t, s, i)
  {
    FitsLength(sch, t, s);
    FitsAt(sch, t, s, i);
    if a :| 0 <= a < |s| && Counts(sch, t, s, a, i) {
      CountRow(sch, t, s, a, i);
      CountNotZero(sch, t, s, a, i);
      hide Fits, WellFormed, FitsValue, Counts;
    }
  }

  lemma CountNotZero(sch: Schema, t: nat, s: seq<Value>, a: nat, k: nat)
    requires WellFormed(sch) && t < |sch| && Fits(sch, t, s) && a < |s| && k < |s| && Counts(sch, t, s, a, k)
    ensures s[k] == Int(|s[a].items|) && s[k] != ZeroValue(sch, t, k)
  {
    FitsAt(sch, t, s, a);
    CountRow(sch, t, s, a, k);
  }

  // Packing a fitting struct and parsing it into zeroed memory gives it back
  // whole if and only if it is kept.
  lemma RoundTrip(sch: Schema, t: nat, s: seq<Value>)
    requires WellFormed(sch) && t < |sch| && Fits(sch, t, s)
    ensures PackStruct(sch, t, s).Packed?
    ensures ParseRows(sch, t, PackStruct(sch, t, s).json, Zero(sch, t), 0) == Done(s) <==> Kept(sch, t, s)
  {
    Returns(sch, t, s);
    ReturnedKept(sch, t, s);
  }

  // A row that is looked for must be found or be nullable: this is what is
  // asked of a row left out of the JSON only.
  lemma {:induction false} NotFoundFails(sch: Schema, t: nat, j: Json, out: seq<Value>, i: nat, k: nat)
    requires t < |sch| && |out| == |sch[t]| && i <= k < |out|
    requires !sch[t][k].excludeDecode && !sch[t][k].nullable && Lookup(j, sch[t][k].field) == None
    ensures !ParseRows(sch, t, j, out, i).Done?
    decreases k - i
  {
    hide ParseRow, Lookup;
    if i < k {
      if sch[t][i].excludeDecode {
        NotFoundFails(sch, t, j, out, i + 1, k);
      } else {
        match ParseField(sch, t, j, out, i)
        case Done(o) => NotFoundFails(sch, t, j, o, i + 1, k);
        case Wild =>
        case Failed(_, o) =>
          if DefaultRow(sch[t][i], o, i).Done? && sch[t][i].nullable {
            NotFoundFails(sch, t, j, DefaultRow(sch[t][i], o, i).out, i + 1, k);
          }
      }
    }
  }

  // ---- The two ways to lose something.

  // A count left out of the JSON only comes back as it was if and only if an
  // array that it counts stands after it; otherwise it comes back as zero.
  lemma EncodeOnlyCount(sch: Schema, t: nat, s: seq<Value>, a: nat, k: nat)
    requires WellFormed(sch) && t < |sch| && Fits(sch, t, s) && a < |s| && k < |s|
    requires Counts(sch, t, s, a, k) && EncodeOnly(sch[t][k])
    ensures PackStruct(sch, t, s).Packed?
    ensures ParseRows(sch, t, PackStruct(sch, t, s).json, Zero(sch, t), 0).Done?
    ensures var r := ParseRows(sch, t, PackStruct(sch, t, s).json, Zero(sch, t), 0).out;
            && (r[k] == s[k] <==> exists b :: k < b < |s| && Counts(sch, t, s, b, k))
            && (r[k] != s[k] ==> r[k] == Int(0))
  {
    Returns(sch, t, s);
    CountRow(sch, t, s, a, k);
    CountNotZero(sch, t, s, a, k);
    hide Fits, WellFormed, Counts;
  }

  // An array that is not null but has no items is refused by its row: it comes
  // back as a null pointer where the row is nullable, and elsewhere the struct
  // is not packed at all.
  lemma {:induction false} EmptyArrayLost(sch: Schema, t: nat, s: seq<Value>, i: nat)
    requires WellFormed(sch) && t < |sch| && |s| == |sch[t]| && i < |s|
    requires sch[t][i].kind == KArray && !sch[t][i].excludeEncode && s[i] == Arr([])
    requires CountIndex(sch[t], i).Some? && s[CountIndex(sch[t], i).value] == Int(0)
    ensures PackRow(sch, t, s, i) == Refused(ErrMissing)
    ensures !sch[t][i].nullable ==> !PackStruct(sch, t, s).Packed?
    ensures Fits(sch, t, s) && Sent(sch[t][i]) ==>
      PackStruct(sch, t, s).Packed?
      && ParseRows(sch, t, PackStruct(sch, t, s).json, Zero(sch, t), 0).Done?
      && ParseRows(sch, t, PackStruct(sch, t, s).json, Zero(sch, t), 0).out[i] == NoArr
  {
    assert TableOk(sch, t) && RowOk(sch, t, i);
    assert PackItems(sch, sch[t][i].sub, [], 0) == Some([]);
    if !sch[t][i].nullable { RefusedStays(sch, t, s, i, |s|); }
    if Fits(sch, t, s) { Returns(sch, t, s); }
  }

  lemma {:induction false} RefusedStays(sch: Schema, t: nat, s: seq<Value>, i: nat, n: nat)
    requires t < |sch| && |s| == |sch[t]| && i < n <= |s|
    requires !sch[t][i].excludeEncode && !sch[t][i].nullable && sch[t][i].kind != KNull && PackRow(sch, t, s, i).Refused?
    ensures !PackRows(sch, t, s, n).Packed?
    decreases n
  {
    hide PackRow;
    if i < n - 1 { RefusedStays(sch, t, s, i, n - 1); }
  }

  // ---- A count left out of the JSON only, after its array, is lost.

  const Numbers: Table := [Row("0Integer", 4, KInteger, 0, None, true, false, false)]

  const LateCount: Table := [
    Row("items", 8, KArray, 0, Some("n"), true, false, false),
    Row("n", 4, KInteger, 0, None, true, false, true)
  ]

  function LateSchema(): Schema {
    [Numbers, LateCount]
  }

  const Five: Value := Obj([Int(5)])

  const LateStruct: seq<Value> := [Arr([Five]), Int(1)]

  const LateJson: Json := JObject([("items", JArray([JNumber(5.0)]))])

  lemma LatePacked()
    ensures PackStruct(LateSchema(), 1, LateStruct) == Packed(LateJson)
  {
    var sch := LateSchema();
    SmallIsExact(5);
    assert CountIndex(LateCount, 0) == Some(1) by { assert RowIndex(LateCount[1..], "n") == Some(0); }
    assert PackItem(sch, 0, Five) == Packed(JNumber(5.0));
    var items, none: seq<Json> := [Five], [];
    assert PackItems(sch, 0, items, 0) == Some(none);
    assert items[1 - 1] == Five && none + [JNumber(5.0)] == [JNumber(5.0)];
    assert PackItems(sch, 0, items, 1) == Some([JNumber(5.0)]);
    assert PackRow(sch, 1, LateStruct, 0) == Packed(JArray([JNumber(5.0)]));
    assert PackRows(sch, 1, LateStruct, 0) == Packed(JObject([]));
    assert PackRows(sch, 1, LateStruct, 1) == Packed(LateJson);
  }

  lemma LateFits()
    ensures WellFormed(LateSchema()) && Fits(LateSchema(), 1, LateStruct)
  {
    var sch := LateSchema();
    SmallIsExact(5);
    assert CountIndex(LateCount, 0) == Some(1) by { assert RowIndex(LateCount[1..], "n") == Some(0); }
    assert Fits(sch, 0, Five.fields) by { assert FitsValue(sch, 0, Five.fields, 0); }
    assert FitsItem(sch, 0, Five);
    assert Counts(sch, 1, LateStruct, 0, 1);
    assert FitsValue(sch, 1, LateStruct, 0);
  }

  lemma LateReturned()
    ensures Returned(LateSchema(), 1, LateStruct) == [Arr([Five]), Int(0)]
  {
    hide CountIndex;
    var sch := LateSchema();
    assert ReturnedItems(sch, 0, [Five]) == [Five];
    assert ReturnedValue(sch, 1, LateStruct, 0) == Arr([Five]);
    assert !Brought(sch, 1, LateStruct, 1);
    assert ZeroValue(sch, 1, 1) == Int(0);
  }

  lemma LateCountLost()
    ensures PackStruct(LateSchema(), 1, LateStruct) == Packed(LateJson)
    ensures ParseRows(LateSchema(), 1, LateJson, Zero(LateSchema(), 1), 0) == Done([Arr([Five]), Int(0)])
  {
    hide PackStruct, PackRows, ParseRows, Returned, Zero, WellFormed, Fits;
    LatePacked();
    LateFits();
    LateReturned();
    Returns(LateSchema(), 1, LateStruct);
  }
}
