// src/cson.c: the loops over tables and arrays, with their running state, each
// computing the function of CsonCodec that specifies it.
module CsonLoops {
  import opened CsonModel
  import opened CsonCodec

  // getReflexItem
  method FindRow(table: Table, field: string) returns (index: int)
    ensures if RowIndex(table, field).Some? then index == RowIndex(table, field).value else index == -1
  {
    var i := 0;
    while i < |table|
      invariant 0 <= i <= |table|
      invariant forall k :: 0 <= k < i ==> table[k].field != field
    {
      if table[i].field == field {
        FirstRow(table, field, i);
        return i;
      }
      i := i + 1;
    }
    return -1;
  }

  lemma {:induction false} FirstRow(table: Table, field: string, i: nat)
    requires i < |table| && table[i].field == field
    requires forall k :: 0 <= k < i ==> table[k].field != field
    ensures RowIndex(table, field) == Some(i)
  {
    if i > 0 {
      assert table[0].field != field;
      forall k | 0 <= k < i - 1 ensures table[1..][k].field != field { assert table[k + 1].field != field; }
      FirstRow(table[1..], field, i - 1);
    }
  }

  // Once a prefix of the rows is refused or undefined, so is the struct.
  lemma {:induction false} PackStuck(sch: Schema, t: nat, s: seq<Value>, k: nat, n: nat)
    requires t < |sch| && |s| == |sch[t]| && k <= n <= |s| && !PackRows(sch, t, s, k).Packed?
    ensures PackRows(sch, t, s, n) == PackRows(sch, t, s, k)
    decreases n
  {
    if k < n { PackStuck(sch, t, s, k, n - 1); }
  }

  // csonStruct2JsonObj
  method StructToJson(sch: Schema, t: nat, s: seq<Value>) returns (r: Packing)
    requires t < |sch| && |s| == |sch[t]|
    ensures r == PackStruct(sch, t, s)
    decreases s, 1
  {
    hide PackRow;
    var members: seq<(string, Json)> := [];
    var i := 0;
    var ret: Option<Code> := None;
    while i < |s|
      invariant 0 <= i <= |s|
      invariant PackRows(sch, t, s, i) == Packed(JObject(members))
      invariant ret == Leftover(sch, t, s, i)
    {
      var row := sch[t][i];
      if row.excludeEncode {
        i := i + 1;
        continue;
      }
      var packed := Packed(JNull);
      if row.kind != KNull {
        packed := RowToJson(sch, t, s, i);
        if packed == Undefined {
          PackStuck(sch, t, s, i + 1, |s|);
          return Undefined;
        }
        ret := if packed.Refused? then Some(packed.code) else None;
      }
      if ret.Some? {
        if !row.nullable {
          PackStuck(sch, t, s, i + 1, |s|);
          return Refused(ret.value);
        }
      } else if row.kind != KNull {
        members := members + [(row.field, packed.json)];
      }
      i := i + 1;
    }
    return Packed(JObject(members));
  }

  // The dispatch through jsonPackTbl.
  method RowToJson(sch: Schema, t: nat, s: seq<Value>, i: nat) returns (r: Packing)
    requires t < |sch| && |s| == |sch[t]| && i < |s|
    ensures r == PackRow(sch, t, s, i)
    decreases s, 0
  {
    hide PackStruct, PackItems, RowIndex;
    var row := sch[t][i];
    if row.kind == KObject && s[i].Obj? {
      if |s[i].fields| != |sch[row.sub]| {
        WrongShape(sch, row.sub, s[i].fields);
        return Undefined;
      }
      r := StructToJson(sch, row.sub, s[i].fields);
    } else if row.kind == KArray && s[i].Arr? {
      if row.countField.None? { return Refused(ErrMissing); }
      var c := FindRow(sch[t], row.countField.value);
      if c == -1 { return Refused(ErrMissing); }
      if !s[c].Int? { return Undefined; }
      var size := if IntegerSize(sch[t][c].size) then s[c].n else 0;
      r := ArrayToJson(sch, row.sub, s[i].items, size);
    } else {
      r := PackRow(sch, t, s, i);
    }
  }

  lemma WrongShape(sch: Schema, t: nat, s: seq<Value>)
    requires t < |sch| && |s| != |sch[t]|
    ensures PackStruct(sch, t, s) == Undefined
  {
  }

  // The loop of getJsonArray.
  method ArrayToJson(sch: Schema, sub: nat, items: seq<Value>, size: int) returns (r: Packing)
    requires sub < |sch|
    ensures r == PackArray(sch, sub, items, size)
    decreases items, 1
  {
    hide PackItem;
    if size > |items| || (size > 0 && sch[sub] == []) { return Undefined; }
    var array_: seq<Json> := [];
    var successCount := 0;
    var i := 0;
    ghost var n := if size < 0 then 0 else size;
    while i < size
      invariant 0 <= i <= n
      invariant successCount == |array_|
      invariant PackItems(sch, sub, items, i) == Some(array_)
    {
      var item := ItemToJson(sch, sub, items[i]);
      if item.Packed? {
        successCount := successCount + 1;
        array_ := array_ + [item.json];
      } else if item.Undefined? || Basic(sch[sub]) {
        ItemsStuck(sch, sub, items, i + 1, n);
        return Undefined;
      }
      i := i + 1;
    }
    return if successCount == 0 then Refused(ErrMissing) else Packed(JArray(array_));
  }

  lemma {:induction false} ItemsStuck(sch: Schema, sub: nat, items: seq<Value>, k: nat, n: nat)
    requires sub < |sch| && sch[sub] != [] && k <= n <= |items| && PackItems(sch, sub, items, k).None?
    ensures PackItems(sch, sub, items, n).None?
    decreases n
  {
    if k < n { ItemsStuck(sch, sub, items, k, n - 1); }
  }

  method ItemToJson(sch: Schema, sub: nat, item: Value) returns (r: Packing)
    requires sub < |sch| && sch[sub] != []
    ensures r == PackItem(sch, sub, item)
    decreases item, 2
  {
    hide PackRow, PackStruct;
    if !item.Obj? || item.fields == [] { return Undefined; }
    if |item.fields| != |sch[sub]| {
      if Basic(sch[sub]) { return PackRow(sch, sub, item.fields, 0); }
      WrongShape(sch, sub, item.fields);
      return Undefined;
    }
    if Basic(sch[sub]) {
      r := RowToJson(sch, sub, item.fields, 0);
    } else {
      r := StructToJson(sch, sub, item.fields);
    }
  }

  // csonJsonObj2Struct
  method JsonToStruct(sch: Schema, t: nat, j: Json, before: seq<Value>) returns (r: Decoding)
    requires t < |sch| && |before| == |sch[t]|
    ensures r == ParseRows(sch, t, j, before, 0)
    decreases j, 3
  {
    hide ParseRow, Lookup, DefaultRow;
    var out := before;
    var i := 0;
    while i < |sch[t]|
      invariant 0 <= i <= |sch[t]| == |out|
      invariant ParseRows(sch, t, j, before, 0) == ParseRows(sch, t, j, out, i)
    {
      var row := sch[t][i];
      if row.excludeDecode {
        i := i + 1;
        continue;
      }
      var item := Lookup(j, row.field);
      var parsed := Failed(ErrMissing, out);
      if item.Some? {
        if TypesMatch(TypeOf(item.value), row.kind) {
          parsed := JsonToRow(sch, t, item.value, out, i);
        } else {
          parsed := Failed(ErrType, out);
        }
      }
      assert parsed == ParseField(sch, t, j, out, i);
      if parsed.Wild? { return Wild; }
      if parsed.Failed? {
        var reset := DefaultRow(row, parsed.left, i);
        if !reset.Done? { return Wild; }
        if !row.nullable { return Failed(parsed.code, reset.out); }
        DefaultKeepsLength(row, parsed.left, i);
        out := reset.out;
      } else {
        out := parsed.out;
      }
      i := i + 1;
    }
    return Done(out);
  }

  lemma DefaultKeepsLength(row: Row, out: seq<Value>, i: nat)
    requires i < |out| && DefaultRow(row, out, i).Done?
    ensures |DefaultRow(row, out, i).out| == |out|
  {
  }

  // The dispatch through jsonObjProcTbl.
  method JsonToRow(sch: Schema, t: nat, j: Json, out: seq<Value>, i: nat) returns (r: Decoding)
    requires t < |sch| && |out| == |sch[t]| && i < |out|
    ensures r == ParseRow(sch, t, j, out, i)
    decreases j, 4
  {
    hide ParseRows, ParseItems, ParseArray;
    var row := sch[t][i];
    if row.kind == KObject && out[i].Obj? && |out[i].fields| == |sch[row.sub]| {
      var inner := JsonToStruct(sch, row.sub, j, out[i].fields);
      r := match inner
           case Done(f) => Done(out[i := Obj(f)])
           case Failed(code, f) => Failed(code, out[i := Obj(f)])
           case Wild => Wild;
    } else if row.kind == KArray {
      r := JsonToArray(sch, t, j, out, i);
    } else {
      r := ParseRow(sch, t, j, out, i);
    }
  }

  // The loop of parseJsonArray.
  method JsonToArray(sch: Schema, t: nat, j: Json, out: seq<Value>, i: nat) returns (r: Decoding)
    requires t < |sch| && |out| == |sch[t]| && i < |out| && sch[t][i].kind == KArray
    ensures r == ParseArray(sch, t, j, out, i)
    decreases j, 1
  {
    hide ParseItem, RowIndex, StoreArray, Zero;
    if !j.JArray? { return Wild; }
    var c := -1;
    if sch[t][i].countField.Some? {
      c := FindRow(sch[t], sch[t][i].countField.value);
    }
    if j.items == [] {
      if c == -1 { return Done(out); }
      var o := SetCount(sch[t], out, c, 0);
      return if o.Some? then Done(o.value) else Wild;
    }
    if c == -1 { return Failed(ErrMissing, out); }
    var sub := sch[t][i].sub;
    if sch[sub] == [] { return Wild; }
    var blank := Zero(sch, sub);
    var memory := seq(|j.items|, _ => Obj(blank));
    ghost var start := memory;
    assert start == seq(|j.items|, _ => Obj(Zero(sch, sub)));
    var successCount, k := 0, 0;
    while k < |j.items|
      invariant 0 <= successCount <= k <= |j.items| == |memory|
      invariant forall m :: 0 <= m < |memory| ==> memory[m].Obj? && |memory[m].fields| == |sch[sub]|
      invariant ParseItems(sch, sub, j.items, start, 0, 0) == ParseItems(sch, sub, j.items, memory, k, successCount)
    {
      var item := JsonToItem(sch, sub, j.items[k], memory[successCount].fields);
      if item.Wild? { return Wild; }
      if item.Done? {
        memory := memory[successCount := Obj(item.out)];
        successCount := successCount + 1;
      } else {
        memory := memory[successCount := Obj(item.left)];
      }
      k := k + 1;
    }
    r := StoreArray(sch, t, out, i, c, memory, successCount);
  }

  method JsonToItem(sch: Schema, sub: nat, item: Json, slot: seq<Value>) returns (r: Decoding)
    requires sub < |sch| && sch[sub] != [] && |slot| == |sch[sub]|
    ensures r == ParseItem(sch, sub, item, slot)
    decreases item, 5
  {
    hide ParseRow, ParseRows;
    if Basic(sch[sub]) {
      r := JsonToRow(sch, sub, item, slot, 0);
    } else {
      r := JsonToStruct(sch, sub, item, slot);
    }
  }
}
