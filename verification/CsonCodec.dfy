// src/cson.c: packing a struct into JSON and parsing it back, as functions of
// the struct memory. Undefined and Wild mark the paths on which the source
// leaves the C language: reading or calling what is not there.
module CsonCodec {
  import opened CsonModel

  datatype Code = ErrType | ErrMissing | ErrOverflow | ErrArgs

  datatype Packing = Packed(json: Json) | Refused(code: Code) | Undefined

  datatype Decoding = Done(out: seq<Value>) | Failed(code: Code, left: seq<Value>) | Wild

  // getReflexItem: the first row with exactly this name.
  function RowIndex(table: Table, field: string): (r: Option<nat>)
    ensures r.Some? ==> r.value < |table| && table[r.value].field == field
    ensures r.None? ==> forall i :: 0 <= i < |table| ==> table[i].field != field
  {
    if table == [] then None
    else if table[0].field == field then Some(0)
    else
      match RowIndex(table[1..], field)
      case Some(k) => Some(k + 1)
      case None =>
        assert forall i :: 0 < i < |table| ==> table[i] == table[1..][i - 1];
        None
  }

  function CountIndex(table: Table, i: nat): (r: Option<nat>)
    requires i < |table|
    ensures r.Some? ==> r.value < |table|
  {
    if table[i].countField == None then None else RowIndex(table, table[i].countField.value)
  }

  // Tables of basic types have a name starting with '0'.
  predicate Basic(table: Table) {
    table != [] && table[0].field != "" && table[0].field[0] == '0'
  }

  // ---- Packing.

  // jsonPackTbl, applied to row i; a null row has no packer.
  function PackRow(sch: Schema, t: nat, s: seq<Value>, i: nat): Packing
    requires t < |sch| && i < |sch[t]| && i < |s|
    decreases s, 0, 0
  {
    var row := sch[t][i];
    match row.kind
    case KInteger =>
      if !IntegerSize(row.size) then Refused(ErrOverflow)
      else if s[i].Int? then Packed(JNumber(ToDouble(s[i].n) as real))
      else Undefined
    case KTrue => PackBool(row, s[i])
    case KFalse => PackBool(row, s[i])
    case KReal =>
      if row.size != 8 then Refused(ErrOverflow)
      else if s[i].Real? then Packed(JNumber(s[i].r))
      else Undefined
    case KString =>
      if !s[i].Str? then Undefined
      else if s[i].s.None? then Refused(ErrMissing)
      else Packed(JString(s[i].s.value))
    case KObject =>
      if s[i].Obj? then PackStruct(sch, row.sub, s[i].fields) else Undefined
    case KArray =>
      if s[i].NoArr? then Refused(ErrMissing)
      else if !s[i].Arr? then Undefined
      else
        var c := CountIndex(sch[t], i);
        if c.None? then Refused(ErrMissing)
        else if c.value >= |s| || !s[c.value].Int? then Undefined
        else
          var size := if IntegerSize(sch[t][c.value].size) then s[c.value].n else 0;
          PackArray(sch, row.sub, s[i].items, size)
    case KNull => Undefined
  }

  // cson_bool takes a char, so only the lowest byte decides.
  function PackBool(row: Row, v: Value): Packing {
    if !IntegerSize(row.size) then Refused(ErrOverflow)
    else if v.Int? then Packed(JBool(v.n % 0x100 != 0))
    else Undefined
  }

  function PackArray(sch: Schema, sub: nat, items: seq<Value>, size: int): Packing
    requires sub < |sch|
    decreases items, 2, 0
  {
    if size > |items| || (size > 0 && sch[sub] == []) then Undefined
    else
      var packed := PackItems(sch, sub, items, if size < 0 then 0 else size);
      if packed.None? then Undefined
      else if packed.value == [] then Refused(ErrMissing)
      else Packed(JArray(packed.value))
  }

  // The first n items; one that cannot be packed is left out, but a basic item
  // that cannot be packed releases a pointer never set.
  function PackItems(sch: Schema, sub: nat, items: seq<Value>, n: nat): Option<seq<Json>>
    requires sub < |sch| && n <= |items| && (n > 0 ==> sch[sub] != [])
    decreases items, 1, n
  {
    if n == 0 then Some([])
    else
      var before := PackItems(sch, sub, items, n - 1);
      if before.None? then None
      else
        match PackItem(sch, sub, items[n - 1])
        case Packed(j) => Some(before.value + [j])
        case Refused(_) => if Basic(sch[sub]) then None else before
        case Undefined => None
  }

  function PackItem(sch: Schema, sub: nat, item: Value): Packing
    requires sub < |sch| && sch[sub] != []
    decreases item, 2, 0
  {
    if !item.Obj? || item.fields == [] then Undefined
    else if Basic(sch[sub]) then PackRow(sch, sub, item.fields, 0)
    else PackStruct(sch, sub, item.fields)
  }

  function PackStruct(sch: Schema, t: nat, s: seq<Value>): Packing
    requires t < |sch|
    decreases s, 1, |sch[t]| + 1
  {
    if |s| != |sch[t]| then Undefined else PackRows(sch, t, s, |s|)
  }

  // The return code left over from the last of the first n rows that was
  // packed; a row of type null has no packer and inherits it.
  function Leftover(sch: Schema, t: nat, s: seq<Value>, n: nat): Option<Code>
    requires t < |sch| && |s| == |sch[t]| && n <= |s|
    decreases s, 1, n
  {
    if n == 0 then None
    else if sch[t][n - 1].excludeEncode || sch[t][n - 1].kind == KNull then Leftover(sch, t, s, n - 1)
    else
      match PackRow(sch, t, s, n - 1)
      case Refused(code) => Some(code)
      case _ => None
  }

  // The first n rows. `Packed` holds the object built so far.
  function PackRows(sch: Schema, t: nat, s: seq<Value>, n: nat): (r: Packing)
    requires t < |sch| && |s| == |sch[t]| && n <= |s|
    ensures r.Packed? ==> r.json.JObject?
    decreases s, 1, n
  {
    if n == 0 then Packed(JObject([]))
    else
      var before := PackRows(sch, t, s, n - 1);
      if !before.Packed? || sch[t][n - 1].excludeEncode then before
      else if sch[t][n - 1].kind == KNull then
        var code := Leftover(sch, t, s, n - 1);
        if code.None? || sch[t][n - 1].nullable then before else Refused(code.value)
      else
        match PackRow(sch, t, s, n - 1)
        case Packed(j) => Packed(JObject(before.json.members + [(sch[t][n - 1].field, j)]))
        case Refused(code) => if sch[t][n - 1].nullable then before else Refused(code)
        case Undefined => Undefined
  }

  // ---- Parsing.

  // getIntegerValue followed by convertInteger.
  datatype Conversion = Number(n: int) | Rejected(code: Code) | Unspecified

  function IntegerOf(j: Json, size: nat): Conversion {
    match j
    case JBool(b) => Sized(if b then 1 else 0, size)
    case JNumber(d) =>
      if d > ToDouble(LlongMax) as real || d < LlongMin as real then Rejected(ErrOverflow)
      else if Truncated(d) > LlongMax then Unspecified
      else Sized(Truncated(d), size)
    case _ => Rejected(ErrArgs)
  }

  // What parseJsonReal reads: the library keeps 1 as the integer value of true,
  // and 0 as that of all other items that are not numbers.
  function RealOf(j: Json): real {
    match j
    case JNumber(d) => d
    case JBool(b) => if b then 1.0 else 0.0
    case _ => 0.0
  }

  function Sized(n: int, size: nat): Conversion {
    if InRange(n, size) then Number(n) else Rejected(ErrOverflow)
  }

  // jsonObjDefaultTbl, applied to row i.
  function DefaultRow(row: Row, out: seq<Value>, i: nat): Decoding
    requires i < |out|
  {
    match row.kind
    case KString => Done(out[i := Str(None)])
    case KArray => Done(out[i := NoArr])
    case KReal => Done(if row.size == 8 then out[i := Real(0.0)] else out)
    case KObject => Wild
    case KNull => Wild
    case _ => Done(if IntegerSize(row.size) then out[i := Int(0)] else out)
  }

  // jsonObjProcTbl, applied to row i.
  function ParseRow(sch: Schema, t: nat, j: Json, out: seq<Value>, i: nat): (r: Decoding)
    requires t < |sch| && |out| == |sch[t]| && i < |out|
    ensures r.Done? ==> |r.out| == |out|
    ensures r.Failed? ==> |r.left| == |out|
    decreases j, 4, 0
  {
    var row := sch[t][i];
    match row.kind
    case KString => if j.JString? then Done(out[i := Str(Some(j.s))]) else Failed(ErrMissing, out)
    case KReal =>
      if row.size != 8 then Failed(ErrOverflow, out)
      else Done(out[i := Real(RealOf(j))])
    case KObject =>
      if !out[i].Obj? || |out[i].fields| != |sch[row.sub]| then Wild
      else
        (match ParseRows(sch, row.sub, j, out[i].fields, 0)
         case Done(f) => Done(out[i := Obj(f)])
         case Failed(code, f) => Failed(code, out[i := Obj(f)])
         case Wild => Wild)
    case KArray => ParseArray(sch, t, j, out, i)
    case KNull => Done(out)
    case _ =>
      match IntegerOf(j, row.size)
      case Number(n) => Done(out[i := Int(n)])
      case Rejected(code) => Failed(code, out)
      case Unspecified => Wild
  }

  function SetCount(table: Table, out: seq<Value>, c: nat, n: int): (r: Option<seq<Value>>)
    requires c < |table| == |out|
    ensures r.Some? ==> |r.value| == |out|
  {
    if out[c].Int? && IntegerSize(table[c].size) then Some(out[c := Int(n)]) else None
  }

  function ParseArray(sch: Schema, t: nat, j: Json, out: seq<Value>, i: nat): (r: Decoding)
    requires t < |sch| && |out| == |sch[t]| && i < |out| && sch[t][i].kind == KArray
    ensures r.Done? ==> |r.out| == |out|
    ensures r.Failed? ==> |r.left| == |out|
    decreases j, 1, 0
  {
    var sub := sch[t][i].sub;
    var c := CountIndex(sch[t], i);
    if !j.JArray? then Wild
    else if j.items == [] then
      if c.None? then Done(out)
      else
        match SetCount(sch[t], out, c.value, 0)
        case Some(o) => Done(o)
        case None => Wild
    else if c.None? then Failed(ErrMissing, out)
    else if sch[sub] == [] then Wild
    else
      var memory := seq(|j.items|, _ => Obj(Zero(sch, sub)));
      match ParseItems(sch, sub, j.items, memory, 0, 0)
      case None => Wild
      case Some((filled, k)) => StoreArray(sch, t, out, i, c.value, filled, k)
  }

  // The end of parseJsonArray: k of the items were parsed.
  function StoreArray(sch: Schema, t: nat, out: seq<Value>, i: nat, c: nat, filled: seq<Value>, k: nat): (r: Decoding)
    requires t < |sch| && |out| == |sch[t]| && i < |out| && c < |out|
    ensures r.Done? ==> |r.out| == |out|
    ensures r.Failed? ==> |r.left| == |out|
  {
    var stored := if InRange(k, sch[t][c].size) then k else 0;
    match SetCount(sch[t], out, c, stored)
    case None => Wild
    case Some(o) =>
      if stored == 0 then Failed(ErrMissing, o[i := NoArr])
      else Done(o[i := Arr(filled)])
  }

  // Items from n on, the next one to be stored in slot k. An item that fails
  // leaves its traces in the slot, which the next item then uses.
  function ParseItems(sch: Schema, sub: nat, items: seq<Json>, memory: seq<Value>, n: nat, k: nat): (r: Option<(seq<Value>, nat)>)
    requires sub < |sch| && sch[sub] != [] && |memory| == |items| && k <= n <= |items|
    requires forall m :: 0 <= m < |memory| ==> memory[m].Obj? && |memory[m].fields| == |sch[sub]|
    decreases items, 0, |items| - n
  {
    if n == |items| then Some((memory, k))
    else
      match ParseItem(sch, sub, items[n], memory[k].fields)
      case Done(o) => ParseItems(sch, sub, items, memory[k := Obj(o)], n + 1, k + 1)
      case Failed(_, o) => ParseItems(sch, sub, items, memory[k := Obj(o)], n + 1, k)
      case Wild => None
  }

  function ParseItem(sch: Schema, sub: nat, item: Json, slot: seq<Value>): (r: Decoding)
    requires sub < |sch| && sch[sub] != [] && |slot| == |sch[sub]|
    ensures r.Done? ==> |r.out| == |slot|
    ensures r.Failed? ==> |r.left| == |slot|
    decreases item, 5, 0
  {
    if Basic(sch[sub]) then ParseRow(sch, sub, item, slot, 0)
    else ParseRows(sch, sub, item, slot, 0)
  }

  // Row i of the table, looked up and checked for its type.
  function ParseField(sch: Schema, t: nat, j: Json, out: seq<Value>, i: nat): (r: Decoding)
    requires t < |sch| && |out| == |sch[t]| && i < |out|
    ensures r.Done? ==> |r.out| == |out|
    ensures r.Failed? ==> |r.left| == |out|
    decreases j, 2, 0
  {
    var item := Lookup(j, sch[t][i].field);
    if item.None? then Failed(ErrMissing, out)
    else if TypesMatch(TypeOf(item.value), sch[t][i].kind) then ParseRow(sch, t, item.value, out, i)
    else Failed(ErrType, out)
  }

  // Rows from i on.
  function ParseRows(sch: Schema, t: nat, j: Json, out: seq<Value>, i: nat): (r: Decoding)
    requires t < |sch| && |out| == |sch[t]| && i <= |out|
    ensures r.Done? ==> |r.out| == |out|
    ensures r.Failed? ==> |r.left| == |out|
    decreases j, 3, |out| - i
  {
    if i == |out| then Done(out)
    else if sch[t][i].excludeDecode then ParseRows(sch, t, j, out, i + 1)
    else
      match ParseField(sch, t, j, out, i)
      case Done(o) => ParseRows(sch, t, j, o, i + 1)
      case Wild => Wild
      case Failed(code, o) =>
        match DefaultRow(sch[t][i], o, i)
        case Done(o') => if sch[t][i].nullable then ParseRows(sch, t, j, o', i + 1) else Failed(code, o')
        case _ => Wild
  }
}
