// src/cson.c: which row decides the return code, what a row that is not parsed is
// reset to, which items an array keeps, and how names are compared.
module CsonCodes {
  import opened CsonModel
  import opened CsonCodec

  // ---- Names.

  // Two characters that are the same letter, in either case, or the same.
  predicate SameLetter(a: char, b: char) {
    || a == b
    || ('A' <= a <= 'Z' && b as int == a as int + 32)
    || ('A' <= b <= 'Z' && a as int == b as int + 32)
  }

  lemma SameNameMeans(a: string, b: string)
    ensures SameName(a, b) <==> |a| == |b| && forall i :: 0 <= i < |a| ==> SameLetter(a[i], b[i])
  {
    forall c: char, d: char
      ensures Lower(c) == Lower(d) <==> SameLetter(c, d)
    {
      LowerMeans(c, d);
    }
  }

  lemma LowerMeans(c: char, d: char)
    ensures Lower(c) == Lower(d) <==> SameLetter(c, d)
  {
  }

  // The member found is the first of that name.
  lemma {:induction false} LookupFirst(members: seq<(string, Json)>, field: string) returns (k: nat)
    ensures k <= |members| && forall i :: 0 <= i < k ==> !SameName(field, members[i].0)
    ensures LookupIn(members, field) == if k < |members| then Some(members[k].1) else None
    ensures k < |members| ==> SameName(field, members[k].0)
    decreases |members|
  {
    if members == [] || SameName(field, members[0].0) {
      k := 0;
    } else {
      k := LookupFirst(members[1..], field);
      k := k + 1;
      assert forall i :: 0 < i < k ==> members[i] == members[1..][i - 1];
    }
  }

  // The row found is the first of that name.
  lemma {:induction false} RowFirst(table: Table, field: string)
    ensures var r := RowIndex(table, field);
            r.Some? ==> forall i :: 0 <= i < r.value ==> table[i].field != field
  {
    if table != [] && table[0].field != field {
      RowFirst(table[1..], field);
      assert forall i :: 0 < i < |table| ==> table[i] == table[1..][i - 1];
    }
  }

  // ---- Packing.

  // Row j does not stop the packing.
  predicate Passes(sch: Schema, t: nat, s: seq<Value>, j: nat)
    requires t < |sch| && |s| == |sch[t]| && j < |s|
  {
    var p := PackRow(sch, t, s, j);
    sch[t][j].excludeEncode || p.Packed? || (p.Refused? && sch[t][j].nullable)
  }

  // The first row that does decides the result: what it was refused for.
  lemma {:induction false} FirstRefusal(sch: Schema, t: nat, s: seq<Value>, i: nat, n: nat)
    requires t < |sch| && i < n <= |s| == |sch[t]|
    requires forall j :: 0 <= j <= i ==> sch[t][j].kind != KNull
    requires forall j :: 0 <= j < i ==> Passes(sch, t, s, j)
    requires !Passes(sch, t, s, i)
    ensures PackRows(sch, t, s, n) == PackRow(sch, t, s, i)
    decreases n
  {
    hide PackRow;
    if n == i + 1 { AllPass(sch, t, s, i); } else { FirstRefusal(sch, t, s, i, n - 1); }
  }

  // If none does, exactly the rows packed become members, in order.
  lemma {:induction false} AllPass(sch: Schema, t: nat, s: seq<Value>, n: nat)
    requires t < |sch| && n <= |s| == |sch[t]|
    requires forall j :: 0 <= j < n ==> sch[t][j].kind != KNull && Passes(sch, t, s, j)
    ensures PackRows(sch, t, s, n) == Packed(JObject(Members(sch, t, s, n)))
    decreases n
  {
    hide PackRow;
    if n > 0 { AllPass(sch, t, s, n - 1); }
  }

  function Members(sch: Schema, t: nat, s: seq<Value>, n: nat): (m: seq<(string, Json)>)
    requires t < |sch| && n <= |s| == |sch[t]|
  {
    if n == 0 then []
    else
      Members(sch, t, s, n - 1)
      + if !sch[t][n - 1].excludeEncode && PackRow(sch, t, s, n - 1).Packed? then [(sch[t][n - 1].field, PackRow(sch, t, s, n - 1).json)] else []
  }

  // Integers and reals of an unsupported size overflow; null strings, null arrays
  // and arrays without a count field are missing.
  lemma RefusedFor(sch: Schema, t: nat, s: seq<Value>, i: nat)
    requires t < |sch| && i < |s| == |sch[t]| && PackRow(sch, t, s, i).Refused?
    requires sch[t][i].kind != KObject
    ensures PackRow(sch, t, s, i).code == if sch[t][i].kind == KString || sch[t][i].kind == KArray then ErrMissing else ErrOverflow
  {
    hide PackItems;
  }

  // Only the lowest byte of a bool field counts: 256 is packed as false.
  lemma BoolByte(row: Row, n: int)
    requires IntegerSize(row.size)
    ensures PackBool(row, Int(n)) == Packed(JBool(n % 256 != 0))
    ensures PackBool(row, Int(256)) == Packed(JBool(false))
  {
  }

  // The JSON array holds the items that can be packed, in order and no others.
  lemma {:induction false} PackedFrom(sch: Schema, sub: nat, items: seq<Value>, n: nat) returns (from: seq<nat>)
    requires sub < |sch| && sch[sub] != [] && n <= |items| && PackItems(sch, sub, items, n).Some?
    ensures var packed := PackItems(sch, sub, items, n).value;
            && |from| == |packed|
            && (forall k :: 0 <= k < |from| ==> from[k] < n && PackItem(sch, sub, items[from[k]]) == Packed(packed[k]))
    ensures forall k, l :: 0 <= k < l < |from| ==> from[k] < from[l]
    ensures forall m :: 0 <= m < n && PackItem(sch, sub, items[m]).Packed? ==> m in from
    decreases n
  {
    hide PackItem;
    if n == 0 {
      from := [];
    } else {
      from := PackedFrom(sch, sub, items, n - 1);
      if PackItem(sch, sub, items[n - 1]).Packed? { from := from + [n - 1]; }
    }
  }

  // A basic item that is refused ends it: a pointer never set would be released.
  lemma {:induction false} BasicRefusal(sch: Schema, sub: nat, items: seq<Value>, m: nat, n: nat)
    requires sub < |sch| && sch[sub] != [] && m < n <= |items|
    requires Basic(sch[sub]) && PackItem(sch, sub, items[m]).Refused?
    ensures PackItems(sch, sub, items, n) == None
    decreases n
  {
    hide PackItem;
    if m < n - 1 { BasicRefusal(sch, sub, items, m, n - 1); }
  }

  // A null row has no packer and takes over the code of the last row packed
  // before it: it fails if that one was refused and it is not nullable itself.
  lemma {:induction false} NullRowCode(sch: Schema, t: nat, s: seq<Value>, m: nat, n: nat)
    requires t < |sch| && m < n <= |s| == |sch[t]|
    requires !sch[t][m].excludeEncode && sch[t][m].kind != KNull && PackRow(sch, t, s, m).Refused?
    requires forall k :: m < k < n ==> sch[t][k].excludeEncode || sch[t][k].kind == KNull
    requires !sch[t][n - 1].excludeEncode && sch[t][n - 1].kind == KNull && PackRows(sch, t, s, n - 1).Packed?
    ensures PackRows(sch, t, s, n)
            == if sch[t][n - 1].nullable then PackRows(sch, t, s, n - 1) else Refused(PackRow(sch, t, s, m).code)
  {
    hide PackRow;
    LeftoverFrom(sch, t, s, m, n - 1);
  }

  lemma {:induction false} LeftoverFrom(sch: Schema, t: nat, s: seq<Value>, m: nat, n: nat)
    requires t < |sch| && m < n <= |s| == |sch[t]|
    requires !sch[t][m].excludeEncode && sch[t][m].kind != KNull && PackRow(sch, t, s, m).Refused?
    requires forall k :: m < k < n ==> sch[t][k].excludeEncode || sch[t][k].kind == KNull
    ensures Leftover(sch, t, s, n) == Some(PackRow(sch, t, s, m).code)
    decreases n
  {
    hide PackRow;
    if m < n - 1 { LeftoverFrom(sch, t, s, m, n - 1); }
  }

  // ---- Parsing.

  // What row i is reset to: zero, of a size it supports.
  function Reset(row: Row, out: seq<Value>, i: nat): seq<Value>
    requires i < |out|
  {
    if row.kind == KString then out[i := Str(None)]
    else if row.kind == KArray then out[i := NoArr]
    else if row.kind == KReal then (if row.size == 8 then out[i := Real(0.0)] else out)
    else if row.size == 1 || row.size == 2 || row.size == 4 || row.size == 8 then out[i := Int(0)]
    else out
  }

  predicate Resettable(kind: Kind) {
    kind != KObject && kind != KNull
  }

  // A row that is not found is reset; without it the parse fails or goes on.
  lemma MissingRow(sch: Schema, t: nat, j: Json, out: seq<Value>, i: nat)
    requires t < |sch| && i < |out| == |sch[t]| && !sch[t][i].excludeDecode && Resettable(sch[t][i].kind)
    requires Lookup(j, sch[t][i].field) == None
    ensures var left := Reset(sch[t][i], out, i);
            ParseRows(sch, t, j, out, i)
            == if sch[t][i].nullable then ParseRows(sch, t, j, left, i + 1) else Decoding.Failed(ErrMissing, left)
  {
    hide Lookup, ParseRow;
  }

  // An item is of the type of a row.
  predicate Suits(item: Json, kind: Kind) {
    match item
    case JObject(_) => kind == KObject
    case JArray(_) => kind == KArray
    case JString(_) => kind == KString
    case JNumber(_) => kind == KInteger || kind == KReal
    case JBool(_) => kind == KTrue || kind == KFalse
    case JNull => kind == KNull
  }

  // So is one found with an item of another type.
  lemma MistypedRow(sch: Schema, t: nat, j: Json, out: seq<Value>, i: nat, item: Json)
    requires t < |sch| && i < |out| == |sch[t]| && !sch[t][i].excludeDecode && Resettable(sch[t][i].kind)
    requires Lookup(j, sch[t][i].field) == Some(item)
    ensures TypesMatch(TypeOf(item), sch[t][i].kind) <==> Suits(item, sch[t][i].kind)
    ensures !Suits(item, sch[t][i].kind) ==>
      var left := Reset(sch[t][i], out, i);
      ParseRows(sch, t, j, out, i)
      == if sch[t][i].nullable then ParseRows(sch, t, j, left, i + 1) else Decoding.Failed(ErrType, left)
  {
    hide Lookup, ParseRow;
  }

  // An empty JSON array makes the count 0 and leaves the pointer as it was.
  lemma EmptyArrayParsed(sch: Schema, t: nat, out: seq<Value>, i: nat, c: nat)
    requires t < |sch| && i < |out| == |sch[t]| && sch[t][i].kind == KArray && CountIndex(sch[t], i) == Some(c)
    requires out[c].Int? && IntegerSize(sch[t][c].size)
    ensures ParseRow(sch, t, JArray([]), out, i) == Done(out[c := Int(0)])
  {
  }

  // An array of which no item is stored is null, with count 0.
  lemma NoneStored(sch: Schema, t: nat, out: seq<Value>, i: nat, c: nat, filled: seq<Value>, k: nat)
    requires t < |sch| && i < |out| == |sch[t]| && c < |out| && c != i
    requires out[c].Int? && IntegerSize(sch[t][c].size) && (k == 0 || !InRange(k, sch[t][c].size))
    ensures StoreArray(sch, t, out, i, c, filled, k) == Decoding.Failed(ErrMissing, out[c := Int(0)][i := NoArr])
  {
  }

  // A real row given something else takes the integer an integer row would.
  lemma RealFromOther(b: bool)
    ensures IntegerOf(JBool(b), 1) == Number(if b then 1 else 0)
    ensures RealOf(JBool(b)) == IntegerOf(JBool(b), 1).n as real
  {
  }

  // A null row found with a null is passed over; neither it nor an object row can
  // be reset, so one of them that is not found leaves the C language.
  lemma NullRowFound(sch: Schema, t: nat, j: Json, out: seq<Value>, i: nat)
    requires t < |sch| && i < |out| == |sch[t]| && !sch[t][i].excludeDecode && sch[t][i].kind == KNull
    requires Lookup(j, sch[t][i].field) == Some(JNull)
    ensures ParseRows(sch, t, j, out, i) == ParseRows(sch, t, j, out, i + 1)
  {
    hide Lookup;
    assert ParseRow(sch, t, JNull, out, i) == Done(out);
    assert ParseField(sch, t, j, out, i) == Done(out);
  }

  lemma NoReset(sch: Schema, t: nat, j: Json, out: seq<Value>, i: nat)
    requires t < |sch| && i < |out| == |sch[t]| && !sch[t][i].excludeDecode && !Resettable(sch[t][i].kind)
    requires Lookup(j, sch[t][i].field) == None
    ensures ParseRows(sch, t, j, out, i) == Wild
  {
    hide Lookup;
  }

  // A row excluded from decoding is passed over, whatever the JSON holds.
  lemma ExcludedRow(sch: Schema, t: nat, j: Json, out: seq<Value>, i: nat)
    requires t < |sch| && i < |out| == |sch[t]| && sch[t][i].excludeDecode
    ensures ParseRows(sch, t, j, out, i) == ParseRows(sch, t, j, out, i + 1)
  {
  }

  // The items stored are as many as were parsed; the slots before the first of
  // them stay, and an item that fails at the end leaves its traces in the slot
  // after the last one stored.
  lemma {:induction false} SlotsKept(sch: Schema, sub: nat, items: seq<Json>, memory: seq<Value>, n: nat, k: nat)
    requires sub < |sch| && sch[sub] != [] && |memory| == |items| && k <= n <= |items|
    requires forall m :: 0 <= m < |memory| ==> memory[m].Obj? && |memory[m].fields| == |sch[sub]|
    requires ParseItems(sch, sub, items, memory, n, k).Some?
    ensures var (filled, stored) := ParseItems(sch, sub, items, memory, n, k).value;
            && k <= stored <= k + (|items| - n) && |filled| == |memory|
            && (forall m :: 0 <= m < k || stored < m < |filled| ==> filled[m] == memory[m])
    decreases |items| - n
  {
    hide ParseItem;
    if n < |items| {
      match ParseItem(sch, sub, items[n], memory[k].fields)
      case Done(o) => SlotsKept(sch, sub, items, memory[k := Obj(o)], n + 1, k + 1);
      case Failed(_, o) => SlotsKept(sch, sub, items, memory[k := Obj(o)], n + 1, k);
      case Wild =>
    }
  }

  lemma FailedSlot(sch: Schema, sub: nat, items: seq<Json>, memory: seq<Value>, k: nat)
    requires sub < |sch| && sch[sub] != [] && |memory| == |items| && k < |items|
    requires forall m :: 0 <= m < |memory| ==> memory[m].Obj? && |memory[m].fields| == |sch[sub]|
    requires ParseItem(sch, sub, items[|items| - 1], memory[k].fields).Failed?
    ensures ParseItems(sch, sub, items, memory, |items| - 1, k)
            == Some((memory[k := Obj(ParseItem(sch, sub, items[|items| - 1], memory[k].fields).left)], k))
  {
    hide ParseItem;
    var o := ParseItem(sch, sub, items[|items| - 1], memory[k].fields).left;
    assert ParseItems(sch, sub, items, memory[k := Obj(o)], |items|, k) == Some((memory[k := Obj(o)], k));
  }
}
