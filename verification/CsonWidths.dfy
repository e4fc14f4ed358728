// src/cson.c: what parsing writes into integer and bool fields fits their width,
// at every depth, and a number that does not fit is refused.
module CsonWidths {
  import opened CsonModel
  import opened CsonCodec

  // n is a value of a signed integer of size bytes.
  predicate Width(n: int, size: nat) {
    || (size == 1 && -128 <= n <= 127)
    || (size == 2 && -32768 <= n <= 32767)
    || (size == 4 && -2147483648 <= n <= 2147483647)
    || (size == 8 && -9223372036854775808 <= n <= 9223372036854775807)
  }

  predicate IntegerKind(kind: Kind) {
    kind == KInteger || kind == KTrue || kind == KFalse
  }

  // Every integer and bool row holds a value of its width, in the structs below
  // it too.
  ghost predicate Widths(sch: Schema, t: nat, s: seq<Value>)
    requires t < |sch|
    decreases s, 1
  {
    |s| == |sch[t]| && forall i :: 0 <= i < |s| ==> WidthAt(sch, t, s, i)
  }

  ghost predicate WidthAt(sch: Schema, t: nat, s: seq<Value>, i: nat)
    requires t < |sch| && |s| == |sch[t]| && i < |s|
    decreases s, 0
  {
    var row := sch[t][i];
    && (IntegerKind(row.kind) && IntegerSize(row.size) && s[i].Int? ==> Width(s[i].n, row.size))
    && (row.kind == KObject && s[i].Obj? ==> Widths(sch, row.sub, s[i].fields))
    && (row.kind == KArray && s[i].Arr? ==>
          forall m :: 0 <= m < |s[i].items| && s[i].items[m].Obj? ==> Widths(sch, row.sub, s[i].items[m].fields))
  }

  ghost predicate ItemWidths(sch: Schema, sub: nat, memory: seq<Value>)
    requires sub < |sch|
  {
    forall m :: 0 <= m < |memory| && memory[m].Obj? ==> Widths(sch, sub, memory[m].fields)
  }

  // What is left after a parse, done or failed.
  ghost predicate LeavesWidths(sch: Schema, t: nat, r: Decoding)
    requires t < |sch|
  {
    (r.Done? ==> Widths(sch, t, r.out)) && (r.Failed? ==> Widths(sch, t, r.left))
  }

  lemma {:induction false} ZeroWidths(sch: Schema, t: nat)
    requires t < |sch|
    ensures Widths(sch, t, Zero(sch, t))
    decreases t
  {
    forall i | 0 <= i < |sch[t]|
      ensures WidthAt(sch, t, Zero(sch, t), i)
    {
      if sch[t][i].kind == KObject { ZeroWidths(sch, sch[t][i].sub); }
    }
  }

  // Writing one row keeps the others.
  lemma {:induction false} WriteWidths(sch: Schema, t: nat, s: seq<Value>, i: nat, v: Value)
    requires t < |sch| && Widths(sch, t, s) && i < |s|
    requires WidthAt(sch, t, s[i := v], i)
    ensures Widths(sch, t, s[i := v])
  {
    hide Width, IntegerKind;
    var r := s[i := v];
    forall k | 0 <= k < |r|
      ensures WidthAt(sch, t, r, k)
    {
      if k != i { assert WidthAt(sch, t, s, k) && r[k] == s[k]; }
    }
  }

  // Values that hold no integers: strings, reals, null arrays.
  lemma PlainWidths(sch: Schema, t: nat, s: seq<Value>, i: nat, v: Value)
    requires t < |sch| && Widths(sch, t, s) && i < |s|
    requires v.Str? || v.Real? || v.NoArr? || v == Int(0)
    ensures Widths(sch, t, s[i := v])
  {
    WriteWidths(sch, t, s, i, v);
  }

  lemma IntegerWidths(sch: Schema, t: nat, s: seq<Value>, i: nat, n: int)
    requires t < |sch| && Widths(sch, t, s) && i < |s|
    requires InRange(n, sch[t][i].size)
    ensures Widths(sch, t, s[i := Int(n)])
  {
    WriteWidths(sch, t, s, i, Int(n));
  }

  lemma DefaultWidths(sch: Schema, t: nat, s: seq<Value>, i: nat)
    requires t < |sch| && Widths(sch, t, s) && i < |s|
    ensures LeavesWidths(sch, t, DefaultRow(sch[t][i], s, i))
  {
    hide Widths;
    PlainWidths(sch, t, s, i, Str(None));
    PlainWidths(sch, t, s, i, NoArr);
    PlainWidths(sch, t, s, i, Real(0.0));
    PlainWidths(sch, t, s, i, Int(0));
  }

  // After any parse from a struct of the right widths, done or failed, each
  // integer and bool row that was parsed holds a value of its width.
  lemma {:induction false} ParseWidths(sch: Schema, t: nat, j: Json, out: seq<Value>, i: nat)
    requires t < |sch| && i <= |out| && Widths(sch, t, out)
    ensures LeavesWidths(sch, t, ParseRows(sch, t, j, out, i))
    decreases j, 3, |out| - i
  {
    hide Widths, DefaultRow, ParseField;
    WidthsLength(sch, t, out);
    if i < |out| {
      if sch[t][i].excludeDecode {
        ParseWidths(sch, t, j, out, i + 1);
      } else {
        FieldWidths(sch, t, j, out, i);
        match ParseField(sch, t, j, out, i)
        case Done(o) => ParseWidths(sch, t, j, o, i + 1);
        case Wild =>
        case Failed(_, o) =>
          DefaultWidths(sch, t, o, i);
          match DefaultRow(sch[t][i], o, i)
          case Done(o') => WidthsLength(sch, t, o'); if sch[t][i].nullable { ParseWidths(sch, t, j, o', i + 1); }
          case _ =>
      }
    }
  }

  lemma WidthsLength(sch: Schema, t: nat, s: seq<Value>)
    requires t < |sch| && Widths(sch, t, s)
    ensures |s| == |sch[t]|
  {
  }

  lemma {:induction false} FieldWidths(sch: Schema, t: nat, j: Json, out: seq<Value>, i: nat)
    requires t < |sch| && i < |out| == |sch[t]| && Widths(sch, t, out)
    ensures LeavesWidths(sch, t, ParseField(sch, t, j, out, i))
    decreases j, 2, 0
  {
    hide Widths, ParseRow;
    var item := Lookup(j, sch[t][i].field);
    if item.Some? && TypesMatch(TypeOf(item.value), sch[t][i].kind) { RowWidths(sch, t, item.value, out, i); }
  }

  lemma {:induction false} RowWidths(sch: Schema, t: nat, j: Json, out: seq<Value>, i: nat)
    requires t < |sch| && i < |out| == |sch[t]| && Widths(sch, t, out)
    ensures LeavesWidths(sch, t, ParseRow(sch, t, j, out, i))
    decreases j, 5, 0
  {
    hide Widths, ParseRows, ParseArray, ToDouble, Truncated;
    var row := sch[t][i];
    match row.kind
    case KString => if j.JString? { PlainWidths(sch, t, out, i, Str(Some(j.s))); }
    case KReal => PlainWidths(sch, t, out, i, Real(RealOf(j)));
    case KObject => ObjectWidths(sch, t, j, out, i);
    case KArray => ArrayWidths(sch, t, j, out, i);
    case KNull =>
    case _ =>
      if IntegerOf(j, row.size).Number? {
        assert InRange(IntegerOf(j, row.size).n, row.size);
        IntegerWidths(sch, t, out, i, IntegerOf(j, row.size).n);
      }
  }

  lemma {:induction false} ObjectWidths(sch: Schema, t: nat, j: Json, out: seq<Value>, i: nat)
    requires t < |sch| && i < |out| == |sch[t]| && Widths(sch, t, out) && sch[t][i].kind == KObject
    ensures LeavesWidths(sch, t, ParseRow(sch, t, j, out, i))
    decreases j, 4, 0
  {
    hide Widths, ParseRows;
    var sub := sch[t][i].sub;
    if out[i].Obj? && |out[i].fields| == |sch[sub]| {
      FieldsWidths(sch, t, out, i);
      ParseWidths(sch, sub, j, out[i].fields, 0);
      match ParseRows(sch, sub, j, out[i].fields, 0)
      case Done(f) => WriteWidths(sch, t, out, i, Obj(f));
      case Failed(_, f) => WriteWidths(sch, t, out, i, Obj(f));
      case Wild =>
    }
  }

  lemma FieldsWidths(sch: Schema, t: nat, s: seq<Value>, i: nat)
    requires t < |sch| && Widths(sch, t, s) && i < |s| && sch[t][i].kind == KObject && s[i].Obj?
    ensures Widths(sch, sch[t][i].sub, s[i].fields)
  {
    assert WidthAt(sch, t, s, i);
  }

  lemma {:induction false} ArrayWidths(sch: Schema, t: nat, j: Json, out: seq<Value>, i: nat)
    requires t < |sch| && i < |out| == |sch[t]| && Widths(sch, t, out) && sch[t][i].kind == KArray
    ensures LeavesWidths(sch, t, ParseArray(sch, t, j, out, i))
    decreases j, 1, 0
  {
    hide Widths, ParseItems, StoreArray, SetCount, Zero;
    var sub, c := sch[t][i].sub, CountIndex(sch[t], i);
    if j.JArray? && c.Some? {
      if j.items == [] {
        CountWidths(sch, t, out, c.value, 0);
      } else if sch[sub] != [] {
        var memory := seq(|j.items|, _ => Obj(Zero(sch, sub)));
        ZeroWidths(sch, sub);
        ItemsWidths(sch, sub, j.items, memory, 0, 0);
        match ParseItems(sch, sub, j.items, memory, 0, 0)
        case None =>
        case Some((filled, k)) => StoreWidths(sch, t, out, i, c.value, filled, k);
      }
    }
  }

  lemma CountWidths(sch: Schema, t: nat, out: seq<Value>, c: nat, n: int)
    requires t < |sch| && |out| == |sch[t]| && c < |out| && Widths(sch, t, out)
    requires n == 0 || InRange(n, sch[t][c].size)
    ensures SetCount(sch[t], out, c, n).Some? ==> Widths(sch, t, SetCount(sch[t], out, c, n).value)
  {
    hide Widths;
    if n == 0 { PlainWidths(sch, t, out, c, Int(0)); } else { IntegerWidths(sch, t, out, c, n); }
  }

  lemma StoreWidths(sch: Schema, t: nat, out: seq<Value>, i: nat, c: nat, filled: seq<Value>, k: nat)
    requires t < |sch| && |out| == |sch[t]| && i < |out| && c < |out| && Widths(sch, t, out) && sch[t][i].kind == KArray
    requires ItemWidths(sch, sch[t][i].sub, filled)
    ensures LeavesWidths(sch, t, StoreArray(sch, t, out, i, c, filled, k))
  {
    hide Widths, SetCount;
    var stored := if InRange(k, sch[t][c].size) then k else 0;
    CountWidths(sch, t, out, c, stored);
    match SetCount(sch[t], out, c, stored)
    case None =>
    case Some(o) =>
      PlainWidths(sch, t, o, i, NoArr);
      WriteWidths(sch, t, o, i, Arr(filled));
  }

  lemma {:induction false} ItemsWidths(sch: Schema, sub: nat, items: seq<Json>, memory: seq<Value>, n: nat, k: nat)
    requires sub < |sch| && sch[sub] != [] && |memory| == |items| && k <= n <= |items|
    requires forall m :: 0 <= m < |memory| ==> memory[m].Obj? && |memory[m].fields| == |sch[sub]|
    requires ItemWidths(sch, sub, memory)
    ensures var r := ParseItems(sch, sub, items, memory, n, k);
            r.Some? ==> ItemWidths(sch, sub, r.value.0)
    decreases items, 0, |items| - n
  {
    hide Widths, ParseItem;
    if n < |items| {
      ItemWidth(sch, sub, items[n], memory[k].fields);
      match ParseItem(sch, sub, items[n], memory[k].fields)
      case Done(o) => ItemsWidths(sch, sub, items, memory[k := Obj(o)], n + 1, k + 1);
      case Failed(_, o) => ItemsWidths(sch, sub, items, memory[k := Obj(o)], n + 1, k);
      case Wild =>
    }
  }

  lemma {:induction false} ItemWidth(sch: Schema, sub: nat, item: Json, slot: seq<Value>)
    requires sub < |sch| && sch[sub] != [] && |slot| == |sch[sub]| && Widths(sch, sub, slot)
    ensures LeavesWidths(sch, sub, ParseItem(sch, sub, item, slot))
    decreases item, 6, 0
  {
    hide Widths, ParseRow, ParseRows;
    if Basic(sch[sub]) { RowWidths(sch, sub, item, slot, 0); } else { ParseWidths(sch, sub, item, slot, 0); }
  }

  // In particular from zeroed memory.
  lemma ParsedWidths(sch: Schema, t: nat, j: Json)
    requires t < |sch|
    ensures var r := ParseRows(sch, t, j, Zero(sch, t), 0);
            && (r.Done? ==> Widths(sch, t, r.out))
            && (r.Failed? ==> Widths(sch, t, r.left))
  {
    ZeroWidths(sch, t);
    ParseWidths(sch, t, j, Zero(sch, t), 0);
  }

  // ---- Numbers.

  // n is d without its fraction.
  predicate Whole(n: int, d: real) {
    if d >= 0.0 then n as real <= d < n as real + 1.0 else n as real - 1.0 < d <= n as real
  }

  // A number between the ends of a 64-bit integer is stored without its fraction
  // if that fits the width of the row, and is refused with ErrOverflow if not.
  lemma NumberStored(sch: Schema, t: nat, d: real, out: seq<Value>, i: nat, n: int)
    requires t < |sch| && |out| == |sch[t]| && i < |out| && IntegerKind(sch[t][i].kind)
    requires -9223372036854775808.0 <= d < 9223372036854775808.0 && Whole(n, d)
    ensures ParseRow(sch, t, JNumber(d), out, i)
            == if Width(n, sch[t][i].size) then Done(out[i := Int(n)]) else Decoding.Failed(ErrOverflow, out)
  {
    LargestDouble();
    WholeIs(n, d);
  }

  lemma LargestDouble()
    ensures ToDouble(LlongMax) == 9223372036854775808
  {
  }

  lemma WholeIs(n: int, d: real)
    requires Whole(n, d)
    ensures Truncated(d) == n
  {
  }

  // One beyond them is refused, whatever the width.
  lemma NumberBeyond(sch: Schema, t: nat, d: real, out: seq<Value>, i: nat)
    requires t < |sch| && |out| == |sch[t]| && i < |out| && IntegerKind(sch[t][i].kind)
    requires d < -9223372036854775808.0 || d > 9223372036854775808.0
    ensures ParseRow(sch, t, JNumber(d), out, i) == Decoding.Failed(ErrOverflow, out)
  {
    LargestDouble();
  }

  // Between the two stands 2 to the 63rd, which is let through and then converted,
  // though no 64-bit integer holds it.
  lemma NumberBetween(sch: Schema, t: nat, out: seq<Value>, i: nat)
    requires t < |sch| && |out| == |sch[t]| && i < |out| && IntegerKind(sch[t][i].kind)
    ensures ParseRow(sch, t, JNumber(9223372036854775808.0), out, i) == Wild
  {
    LargestDouble();
  }

  // d does not fit an integer field of size bytes.
  ghost predicate TooWide(d: real, size: nat) {
    || d < -9223372036854775808.0 || d > 9223372036854775808.0
    || (d < 9223372036854775808.0 && forall n :: Whole(n, d) ==> !Width(n, size))
  }

  // Such a number in a row that is not nullable fails the parse with ErrOverflow;
  // a nullable row is left at 0, and the parse goes on.
  lemma OverflowRefused(sch: Schema, t: nat, j: Json, d: real, out: seq<Value>, i: nat)
    requires t < |sch| && |out| == |sch[t]| && i < |out|
    requires sch[t][i].kind == KInteger && !sch[t][i].excludeDecode
    requires Lookup(j, sch[t][i].field) == Some(JNumber(d)) && TooWide(d, sch[t][i].size)
    ensures var left := if IntegerSize(sch[t][i].size) then out[i := Int(0)] else out;
            ParseRows(sch, t, j, out, i)
            == if sch[t][i].nullable then ParseRows(sch, t, j, left, i + 1) else Decoding.Failed(ErrOverflow, left)
  {
    hide Lookup;
    if -9223372036854775808.0 <= d < 9223372036854775808.0 {
      var n := Truncated(d);
      assert Whole(n, d);
      NumberStored(sch, t, d, out, i, n);
    } else {
      NumberBeyond(sch, t, d, out, i);
    }
  }
}
