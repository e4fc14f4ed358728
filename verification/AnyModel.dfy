// src/any.c: dynamically typed values, their equality, duplication and text.
module AnyModel {

  // A type word below 0x01000000 is a plain value; strings, sequences and maps
  // keep their length in its low 24 bits.
  datatype Any =
    | Plain(code: nat, i: int)
    | Str(isConst: bool, text: string)
    | Seq(items: seq<Any>)
    | NoMap                       // a map type with a null pointer
    | Map(entries: seq<Entry>)    // in key order

  datatype Entry = Entry(key: string, val: Any)

  const KNull := 0x01
  const KFalse := 0x02
  const KTrue := 0x03

  predicate IsInteger(code: nat) {
    8 <= code < 16
  }

  predicate IsSigned(code: nat) {
    8 <= code < 12
  }

  predicate IsFloat(code: nat) {
    4 <= code < 8
  }

  const MaxLength: nat := 0x0100_0000

  // ---- Well-formed values: no floats, no null maps, lengths that fit the type
  // word, keys that are C strings and all different.

  predicate DistinctKeys(entries: seq<Entry>) {
    forall i, j :: 0 <= i < j < |entries| ==> entries[i].key != entries[j].key
  }

  predicate Good(v: Any) {
    match v
    case Plain(code, i) => code < 0x0100_0000 && !IsFloat(code)
    case Str(_, text) => |text| < MaxLength
    case Seq(items) => |items| < MaxLength && forall k :: 0 <= k < |items| ==> Good(items[k])
    case NoMap => false
    case Map(entries) => DistinctKeys(entries) && forall k :: 0 <= k < |entries| ==> Good(entries[k].val)
  }

  // ---- any_is_equal.

  // strncmp stops at the first NUL.
  function CText(s: string): (t: string)
    ensures |t| <= |s|
  {
    if s == "" || s[0] == '\0' then "" else [s[0]] + CText(s[1..])
  }

  function FindKey(entries: seq<Entry>, key: string): (k: nat)
    ensures k <= |entries|
    ensures k < |entries| ==> entries[k].key == key
    ensures forall i :: 0 <= i < k ==> entries[i].key != key
  {
    if entries == [] || entries[0].key == key then 0
    else
      var k := FindKey(entries[1..], key);
      assert forall i :: 0 <= i < k ==> entries[1..][i] == entries[i + 1];
      k + 1
  }

  // The type words are equal.
  predicate SameType(a: Any, b: Any) {
    match a
    case Plain(code, _) => b.Plain? && b.code == code
    case Str(c, text) => b.Str? && b.isConst == c && |b.text| == |text|
    case Seq(items) => b.Seq? && |b.items| == |items|
    case NoMap => b.NoMap? || b.Map?
    case Map(_) => b.NoMap? || b.Map?
  }

  predicate Equal(a: Any, b: Any)
    requires Good(a) && Good(b)
    decreases a
  {
    SameType(a, b) &&
    match a
    case Plain(code, i) => IsInteger(code) ==> i == b.i
    case Str(_, text) => CText(text) == CText(b.text)
    case Seq(items) => forall k :: 0 <= k < |items| ==> Equal(items[k], b.items[k])
    case NoMap => true
    case Map(entries) =>
      && (forall k :: 0 <= k < |entries| ==>
            var f := FindKey(b.entries, entries[k].key);
            f < |b.entries| && Equal(entries[k].val, b.entries[f].val))
      && |entries| == |b.entries|
  }

  // ---- Normal forms: what equality looks at, and nothing else.

  datatype Norm =
    | NPlain(code: nat, i: int)
    | NStr(isConst: bool, len: nat, text: string)
    | NSeq(items: seq<Norm>)
    | NMap(entries: map<string, Norm>)

  function Normal(v: Any): Norm
    requires Good(v)
  {
    match v
    case Plain(code, i) => NPlain(code, if IsInteger(code) then i else 0)
    case Str(c, text) => NStr(c, |text|, CText(text))
    case Seq(items) => NSeq(seq(|items|, k requires 0 <= k < |items| => Normal(items[k])))
    case Map(entries) => NMap(NormalEntries(entries, |entries|))
  }

  function NormalEntries(entries: seq<Entry>, n: nat): (m: map<string, Norm>)
    requires n <= |entries| && forall k :: 0 <= k < |entries| ==> Good(entries[k].val)
    decreases entries, n
  {
    if n == 0 then map[]
    else NormalEntries(entries, n - 1)[entries[n - 1].key := Normal(entries[n - 1].val)]
  }

  lemma {:induction false} NormalEntriesKeys(entries: seq<Entry>, n: nat)
    requires n <= |entries| && forall k :: 0 <= k < |entries| ==> Good(entries[k].val)
    ensures forall x :: x in NormalEntries(entries, n) ==> exists k :: 0 <= k < n && entries[k].key == x
    decreases n
  {
    hide Normal, Good;
    if n > 0 { NormalEntriesKeys(entries, n - 1); }
  }

  lemma {:induction false} NormalEntriesSize(entries: seq<Entry>, n: nat)
    requires n <= |entries| && DistinctKeys(entries) && forall k :: 0 <= k < |entries| ==> Good(entries[k].val)
    ensures |NormalEntries(entries, n)| == n
    decreases n
  {
    hide Normal, Good;
    if n > 0 {
      NormalEntriesSize(entries, n - 1);
      NormalEntriesKeys(entries, n - 1);
      var before, key := NormalEntries(entries, n - 1), entries[n - 1].key;
      assert key !in before;
      Grown(before, key, Normal(entries[n - 1].val));
    }
  }

  lemma Grown(m: map<string, Norm>, key: string, x: Norm)
    requires key !in m
    ensures |m[key := x]| == |m| + 1
  {
    assert m[key := x].Keys == m.Keys + {key};
  }

  lemma {:induction false} NormalEntriesValues(entries: seq<Entry>, n: nat, k: nat)
    requires k < n <= |entries| && DistinctKeys(entries) && forall j :: 0 <= j < |entries| ==> Good(entries[j].val)
    ensures entries[k].key in NormalEntries(entries, n)
    ensures NormalEntries(entries, n)[entries[k].key] == Normal(entries[k].val)
    decreases n
  {
    hide Normal, Good;
    if k < n - 1 { NormalEntriesValues(entries, n - 1, k); }
  }

  lemma NormalEntriesAre(entries: seq<Entry>, n: nat)
    requires n <= |entries| && DistinctKeys(entries) && forall k :: 0 <= k < |entries| ==> Good(entries[k].val)
    ensures var m := NormalEntries(entries, n);
            && (forall k :: 0 <= k < n ==> entries[k].key in m && m[entries[k].key] == Normal(entries[k].val))
            && (forall x :: x in m ==> exists k :: 0 <= k < n && entries[k].key == x)
            && |m| == n
  {
    hide Normal, Good, NormalEntries;
    NormalEntriesKeys(entries, n);
    NormalEntriesSize(entries, n);
    forall k | 0 <= k < n
      ensures entries[k].key in NormalEntries(entries, n) && NormalEntries(entries, n)[entries[k].key] == Normal(entries[k].val)
    {
      NormalEntriesValues(entries, n, k);
    }
  }

  // Equality is equality of normal forms.
  lemma {:induction false} EqualIsNormal(a: Any, b: Any)
    requires Good(a) && Good(b)
    ensures Equal(a, b) <==> Normal(a) == Normal(b)
    decreases a
  {
    match a
    case Seq(items) =>
      if b.Seq? {
        assert |Normal(a).items| == |items| && |Normal(b).items| == |b.items|;
      }
      if b.Seq? && |b.items| == |items| {
        forall k | 0 <= k < |items|
          ensures Equal(items[k], b.items[k]) <==> Normal(items[k]) == Normal(b.items[k])
        {
          EqualIsNormal(items[k], b.items[k]);
        }
        SeqEqualIsNormal(items, b.items);
      }
    case Map(entries) =>
      if b.Map? {
        forall k, f | 0 <= k < |entries| && 0 <= f < |b.entries|
          ensures Equal(entries[k].val, b.entries[f].val) <==> Normal(entries[k].val) == Normal(b.entries[f].val)
        {
          EqualIsNormal(entries[k].val, b.entries[f].val);
        }
        MapsEqual(a, b);
      }
    case _ =>
  }

  lemma SeqEqualIsNormal(s: seq<Any>, t: seq<Any>)
    requires Good(Seq(s)) && Good(Seq(t)) && |s| == |t|
    requires forall k :: 0 <= k < |s| ==> (Equal(s[k], t[k]) <==> Normal(s[k]) == Normal(t[k]))
    ensures Equal(Seq(s), Seq(t)) <==> Normal(Seq(s)) == Normal(Seq(t))
  {
    SequencesEqual(s, t);
  }

  lemma SequencesEqual(s: seq<Any>, t: seq<Any>)
    requires Good(Seq(s)) && Good(Seq(t)) && |s| == |t|
    ensures Normal(Seq(s)) == Normal(Seq(t)) <==> forall k :: 0 <= k < |s| ==> Normal(s[k]) == Normal(t[k])
  {
    var m, n := Normal(Seq(s)).items, Normal(Seq(t)).items;
    if m == n {
      forall k | 0 <= k < |s| ensures Normal(s[k]) == Normal(t[k]) { assert m[k] == n[k]; }
    }
    if forall k :: 0 <= k < |s| ==> Normal(s[k]) == Normal(t[k]) {
      assert m == n;
    }
  }

  lemma MapsEqual(a: Any, b: Any)
    requires Good(a) && Good(b) && a.Map? && b.Map?
    requires forall k, f :: 0 <= k < |a.entries| && 0 <= f < |b.entries| ==>
      (Equal(a.entries[k].val, b.entries[f].val) <==> Normal(a.entries[k].val) == Normal(b.entries[f].val))
    ensures Equal(a, b) <==> Normal(a) == Normal(b)
  {
    hide NormalEntries, Good;
    NormalMap(a);
    NormalMap(b);
    var m, n := Normal(a).entries, Normal(b).entries;
    NormalEntriesAre(a.entries, |a.entries|);
    NormalEntriesAre(b.entries, |b.entries|);
    if Equal(a, b) {
      IncludedWhenEqual(a.entries, b.entries, m, n);
      SameSize(m, n);
    }
    if m == n { EqualWhenSame(a.entries, b.entries, m); }
  }

  lemma NormalMap(v: Any)
    requires Good(v) && v.Map?
    ensures DistinctKeys(v.entries) && forall k :: 0 <= k < |v.entries| ==> Good(v.entries[k].val)
    ensures Normal(v) == NMap(NormalEntries(v.entries, |v.entries|))
  {
  }

  lemma IncludedWhenEqual(s: seq<Entry>, t: seq<Entry>, m: map<string, Norm>, n: map<string, Norm>)
    requires Good(Map(s)) && Good(Map(t)) && Equal(Map(s), Map(t))
    requires forall k, f :: 0 <= k < |s| && 0 <= f < |t| ==> (Equal(s[k].val, t[f].val) <==> Normal(s[k].val) == Normal(t[f].val))
    requires forall k :: 0 <= k < |s| ==> s[k].key in m && m[s[k].key] == Normal(s[k].val)
    requires forall k :: 0 <= k < |t| ==> t[k].key in n && n[t[k].key] == Normal(t[k].val)
    requires forall x :: x in m ==> exists k :: 0 <= k < |s| && s[k].key == x
    ensures forall x :: x in m ==> x in n && m[x] == n[x]
  {
    forall x | x in m
      ensures x in n && m[x] == n[x]
    {
      var k :| 0 <= k < |s| && s[k].key == x;
      var f := FindKey(t, x);
      assert Equal(s[k].val, t[f].val);
    }
  }

  lemma EqualWhenSame(s: seq<Entry>, t: seq<Entry>, m: map<string, Norm>)
    requires Good(Map(s)) && Good(Map(t)) && |s| == |m| == |t|
    requires forall k, f :: 0 <= k < |s| && 0 <= f < |t| ==> (Equal(s[k].val, t[f].val) <==> Normal(s[k].val) == Normal(t[f].val))
    requires forall k :: 0 <= k < |s| ==> s[k].key in m && m[s[k].key] == Normal(s[k].val)
    requires forall k :: 0 <= k < |t| ==> t[k].key in m && m[t[k].key] == Normal(t[k].val)
    requires forall x :: x in m ==> exists k :: 0 <= k < |t| && t[k].key == x
    ensures Equal(Map(s), Map(t))
  {
    hide Normal;
    forall k | 0 <= k < |s|
      ensures FindKey(t, s[k].key) < |t| && Equal(s[k].val, t[FindKey(t, s[k].key)].val)
    {
      var x := s[k].key;
      assert x in m;
      var f :| 0 <= f < |t| && t[f].key == x;
      assert FindKey(t, x) <= f;
    }
  }

  // A map included in one of the same size is that map.
  lemma SameSize(m: map<string, Norm>, n: map<string, Norm>)
    requires |m| == |n| && forall x :: x in m ==> x in n && m[x] == n[x]
    ensures m == n
  {
    assert m.Keys <= n.Keys;
    SameKeys(m.Keys, n.Keys);
    assert |m.Keys| == |m| && |n.Keys| == |n|;
  }

  lemma SameKeys(s: set<string>, t: set<string>)
    requires s <= t
    ensures |s| == |t| ==> s == t
  {
    if s != t {
      var x :| x in t && x !in s;
      assert s <= t - {x};
      Inside(s, t - {x});
    }
  }

  lemma {:induction false} Inside(s: set<string>, t: set<string>)
    requires s <= t
    ensures |s| <= |t|
    decreases |s|
  {
    if s != {} {
      var x :| x in s;
      Inside(s - {x}, t - {x});
    }
  }

  // Reflexive, symmetric and transitive.
  lemma EqualIsEquivalence(a: Any, b: Any, c: Any)
    requires Good(a) && Good(b) && Good(c)
    ensures Equal(a, a)
    ensures Equal(a, b) ==> Equal(b, a)
    ensures Equal(a, b) && Equal(b, c) ==> Equal(a, c)
  {
    EqualIsNormal(a, a);
    EqualIsNormal(a, b);
    EqualIsNormal(b, a);
    EqualIsNormal(b, c);
    EqualIsNormal(a, c);
  }

  // ---- any_duplicate.

  function Duplicate(v: Any): (d: Any) {
    match v
    case Str(_, text) => Str(false, text)
    case Seq(items) => Seq(seq(|items|, k requires 0 <= k < |items| => Duplicate(items[k])))
    case Map(entries) =>
      Map(seq(|entries|, k requires 0 <= k < |entries| => Entry(entries[k].key, Duplicate(entries[k].val))))
    case _ => v
  }

  predicate NoConst(v: Any) {
    match v
    case Str(c, _) => !c
    case Seq(items) => forall k :: 0 <= k < |items| ==> NoConst(items[k])
    case Map(entries) => forall k :: 0 <= k < |entries| ==> NoConst(entries[k].val)
    case _ => true
  }

  // A duplicate equals its original exactly when there is no const string in it.
  lemma {:induction false} DuplicateEqual(v: Any)
    requires Good(v)
    ensures Good(Duplicate(v)) && NoConst(Duplicate(v))
    ensures Equal(v, Duplicate(v)) <==> NoConst(v)
  {
    match v
    case Seq(items) =>
      forall k | 0 <= k < |items|
        ensures Good(Duplicate(items[k])) && NoConst(Duplicate(items[k]))
        ensures Equal(items[k], Duplicate(items[k])) <==> NoConst(items[k])
      {
        DuplicateEqual(items[k]);
      }
    case Map(entries) =>
      var d := Duplicate(v).entries;
      forall k | 0 <= k < |entries|
        ensures Good(Duplicate(entries[k].val)) && NoConst(Duplicate(entries[k].val))
        ensures Equal(entries[k].val, Duplicate(entries[k].val)) <==> NoConst(entries[k].val)
        ensures FindKey(d, entries[k].key) == k
      {
        DuplicateEqual(entries[k].val);
        assert d[k].key == entries[k].key;
      }
    case _ =>
  }
}
