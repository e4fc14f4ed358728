// src/any.c: what duplicating a value keeps, and what can be read back from its
// text.
module AnyRead {
  import opened AnyModel
  import opened AnyText

  // ---- any_duplicate.

  // The same value, whether strings are const aside.
  predicate SameButConst(a: Any, b: Any) {
    match a
    case Plain(_, _) => b == a
    case Str(_, text) => b.Str? && b.text == text
    case Seq(items) => b.Seq? && |b.items| == |items| && forall k :: 0 <= k < |items| ==> SameButConst(items[k], b.items[k])
    case NoMap => b == a
    case Map(entries) =>
      && b.Map? && |b.entries| == |entries|
      && forall k :: 0 <= k < |entries| ==>
           b.entries[k].key == entries[k].key && SameButConst(entries[k].val, b.entries[k].val)
  }

  // A duplicate is the same value without const strings, and no other value is.
  lemma {:induction false} DuplicateSame(v: Any, d: Any)
    ensures d == Duplicate(v) <==> SameButConst(v, d) && NoConst(d)
  {
    match v
    case Seq(items) =>
      if d.Seq? && |d.items| == |items| {
        var copies := Duplicate(v).items;
        forall k | 0 <= k < |items|
          ensures d.items[k] == copies[k] <==> SameButConst(items[k], d.items[k]) && NoConst(d.items[k])
        {
          DuplicateSame(items[k], d.items[k]);
        }
        if forall k :: 0 <= k < |items| ==> d.items[k] == copies[k] { assert d.items == copies; }
      }
    case Map(entries) =>
      if d.Map? && |d.entries| == |entries| {
        var copies := Duplicate(v).entries;
        forall k | 0 <= k < |entries|
          ensures d.entries[k] == copies[k] <==>
            d.entries[k].key == entries[k].key && SameButConst(entries[k].val, d.entries[k].val) && NoConst(d.entries[k].val)
        {
          DuplicateSame(entries[k].val, d.entries[k].val);
        }
        if forall k :: 0 <= k < |entries| ==> d.entries[k] == copies[k] { assert d.entries == copies; }
      }
    case _ =>
  }

  // So it has the same text,
  lemma {:induction false} SameText(a: Any, b: Any)
    requires SameButConst(a, b)
    ensures Text(a) == Text(b)
    decreases a, 1
  {
    match a
    case Seq(items) => SameItemsText(items, b.items, |items|);
    case Map(entries) => SameEntriesText(entries, b.entries, |entries|);
    case _ =>
  }

  lemma {:induction false} SameItemsText(s: seq<Any>, t: seq<Any>, n: nat)
    requires n <= |s| == |t| && forall k :: 0 <= k < n ==> SameButConst(s[k], t[k])
    ensures ItemsText(s, n) == ItemsText(t, n)
    decreases s, 0, n
  {
    if n > 0 {
      SameText(s[n - 1], t[n - 1]);
      SameItemsText(s, t, n - 1);
    }
  }

  lemma {:induction false} SameEntriesText(s: seq<Entry>, t: seq<Entry>, n: nat)
    requires n <= |s| == |t| && forall k :: 0 <= k < n ==> t[k].key == s[k].key && SameButConst(s[k].val, t[k].val)
    ensures EntriesText(s, n) == EntriesText(t, n)
    decreases s, 0, n
  {
    if n > 0 {
      SameText(s[n - 1].val, t[n - 1].val);
      SameEntriesText(s, t, n - 1);
    }
  }

  lemma DuplicateText(v: Any)
    ensures Text(Duplicate(v)) == Text(v)
  {
    DuplicateSame(v, Duplicate(v));
    SameText(v, Duplicate(v));
  }

  // and any two values that are the same are equal when neither has const strings.
  lemma {:induction false} SameEqual(a: Any, b: Any)
    requires Good(a) && Good(b) && SameButConst(a, b) && NoConst(a) && NoConst(b)
    ensures Equal(a, b)
  {
    DuplicateSame(a, b);
    DuplicateSame(a, a);
    SameSelf(a);
    EqualIsNormal(a, b);
  }

  lemma {:induction false} SameSelf(v: Any)
    ensures SameButConst(v, v)
  {
    match v
    case Seq(items) => forall k | 0 <= k < |items| ensures SameButConst(items[k], items[k]) { SameSelf(items[k]); }
    case Map(entries) =>
      forall k | 0 <= k < |entries| ensures SameButConst(entries[k].val, entries[k].val) { SameSelf(entries[k].val); }
    case _ =>
  }

  // ---- any_is_equal, case by case.

  lemma EqualIntegers(a: nat, i: int, b: nat, j: int)
    requires Good(Plain(a, i)) && Good(Plain(b, j)) && 8 <= a < 16
    ensures Equal(Plain(a, i), Plain(b, j)) <==> a == b && i == j
  {
  }

  // What the comparison of two strings looks at: everything up to the first NUL.
  predicate SameToNul(s: string, t: string) {
    |s| == |t| && forall i :: 0 <= i < |s| && '\0' !in s[..i] ==> s[i] == t[i]
  }

  lemma {:induction false} CTextSame(s: string, t: string)
    requires |s| == |t|
    ensures CText(s) == CText(t) <==> SameToNul(s, t)
    decreases |s|
  {
    if s != "" {
      assert '\0' !in s[..0];
      if s[0] == t[0] && s[0] != '\0' {
        CTextSame(s[1..], t[1..]);
        assert CText(s)[1..] == CText(s[1..]) && CText(t)[1..] == CText(t[1..]);
        forall i | 0 < i < |s|
          ensures '\0' !in s[..i] <==> '\0' !in s[1..][..i - 1]
        {
          assert s[..i] == [s[0]] + s[1..][..i - 1];
        }
        TailSame(s, t);
      } else if s[0] == t[0] {
        forall i | 0 < i < |s| ensures '\0' in s[..i] { assert s[..i][0] == '\0'; }
      }
    }
  }

  lemma TailSame(s: string, t: string)
    requires s != "" && |s| == |t| && s[0] == t[0] && s[0] != '\0'
    requires forall i :: 0 < i < |s| ==> ('\0' !in s[..i] <==> '\0' !in s[1..][..i - 1])
    ensures SameToNul(s, t) <==> SameToNul(s[1..], t[1..])
  {
    if SameToNul(s[1..], t[1..]) {
      forall i | 0 <= i < |s| && '\0' !in s[..i] ensures s[i] == t[i] {
        if i > 0 { assert s[1..][i - 1] == t[1..][i - 1]; }
      }
    }
    if SameToNul(s, t) {
      forall i | 0 <= i < |s| - 1 && '\0' !in s[1..][..i] ensures s[1..][i] == t[1..][i] {
        assert '\0' !in s[..i + 1];
      }
    }
  }

  // Strings are equal when both are const or neither, they are equally long, and
  // they agree as far as their first NUL.
  lemma EqualStrings(c: bool, s: string, d: bool, t: string)
    requires Good(Str(c, s)) && Good(Str(d, t))
    ensures Equal(Str(c, s), Str(d, t)) <==> c == d && SameToNul(s, t)
  {
    if |s| == |t| { CTextSame(s, t); }
  }

  lemma EqualSequences(s: seq<Any>, t: seq<Any>)
    requires Good(Seq(s)) && Good(Seq(t))
    ensures Equal(Seq(s), Seq(t)) <==> |s| == |t| && forall k :: 0 <= k < |s| ==> Equal(s[k], t[k])
  {
  }

  ghost predicate GoodEntries(s: seq<Entry>) {
    DistinctKeys(s) && forall k :: 0 <= k < |s| ==> Good(s[k].val)
  }

  predicate Has(s: seq<Entry>, key: string) {
    exists i :: 0 <= i < |s| && s[i].key == key
  }

  // Maps are equal when they have the same keys and, under each, equal values,
  // in whatever order their entries stand.
  lemma EqualMaps(s: seq<Entry>, t: seq<Entry>)
    requires GoodEntries(s) && GoodEntries(t)
    ensures Good(Map(s)) && Good(Map(t))
    ensures Equal(Map(s), Map(t)) <==>
      && (forall key :: Has(s, key) <==> Has(t, key))
      && (forall i, j :: 0 <= i < |s| && 0 <= j < |t| && s[i].key == t[j].key ==> Equal(s[i].val, t[j].val))
  {
    GoodMap(s);
    GoodMap(t);
    hide Good, Equal, Normal, NormalEntries, GoodEntries;
    EqualIsNormal(Map(s), Map(t));
    var m, n := NormalEntries(s, |s|), NormalEntries(t, |t|);
    forall i, j | 0 <= i < |s| && 0 <= j < |t|
      ensures Equal(s[i].val, t[j].val) <==> Normal(s[i].val) == Normal(t[j].val)
    {
      EqualIsNormal(s[i].val, t[j].val);
    }
    NormalEntriesAre(s, |s|);
    NormalEntriesAre(t, |t|);
    if forall key :: Has(s, key) <==> Has(t, key) { SameEntries(s, t, m, n); }
    if m == n { forall key ensures Has(s, key) <==> Has(t, key) { KeysOf(s, m, key); KeysOf(t, n, key); } }
  }

  lemma KeysOf(s: seq<Entry>, m: map<string, Norm>, key: string)
    requires forall k :: 0 <= k < |s| ==> s[k].key in m
    requires forall x :: x in m ==> exists k :: 0 <= k < |s| && s[k].key == x
    ensures Has(s, key) <==> key in m
  {
  }

  lemma GoodMap(s: seq<Entry>)
    requires GoodEntries(s)
    ensures Good(Map(s)) && Normal(Map(s)) == NMap(NormalEntries(s, |s|))
    ensures DistinctKeys(s) && forall k :: 0 <= k < |s| ==> Good(s[k].val)
  {
  }

  lemma SameEntries(s: seq<Entry>, t: seq<Entry>, m: map<string, Norm>, n: map<string, Norm>)
    requires GoodEntries(s) && GoodEntries(t)
    requires forall key :: Has(s, key) <==> Has(t, key)
    requires forall k :: 0 <= k < |s| ==> s[k].key in m && m[s[k].key] == Normal(s[k].val)
    requires forall k :: 0 <= k < |t| ==> t[k].key in n && n[t[k].key] == Normal(t[k].val)
    requires forall x :: x in m ==> exists k :: 0 <= k < |s| && s[k].key == x
    requires forall x :: x in n ==> exists k :: 0 <= k < |t| && t[k].key == x
    ensures m == n <==> forall i, j :: 0 <= i < |s| && 0 <= j < |t| && s[i].key == t[j].key ==> Normal(s[i].val) == Normal(t[j].val)
  {
    forall key ensures key in m <==> key in n { KeysOf(s, m, key); KeysOf(t, n, key); }
    hide Normal, DistinctKeys;
    if forall i, j :: 0 <= i < |s| && 0 <= j < |t| && s[i].key == t[j].key ==> Normal(s[i].val) == Normal(t[j].val) {
      forall key | key in m ensures m[key] == n[key] {
        var i :| 0 <= i < |s| && s[i].key == key;
        var j :| 0 <= j < |t| && t[j].key == key;
      }
    }
  }

  // ---- Numbers read back.

  // The number a string of digits stands for, most significant digit first.
  function NumberOf(s: string): int {
    if s == "" then 0 else 10 * NumberOf(s[..|s| - 1]) + (s[|s| - 1] as int - '0' as int)
  }

  function IntegerOf(s: string): int {
    if s != "" && s[0] == '-' then -NumberOf(s[1..]) else NumberOf(s)
  }

  predicate IsDigit(c: char) {
    '0' <= c <= '9'
  }

  lemma {:induction false} DigitsRead(n: nat)
    ensures NumberOf(Digits(n)) == n
    ensures forall k :: 0 <= k < |Digits(n)| ==> IsDigit(Digits(n)[k])
    ensures n > 0 ==> Digits(n)[0] != '0'
  {
    if n < 10 {
      assert Digits(n)[..0] == "";
    } else {
      DigitsRead(n / 10);
      var s := Digits(n);
      assert s[..|s| - 1] == Digits(n / 10);
    }
  }

  // A signed integer is read back as it is, an unsigned one modulo 2^64.
  lemma DecimalRead(i: int, signed: bool)
    ensures IntegerOf(Decimal(i, signed)) == if signed then i else i % 0x1_0000_0000_0000_0000
  {
    if signed && i < 0 {
      DigitsRead(-i);
      assert Decimal(i, signed)[1..] == Digits(-i);
    } else {
      DigitsRead(if signed then i else i % 0x1_0000_0000_0000_0000);
    }
  }

  // The types from 8 to 11 are signed, those from 12 to 15 unsigned.
  lemma IntegerText(code: nat, i: int)
    requires 8 <= code < 16
    ensures IntegerOf(Text(Plain(code, i))) == if code < 12 then i else i % 0x1_0000_0000_0000_0000
  {
    DecimalRead(i, code < 12);
  }

  // ---- How much the estimate is too large: what integers are shorter than 20
  // characters, two for each map, one for an empty one, and nothing else.

  function Spare(v: Any): int {
    match v
    case Plain(code, i) => if IsInteger(code) then 20 - |Decimal(i, IsSigned(code))| else 0
    case Str(_, _) => 0
    case Seq(items) => SpareItems(items, |items|)
    case NoMap => 1
    case Map(entries) => (if entries == [] then 1 else 2) + SpareEntries(entries, |entries|)
  }

  function SpareItems(items: seq<Any>, n: nat): int
    requires n <= |items|
    decreases items, n
  {
    if n == 0 then 0 else SpareItems(items, n - 1) + Spare(items[n - 1])
  }

  function SpareEntries(entries: seq<Entry>, n: nat): int
    requires n <= |entries|
    decreases entries, n
  {
    if n == 0 then 0 else SpareEntries(entries, n - 1) + Spare(entries[n - 1].val)
  }

  lemma {:induction false} EstimateExact(v: Any)
    requires Good(v)
    ensures Estimate(v) == |Text(v)| + Spare(v)
    decreases v, 1
  {
    match v
    case Seq(items) => ItemsExact(items, |items|);
    case Map(entries) => EntriesExact(entries, |entries|);
    case _ =>
  }

  lemma {:induction false} ItemsExact(items: seq<Any>, n: nat)
    requires n <= |items| && forall k :: 0 <= k < n ==> Good(items[k])
    ensures ItemsEstimate(items, n) + (if n > 0 then n - 1 else 0) == |ItemsText(items, n)| + SpareItems(items, n)
    decreases items, 0, n
  {
    hide Estimate, Text, Spare;
    if n > 0 {
      ItemsExact(items, n - 1);
      EstimateExact(items[n - 1]);
    }
  }

  lemma {:induction false} EntriesExact(entries: seq<Entry>, n: nat)
    requires n <= |entries| && forall k :: 0 <= k < n ==> Good(entries[k].val)
    ensures EntriesEstimate(entries, n) == |EntriesText(entries, n)| + SpareEntries(entries, n) + (if n > 0 then 1 else 0)
    decreases entries, 0, n
  {
    hide Estimate, Text, Spare;
    if n > 0 {
      EntriesExact(entries, n - 1);
      EstimateExact(entries[n - 1].val);
      assert |EntryText(entries[n - 1])| == |entries[n - 1].key| + 3 + |Text(entries[n - 1].val)|;
    }
  }
}
