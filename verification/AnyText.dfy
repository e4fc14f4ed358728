// src/any.c: the loops of any_is_equal, and the two passes of any_to_json_str:
// one to estimate a length, one to write into a buffer of that length.
module AnyText {
  import opened AnyModel

  // ---- The text of a value.

  function Digit(d: nat): char
    requires d < 10
  {
    (('0' as int) + d) as char
  }

  function Digits(n: nat): (s: string)
    ensures |s| >= 1
  {
    if n < 10 then [Digit(n)] else Digits(n / 10) + [Digit(n % 10)]
  }

  // "%lld", and "%llu" of the same 64 bits.
  function Decimal(i: int, signed: bool): string {
    if signed && i < 0 then "-" + Digits(-i)
    else if signed then Digits(i)
    else Digits(i % 0x1_0000_0000_0000_0000)
  }

  function Text(v: Any): string {
    match v
    case Plain(code, i) =>
      if code == KNull then "null"
      else if code == KTrue then "true"
      else if code == KFalse then "false"
      else if IsInteger(code) then Decimal(i, IsSigned(code))
      else ""
    case Str(_, text) => "\"" + text + "\""
    case Seq(items) => "[" + ItemsText(items, |items|) + "]"
    case NoMap => "{}"
    case Map(entries) => "{" + EntriesText(entries, |entries|) + "}"
  }

  function ItemsText(items: seq<Any>, n: nat): string
    requires n <= |items|
    decreases items, n
  {
    if n == 0 then ""
    else ItemsText(items, n - 1) + (if n > 1 then "," else "") + Text(items[n - 1])
  }

  function EntriesText(entries: seq<Entry>, n: nat): string
    requires n <= |entries|
    decreases entries, n
  {
    if n == 0 then ""
    else EntriesText(entries, n - 1) + (if n > 1 then "," else "") + EntryText(entries[n - 1])
  }

  function EntryText(e: Entry): string
    decreases e
  {
    "\"" + e.key + "\":" + Text(e.val)
  }

  // ---- The estimate.

  function Estimate(v: Any): nat {
    match v
    case Plain(code, i) =>
      if code == KNull then 4
      else if code == KTrue then 4
      else if code == KFalse then 5
      else if IsFloat(code) then 24
      else if IsInteger(code) then 20
      else 0
    case Str(_, text) => |text| + 2
    case Seq(items) => (if |items| > 0 then |items| + 1 else 2) + ItemsEstimate(items, |items|)
    case NoMap => 3
    case Map(entries) => 3 + EntriesEstimate(entries, |entries|)
  }

  function ItemsEstimate(items: seq<Any>, n: nat): nat
    requires n <= |items|
    decreases items, n
  {
    if n == 0 then 0 else ItemsEstimate(items, n - 1) + Estimate(items[n - 1])
  }

  function EntriesEstimate(entries: seq<Entry>, n: nat): nat
    requires n <= |entries|
    decreases entries, n
  {
    if n == 0 then 0
    else EntriesEstimate(entries, n - 1) + |entries[n - 1].key| + 4 + Estimate(entries[n - 1].val)
  }

  // ---- The estimate is enough.

  function Power10(k: nat): nat {
    if k == 0 then 1 else 10 * Power10(k - 1)
  }

  lemma {:induction false} DigitsLength(n: nat, k: nat)
    requires k >= 1 && n < Power10(k)
    ensures |Digits(n)| <= k
    decreases k
  {
    if n >= 10 {
      assert k >= 2 by { assert Power10(1) == 10 * Power10(0); }
      DigitsLength(n / 10, k - 1);
    }
  }

  lemma TenTo19()
    ensures Power10(19) == 10_000_000_000_000_000_000
    ensures Power10(20) == 100_000_000_000_000_000_000
  {
    assert Power10(5) == 100_000;
    assert Power10(10) == 10_000_000_000;
    assert Power10(15) == 1_000_000_000_000_000;
  }

  predicate Int64(i: int) {
    -0x8000_0000_0000_0000 <= i < 0x8000_0000_0000_0000
  }

  // A 64-bit integer takes at most 20 characters, sign included.
  lemma DecimalLength(i: int, signed: bool)
    requires Int64(i)
    ensures 1 <= |Decimal(i, signed)| <= 20
  {
    TenTo19();
    if signed && i < 0 { DigitsLength(-i, 19); }
    else if signed { DigitsLength(i, 19); }
    else { DigitsLength(i % 0x1_0000_0000_0000_0000, 20); }
  }

  // Integers hold 64 bits, at every depth.
  predicate Ints64(v: Any) {
    match v
    case Plain(code, i) => Int64(i)
    case Seq(items) => forall k :: 0 <= k < |items| ==> Ints64(items[k])
    case Map(entries) => forall k :: 0 <= k < |entries| ==> Ints64(entries[k].val)
    case _ => true
  }

  lemma {:induction false} TextFits(v: Any)
    requires Good(v) && Ints64(v)
    ensures |Text(v)| <= Estimate(v)
    ensures Estimate(v) == 0 <==> Text(v) == ""
  {
    match v
    case Plain(code, i) => if IsInteger(code) { DecimalLength(i, IsSigned(code)); }
    case Str(_, _) =>
    case Seq(items) => ItemsFit(items, |items|);
    case NoMap =>
    case Map(entries) => EntriesFit(entries, |entries|);
  }

  lemma {:induction false} ItemsFit(items: seq<Any>, n: nat)
    requires n <= |items| && forall k :: 0 <= k < |items| ==> Good(items[k]) && Ints64(items[k])
    ensures |ItemsText(items, n)| <= ItemsEstimate(items, n) + (if n > 0 then n - 1 else 0)
    decreases items, n
  {
    if n > 0 {
      ItemsFit(items, n - 1);
      TextFits(items[n - 1]);
    }
  }

  lemma {:induction false} EntriesFit(entries: seq<Entry>, n: nat)
    requires n <= |entries| && forall k :: 0 <= k < |entries| ==> Good(entries[k].val) && Ints64(entries[k].val)
    ensures |EntriesText(entries, n)| <= EntriesEstimate(entries, n)
    ensures n > 0 ==> |EntriesText(entries, n)| < EntriesEstimate(entries, n)
    decreases entries, n
  {
    if n > 0 {
      EntriesFit(entries, n - 1);
      TextFits(entries[n - 1].val);
    }
  }

  // ---- The estimate is an int.

  // What an int of 32 bits holds of n.
  function Int32(n: int): int {
    (n + 0x8000_0000) % 0x1_0000_0000 - 0x8000_0000
  }

  // Wrapping the terms before adding them changes nothing.
  lemma SumWraps(a: int, b: int)
    ensures Int32(Int32(a) + Int32(b)) == Int32(Int32(a) + b) == Int32(a + b)
  {
  }

  // The int is the estimate, and so enough for the text, exactly below 2^31; up
  // to 2^32 it is never enough otherwise.
  lemma IntEnough(v: Any)
    requires Good(v) && Ints64(v)
    ensures Int32(Estimate(v)) == Estimate(v) <==> Estimate(v) < 0x8000_0000
    ensures Estimate(v) < 0x8000_0000 ==> |Text(v)| <= Int32(Estimate(v))
    ensures Estimate(v) < 0x1_0000_0000 ==> (|Text(v)| <= Int32(Estimate(v)) <==> Estimate(v) < 0x8000_0000)
  {
    hide Text, Estimate;
    TextFits(v);
  }

  // n times the same value.
  function Times(n: nat, v: Any): (items: seq<Any>)
    ensures |items| == n && forall k :: 0 <= k < n ==> items[k] == v
  {
    seq(n, _ => v)
  }

  lemma {:induction false} TimesItems(items: seq<Any>, v: Any, n: nat)
    requires n <= |items| && forall k :: 0 <= k < n ==> items[k] == v
    ensures ItemsEstimate(items, n) == n * Estimate(v)
    ensures |ItemsText(items, n)| == n * |Text(v)| + (if n > 0 then n - 1 else 0)
    decreases n
  {
    hide Estimate, Text;
    if n > 0 {
      TimesItems(items, v, n - 1);
      assert n * Estimate(v) == (n - 1) * Estimate(v) + Estimate(v);
      assert n * |Text(v)| == (n - 1) * |Text(v)| + |Text(v)|;
    }
  }

  // A sequence of n > 0 such values.
  lemma TimesSizes(n: nat, v: Any)
    requires 0 < n < MaxLength && Good(v) && Ints64(v)
    ensures Good(Seq(Times(n, v))) && Ints64(Seq(Times(n, v)))
    ensures Estimate(Seq(Times(n, v))) == n * Estimate(v) + n + 1
    ensures |Text(Seq(Times(n, v)))| == n * |Text(v)| + n + 1
  {
    hide Times;
    var items := Times(n, v);
    TimesItems(items, v, n);
    SeqText(Seq(items));
    assert Estimate(Seq(items)) == n + 1 + ItemsEstimate(items, n);
  }

  // 256 items of one longest string: the estimate wraps to 513, which is less
  // than the text of a single item.
  lemma Overrun()
    ensures exists v :: Good(v) && Ints64(v) && Int32(Estimate(v)) == 513 && |Text(v)| == 0x1_0000_0000 + 513
  {
    hide Times;
    var s := seq(MaxLength - 1, _ => 'a');
    var item := Str(true, s);
    StrText(item);
    assert Good(item) && Ints64(item) && Estimate(item) == MaxLength + 1 == |Text(item)|;
    TimesSizes(256, item);
    var v := Seq(Times(256, item));
    assert Int32(Estimate(v)) == 513;
  }

  // From 2^32 on it may by chance be enough: 256 items of 2^20 zeros each.
  lemma EnoughByChance()
    ensures exists v :: Good(v) && Ints64(v) && Estimate(v) >= 0x1_0000_0000 && |Text(v)| <= Int32(Estimate(v))
  {
    hide Times;
    var zero := Plain(8, 0);
    assert Digits(0) == [Digit(0)];
    assert Good(zero) && Ints64(zero) && Estimate(zero) == 20 && |Text(zero)| == 1;
    TimesSizes(0x10_0000, zero);
    var row := Seq(Times(0x10_0000, zero));
    TimesSizes(256, row);
    var v := Seq(Times(256, row));
    assert |Text(v)| <= Int32(Estimate(v));
  }

  // ---- The writer.

  // Exactly the bytes from off on became s; what is after them does not matter.
  ghost predicate Wrote(before: seq<char>, after: seq<char>, off: nat, s: string) {
    && |after| == |before| && off + |s| <= |before|
    && after[..off] == before[..off]
    && after[off..off + |s|] == s
  }

  // Nothing changed from `end` on.
  ghost predicate Kept(before: seq<char>, after: seq<char>, end: nat) {
    |after| == |before| && forall k :: end <= k < |before| ==> after[k] == before[k]
  }

  method Put(buf: array<char>, off: nat, s: string)
    requires off + |s| <= buf.Length
    modifies buf
    ensures Wrote(old(buf[..]), buf[..], off, s)
    ensures Kept(old(buf[..]), buf[..], off + |s|)
  {
    ghost var was := buf[..];
    for i := 0 to |s|
      invariant forall k :: 0 <= k < i ==> buf[off + k] == s[k]
      invariant forall k :: 0 <= k < buf.Length && (k < off || off + i <= k) ==> buf[k] == was[k]
    {
      buf[off + i] := s[i];
    }
    assert buf[off..off + |s|] == s;
  }

  lemma WroteMore(a: seq<char>, b: seq<char>, c: seq<char>, off: nat, s: string, t: string, end: nat)
    requires Wrote(a, b, off, s) && Wrote(b, c, off + |s|, t)
    requires off + |s| + |t| <= end && Kept(a, b, end) && Kept(b, c, end)
    ensures Wrote(a, c, off, s + t) && Kept(a, c, end)
  {
    var u := s + t;
    forall k | 0 <= k < |u|
      ensures c[off + k] == u[k]
    {
      if k < |s| {
        assert c[off + k] == c[..off + |s|][off + k] == b[..off + |s|][off + k];
        assert b[off..off + |s|][k] == s[k];
      } else {
        assert c[off + |s|..off + |s| + |t|][k - |s|] == t[k - |s|];
      }
    }
    assert c[off..off + |u|] == u;
    assert c[..off] == c[..off + |s|][..off] && b[..off] == b[..off + |s|][..off];
  }

  // any_to_str_buffer: writes the text and, unless there is none, a terminator.
  method ToStrBuffer(buf: array<char>, off: nat, v: Any) returns (len: nat)
    requires Good(v) && off + |Text(v)| + 1 <= buf.Length
    modifies buf
    ensures len == |Text(v)|
    ensures Wrote(old(buf[..]), buf[..], off, Text(v))
    ensures len > 0 ==> buf[off + len] == '\0'
    ensures Kept(old(buf[..]), buf[..], off + len + if len > 0 then 1 else 0)
    decreases v, 1
  {
    hide Text, Wrote, Kept;
    match v {
      case Plain(code, i) =>
        var s := Text(v);
        len := |s|;
        if len > 0 {
          PutTerminated(buf, off, s);
        } else {
          Nothing(buf[..], off);
        }
      case Str(_, text) =>
        var s := "\"" + text + "\"";
        StrText(v);
        PutTerminated(buf, off, s);
        len := |s|;
      case Seq(items) =>
        len := PutSequence(buf, off, v);
      case Map(entries) =>
        len := PutMap(buf, off, v);
    }
  }

  lemma Nothing(s: seq<char>, off: nat)
    requires off <= |s|
    ensures Wrote(s, s, off, "") && Kept(s, s, off)
  {
  }

  lemma StrText(v: Any)
    requires v.Str?
    ensures Text(v) == "\"" + v.text + "\""
  {
  }

  method PutTerminated(buf: array<char>, off: nat, s: string)
    requires off + |s| + 1 <= buf.Length
    modifies buf
    ensures Wrote(old(buf[..]), buf[..], off, s) && buf[off + |s|] == '\0'
    ensures Kept(old(buf[..]), buf[..], off + |s| + 1)
  {
    ghost var was := buf[..];
    Put(buf, off, s);
    ghost var now := buf[..];
    buf[off + |s|] := '\0';
    assert buf[off..off + |s|] == now[off..off + |s|] && buf[..off] == now[..off];
  }

  // The bytes from off on, one more included, are s; nothing from `end` on changed.
  method PutSequence(buf: array<char>, off: nat, v: Any) returns (len: nat)
    requires v.Seq? && Good(v) && off + |Text(v)| + 1 <= buf.Length
    modifies buf
    ensures len == |Text(v)| && len > 0
    ensures Wrote(old(buf[..]), buf[..], off, Text(v)) && buf[off + len] == '\0'
    ensures Kept(old(buf[..]), buf[..], off + len + 1)
    decreases v, 0
  {
    hide Wrote, Kept, Estimate, Text, ItemsText;
    var items := v.items;
    var count := |items|;
    SeqText(v);
    ghost var was, end := buf[..], off + |Text(v)| + 1;
    Put(buf, off, "[");
    KeptLonger(was, buf[..], off + 1, end);
    len := 1;
    ghost var done := "[";
    for i := 0 to count
      invariant done == "[" + ItemsText(items, i) && len == |done|
      invariant Wrote(was, buf[..], off, done) && Kept(was, buf[..], end)
    {
      ItemsTextGrows(items, i + 1, count);
      ItemsDone(items, i, done);
      if i > 0 {
        PutNext(buf, off, len, ",", false, done, was, end);
        done := done + ",";
        len := len + 1;
      }
      var n := PutItem(buf, off, len, items[i], done, was, end);
      len := len + n;
      done := done + Text(items[i]);
    }
    ghost var before := buf[..];
    PutTerminated(buf, off + len, "]");
    KeptLonger(before, buf[..], off + len + 2, end);
    WroteMore(was, before, buf[..], off, done, "]", end);
    len := len + 1;
  }

  lemma SeqText(v: Any)
    requires v.Seq?
    ensures Text(v) == "[" + ItemsText(v.items, |v.items|) + "]" && ItemsText(v.items, 0) == ""
  {
  }

  lemma ItemsDone(items: seq<Any>, i: nat, done: string)
    requires i < |items| && done == "[" + ItemsText(items, i)
    ensures (if i > 0 then done + "," else done) + Text(items[i]) == "[" + ItemsText(items, i + 1)
  {
    hide Text;
    assert ItemsText(items, i + 1) == ItemsText(items, i) + (if i > 0 then "," else "") + Text(items[i]);
  }

  lemma MapText(v: Any)
    requires v.Map?
    ensures Text(v) == "{" + EntriesText(v.entries, |v.entries|) + "}" && EntriesText(v.entries, 0) == ""
  {
  }

  lemma EntriesDone(entries: seq<Entry>, i: nat, done: string)
    requires i < |entries| && done == "{" + EntriesText(entries, i)
    ensures (if i > 0 then done + "," else done) + EntryText(entries[i]) == "{" + EntriesText(entries, i + 1)
  {
    hide EntryText;
    assert EntriesText(entries, i + 1) == EntriesText(entries, i) + (if i > 0 then "," else "") + EntryText(entries[i]);
  }

  method PutItem(buf: array<char>, off: nat, len: nat, v: Any,
                 ghost done: string, ghost was: seq<char>, ghost end: nat) returns (n: nat)
    requires Good(v) && len == |done| && off + len + |Text(v)| < end <= buf.Length
    requires Wrote(was, buf[..], off, done) && Kept(was, buf[..], end)
    modifies buf
    ensures n == |Text(v)|
    ensures Wrote(was, buf[..], off, done + Text(v)) && Kept(was, buf[..], end)
    decreases v, 2
  {
    hide Wrote, Kept, Text;
    ghost var before := buf[..];
    n := ToStrBuffer(buf, off + len, v);
    KeptLonger(before, buf[..], off + len + n + if n > 0 then 1 else 0, end);
    WroteMore(was, before, buf[..], off, done, Text(v), end);
  }

  // s after the len bytes of `done` already written; strcpy adds a terminator.
  method PutNext(buf: array<char>, off: nat, len: nat, s: string, terminate: bool,
                 ghost done: string, ghost was: seq<char>, ghost end: nat)
    requires len == |done| && off + len + |s| < end <= buf.Length
    requires Wrote(was, buf[..], off, done) && Kept(was, buf[..], end)
    modifies buf
    ensures Wrote(was, buf[..], off, done + s) && Kept(was, buf[..], end)
  {
    hide Wrote, Kept;
    ghost var before := buf[..];
    if terminate {
      PutTerminated(buf, off + len, s);
      KeptLonger(before, buf[..], off + len + |s| + 1, end);
    } else {
      Put(buf, off + len, s);
      KeptLonger(before, buf[..], off + len + |s|, end);
    }
    WroteMore(was, before, buf[..], off, done, s, end);
  }

  method PutMap(buf: array<char>, off: nat, v: Any) returns (len: nat)
    requires v.Map? && Good(v) && off + |Text(v)| + 1 <= buf.Length
    modifies buf
    ensures len == |Text(v)| && len > 0
    ensures Wrote(old(buf[..]), buf[..], off, Text(v)) && buf[off + len] == '\0'
    ensures Kept(old(buf[..]), buf[..], off + len + 1)
    decreases v, 0
  {
    hide Wrote, Kept, Estimate, EntryText, EntriesText, Text;
    var entries := v.entries;
    MapText(v);
    ghost var was, end := buf[..], off + |Text(v)| + 1;
    len := 1;
    Put(buf, off, "{");
    KeptLonger(was, buf[..], off + 1, end);
    ghost var done := "{";
    for i := 0 to |entries|
      invariant done == "{" + EntriesText(entries, i) && len == |done|
      invariant Wrote(was, buf[..], off, done) && Kept(was, buf[..], end)
    {
      EntriesTextGrows(entries, i + 1, |entries|);
      EntriesDone(entries, i, done);
      if i > 0 {
        PutNext(buf, off, len, ",", false, done, was, end);
        done := done + ",";
        len := len + 1;
      }
      var n := PutEntry(buf, off, len, entries[i], done, was, end);
      done := done + EntryText(entries[i]);
      len := len + n;
    }
    ghost var before := buf[..];
    PutTerminated(buf, off + len, "}");
    KeptLonger(before, buf[..], off + len + 2, end);
    WroteMore(was, before, buf[..], off, done, "}", end);
    len := len + 1;
  }

  method PutEntry(buf: array<char>, off: nat, len: nat, e: Entry,
                  ghost done: string, ghost was: seq<char>, ghost end: nat) returns (n: nat)
    requires Good(e.val) && len == |done| && off + len + |EntryText(e)| < end <= buf.Length
    requires Wrote(was, buf[..], off, done) && Kept(was, buf[..], end)
    modifies buf
    ensures n == |EntryText(e)|
    ensures Wrote(was, buf[..], off, done + EntryText(e)) && Kept(was, buf[..], end)
    decreases e
  {
    hide Wrote, Kept, Text;
    var k := |e.key|;
    PutNext(buf, off, len, "\"", false, done, was, end);
    ghost var d1 := done + "\"";
    PutNext(buf, off, len + 1, e.key, true, d1, was, end);
    ghost var d2 := d1 + e.key;
    PutNext(buf, off, len + 1 + k, "\":", false, d2, was, end);
    ghost var d3 := d2 + "\":";
    var m := PutItem(buf, off, len + k + 3, e.val, d3, was, end);
    assert d3 + Text(e.val) == done + EntryText(e);
    n := k + 3 + m;
  }

  lemma {:induction false} EntriesTextGrows(entries: seq<Entry>, i: nat, n: nat)
    requires 1 <= i <= n <= |entries|
    ensures |EntriesText(entries, i)| <= |EntriesText(entries, n)|
    decreases n
  {
    if i < n { EntriesTextGrows(entries, i, n - 1); }
  }

  lemma KeptLonger(a: seq<char>, b: seq<char>, end: nat, later: nat)
    requires Kept(a, b, end) && end <= later
    ensures Kept(a, b, later)
  {
  }

  lemma {:induction false} ItemsTextGrows(items: seq<Any>, i: nat, n: nat)
    requires 1 <= i <= n <= |items|
    ensures |ItemsText(items, i)| <= |ItemsText(items, n)|
    decreases n
  {
    if i < n { ItemsTextGrows(items, i, n - 1); }
  }

  // any_to_json_str, while the estimate is an int.
  method ToJsonStr(v: Any) returns (str: array?<char>)
    requires Good(v) && Ints64(v) && Estimate(v) < 0x8000_0000
    ensures Text(v) == "" <==> str == null
    ensures str != null ==> |Text(v)| < str.Length && str[..|Text(v)|] == Text(v) && str[|Text(v)|] == '\0'
  {
    hide Text, Estimate;
    TextFits(v);
    var len := EstimateLength(v);
    if len == 0 {
      return null;
    }
    var buf := new char[len + 1];
    var n := ToStrBuffer(buf, 0, v);
    assert buf[0..0 + n] == buf[..n];
    str := buf;
  }

  // estimate_length, with its loops; the sums are ints.
  method EstimateLength(v: Any) returns (size: int)
    requires Good(v)
    ensures size == Int32(Estimate(v))
  {
    hide Int32, Estimate, ItemsEstimate, EntriesEstimate;
    SmallEstimate(v);
    match v {
      case Plain(_, _) => size := Estimate(v);
      case Str(_, text) => size := |text| + 2;
      case Seq(items) =>
        var len := |items|;
        size := if len > 0 then len + 1 else 2;
        ghost var start := size;
        for i := 0 to len
          invariant size == Int32(start + ItemsEstimate(items, i))
        {
          var n := EstimateLength(items[i]);
          ItemAdded(items, i, start);
          size := Int32(size + n);
        }
      case Map(entries) =>
        size := 3;
        for i := 0 to |entries|
          invariant size == Int32(3 + EntriesEstimate(entries, i))
        {
          var n := EstimateLength(entries[i].val);
          EntryAdded(entries, i);
          size := Int32(size + |entries[i].key| + 4 + n);
        }
    }
  }

  // Where the loops start, and what the values without loops give.
  lemma SmallEstimate(v: Any)
    requires Good(v)
    ensures v.Plain? ==> Int32(Estimate(v)) == Estimate(v)
    ensures v.Str? ==> Int32(Estimate(v)) == Estimate(v) == |v.text| + 2
    ensures v.Seq? ==>
      var start := if |v.items| > 0 then |v.items| + 1 else 2;
      Estimate(v) == start + ItemsEstimate(v.items, |v.items|) && Int32(start + ItemsEstimate(v.items, 0)) == start
    ensures v.Map? ==>
      Estimate(v) == 3 + EntriesEstimate(v.entries, |v.entries|) && Int32(3 + EntriesEstimate(v.entries, 0)) == 3
  {
  }

  lemma ItemAdded(items: seq<Any>, i: nat, start: nat)
    requires i < |items|
    ensures Int32(Int32(start + ItemsEstimate(items, i)) + Int32(Estimate(items[i]))) == Int32(start + ItemsEstimate(items, i + 1))
  {
    hide Int32, Estimate;
    SumWraps(start + ItemsEstimate(items, i), Estimate(items[i]));
  }

  lemma EntryAdded(entries: seq<Entry>, i: nat)
    requires i < |entries|
    ensures Int32(Int32(3 + EntriesEstimate(entries, i)) + |entries[i].key| + 4 + Int32(Estimate(entries[i].val)))
            == Int32(3 + EntriesEstimate(entries, i + 1))
  {
    hide Int32, Estimate;
    var before, k, n := 3 + EntriesEstimate(entries, i), |entries[i].key| + 4, Estimate(entries[i].val);
    SumWraps(n, Int32(before) + k);
    SumWraps(before, k + n);
  }

  // any_is_equal, with its loops: every entry of the first map is looked up in
  // the second, then the entries are counted.
  method IsEqual(a: Any, b: Any) returns (r: bool)
    requires Good(a) && Good(b)
    ensures r <==> Equal(a, b)
    decreases a
  {
    if !SameType(a, b) {
      return false;
    }
    match a {
      case Plain(code, i) =>
        return !IsInteger(code) || i == b.i;
      case Str(_, text) =>
        return CText(text) == CText(b.text);
      case Seq(items) =>
        for k := 0 to |items|
          invariant forall j :: 0 <= j < k ==> Equal(items[j], b.items[j])
        {
          var same := IsEqual(items[k], b.items[k]);
          if !same {
            return false;
          }
        }
        return true;
      case Map(entries) =>
        r := MapIsEqual(entries, b.entries);
    }
  }

  method MapIsEqual(entries: seq<Entry>, other: seq<Entry>) returns (r: bool)
    requires Good(Map(entries)) && Good(Map(other))
    ensures r <==> Equal(Map(entries), Map(other))
    decreases entries
  {
    var count := 0;
    while count < |entries|
      invariant 0 <= count <= |entries|
      invariant forall j :: 0 <= j < count ==>
        var f := FindKey(other, entries[j].key); f < |other| && Equal(entries[j].val, other[f].val)
    {
      var f := FindKey(other, entries[count].key);
      if f == |other| {
        return false;
      }
      var same := IsEqual(entries[count].val, other[f].val);
      if !same {
        return false;
      }
      count := count + 1;
    }
    for i := 0 to |other|
      invariant count == |entries| - i
    {
      count := count - 1;
    }
    return count == 0;
  }

  // any_duplicate, with its loops; a map's entries are inserted into a new map
  // in the order of the old one.
  method Copy(v: Any) returns (d: Any)
    ensures d == Duplicate(v)
  {
    match v {
      case Str(_, text) => d := Str(false, text);
      case Seq(items) =>
        var copies: seq<Any> := [];
        for i := 0 to |items|
          invariant |copies| == i && forall k :: 0 <= k < i ==> copies[k] == Duplicate(items[k])
        {
          var c := Copy(items[i]);
          copies := copies + [c];
        }
        d := Seq(copies);
      case Map(entries) =>
        var copies: seq<Entry> := [];
        for i := 0 to |entries|
          invariant |copies| == i
          invariant forall k :: 0 <= k < i ==> copies[k] == Entry(entries[k].key, Duplicate(entries[k].val))
        {
          var c := Copy(entries[i].val);
          copies := copies + [Entry(entries[i].key, c)];
        }
        d := Map(copies);
      case _ => d := v;
    }
  }
}
