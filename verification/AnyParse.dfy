// src/any.c: the text of a value is read back token by token, as long as its
// strings and keys hold no quote; with quotes in them the text is ambiguous,
// because they are written as they are.
module AnyParse {
  import opened AnyModel
  import opened AnyText
  import opened AnyRead

  // What a text shows of a value.
  datatype Seen =
    | SNull | SFalse | STrue
    | SNumber(i: int)
    | SString(text: string)
    | SSeq(items: seq<Seen>)
    | SMap(entries: seq<(string, Seen)>)

  datatype Result<T> = Read(value: T, rest: string) | Failed

  // ---- The reader.

  function After(s: string, token: string): (r: Result<string>)
    requires token != ""
    ensures r.Read? ==> |r.rest| < |s|
  {
    if |token| <= |s| && s[..|token|] == token then Read(token, s[|token|..]) else Failed
  }

  function DigitsIn(s: string): (n: nat)
    ensures n <= |s|
  {
    if s == "" || !IsDigit(s[0]) then 0 else 1 + DigitsIn(s[1..])
  }

  function ReadNumber(s: string): (r: Result<Seen>)
    ensures r.Read? ==> |r.rest| < |s|
  {
    var sign := if s != "" && s[0] == '-' then 1 else 0;
    var n := sign + DigitsIn(s[sign..]);
    if n == sign then Failed else Read(SNumber(IntegerOf(s[..n])), s[n..])
  }

  function QuoteIn(s: string): (n: nat)
    ensures n <= |s|
  {
    if s == "" || s[0] == '"' then 0 else 1 + QuoteIn(s[1..])
  }

  // A string in quotes.
  function ReadString(s: string): (r: Result<string>)
    ensures r.Read? ==> |r.rest| < |s|
  {
    if s == "" || s[0] != '"' then Failed
    else
      var n := QuoteIn(s[1..]);
      if n + 1 == |s| then Failed else Read(s[1..n + 1], s[n + 2..])
  }

  function ReadValue(s: string): (r: Result<Seen>)
    ensures r.Read? ==> |r.rest| < |s|
    decreases |s|, 0
  {
    if s == "" then Failed
    else if s[0] == 'n' then match After(s, "null") case Read(_, rest) => Read(SNull, rest) case Failed => Failed
    else if s[0] == 't' then match After(s, "true") case Read(_, rest) => Read(STrue, rest) case Failed => Failed
    else if s[0] == 'f' then match After(s, "false") case Read(_, rest) => Read(SFalse, rest) case Failed => Failed
    else if s[0] == '"' then match ReadString(s) case Read(text, rest) => Read(SString(text), rest) case Failed => Failed
    else if s[0] == '[' then
      if |s| > 1 && s[1] == ']' then Read(SSeq([]), s[2..])
      else match ReadItems(s[1..]) case Read(items, rest) => Read(SSeq(items), rest) case Failed => Failed
    else if s[0] == '{' then
      if |s| > 1 && s[1] == '}' then Read(SMap([]), s[2..])
      else match ReadEntries(s[1..]) case Read(entries, rest) => Read(SMap(entries), rest) case Failed => Failed
    else ReadNumber(s)
  }

  // Items between commas, up to the closing bracket.
  function ReadItems(s: string): (r: Result<seq<Seen>>)
    ensures r.Read? ==> |r.rest| < |s|
    decreases |s|, 1
  {
    match ReadValue(s)
    case Failed => Failed
    case Read(v, rest) =>
      if rest == "" then Failed
      else if rest[0] == ']' then Read([v], rest[1..])
      else if rest[0] != ',' then Failed
      else match ReadItems(rest[1..]) case Read(more, left) => Read([v] + more, left) case Failed => Failed
  }

  function ReadEntries(s: string): (r: Result<seq<(string, Seen)>>)
    ensures r.Read? ==> |r.rest| < |s|
    decreases |s|, 1
  {
    match ReadString(s)
    case Failed => Failed
    case Read(key, colon) =>
      if colon == "" || colon[0] != ':' then Failed
      else
        match ReadValue(colon[1..])
        case Failed => Failed
        case Read(v, rest) =>
          if rest == "" then Failed
          else if rest[0] == '}' then Read([(key, v)], rest[1..])
          else if rest[0] != ',' then Failed
          else match ReadEntries(rest[1..]) case Read(more, left) => Read([(key, v)] + more, left) case Failed => Failed
  }

  // ---- What it should read.

  predicate Plainly(s: string) {
    '"' !in s
  }

  // Null, booleans and integers, and strings and keys without quotes.
  predicate Readable(v: Any) {
    match v
    case Plain(code, _) => code == KNull || code == KTrue || code == KFalse || IsInteger(code)
    case Str(_, text) => Plainly(text)
    case Seq(items) => forall k :: 0 <= k < |items| ==> Readable(items[k])
    case NoMap => true
    case Map(entries) => forall k :: 0 <= k < |entries| ==> Plainly(entries[k].key) && Readable(entries[k].val)
  }

  function Shown(v: Any): Seen
    requires Readable(v)
  {
    match v
    case Plain(code, i) =>
      if code == KNull then SNull
      else if code == KTrue then STrue
      else if code == KFalse then SFalse
      else SNumber(if IsSigned(code) then i else i % 0x1_0000_0000_0000_0000)
    case Str(_, text) => SString(text)
    case Seq(items) => SSeq(seq(|items|, k requires 0 <= k < |items| => Shown(items[k])))
    case NoMap => SMap([])
    case Map(entries) => SMap(seq(|entries|, k requires 0 <= k < |entries| => (entries[k].key, Shown(entries[k].val))))
  }

  // What may follow a value inside a text.
  predicate Ends(rest: string) {
    rest == "" || rest[0] == ',' || rest[0] == ']' || rest[0] == '}'
  }

  // ---- Tokens.

  lemma {:induction false} DigitsAhead(d: string, rest: string)
    requires (forall k :: 0 <= k < |d| ==> IsDigit(d[k])) && (rest == "" || !IsDigit(rest[0]))
    ensures DigitsIn(d + rest) == |d|
    decreases |d|
  {
    if d == "" {
      assert d + rest == rest;
    } else {
      assert (d + rest)[1..] == d[1..] + rest;
      DigitsAhead(d[1..], rest);
    }
  }

  lemma NumberAhead(i: int, signed: bool, rest: string)
    requires Ends(rest)
    ensures ReadNumber(Decimal(i, signed) + rest) == Read(SNumber(if signed then i else i % 0x1_0000_0000_0000_0000), rest)
    ensures Decimal(i, signed) != "" && (Decimal(i, signed)[0] == '-' || IsDigit(Decimal(i, signed)[0]))
  {
    var t := Decimal(i, signed);
    var s := t + rest;
    var m := if signed && i < 0 then -i else if signed then i else i % 0x1_0000_0000_0000_0000;
    DigitsRead(m);
    DecimalRead(i, signed);
    var sign := if signed && i < 0 then 1 else 0;
    assert s[sign..] == Digits(m) + rest;
    DigitsAhead(Digits(m), rest);
    assert s[..|t|] == t && s[|t|..] == rest;
  }

  lemma {:induction false} QuoteAhead(text: string, rest: string)
    requires Plainly(text)
    ensures QuoteIn(text + "\"" + rest) == |text|
    decreases |text|
  {
    if text == "" {
      assert (text + "\"" + rest)[0] == '"';
    } else {
      assert (text + "\"" + rest)[1..] == text[1..] + "\"" + rest;
      QuoteAhead(text[1..], rest);
    }
  }

  lemma StringAhead(text: string, rest: string)
    requires Plainly(text)
    ensures ReadString("\"" + text + "\"" + rest) == Read(text, rest)
  {
    var s := "\"" + text + "\"" + rest;
    assert s[1..] == text + "\"" + rest;
    QuoteAhead(text, rest);
    assert s[1..|text| + 1] == text && s[|text| + 2..] == rest;
  }

  // ---- The text from item k on, up to the closing bracket.

  function ItemsFrom(items: seq<Any>, k: nat): string
    requires k < |items|
    decreases |items| - k
  {
    Text(items[k]) + if k + 1 < |items| then "," + ItemsFrom(items, k + 1) else ""
  }

  lemma {:induction false} ItemsJoined(items: seq<Any>, k: nat)
    requires k < |items|
    ensures ItemsText(items, |items|) == ItemsText(items, k) + (if k > 0 then "," else "") + ItemsFrom(items, k)
    decreases |items| - k
  {
    hide Text;
    var before := ItemsText(items, k) + (if k > 0 then "," else "");
    assert ItemsText(items, k + 1) == before + Text(items[k]);
    if k + 1 < |items| {
      ItemsJoined(items, k + 1);
      assert before + Text(items[k]) + "," + ItemsFrom(items, k + 1) == before + (Text(items[k]) + ("," + ItemsFrom(items, k + 1)));
    } else {
      assert before + Text(items[k]) == before + (Text(items[k]) + "");
    }
  }

  function EntriesFrom(entries: seq<Entry>, k: nat): string
    requires k < |entries|
    decreases |entries| - k
  {
    EntryText(entries[k]) + if k + 1 < |entries| then "," + EntriesFrom(entries, k + 1) else ""
  }

  lemma {:induction false} EntriesJoined(entries: seq<Entry>, k: nat)
    requires k < |entries|
    ensures EntriesText(entries, |entries|) == EntriesText(entries, k) + (if k > 0 then "," else "") + EntriesFrom(entries, k)
    decreases |entries| - k
  {
    hide EntryText;
    var before := EntriesText(entries, k) + (if k > 0 then "," else "");
    assert EntriesText(entries, k + 1) == before + EntryText(entries[k]);
    if k + 1 < |entries| {
      EntriesJoined(entries, k + 1);
      assert before + EntryText(entries[k]) + "," + EntriesFrom(entries, k + 1)
          == before + (EntryText(entries[k]) + ("," + EntriesFrom(entries, k + 1)));
    } else {
      assert before + EntryText(entries[k]) == before + (EntryText(entries[k]) + "");
    }
  }

  // ---- Reading back.

  // Reading the text of a value gives what it shows, whatever follows.
  lemma {:induction false} ValueAhead(v: Any, rest: string)
    requires Readable(v) && Ends(rest)
    ensures ReadValue(Text(v) + rest) == Read(Shown(v), rest)
    ensures Text(v) != "" && Text(v)[0] != ']'
    decreases v, 2, 0
  {
    match v
    case Plain(code, i) => PlainAhead(code, i, rest);
    case Str(_, text) => StrAhead(v, rest);
    case Seq(items) => SeqAhead(items, rest);
    case NoMap =>
    case Map(entries) => MapAhead(entries, rest);
  }

  lemma PlainAhead(code: nat, i: int, rest: string)
    requires Readable(Plain(code, i)) && Ends(rest)
    ensures ReadValue(Text(Plain(code, i)) + rest) == Read(Shown(Plain(code, i)), rest)
    ensures Text(Plain(code, i)) != "" && Text(Plain(code, i))[0] != ']'
  {
    hide ReadNumber, Decimal;
    var s := Text(Plain(code, i)) + rest;
    if code == KNull || code == KTrue {
      assert s[..4] == Text(Plain(code, i)) && s[4..] == rest;
    } else if code == KFalse {
      assert s[..5] == "false" && s[5..] == rest;
    } else {
      NumberAhead(i, IsSigned(code), rest);
    }
  }

  lemma StrAhead(v: Any, rest: string)
    requires v.Str? && Readable(v)
    ensures ReadValue(Text(v) + rest) == Read(Shown(v), rest)
    ensures Text(v) != "" && Text(v)[0] != ']'
  {
    hide ReadString;
    StrText(v);
    StringAhead(v.text, rest);
  }

  lemma {:induction false} SeqAhead(items: seq<Any>, rest: string)
    requires Readable(Seq(items))
    ensures ReadValue(Text(Seq(items)) + rest) == Read(Shown(Seq(items)), rest)
    ensures Text(Seq(items)) != "" && Text(Seq(items))[0] != ']'
    decreases items, 1, 0
  {
    hide ReadItems, ItemsText, ItemsFrom;
    SeqText(Seq(items));
    var shown := Shown(Seq(items)).items;
    var s := Text(Seq(items)) + rest;
    if items == [] {
      assert s == "[]" + rest && s[2..] == rest && shown == [];
    } else {
      ItemsJoined(items, 0);
      assert s[1..] == ItemsFrom(items, 0) + ("]" + rest);
      ItemsAhead(items, 0, rest);
      assert shown[0..] == shown;
    }
  }

  lemma {:induction false} ItemsAhead(items: seq<Any>, k: nat, rest: string)
    requires Readable(Seq(items)) && k < |items|
    ensures ReadItems(ItemsFrom(items, k) + ("]" + rest)) == Read(Shown(Seq(items)).items[k..], rest)
    ensures ItemsFrom(items, k) != "" && ItemsFrom(items, k)[0] != ']'
    decreases items, 0, |items| - k
  {
    hide Text, ReadValue;
    var shown, end := Shown(Seq(items)).items, "]" + rest;
    var s := ItemsFrom(items, k) + end;
    if k + 1 < |items| {
      var more := ItemsFrom(items, k + 1) + end;
      ItemsAhead(items, k + 1, rest);
      ValueAhead(items[k], "," + more);
      assert s == Text(items[k]) + ("," + more);
      assert ("," + more)[1..] == more;
      assert shown[k..] == [shown[k]] + shown[k + 1..];
    } else {
      ValueAhead(items[k], end);
      assert s == Text(items[k]) + end && end[1..] == rest;
      assert shown[k..] == [shown[k]];
    }
  }

  lemma {:induction false} MapAhead(entries: seq<Entry>, rest: string)
    requires Readable(Map(entries))
    ensures ReadValue(Text(Map(entries)) + rest) == Read(Shown(Map(entries)), rest)
    ensures Text(Map(entries)) != "" && Text(Map(entries))[0] != ']'
    decreases entries, 1, 0
  {
    hide ReadEntries, EntriesText, EntriesFrom;
    MapText(Map(entries));
    var shown := Shown(Map(entries)).entries;
    var s := Text(Map(entries)) + rest;
    if entries == [] {
      assert s == "{}" + rest && s[2..] == rest && shown == [];
    } else {
      EntriesJoined(entries, 0);
      assert s[1..] == EntriesFrom(entries, 0) + ("}" + rest);
      EntriesAhead(entries, 0, rest);
      assert shown[0..] == shown;
    }
  }

  lemma {:induction false} EntriesAhead(entries: seq<Entry>, k: nat, rest: string)
    requires Readable(Map(entries)) && k < |entries|
    ensures ReadEntries(EntriesFrom(entries, k) + ("}" + rest)) == Read(Shown(Map(entries)).entries[k..], rest)
    ensures EntriesFrom(entries, k) != "" && EntriesFrom(entries, k)[0] == '"'
    decreases entries, 0, |entries| - k
  {
    hide Text, ReadValue, ReadString, ReadEntries;
    var shown, end := Shown(Map(entries)).entries, "}" + rest;
    var e := entries[k];
    if k + 1 < |entries| {
      var more := EntriesFrom(entries, k + 1) + end;
      EntriesAhead(entries, k + 1, rest);
      ValueAhead(e.val, "," + more);
      EntryAhead(e, Shown(e.val), "," + more);
      assert EntriesFrom(entries, k) + end == EntryText(e) + ("," + more);
      assert ("," + more)[1..] == more;
      assert shown[k..] == [shown[k]] + shown[k + 1..];
    } else {
      ValueAhead(e.val, end);
      EntryAhead(e, Shown(e.val), end);
      assert EntriesFrom(entries, k) + end == EntryText(e) + end && end[1..] == rest;
      assert shown[k..] == [shown[k]];
    }
  }

  // The first entry is read, and then the bracket or the entries after the comma.
  lemma EntryAhead(e: Entry, v: Seen, after: string)
    requires Plainly(e.key) && after != "" && (after[0] == ',' || after[0] == '}')
    requires ReadValue(Text(e.val) + after) == Read(v, after)
    ensures ReadEntries(EntryText(e) + after)
            == if after[0] == '}' then Read([(e.key, v)], after[1..])
               else match ReadEntries(after[1..]) case Read(more, left) => Read([(e.key, v)] + more, left) case Failed => Failed
    ensures EntryText(e)[0] == '"'
  {
    hide Text, ReadValue, ReadString;
    var colon := ":" + (Text(e.val) + after);
    assert EntryText(e) + after == "\"" + e.key + "\"" + colon;
    StringAhead(e.key, colon);
    assert colon[1..] == Text(e.val) + after;
  }

  // The text as a whole.
  lemma TextReadBack(v: Any)
    requires Readable(v)
    ensures ReadValue(Text(v)) == Read(Shown(v), "")
  {
    assert Text(v) + "" == Text(v);
    ValueAhead(v, "");
  }

  // So two such values with the same text show the same.
  lemma SameTextShown(a: Any, b: Any)
    requires Readable(a) && Readable(b)
    ensures Text(a) == Text(b) ==> Shown(a) == Shown(b)
  {
    TextReadBack(a);
    TextReadBack(b);
  }

  // With quotes two different values may have one text: a string that holds the
  // quotes and the comma between two others is not told from the two.
  lemma QuotesAmbiguous()
    ensures exists a, b :: Good(a) && Good(b) && NoConst(a) && NoConst(b) && !Equal(a, b) && Text(a) == Text(b)
  {
    var s, t, u := Str(false, "x"), Str(false, "y"), Str(false, "x\",\"y");
    var a, b := [s, t], [u];
    QuotedTexts(s, t, u);
    JoinedTwo(s, t);
    JoinedOne(u);
    assert Text(Seq(a)) == Text(Seq(b)) by { hide Text; }
    hide Text;
    StringsGood(a);
    StringsGood(b);
    assert !SameType(Seq(a), Seq(b));
    assert !Equal(Seq(a), Seq(b));
  }

  lemma StringsGood(items: seq<Any>)
    requires |items| < 3 && forall k :: 0 <= k < |items| ==> items[k].Str? && !items[k].isConst && |items[k].text| < 10
    ensures Good(Seq(items)) && NoConst(Seq(items))
  {
  }

  lemma QuotedTexts(s: Any, t: Any, u: Any)
    requires s == Str(false, "x") && t == Str(false, "y") && u == Str(false, "x\",\"y")
    ensures Text(s) + "," + Text(t) == Text(u)
  {
    StrText(s);
    StrText(t);
    StrText(u);
  }

  lemma JoinedTwo(s: Any, t: Any)
    ensures Text(Seq([s, t])) == "[" + (Text(s) + "," + Text(t)) + "]"
  {
    hide Text;
    SeqText(Seq([s, t]));
    ItemsJoined([s, t], 0);
    assert ItemsFrom([s, t], 1) == Text(t);
  }

  lemma JoinedOne(u: Any)
    ensures Text(Seq([u])) == "[" + Text(u) + "]"
  {
    hide Text;
    SeqText(Seq([u]));
    ItemsJoined([u], 0);
  }
}
