// src/mqtt.c: topics split into levels, and the matching of a topic against a
// filter, compared with section 4.7.1 of MQTT Version 3.1.1.
module MqttTopics {
  import opened Paths

  function Slashes(s: string): nat {
    if s == "" then 0 else (if s[0] == '/' then 1 else 0) + Slashes(s[1..])
  }

  lemma {:induction false} SlashesAppend(s: string, t: string)
    ensures Slashes(s + t) == Slashes(s) + Slashes(t)
    decreases |s|
  {
    if s == "" {
      assert s + t == t;
    } else {
      assert (s + t)[1..] == s[1..] + t;
      SlashesAppend(s[1..], t);
    }
  }

  lemma {:induction false} NoSlashes(s: string)
    requires Plain(s)
    ensures Slashes(s) == 0
    decreases |s|
  {
    if s != "" { NoSlashes(s[1..]); }
  }

  lemma {:induction false} LevelCount(s: string)
    ensures |Levels(s)| == Slashes(s) + 1
    decreases |s|
  {
    var k := FirstSep(s);
    NoSlashes(s[..k]);
    if k == |s| {
      assert s[..k] == s;
    } else {
      LevelCount(s[k + 1..]);
      assert s == s[..k] + s[k..] && s[k..][1..] == s[k + 1..];
      SlashesAppend(s[..k], s[k..]);
    }
  }

  // A level as a window of the topic: an iovec.
  datatype Section = Section(base: nat, len: nat)

  function Text(s: string, v: Section): string
    requires v.base + v.len <= |s|
  {
    s[v.base..v.base + v.len]
  }

  ghost predicate Cuts(s: string, sections: seq<Section>, levels: seq<string>) {
    && |sections| == |levels|
    && forall i :: 0 <= i < |sections| ==>
         sections[i].base + sections[i].len <= |s| && Text(s, sections[i]) == levels[i]
  }

  // The scan stands at p, inside a level that began at q; `done` holds the
  // levels before.
  ghost predicate Cutting(s: string, q: nat, p: nat, done: seq<string>) {
    && q <= p <= |s|
    && (forall i :: q <= i < p ==> s[i] != '/')
    && Levels(s) == done + Levels(s[q..])
  }

  lemma CutStart(s: string)
    ensures Cutting(s, 0, 0, [])
  {
    assert s[0..] == s && [] + Levels(s) == Levels(s);
  }

  lemma CutOn(s: string, q: nat, p: nat, done: seq<string>)
    requires Cutting(s, q, p, done) && p < |s| && s[p] != '/'
    ensures Cutting(s, q, p + 1, done)
  {
  }

  lemma CutLevel(s: string, q: nat, p: nat, done: seq<string>)
    requires Cutting(s, q, p, done) && p < |s| && s[p] == '/'
    ensures Cutting(s, p + 1, p + 1, done + [s[q..p]])
  {
    hide Levels;
    var t := s[q..];
    assert FirstSep(t) == p - q by { assert t[p - q] == '/'; SepAt(t, p - q); }
    assert t[..p - q] == s[q..p] && t[p - q + 1..] == s[p + 1..];
    assert Levels(t) == [s[q..p]] + Levels(s[p + 1..]) by { LevelsUnfold(t); }
    assert done + ([s[q..p]] + Levels(s[p + 1..])) == done + [s[q..p]] + Levels(s[p + 1..]);
  }

  lemma LevelsUnfold(t: string)
    ensures FirstSep(t) < |t| ==> Levels(t) == [t[..FirstSep(t)]] + Levels(t[FirstSep(t) + 1..])
    ensures FirstSep(t) == |t| ==> Levels(t) == [t]
  {
    hide FirstSep;
  }

  lemma CutEnd(s: string, q: nat, done: seq<string>)
    requires Cutting(s, q, |s|, done)
    ensures Levels(s) == done + [s[q..]]
  {
    hide Levels;
    var t := s[q..];
    assert FirstSep(t) == |t|;
    LevelsUnfold(t);
  }

  // The first loop of TopicItem_new and of messageArrived.
  method CountLevels(topic: string, length: nat) returns (levels: nat)
    requires length <= |topic|
    ensures levels == |Levels(topic[..length])|
  {
    hide Levels;
    ghost var s := topic[..length];
    levels := 1;
    for i := 0 to length
      invariant levels == 1 + Slashes(s[..i])
    {
      assert s[..i + 1] == s[..i] + [s[i]];
      SlashesAppend(s[..i], [s[i]]);
      if topic[i] == '/' {
        levels := levels + 1;
      }
    }
    assert s[..length] == s;
    LevelCount(s);
  }

  // The two loops together: the array has exactly as many places as there are
  // levels. `length` is the number of bytes looked at.
  method Split(topic: string, length: nat) returns (sections: array<Section>)
    requires length <= |topic|
    ensures fresh(sections) && Cuts(topic, sections[..], Levels(topic[..length]))
  {
    hide Levels, Cutting, Slashes;
    ghost var s := topic[..length];
    var levels := CountLevels(topic, length);
    sections := new Section[levels];
    var i, p, q := 0, 0, 0;
    ghost var done: seq<string> := [];
    CutStart(s);
    while true
      invariant q <= p <= length
      invariant i == |done| < levels
      invariant Cutting(s, q, p, done)
      invariant Cuts(topic, sections[..i], done)
      decreases length - p
    {
      if p == length || topic[p] == '/' {
        InsideCut(s, q, p, done);
        assert Text(topic, Section(q, p - q)) == s[q..p];
        sections[i] := Section(q, p - q);
        assert sections[..i + 1] == sections[..i] + [sections[i]];
        if p == length {
          CutEnd(s, q, done);
          assert sections[..] == sections[..i + 1];
          break;
        }
        CutLevel(s, q, p, done);
        done := done + [s[q..p]];
        CutRoom(s, p + 1, p + 1, done);
        q := p + 1;
        i := i + 1;
      } else {
        CutOn(s, q, p, done);
      }
      p := p + 1;
    }
  }

  lemma InsideCut(s: string, q: nat, p: nat, done: seq<string>)
    requires Cutting(s, q, p, done)
    ensures q <= p <= |s|
  {
  }

  lemma CutRoom(s: string, q: nat, p: nat, done: seq<string>)
    requires Cutting(s, q, p, done)
    ensures |done| < |Levels(s)|
  {
  }

  // ---- Matching.

  // Section 4.7.1 of MQTT Version 3.1.1: '+' stands for one level, '#' as the
  // last level for any number of levels, none included.
  predicate Standard(filter: seq<string>, topic: seq<string>) {
    if filter == [] then topic == []
    else if filter == ["#"] then true
    else topic != [] && (filter[0] == "+" || filter[0] == topic[0]) && Standard(filter[1..], topic[1..])
  }

  predicate LevelMatches(f: string, t: string) {
    f == "+" || f == t
  }

  // What messageArrived decides.
  predicate Matched(filter: seq<string>, topic: seq<string>)
    requires |filter| >= 1
  {
    var n := |filter|;
    && n <= |topic|
    && if filter[n - 1] == "#" then forall i :: 0 <= i < n - 1 ==> LevelMatches(filter[i], topic[i])
       else n == |topic| && forall i :: 0 <= i < n ==> LevelMatches(filter[i], topic[i])
  }

  // The matcher is the standard's on every topic with at least as many levels
  // as the filter, and on shorter ones it matches nothing.
  lemma {:induction false} MatcherIsStandard(filter: seq<string>, topic: seq<string>)
    requires |filter| >= 1
    ensures Matched(filter, topic) <==> Standard(filter, topic) && |filter| <= |topic|
    decreases |filter|
  {
    if filter == ["#"] {
    } else if topic != [] {
      var f, t := filter[1..], topic[1..];
      if f == [] {
        assert Standard(f, t) <==> t == [];
      } else {
        MatcherIsStandard(f, t);
        assert f[|f| - 1] == filter[|filter| - 1];
        if Matched(filter, topic) {
          assert LevelMatches(filter[0], topic[0]);
          forall i | 0 <= i < |f| - (if f[|f| - 1] == "#" then 1 else 0)
            ensures LevelMatches(f[i], t[i])
          {
            assert LevelMatches(filter[i + 1], topic[i + 1]);
          }
        }
        if LevelMatches(filter[0], topic[0]) && Matched(f, t) {
          forall i | 0 <= i < |filter| - (if f[|f| - 1] == "#" then 1 else 0)
            ensures LevelMatches(filter[i], topic[i])
          {
            if i > 0 { assert LevelMatches(f[i - 1], t[i - 1]); }
          }
        }
      }
    }
  }

  // It differs from the standard exactly on the parent level of a '#'.
  lemma {:induction false} DiffersOnParent(filter: seq<string>, topic: seq<string>)
    requires |filter| >= 1 && |topic| < |filter|
    ensures Standard(filter, topic) <==>
      && |topic| == |filter| - 1 && filter[|filter| - 1] == "#"
      && forall i :: 0 <= i < |topic| ==> LevelMatches(filter[i], topic[i])
    decreases |filter|
  {
    if filter == ["#"] {
    } else if topic != [] {
      var f, t := filter[1..], topic[1..];
      DiffersOnParent(f, t);
      assert f[|f| - 1] == filter[|filter| - 1];
      forall i | 0 <= i < |t|
        ensures LevelMatches(f[i], t[i]) <==> LevelMatches(filter[i + 1], topic[i + 1])
      {
      }
      if Standard(filter, topic) {
        forall i | 0 <= i < |topic| ensures LevelMatches(filter[i], topic[i]) {
          if i > 0 { assert LevelMatches(f[i - 1], t[i - 1]); }
        }
      } else if forall i :: 0 <= i < |topic| ==> LevelMatches(filter[i], topic[i]) {
        assert LevelMatches(filter[0], topic[0]);
        forall i | 0 <= i < |t| ensures LevelMatches(f[i], t[i]) { assert LevelMatches(filter[i + 1], topic[i + 1]); }
      }
    }
  }

  // A library that passes 0 for the length of a topic without NUL bytes makes
  // the topic one empty level: only "", "+" and "#" match it.
  lemma UnknownLength(topic: string, filter: seq<string>)
    requires |filter| >= 1
    ensures Matched(filter, Levels(topic[..0])) <==> filter == [""] || filter == ["+"] || filter == ["#"]
  {
    assert topic[..0] == "" && Levels("") == [""];
    if Matched(filter, [""]) {
      assert |filter| == 1;
      if filter[0] != "#" { assert LevelMatches(filter[0], ""); }
      assert filter == [filter[0]];
    }
  }
}
