// Names divided into levels by a separator: '/' in topics (src/mqtt.c), '.' in
// configuration paths (src/config.c).
module Paths {

  function FirstSep(s: string, sep: char := '/'): (k: nat)
    ensures k <= |s| && (k < |s| ==> s[k] == sep)
    ensures forall i :: 0 <= i < k ==> s[i] != sep
  {
    if s == "" || s[0] == sep then 0 else 1 + FirstSep(s[1..], sep)
  }

  function Levels(s: string, sep: char := '/'): (r: seq<string>)
    ensures |r| >= 1
    decreases |s|
  {
    var k := FirstSep(s, sep);
    if k == |s| then [s] else [s[..k]] + Levels(s[k + 1..], sep)
  }

  function Join(levels: seq<string>, sep: char := '/'): string
    requires |levels| >= 1
  {
    if |levels| == 1 then levels[0] else levels[0] + [sep] + Join(levels[1..], sep)
  }

  predicate Plain(level: string, sep: char := '/') {
    forall i :: 0 <= i < |level| ==> level[i] != sep
  }

  // Splitting loses nothing.
  lemma {:induction false} JoinLevels(s: string, sep: char := '/')
    ensures Join(Levels(s, sep), sep) == s
    ensures forall i :: 0 <= i < |Levels(s, sep)| ==> Plain(Levels(s, sep)[i], sep)
    decreases |s|
  {
    var k := FirstSep(s, sep);
    if k < |s| {
      JoinLevels(s[k + 1..], sep);
      var rest := Levels(s[k + 1..], sep);
      assert ([s[..k]] + rest)[1..] == rest;
      assert s == s[..k] + [sep] + s[k + 1..];
    }
  }

  lemma {:induction false} LevelsJoin(levels: seq<string>, sep: char := '/')
    requires |levels| >= 1 && forall i :: 0 <= i < |levels| ==> Plain(levels[i], sep)
    ensures Levels(Join(levels, sep), sep) == levels
    decreases |levels|
  {
    var first := levels[0];
    assert Plain(first, sep);
    if |levels| == 1 {
      assert FirstSep(first, sep) == |first|;
      assert levels == [first];
    } else {
      var rest := Join(levels[1..], sep);
      var s := first + [sep] + rest;
      assert s[|first|] == sep && s[..|first|] == first && s[|first| + 1..] == rest;
      assert FirstSep(s, sep) == |first| by { SepAt(s, |first|, sep); }
      LevelsJoin(levels[1..], sep);
      assert levels == [first] + levels[1..];
    }
  }

  lemma SepAt(s: string, k: nat, sep: char := '/')
    requires k < |s| && s[k] == sep && forall i :: 0 <= i < k ==> s[i] != sep
    ensures FirstSep(s, sep) == k
  {
  }
}
