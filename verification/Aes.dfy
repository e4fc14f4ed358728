// src/aes.c: the in-place procedures, each proved to compute the functions of
// AesCipher on a window of the array it is given.
module Aes {
  import opened AesField
  import opened AesColumn
  import opened AesCipher

  // The bytes from off on became `block`; no other byte changed.
  ghost predicate Updated(before: seq<bv8>, after: seq<bv8>, off: nat, block: seq<bv8>) {
    && |after| == |before|
    && off + |block| <= |before|
    && after[..off] == before[..off]
    && after[off..off + |block|] == block
    && after[off + |block|..] == before[off + |block|..]
  }

  lemma UpdatedFrom(before: seq<bv8>, after: seq<bv8>, off: nat, block: seq<bv8>)
    requires |after| == |before| && off + |block| <= |before|
    requires forall k :: 0 <= k < |block| ==> after[off + k] == block[k]
    requires forall i :: 0 <= i < |before| && (i < off || off + |block| <= i) ==> after[i] == before[i]
    ensures Updated(before, after, off, block)
  {
    assert forall i :: off <= i < off + |block| ==> after[i] == block[i - off] by {
      forall i | off <= i < off + |block| ensures after[i] == block[i - off] {
        assert after[off + (i - off)] == block[i - off];
      }
    }
  }

  // memcpy
  method Copy(a: array<bv8>, off: nat, b: array<bv8>, boff: nat, n: nat)
    requires off + n <= a.Length && boff + n <= b.Length
    requires a != b || off + n <= boff || boff + n <= off
    modifies a
    ensures Updated(old(a[..]), a[..], off, old(b[boff..boff + n]))
  {
    ghost var was := a[..];
    ghost var source := b[boff..boff + n];
    for i := 0 to n
      invariant forall k :: 0 <= k < i ==> a[off + k] == source[k]
      invariant forall j :: 0 <= j < a.Length && (j < off || off + n <= j) ==> a[j] == was[j]
      invariant b[boff..boff + n] == source
    {
      assert b[boff + i] == source[i];
      a[off + i] := b[boff + i];
    }
    UpdatedFrom(was, a[..], off, source);
  }

  method XorBytes(a: array<bv8>, off: nat, b: array<bv8>, boff: nat, n: nat)
    requires off + n <= a.Length && boff + n <= b.Length
    requires a != b || off + n <= boff || boff + n <= off
    modifies a
    ensures Updated(old(a[..]), a[..], off, Xor(old(a[off..off + n]), old(b[boff..boff + n])))
  {
    ghost var was := a[..];
    ghost var mask := b[boff..boff + n];
    ghost var sum := Xor(a[off..off + n], mask);
    for i := 0 to n
      invariant forall k :: 0 <= k < i ==> a[off + k] == sum[k]
      invariant forall j :: 0 <= j < a.Length && (j < off || off + i <= j) ==> a[j] == was[j]
      invariant b[boff..boff + n] == mask
    {
      assert b[boff + i] == mask[i];
      a[off + i] := a[off + i] ^ b[boff + i];
    }
    UpdatedFrom(was, a[..], off, sum);
  }

  method SubBytes(a: array<bv8>, off: nat, n: nat, invert: bool)
    requires off + n <= a.Length
    modifies a
    ensures Updated(old(a[..]), a[..], off, Substituted(old(a[off..off + n]), invert))
  {
    hide SBox, InvSBox;
    ghost var was := a[..];
    ghost var image := Substituted(a[off..off + n], invert);
    for i := 0 to n
      invariant forall k :: 0 <= k < i ==> a[off + k] == image[k]
      invariant forall j :: 0 <= j < a.Length && (j < off || off + i <= j) ==> a[j] == was[j]
    {
      a[off + i] := if invert then InvSBox(a[off + i]) else SBox(a[off + i]);
    }
    UpdatedFrom(was, a[..], off, image);
  }

  // The first c columns of row r turned.
  ghost function RowTurned(s: seq<bv8>, r: nat, c: nat, invert: bool): (t: seq<bv8>)
    requires |s| == 16
    ensures |t| == 16
  {
    seq(16, k requires 0 <= k < 16 => if k % 4 == r && k / 4 < c then s[ShiftSource(k, invert)] else s[k])
  }

  // All rows before r turned.
  ghost function RowsTurned(s: seq<bv8>, r: nat, invert: bool): (t: seq<bv8>)
    requires |s| == 16
    ensures |t| == 16
  {
    seq(16, k requires 0 <= k < 16 => if k % 4 < r then s[ShiftSource(k, invert)] else s[k])
  }

  lemma TurnColumn(s: seq<bv8>, r: nat, c: nat, invert: bool)
    requires |s| == 16 && r < 4 && c < 4
    ensures RowTurned(s, r, c + 1, invert) == RowTurned(s, r, c, invert)[r + 4 * c := s[ShiftSource(r + 4 * c, invert)]]
  {
    hide ShiftSource;
    RowAndColumn(r, c);
  }

  lemma TurnRow(s: seq<bv8>, r: nat, invert: bool)
    requires |s| == 16 && r < 4
    ensures RowTurned(RowsTurned(s, r, invert), r, 4, invert) == RowsTurned(s, r + 1, invert)
  {
    hide Mod4;
    forall k | 0 <= k < 16
      ensures RowTurned(RowsTurned(s, r, invert), r, 4, invert)[k] == RowsTurned(s, r + 1, invert)[k]
    {
      SourceInRow(k, invert);
    }
  }

  lemma SourceInRow(k: nat, invert: bool)
    requires k < 16
    ensures ShiftSource(k, invert) % 4 == k % 4
  {
    hide Mod4;
    RowAndColumn(k % 4, Mod4(k / 4 + if invert then 4 - k % 4 else k % 4));
  }

  lemma RowsAll(s: seq<bv8>, invert: bool)
    requires |s| == 16
    ensures RowsTurned(s, 1, invert) == s
    ensures RowsTurned(s, 4, invert) == Shifted(s, invert)
  {
    forall k | 0 <= k < 16 && k % 4 == 0
      ensures ShiftSource(k, invert) == k
    {
    }
  }

  lemma UpdatedAt(a: seq<bv8>, off: nat, s: seq<bv8>, k: nat, v: bv8)
    requires off + |s| <= |a| && a[off..off + |s|] == s && k < |s|
    ensures Updated(a, a[off + k := v], off, s[k := v])
  {
    var b := a[off + k := v];
    assert b[off..off + |s|] == s[k := v];
  }

  lemma UpdatedTwice(a: seq<bv8>, b: seq<bv8>, c: seq<bv8>, off: nat, s: seq<bv8>, t: seq<bv8>)
    requires |s| == |t| && Updated(a, b, off, s) && Updated(b, c, off, t)
    ensures Updated(a, c, off, t)
  {
  }

  method SaveRow(a: array<bv8>, off: nat, r: nat) returns (rowData: array<bv8>)
    requires off + 16 <= a.Length && r < 4
    ensures fresh(rowData) && rowData.Length == 4
    ensures forall c :: 0 <= c < 4 ==> rowData[c] == a[off + r + 4 * c]
  {
    rowData := new bv8[4];
    for c := 0 to 4
      invariant forall d :: 0 <= d < c ==> rowData[d] == a[off + r + 4 * d]
    {
      rowData[c] := a[off + r + 4 * c];
    }
  }

  // One row: copied out, then written back turned.
  method ShiftRow(a: array<bv8>, off: nat, r: nat, invert: bool)
    requires off + 16 <= a.Length && r < 4
    modifies a
    ensures Updated(old(a[..]), a[..], off, RowTurned(old(a[off..off + 16]), r, 4, invert))
  {
    hide Updated, RowTurned, Mod4, ShiftSource;
    ghost var was := a[..];
    ghost var s := a[off..off + 16];
    var rowData := SaveRow(a, off, r);
    var temp := if invert then 4 - r else r;
    assert Updated(was, a[..], off, s) && s == RowTurned(s, r, 0, invert) by { Start(was, off, s, r, invert); }
    for c := 0 to 4
      invariant forall d :: 0 <= d < 4 ==> rowData[d] == s[r + 4 * d]
      invariant Updated(was, a[..], off, RowTurned(s, r, c, invert))
    {
      ghost var before := a[..];
      SourceOf(r, c, invert);
      a[off + r + 4 * c] := rowData[(c + temp) % 4];
      WriteTurned(was, before, a[..], off, s, r, c, invert);
    }
  }

  lemma SourceOf(r: nat, c: nat, invert: bool)
    requires r < 4 && c < 4
    ensures ShiftSource(r + 4 * c, invert) == r + 4 * ((c + if invert then 4 - r else r) % 4)
  {
    RowAndColumn(r, c);
  }

  lemma Start(was: seq<bv8>, off: nat, s: seq<bv8>, r: nat, invert: bool)
    requires off + 16 <= |was| && s == was[off..off + 16]
    ensures Updated(was, was, off, s)
    ensures s == RowTurned(s, r, 0, invert)
  {
  }

  lemma WriteTurned(was: seq<bv8>, before: seq<bv8>, after: seq<bv8>, off: nat, s: seq<bv8>, r: nat, c: nat, invert: bool)
    requires |s| == 16 && r < 4 && c < 4
    requires Updated(was, before, off, RowTurned(s, r, c, invert))
    requires off + 16 <= |before| && after == before[off + (r + 4 * c) := s[ShiftSource(r + 4 * c, invert)]]
    ensures Updated(was, after, off, RowTurned(s, r, c + 1, invert))
  {
    hide RowTurned, ShiftSource;
    TurnColumn(s, r, c, invert);
    UpdatedAt(before, off, RowTurned(s, r, c, invert), r + 4 * c, s[ShiftSource(r + 4 * c, invert)]);
    UpdatedTwice(was, before, after, off, RowTurned(s, r, c, invert), RowTurned(s, r, c + 1, invert));
  }

  method ShiftRows(a: array<bv8>, off: nat, invert: bool)
    requires off + 16 <= a.Length
    modifies a
    ensures Updated(old(a[..]), a[..], off, Shifted(old(a[off..off + 16]), invert))
  {
    hide RowTurned, RowsTurned, Shifted;
    ghost var was := a[..];
    ghost var s := a[off..off + 16];
    RowsAll(s, invert);
    for r := 1 to 4
      invariant Updated(was, a[..], off, RowsTurned(s, r, invert))
    {
      ghost var before := a[..];
      TurnRow(s, r, invert);
      ShiftRow(a, off, r, invert);
      UpdatedTwice(was, before, a[..], off, RowsTurned(s, r, invert), RowsTurned(s, r + 1, invert));
    }
  }

  lemma BelowInColumn(i: nat, r: nat, j: nat)
    requires i < 4 && r < 4 && j < 4
    ensures Below(4 * i + r, j) == 4 * i + Mod4(r + j)
  {
    RowAndColumn(r, i);
  }

  lemma MixedAt(s: seq<bv8>, i: nat, r: nat, invert: bool)
    requires |s| == 16 && i < 4 && r < 4
    ensures Mixed(s, invert)[4 * i + r]
            == Shortcut(s[4 * i + r], s[4 * i + Mod4(r + 1)], s[4 * i + Mod4(r + 2)], s[4 * i + Mod4(r + 3)], invert)
  {
    hide MixByte, Shortcut, Below;
    BelowInColumn(i, r, 1);
    BelowInColumn(i, r, 2);
    BelowInColumn(i, r, 3);
    ShortcutIsMatrix(s[4 * i + r], s[4 * i + Mod4(r + 1)], s[4 * i + Mod4(r + 2)], s[4 * i + Mod4(r + 3)], invert);
  }

  function ShortcutColumn(s: seq<bv8>, invert: bool): (r: seq<bv8>)
    requires |s| == 4
    ensures |r| == 4
  {
    [Shortcut(s[0], s[1], s[2], s[3], invert), Shortcut(s[1], s[2], s[3], s[0], invert),
     Shortcut(s[2], s[3], s[0], s[1], invert), Shortcut(s[3], s[0], s[1], s[2], invert)]
  }

  lemma MixedColumn(s: seq<bv8>, i: nat, invert: bool)
    requires |s| == 16 && i < 4
    ensures Mixed(s, invert)[4 * i..4 * i + 4] == ShortcutColumn(s[4 * i..4 * i + 4], invert)
  {
    hide Mixed, Shortcut;
    var t := s[4 * i..4 * i + 4];
    assert Mixed(s, invert)[4 * i] == Shortcut(t[0], t[1], t[2], t[3], invert) by { MixedAt(s, i, 0, invert); }
    assert Mixed(s, invert)[4 * i + 1] == Shortcut(t[1], t[2], t[3], t[0], invert) by { MixedAt(s, i, 1, invert); }
    assert Mixed(s, invert)[4 * i + 2] == Shortcut(t[2], t[3], t[0], t[1], invert) by { MixedAt(s, i, 2, invert); }
    assert Mixed(s, invert)[4 * i + 3] == Shortcut(t[3], t[0], t[1], t[2], invert) by { MixedAt(s, i, 3, invert); }
    FourBytes(Mixed(s, invert)[4 * i..4 * i + 4]);
  }

  lemma FourBytes(s: seq<bv8>)
    requires |s| == 4
    ensures s == [s[0], s[1], s[2], s[3]]
  {
  }

  lemma ShortcutIsMatrix(a: bv8, b: bv8, c: bv8, d: bv8, invert: bool)
    ensures Shortcut(a, b, c, d, invert) == MixByte(a, b, c, d, invert)
  {
    if invert { InverseIsMatrix(a, b, c, d); } else { ForwardIsMatrix(a, b, c, d); }
  }

  lemma ShortcutBytes(s: seq<bv8>, invert: bool)
    requires |s| == 4
    ensures var temp := Add(Add(Add(s[0], s[1]), s[2]), s[3]);
            var even, odd := XTime(XTime(Add(s[0], s[2]))), XTime(XTime(Add(s[1], s[3])));
            var h0, h1 := Add(Add(temp, s[0]), XTime(Add(s[0], s[1]))), Add(Add(temp, s[1]), XTime(Add(s[1], s[2])));
            var h2, h3 := Add(Add(temp, s[2]), XTime(Add(s[2], s[3]))), Add(Add(temp, s[3]), XTime(Add(s[3], s[0])));
            var twice := XTime(Add(even, odd));
            ShortcutColumn(s, invert)
            == if invert then [Add(h0, Add(twice, even)), Add(h1, Add(twice, odd)), Add(h2, Add(twice, even)), Add(h3, Add(twice, odd))]
               else [h0, h1, h2, h3]
  {
    hide Add, XTime, Correction, Total;
    assert Total(s[0], s[1], s[2], s[3]) == Add(Add(Add(s[0], s[1]), s[2]), s[3]) by { TotalIs(s[0], s[1], s[2], s[3]); }
    TotalRotates(s[0], s[1], s[2], s[3]);
    TotalRotates(s[1], s[2], s[3], s[0]);
    TotalRotates(s[2], s[3], s[0], s[1]);
    CorrectionRotates(s[0], s[1], s[2], s[3]);
  }

  // The four new bytes of a column, collected before any is written back.
  method MixedBytes(a: array<bv8>, p: nat, invert: bool) returns (result: array<bv8>)
    requires p + 4 <= a.Length
    ensures fresh(result) && result.Length == 4
    ensures result[..] == ShortcutColumn(a[p..p + 4], invert)
  {
    hide Add, XTime, ShortcutColumn;
    ghost var s := a[p..p + 4];
    assert a[p] == s[0] && a[p + 1] == s[1] && a[p + 2] == s[2] && a[p + 3] == s[3];
    ShortcutBytes(s, invert);
    var temp := Add(Add(Add(a[p], a[p + 1]), a[p + 2]), a[p + 3]);
    result := new bv8[4];
    result[0] := Add(Add(temp, a[p]), XTime(Add(a[p], a[p + 1])));
    result[1] := Add(Add(temp, a[p + 1]), XTime(Add(a[p + 1], a[p + 2])));
    result[2] := Add(Add(temp, a[p + 2]), XTime(Add(a[p + 2], a[p + 3])));
    result[3] := Add(Add(temp, a[p + 3]), XTime(Add(a[p + 3], a[p])));
    if invert {
      var even := XTime(XTime(Add(a[p], a[p + 2])));
      var odd := XTime(XTime(Add(a[p + 1], a[p + 3])));
      temp := XTime(Add(even, odd));
      result[0] := Add(result[0], Add(temp, even));
      result[1] := Add(result[1], Add(temp, odd));
      result[2] := Add(result[2], Add(temp, even));
      result[3] := Add(result[3], Add(temp, odd));
    }
    FourBytes(result[..]);
  }

  lemma TotalIs(a: bv8, b: bv8, c: bv8, d: bv8)
    ensures Total(a, b, c, d) == Add(Add(Add(a, b), c), d)
  {
  }

  // The columns before i mixed.
  ghost function ColumnsMixed(s: seq<bv8>, i: nat, invert: bool): (t: seq<bv8>)
    requires |s| == 16 && i <= 4
    ensures |t| == 16
  {
    Mixed(s, invert)[..4 * i] + s[4 * i..]
  }

  lemma MixNextColumn(was: seq<bv8>, before: seq<bv8>, after: seq<bv8>, off: nat, s: seq<bv8>, i: nat, invert: bool)
    requires |s| == 16 && i < 4
    requires Updated(was, before, off, ColumnsMixed(s, i, invert))
    requires Updated(before, after, off + 4 * i, Mixed(s, invert)[4 * i..4 * i + 4])
    ensures Updated(was, after, off, ColumnsMixed(s, i + 1, invert))
  {
    hide Mixed;
    var t, u := ColumnsMixed(s, i, invert), ColumnsMixed(s, i + 1, invert);
    var column := Mixed(s, invert)[4 * i..4 * i + 4];
    UpdatedInside(was, before, after, off, t, 4 * i, column);
    assert u == t[..4 * i] + column + t[4 * i + 4..];
  }

  // A change inside a window that was itself changed before.
  lemma UpdatedInside(was: seq<bv8>, before: seq<bv8>, after: seq<bv8>, off: nat, t: seq<bv8>, k: nat, part: seq<bv8>)
    requires k + |part| <= |t|
    requires Updated(was, before, off, t) && Updated(before, after, off + k, part)
    ensures Updated(was, after, off, t[..k] + part + t[k + |part|..])
  {
    var u := t[..k] + part + t[k + |part|..];
    forall j | 0 <= j < |t|
      ensures after[off + j] == u[j]
    {
      assert before[off..off + |t|][j] == t[j];
      if j < k {
        assert after[..off + k][off + j] == before[off + j];
      } else if j < k + |part| {
        assert after[off + k..off + k + |part|][j - k] == part[j - k];
      } else {
        assert after[off + k + |part|..][j - k - |part|] == before[off + j];
      }
    }
    forall j | 0 <= j < |was| && (j < off || off + |t| <= j)
      ensures after[j] == was[j]
    {
      if j < off {
        assert after[..off + k][j] == before[j] && before[..off][j] == was[j];
      } else {
        assert after[off + k + |part|..][j - (off + k + |part|)] == before[j];
        assert before[off + |t|..][j - (off + |t|)] == was[j];
      }
    }
    UpdatedFrom(was, after, off, u);
  }

  lemma Slice(s: seq<bv8>, off: nat, n: nat, k: nat, m: nat)
    requires off + n <= |s| && k + m <= n
    ensures s[off..off + n][k..k + m] == s[off + k..off + k + m]
  {
    var t := s[off..off + n];
    var u, v := t[k..k + m], s[off + k..off + k + m];
    forall i | 0 <= i < m
      ensures u[i] == v[i]
    {
      assert u[i] == t[k + i];
    }
  }

  lemma ColumnBytes(was: seq<bv8>, before: seq<bv8>, off: nat, s: seq<bv8>, i: nat, invert: bool)
    requires |s| == 16 && i < 4
    requires Updated(was, before, off, ColumnsMixed(s, i, invert))
    ensures off + 16 <= |before|
    ensures before[off + 4 * i..off + 4 * i + 4] == s[4 * i..4 * i + 4]
  {
    hide Mixed;
    var window := before[off..off + 16];
    Slice(before, off, 16, 4 * i, 4);
    assert window[4 * i..4 * i + 4] == s[4 * i..4 * i + 4];
  }

  method MixColumns(a: array<bv8>, off: nat, invert: bool)
    requires off + 16 <= a.Length
    modifies a
    ensures Updated(old(a[..]), a[..], off, Mixed(old(a[off..off + 16]), invert))
  {
    hide Updated, Mixed, ShortcutColumn, ColumnsMixed;
    ghost var was := a[..];
    ghost var s := a[off..off + 16];
    MixNone(was, off, s, invert);
    for i := 0 to 4
      invariant Updated(was, a[..], off, ColumnsMixed(s, i, invert))
    {
      ghost var before := a[..];
      ColumnBytes(was, before, off, s, i, invert);
      MixedColumn(s, i, invert);
      var p := off + 4 * i;
      assert a[p..p + 4] == before[p..p + 4];
      var result := MixedBytes(a, p, invert);
      Copy(a, p, result, 0, 4);
      assert result[0..4] == result[..];
      MixNextColumn(was, before, a[..], off, s, i, invert);
    }
    MixAll(s, invert);
  }

  lemma MixNone(was: seq<bv8>, off: nat, s: seq<bv8>, invert: bool)
    requires off + 16 <= |was| && s == was[off..off + 16]
    ensures Updated(was, was, off, ColumnsMixed(s, 0, invert))
  {
  }

  lemma MixAll(s: seq<bv8>, invert: bool)
    requires |s| == 16
    ensures ColumnsMixed(s, 4, invert) == Mixed(s, invert)
  {
    hide Mixed;
  }
}
