// src/aes.c: key expansion, the block cipher and the two modes, in place.
module AesContext {
  import opened AesField
  import opened AesCipher
  import opened Aes
  import opened AesRounds

  lemma Window(was: seq<bv8>, now: seq<bv8>, off: nat, t: seq<bv8>)
    requires Updated(was, now, off, t)
    ensures |now| == |was| && off + |t| <= |now| && now[off..off + |t|] == t
  {
  }

  lemma NoUpdate(was: seq<bv8>, off: nat, n: nat)
    requires off + n <= |was|
    ensures Updated(was, was, off, was[off..off + n])
  {
  }

  method RotationWord(a: array<bv8>, p: nat)
    requires p + 4 <= a.Length
    modifies a
    ensures Updated(old(a[..]), a[..], p, RotWord(old(a[p..p + 4])))
  {
    ghost var was := a[..];
    ghost var s := a[p..p + 4];
    var temp := a[p];
    a[p] := a[p + 1];
    a[p + 1] := a[p + 2];
    a[p + 2] := a[p + 3];
    a[p + 3] := temp;
    assert a[p..p + 4] == RotWord(s);
  }

  // The last word of the first i, put through the core of the key expansion.
  function Core(last: seq<bv8>, nk: nat, i: nat): (r: seq<bv8>)
    requires |last| == 4 && KeyWords(nk)
    ensures |r| == 4
  {
    if i % nk == 0 then Xor(Substituted(RotWord(last), false), Rcon(i / nk))
    else if nk > 6 && i % nk == 4 then Substituted(last, false)
    else last
  }

  lemma WordStep(key: seq<bv8>, nk: nat, i: nat)
    requires KeyWords(nk) && |key| == 4 * nk && nk <= i
    ensures Word(key, nk, i) == Xor(Core(Word(key, nk, i - 1), nk, i), Word(key, nk, i - nk))
  {
    hide Xor, Substituted, RotWord, Rcon;
  }

  // The number of the next round constant to be used, at word i or after it.
  function NextTurn(i: nat, nk: nat): (r: nat)
    requires KeyWords(nk) && nk <= i
    ensures r >= 1
  {
    (i - 1) / nk + 1
  }

  lemma TurnStep(i: nat, nk: nat)
    requires KeyWords(nk) && nk <= i
    ensures i % nk == 0 ==> NextTurn(i, nk) == i / nk
    ensures NextTurn(i + 1, nk) == if i % nk == 0 then NextTurn(i, nk) + 1 else NextTurn(i, nk)
    ensures NextTurn(nk, nk) == 1
  {
  }

  lemma CoreCases(last: seq<bv8>, nk: nat, i: nat)
    requires |last| == 4 && KeyWords(nk) && nk <= i
    ensures i % nk == 0 ==> Core(last, nk, i) == Xor(Substituted(RotWord(last), false), Rcon(NextTurn(i, nk)))
    ensures i % nk != 0 && nk > 6 && i % nk == 4 ==> Core(last, nk, i) == Substituted(last, false)
    ensures i % nk != 0 && !(nk > 6 && i % nk == 4) ==> Core(last, nk, i) == last
  {
    hide Xor, Substituted, RotWord, Rcon, NextTurn;
    TurnStep(i, nk);
  }

  lemma NextWord(was: seq<bv8>, now: seq<bv8>, key: seq<bv8>, nk: nat, i: nat)
    requires KeyWords(nk) && |key| == 4 * nk
    requires Expands(was, key, nk, i) && Updated(was, now, 4 * i, Word(key, nk, i))
    ensures Expands(now, key, nk, i + 1)
  {
    hide Word;
    forall j | 0 <= j < i
      ensures now[4 * j..4 * j + 4] == Word(key, nk, j)
    {
      assert now[4 * j..4 * j + 4] == now[..4 * i][4 * j..4 * j + 4];
      assert was[4 * j..4 * j + 4] == was[..4 * i][4 * j..4 * j + 4];
    }
  }

  lemma WordAt(w: seq<bv8>, key: seq<bv8>, nk: nat, n: nat, i: nat)
    requires KeyWords(nk) && |key| == 4 * nk
    requires Expands(w, key, nk, n) && i < n
    ensures 4 * i + 4 <= |w| && w[4 * i..4 * i + 4] == Word(key, nk, i)
  {
  }

  lemma KeyExpands(was: seq<bv8>, now: seq<bv8>, key: seq<bv8>, nk: nat)
    requires KeyWords(nk) && |key| == 4 * nk
    requires Updated(was, now, 0, key)
    ensures Expands(now, key, nk, nk)
  {
    forall i | 0 <= i < nk
      ensures now[4 * i..4 * i + 4] == Word(key, nk, i)
    {
      assert now[4 * i..4 * i + 4] == now[0..0 + |key|][4 * i..4 * i + 4];
    }
  }

  // A configuration of the cipher with its round key table: AES_KEY_LENGTH is
  // 32 * nk bits and AES_MODE is `mode`.
  class Context {
    const nk: nat
    const nr: nat
    const mode: Mode
    const roundKeyTable: array<bv8>

    ghost predicate Valid() {
      KeyWords(nk) && nr == nk + 6 && roundKeyTable.Length == 16 * (nr + 1)
    }

    constructor (nk: nat, mode: Mode)
      requires KeyWords(nk)
      ensures Valid() && fresh(roundKeyTable)
      ensures this.nk == nk && this.mode == mode
    {
      this.nk := nk;
      this.nr := nk + 6;
      this.mode := mode;
      this.roundKeyTable := new bv8[16 * (nk + 7)];
    }

    ghost function Keys(): (w: seq<bv8>)
      requires Valid()
      reads roundKeyTable
      ensures Schedule(w, nr)
    {
      roundKeyTable[..]
    }

    // The 4 bytes at p, holding `last`, turned, substituted and xored with rcon.
    method TurnWord(p: nat, rcon: array<bv8>, ghost last: seq<bv8>)
      requires Valid() && p + 4 <= roundKeyTable.Length && |last| == 4
      requires rcon != roundKeyTable && rcon.Length == 4
      requires roundKeyTable[p..p + 4] == last
      modifies roundKeyTable
      ensures Updated(old(roundKeyTable[..]), roundKeyTable[..], p, Xor(Substituted(RotWord(last), false), rcon[..]))
    {
      hide Updated, Substituted, Xor, RotWord;
      ghost var was := roundKeyTable[..];
      RotationWord(roundKeyTable, p);
      ghost var t1 := roundKeyTable[..];
      Window(was, t1, p, RotWord(last));
      SubBytes(roundKeyTable, p, 4, false);
      ghost var t2 := roundKeyTable[..];
      UpdatedTwice(was, t1, t2, p, RotWord(last), Substituted(RotWord(last), false));
      Window(was, t2, p, Substituted(RotWord(last), false));
      assert rcon[0..0 + 4] == rcon[..];
      XorBytes(roundKeyTable, p, rcon, 0, 4);
      UpdatedTwice(was, t2, roundKeyTable[..], p, Substituted(RotWord(last), false),
                   Xor(Substituted(RotWord(last), false), rcon[..]));
    }

    // Word i of the schedule, from the word before it.
    method CoreWord(i: nat, rcon: array<bv8>, ghost last: seq<bv8>)
      requires Valid() && nk <= i && 4 * i + 4 <= roundKeyTable.Length
      requires rcon != roundKeyTable && rcon.Length == 4
      requires last == roundKeyTable[4 * i - 4..4 * i]
      requires rcon[..] == Rcon(NextTurn(i, nk))
      modifies roundKeyTable, rcon
      ensures Updated(old(roundKeyTable[..]), roundKeyTable[..], 4 * i, Core(last, nk, i))
      ensures rcon[..] == Rcon(NextTurn(i + 1, nk))
    {
      hide Updated, Substituted, Xor, RotWord, Rcon, Core, NextTurn;
      ghost var was := roundKeyTable[..];
      var p := 4 * i;
      TurnStep(i, nk);
      CoreCases(last, nk, i);
      assert roundKeyTable[p - 4..p - 4 + 4] == last;
      Copy(roundKeyTable, p, roundKeyTable, p - 4, 4);
      ghost var now := roundKeyTable[..];
      Window(was, now, p, last);
      assert roundKeyTable[p..p + 4] == last;
      if i % nk == 0 {
        TurnWord(p, rcon, last);
        UpdatedTwice(was, now, roundKeyTable[..], p, last, Core(last, nk, i));
        NextRcon(rcon, NextTurn(i, nk));
      } else if nk > 6 && i % nk == 4 {
        SubBytes(roundKeyTable, p, 4, false);
        UpdatedTwice(was, now, roundKeyTable[..], p, last, Core(last, nk, i));
      }
    }

    method NextRcon(rcon: array<bv8>, ghost j: nat)
      requires rcon.Length == 4 && rcon[..] == Rcon(j) && j >= 1
      modifies rcon
      ensures rcon[..] == Rcon(j + 1)
    {
      assert rcon[0] == rcon[..][0];
      assert rcon[1] == rcon[..][1] && rcon[2] == rcon[..][2] && rcon[3] == rcon[..][3];
      rcon[0] := XTime(rcon[0]);
      FourBytes(rcon[..]);
    }

    method Init(key: array<bv8>)
      requires Valid() && key != roundKeyTable && key.Length >= 4 * nk
      modifies roundKeyTable
      ensures Expands(Keys(), old(key[..4 * nk]), nk, 4 * (nr + 1))
    {
      hide Updated, Word, Rcon, Expands, NextTurn;
      ghost var k := key[..4 * nk];
      ghost var blank := roundKeyTable[..];
      assert key[0..0 + 4 * nk] == k;
      Copy(roundKeyTable, 0, key, 0, 4 * nk);
      KeyExpands(blank, roundKeyTable[..], k, nk);
      var rcon := new bv8[4];
      FirstRcon(rcon);
      var i := nk;
      TurnStep(nk, nk);
      while i < 4 * (nr + 1)
        invariant nk <= i <= 4 * (nr + 1)
        invariant rcon[..] == Rcon(NextTurn(i, nk))
        invariant Expands(roundKeyTable[..], k, nk, i)
      {
        ExpandWord(k, i, rcon);
        i := i + 1;
      }
    }

    method FirstRcon(rcon: array<bv8>)
      requires rcon.Length == 4
      modifies rcon
      ensures rcon[..] == Rcon(1)
    {
      rcon[0], rcon[1], rcon[2], rcon[3] := 1, 0, 0, 0;
      FourBytes(rcon[..]);
    }

    method ExpandWord(ghost key: seq<bv8>, i: nat, rcon: array<bv8>)
      requires Valid() && |key| == 4 * nk && nk <= i < 4 * (nr + 1)
      requires rcon != roundKeyTable && rcon.Length == 4
      requires Expands(roundKeyTable[..], key, nk, i)
      requires rcon[..] == Rcon(NextTurn(i, nk))
      modifies roundKeyTable, rcon
      ensures Expands(roundKeyTable[..], key, nk, i + 1)
      ensures rcon[..] == Rcon(NextTurn(i + 1, nk))
    {
      hide Updated, Word, Rcon, Expands, Core, Xor, NextTurn;
      ghost var was := roundKeyTable[..];
      ghost var last, far := Word(key, nk, i - 1), Word(key, nk, i - nk);
      WordAt(was, key, nk, i, i - 1);
      WordAt(was, key, nk, i, i - nk);
      assert roundKeyTable[4 * i - 4..4 * i] == was[4 * (i - 1)..4 * (i - 1) + 4];
      CoreWord(i, rcon, last);
      ghost var t := roundKeyTable[..];
      Window(was, t, 4 * i, Core(last, nk, i));
      Before(was, t, 4 * i, Core(last, nk, i), 4 * (i - nk));
      var q := 4 * i - 4 * nk;
      assert roundKeyTable[q..q + 4] == far;
      XorBytes(roundKeyTable, 4 * i, roundKeyTable, q, 4);
      WordStep(key, nk, i);
      UpdatedTwice(was, t, roundKeyTable[..], 4 * i, Core(last, nk, i), Word(key, nk, i));
      NextWord(was, roundKeyTable[..], key, nk, i);
    }

    method AddRoundKey(a: array<bv8>, off: nat, i: nat)
      requires Valid() && a != roundKeyTable && off + 16 <= a.Length && i <= nr
      modifies a
      ensures Updated(old(a[..]), a[..], off, Xor(old(a[off..off + 16]), RoundKey(Keys(), nr, i)))
    {
      hide Updated, Xor;
      assert roundKeyTable[16 * i..16 * i + 16] == RoundKey(Keys(), nr, i);
      XorBytes(a, off, roundKeyTable, 16 * i, 16);
    }

    method Scramble(a: array<bv8>, off: nat)
      requires off + 16 <= a.Length
      modifies a
      ensures Updated(old(a[..]), a[..], off, Scrambled(old(a[off..off + 16])))
    {
      hide Updated, Substituted, Shifted;
      ghost var was := a[..];
      ghost var s := a[off..off + 16];
      SubBytes(a, off, 16, false);
      ghost var t := a[..];
      Window(was, t, off, Substituted(s, false));
      ShiftRows(a, off, false);
      UpdatedTwice(was, t, a[..], off, Substituted(s, false), Scrambled(s));
    }

    method Unscramble(a: array<bv8>, off: nat)
      requires off + 16 <= a.Length
      modifies a
      ensures Updated(old(a[..]), a[..], off, Unscrambled(old(a[off..off + 16])))
    {
      hide Updated, Substituted, Shifted;
      ghost var was := a[..];
      ghost var s := a[off..off + 16];
      ShiftRows(a, off, true);
      ghost var t := a[..];
      Window(was, t, off, Shifted(s, true));
      SubBytes(a, off, 16, true);
      UpdatedTwice(was, t, a[..], off, Shifted(s, true), Unscrambled(s));
    }

    // Round i of the cipher.
    method EncryptRound(a: array<bv8>, off: nat, i: nat, ghost s: seq<bv8>)
      requires Valid() && a != roundKeyTable && off + 16 <= a.Length && 1 <= i <= nr
      requires |s| == 16 && a[off..off + 16] == Rounds(s, Keys(), nr, i - 1)
      modifies a
      ensures Updated(old(a[..]), a[..], off, Rounds(s, Keys(), nr, i))
    {
      hide Updated, Scrambled, Mixed, Xor, RoundKey;
      ghost var was := a[..];
      ghost var t := Scrambled(a[off..off + 16]);
      Scramble(a, off);
      ghost var now := a[..];
      Window(was, now, off, t);
      assert a[off..off + 16] == t;
      if i != nr {
        MixColumns(a, off, false);
        UpdatedTwice(was, now, a[..], off, t, Mixed(t, false));
        now := a[..];
        t := Mixed(t, false);
        Window(was, now, off, t);
        assert a[off..off + 16] == t;
      }
      AddRoundKey(a, off, i);
      UpdatedTwice(was, now, a[..], off, t, Rounds(s, Keys(), nr, i));
    }

    method BlockEncrypt(a: array<bv8>, off: nat)
      requires Valid() && a != roundKeyTable && off + 16 <= a.Length
      modifies a
      ensures Updated(old(a[..]), a[..], off, Enciphered(old(a[off..off + 16]), Keys(), nr))
      ensures exists states :: States(states, old(a[off..off + 16]), Keys(), nr) && a[off..off + 16] == states[nr]
    {
      BlockRounds(a, off);
      ghost var states := EncipheredStates(old(a[off..off + 16]), Keys(), nr);
      Window(old(a[..]), a[..], off, states[nr]);
    }

    method BlockRounds(a: array<bv8>, off: nat)
      requires Valid() && a != roundKeyTable && off + 16 <= a.Length
      modifies a
      ensures Updated(old(a[..]), a[..], off, Enciphered(old(a[off..off + 16]), Keys(), nr))
    {
      hide Updated, Rounds, RoundKey;
      ghost var was := a[..];
      ghost var s := a[off..off + 16];
      FirstRound(s);
      AddRoundKey(a, off, 0);
      for i := 1 to nr + 1
        invariant Updated(was, a[..], off, Rounds(s, Keys(), nr, i - 1))
      {
        ghost var now := a[..];
        Window(was, now, off, Rounds(s, Keys(), nr, i - 1));
        assert a[off..off + 16] == now[off..off + 16];
        EncryptRound(a, off, i, s);
        UpdatedTwice(was, now, a[..], off, Rounds(s, Keys(), nr, i - 1), Rounds(s, Keys(), nr, i));
      }
    }

    lemma FirstRound(s: seq<bv8>)
      requires Valid() && |s| == 16
      ensures Rounds(s, Keys(), nr, 0) == Xor(s, RoundKey(Keys(), nr, 0))
      ensures Unrounds(s, Keys(), nr, nr) == Xor(s, RoundKey(Keys(), nr, nr))
    {
      hide Xor, RoundKey;
    }

    // The step of the inverse cipher that leaves i - 1 rounds to be undone.
    method DecryptRound(a: array<bv8>, off: nat, i: nat, ghost s: seq<bv8>)
      requires Valid() && a != roundKeyTable && off + 16 <= a.Length && 1 <= i <= nr
      requires |s| == 16 && a[off..off + 16] == Unrounds(s, Keys(), nr, i)
      modifies a
      ensures Updated(old(a[..]), a[..], off, Unrounds(s, Keys(), nr, i - 1))
    {
      hide Updated, Unscrambled, Mixed, Xor, RoundKey;
      ghost var was := a[..];
      ghost var t := Unscrambled(a[off..off + 16]);
      Unscramble(a, off);
      ghost var now := a[..];
      Window(was, now, off, t);
      assert a[off..off + 16] == t;
      AddRoundKey(a, off, i - 1);
      UpdatedTwice(was, now, a[..], off, t, Xor(t, RoundKey(Keys(), nr, i - 1)));
      now := a[..];
      t := Xor(t, RoundKey(Keys(), nr, i - 1));
      Window(was, now, off, t);
      assert a[off..off + 16] == t;
      if i != 1 {
        MixColumns(a, off, true);
        UpdatedTwice(was, now, a[..], off, t, Unrounds(s, Keys(), nr, i - 1));
      }
    }

    method BlockDecrypt(a: array<bv8>, off: nat)
      requires Valid() && a != roundKeyTable && off + 16 <= a.Length
      modifies a
      ensures Updated(old(a[..]), a[..], off, Deciphered(old(a[off..off + 16]), Keys(), nr))
    {
      hide Updated, Unrounds, RoundKey;
      ghost var was := a[..];
      ghost var s := a[off..off + 16];
      FirstRound(s);
      AddRoundKey(a, off, nr);
      for i := nr downto 0
        invariant Updated(was, a[..], off, Unrounds(s, Keys(), nr, i))
      {
        ghost var now := a[..];
        Window(was, now, off, Unrounds(s, Keys(), nr, i + 1));
        assert a[off..off + 16] == now[off..off + 16];
        DecryptRound(a, off, i + 1, s);
        UpdatedTwice(was, now, a[..], off, Unrounds(s, Keys(), nr, i + 1), Unrounds(s, Keys(), nr, i));
      }
    }
  }

  lemma Before(was: seq<bv8>, now: seq<bv8>, off: nat, t: seq<bv8>, q: nat)
    requires Updated(was, now, off, t) && q + 4 <= off
    ensures now[q..q + 4] == was[q..q + 4]
  {
    assert now[q..q + 4] == now[..off][q..q + 4];
    assert was[q..q + 4] == was[..off][q..q + 4];
  }
}
