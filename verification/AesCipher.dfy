// src/aes.c: the cipher, its inverse and the modes of operation as functions
// on byte sequences (FIPS 197, NIST SP 800-38A), and the round trips.
// A block is 16 bytes stored column by column: row r of column c is byte r + 4c.
module AesCipher {
  import opened AesField
  import opened AesColumn

  datatype Mode = ECB | CBC

  function Xor(s: seq<bv8>, t: seq<bv8>): (r: seq<bv8>)
    requires |s| <= |t|
    ensures |r| == |s|
  {
    seq(|s|, k requires 0 <= k < |s| => s[k] ^ t[k])
  }

  function Substitute(b: bv8, invert: bool): bv8 {
    if invert then InvSBox(b) else SBox(b)
  }

  function Substituted(s: seq<bv8>, invert: bool): (r: seq<bv8>)
    ensures |r| == |s|
  {
    seq(|s|, k requires 0 <= k < |s| => Substitute(s[k], invert))
  }

  function Mod4(n: nat): (r: nat)
    requires n < 8
    ensures r == if n < 4 then n else n - 4
  {
    n % 4
  }

  // Row k % 4 moves left by its own number of places, or right to invert.
  function ShiftSource(k: nat, invert: bool): (r: nat)
    requires k < 16
    ensures r < 16
  {
    k % 4 + 4 * Mod4(k / 4 + if invert then 4 - k % 4 else k % 4)
  }

  function Shifted(s: seq<bv8>, invert: bool): (r: seq<bv8>)
    requires |s| == 16
    ensures |r| == 16
  {
    seq(16, k requires 0 <= k < 16 => s[ShiftSource(k, invert)])
  }

  // The byte j rows below byte k in the same column, wrapping round.
  function Below(k: nat, j: nat): (r: nat)
    requires k < 16 && j < 4
    ensures r < 16
  {
    k - k % 4 + Mod4(k % 4 + j)
  }

  function MixAt(s: seq<bv8>, k: nat, invert: bool): bv8
    requires |s| == 16 && k < 16
  {
    MixByte(s[k], s[Below(k, 1)], s[Below(k, 2)], s[Below(k, 3)], invert)
  }

  function Mixed(s: seq<bv8>, invert: bool): (r: seq<bv8>)
    requires |s| == 16
    ensures |r| == 16
  {
    seq(16, k requires 0 <= k < 16 => MixAt(s, k, invert))
  }

  // ---- Each transformation undoes its inverse.

  lemma XorTwice(s: seq<bv8>, t: seq<bv8>)
    requires |s| <= |t|
    ensures Xor(Xor(s, t), t) == s
  {
  }

  lemma SubstitutedBack(s: seq<bv8>, invert: bool)
    ensures Substituted(Substituted(s, invert), !invert) == s
  {
    hide SBox, InvSBox;
    forall k | 0 <= k < |s|
      ensures Substituted(Substituted(s, invert), !invert)[k] == s[k]
    {
      SBoxRestored(s[k]);
      SBoxCovered(s[k]);
    }
  }

  lemma RowAndColumn(r: nat, c: nat)
    requires r < 4
    ensures (r + 4 * c) % 4 == r && (r + 4 * c) / 4 == c
  {
  }

  lemma TurnsCancel(c: nat, t: nat)
    requires c < 4 && t < 4
    ensures Mod4(Mod4(c + (4 - t)) + t) == c && Mod4(Mod4(c + t) + (4 - t)) == c
  {
    hide Mod4;
  }

  lemma ShiftSourceBack(k: nat, invert: bool)
    requires k < 16
    ensures ShiftSource(ShiftSource(k, !invert), invert) == k
  {
    hide Mod4;
    var r, c := k % 4, k / 4;
    var m := Mod4(c + if invert then r else 4 - r);
    assert ShiftSource(k, !invert) == r + 4 * m;
    RowAndColumn(r, m);
    TurnsCancel(c, r);
  }

  lemma ShiftedBack(s: seq<bv8>, invert: bool)
    requires |s| == 16
    ensures Shifted(Shifted(s, invert), !invert) == s
  {
    forall k | 0 <= k < 16
      ensures Shifted(Shifted(s, invert), !invert)[k] == s[k]
    {
      ShiftSourceBack(k, invert);
    }
  }

  lemma BelowBelow(k: nat, i: nat, j: nat)
    requires k < 16 && i < 4 && j < 4
    ensures Below(Below(k, i), j) == Below(k, Mod4(i + j))
    ensures Below(k, 0) == k
  {
    var r := Mod4(k % 4 + i);
    assert Below(k, i) == 4 * (k / 4) + r;
    assert Below(k, i) % 4 == r;
  }

  lemma MixedRestored(s: seq<bv8>, invert: bool)
    requires |s| == 16
    ensures Mixed(Mixed(s, invert), !invert) == s
  {
    hide MixByte, Below;
    forall k | 0 <= k < 16
      ensures Mixed(Mixed(s, invert), !invert)[k] == s[k]
    {
      MixedRestoredAt(s, k, invert);
    }
  }

  lemma MixedRestoredAt(s: seq<bv8>, k: nat, invert: bool)
    requires |s| == 16 && k < 16
    ensures MixAt(Mixed(s, invert), k, !invert) == s[k]
  {
    hide MixByte, Below;
    BelowBelow(k, 1, 1);
    BelowBelow(k, 1, 2);
    BelowBelow(k, 1, 3);
    BelowBelow(k, 2, 1);
    BelowBelow(k, 2, 2);
    BelowBelow(k, 2, 3);
    BelowBelow(k, 3, 1);
    BelowBelow(k, 3, 2);
    BelowBelow(k, 3, 3);
    var a, b, c, d := s[k], s[Below(k, 1)], s[Below(k, 2)], s[Below(k, 3)];
    assert Mixed(s, invert)[k] == MixByte(a, b, c, d, invert);
    assert Mixed(s, invert)[Below(k, 1)] == MixByte(b, c, d, a, invert);
    assert Mixed(s, invert)[Below(k, 2)] == MixByte(c, d, a, b, invert);
    assert Mixed(s, invert)[Below(k, 3)] == MixByte(d, a, b, c, invert);
    if invert { MixedForth(a, b, c, d); } else { MixedBack(a, b, c, d); }
  }

  // ---- The block cipher.

  predicate Schedule(w: seq<bv8>, nr: nat) {
    nr >= 1 && |w| == 16 * (nr + 1)
  }

  function RoundKey(w: seq<bv8>, nr: nat, i: nat): (r: seq<bv8>)
    requires Schedule(w, nr) && i <= nr
    ensures |r| == 16
  {
    w[16 * i..16 * i + 16]
  }

  function Scrambled(s: seq<bv8>): (r: seq<bv8>)
    requires |s| == 16
    ensures |r| == 16
  {
    Shifted(Substituted(s, false), false)
  }

  function Unscrambled(s: seq<bv8>): (r: seq<bv8>)
    requires |s| == 16
    ensures |r| == 16
  {
    Substituted(Shifted(s, true), true)
  }

  // The state after round i (section 5.1 of FIPS 197).
  function Rounds(s: seq<bv8>, w: seq<bv8>, nr: nat, i: nat): (r: seq<bv8>)
    requires |s| == 16 && Schedule(w, nr) && i <= nr
    ensures |r| == 16
  {
    if i == 0 then Xor(s, RoundKey(w, nr, 0))
    else
      var t := Scrambled(Rounds(s, w, nr, i - 1));
      Xor(if i != nr then Mixed(t, false) else t, RoundKey(w, nr, i))
  }

  function Enciphered(s: seq<bv8>, w: seq<bv8>, nr: nat): (r: seq<bv8>)
    requires |s| == 16 && Schedule(w, nr)
    ensures |r| == 16
  {
    Rounds(s, w, nr, nr)
  }

  // The state when i rounds are still to be undone (section 5.3 of FIPS 197).
  function Unrounds(s: seq<bv8>, w: seq<bv8>, nr: nat, i: nat): (r: seq<bv8>)
    requires |s| == 16 && Schedule(w, nr) && i <= nr
    ensures |r| == 16
    decreases nr - i
  {
    if i == nr then Xor(s, RoundKey(w, nr, nr))
    else
      var t := Xor(Unscrambled(Unrounds(s, w, nr, i + 1)), RoundKey(w, nr, i));
      if i != 0 then Mixed(t, true) else t
  }

  function Deciphered(s: seq<bv8>, w: seq<bv8>, nr: nat): (r: seq<bv8>)
    requires |s| == 16 && Schedule(w, nr)
    ensures |r| == 16
  {
    Unrounds(s, w, nr, 0)
  }

  lemma ScrambledBack(s: seq<bv8>)
    requires |s| == 16
    ensures Unscrambled(Scrambled(s)) == s
    ensures Scrambled(Unscrambled(s)) == s
  {
    hide Substituted, Shifted;
    ShiftedBack(Substituted(s, false), false);
    SubstitutedBack(s, false);
    SubstitutedBack(Shifted(s, true), true);
    ShiftedBack(s, true);
  }

  // Undoing the rounds of an enciphered block passes through the states that
  // enciphering it went through, in the opposite order.
  lemma {:induction false} RoundsUndone(s: seq<bv8>, w: seq<bv8>, nr: nat, i: nat)
    requires |s| == 16 && Schedule(w, nr) && 1 <= i <= nr
    ensures Unrounds(Enciphered(s, w, nr), w, nr, i) == Scrambled(Rounds(s, w, nr, i - 1))
    decreases nr - i
  {
    hide Scrambled, Unscrambled, Mixed, Xor, RoundKey;
    var before := Scrambled(Rounds(s, w, nr, i - 1));
    if i == nr {
      XorTwice(before, RoundKey(w, nr, nr));
    } else {
      RoundsUndone(s, w, nr, i + 1);
      ScrambledBack(Rounds(s, w, nr, i));
      XorTwice(Mixed(before, false), RoundKey(w, nr, i));
      MixedRestored(before, false);
    }
  }

  lemma DecipherEnciphered(s: seq<bv8>, w: seq<bv8>, nr: nat)
    requires |s| == 16 && Schedule(w, nr)
    ensures Deciphered(Enciphered(s, w, nr), w, nr) == s
  {
    hide Scrambled, Unscrambled, Mixed, Xor, RoundKey;
    RoundsUndone(s, w, nr, 1);
    ScrambledBack(Rounds(s, w, nr, 0));
    XorTwice(s, RoundKey(w, nr, 0));
  }

  lemma {:induction false} RoundsRedone(c: seq<bv8>, w: seq<bv8>, nr: nat, i: nat)
    requires |c| == 16 && Schedule(w, nr) && i < nr
    ensures Scrambled(Rounds(Deciphered(c, w, nr), w, nr, i)) == Unrounds(c, w, nr, i + 1)
  {
    hide Scrambled, Unscrambled, Mixed, Xor, RoundKey;
    var t := Unscrambled(Unrounds(c, w, nr, i + 1));
    XorTwice(t, RoundKey(w, nr, i));
    ScrambledBack(Unrounds(c, w, nr, i + 1));
    if i > 0 {
      RoundsRedone(c, w, nr, i - 1);
      MixedRestored(Xor(t, RoundKey(w, nr, i)), true);
    }
  }

  lemma EncipherDeciphered(c: seq<bv8>, w: seq<bv8>, nr: nat)
    requires |c| == 16 && Schedule(w, nr)
    ensures Enciphered(Deciphered(c, w, nr), w, nr) == c
  {
    hide Scrambled, Unscrambled, Mixed, Xor, RoundKey;
    RoundsRedone(c, w, nr, nr - 1);
    XorTwice(c, RoundKey(w, nr, nr));
  }

  // ---- Key expansion (section 5.2 of FIPS 197), one 4-byte word at a time.

  predicate KeyWords(nk: nat) {
    nk == 4 || nk == 6 || nk == 8
  }

  function RotWord(s: seq<bv8>): (r: seq<bv8>)
    requires |s| == 4
    ensures |r| == 4
  {
    [s[1], s[2], s[3], s[0]]
  }

  // x to the power j - 1.
  function RconByte(j: nat): bv8 {
    if j <= 1 then 1 else XTime(RconByte(j - 1))
  }

  function Rcon(j: nat): (r: seq<bv8>)
    ensures |r| == 4
  {
    [RconByte(j), 0, 0, 0]
  }

  function Word(key: seq<bv8>, nk: nat, i: nat): (r: seq<bv8>)
    requires KeyWords(nk) && |key| == 4 * nk
    ensures |r| == 4
  {
    if i < nk then key[4 * i..4 * i + 4]
    else
      var last := Word(key, nk, i - 1);
      Xor(if i % nk == 0 then Xor(Substituted(RotWord(last), false), Rcon(i / nk))
          else if nk > 6 && i % nk == 4 then Substituted(last, false)
          else last,
          Word(key, nk, i - nk))
  }

  // w holds the first n words of the expanded key.
  ghost predicate Expands(w: seq<bv8>, key: seq<bv8>, nk: nat, n: nat)
    requires KeyWords(nk) && |key| == 4 * nk
  {
    && 4 * n <= |w|
    && forall i :: 0 <= i < n ==> w[4 * i..4 * i + 4] == Word(key, nk, i)
  }

  // ---- The modes: ECB and CBC (sections 6.1 and 6.2 of NIST SP 800-38A).

  predicate Vector(mode: Mode, iv: seq<bv8>) {
    mode == CBC ==> |iv| == 16
  }

  function Whitened(mode: Mode, s: seq<bv8>, iv: seq<bv8>): (r: seq<bv8>)
    requires |s| == 16 && Vector(mode, iv)
    ensures |r| == 16
  {
    if mode == CBC then Xor(s, iv) else s
  }

  // Bytes beyond the last whole block are left alone.
  function Encrypted(mode: Mode, s: seq<bv8>, iv: seq<bv8>, w: seq<bv8>, nr: nat): (r: seq<bv8>)
    requires Schedule(w, nr) && Vector(mode, iv)
    ensures |r| == |s|
  {
    if |s| < 16 then s
    else
      var c := Enciphered(Whitened(mode, s[..16], iv), w, nr);
      c + Encrypted(mode, s[16..], c, w, nr)
  }

  function Decrypted(mode: Mode, s: seq<bv8>, iv: seq<bv8>, w: seq<bv8>, nr: nat): (r: seq<bv8>)
    requires Schedule(w, nr) && Vector(mode, iv)
    ensures |r| == |s|
  {
    if |s| < 16 then s
    else Whitened(mode, Deciphered(s[..16], w, nr), iv) + Decrypted(mode, s[16..], s[..16], w, nr)
  }

  lemma WhitenedBack(mode: Mode, s: seq<bv8>, iv: seq<bv8>)
    requires |s| == 16 && Vector(mode, iv)
    ensures Whitened(mode, Whitened(mode, s, iv), iv) == s
  {
    hide Xor;
    if mode == CBC { XorTwice(s, iv); }
  }

  lemma {:induction false} DecryptEncrypted(mode: Mode, s: seq<bv8>, iv: seq<bv8>, w: seq<bv8>, nr: nat)
    requires Schedule(w, nr) && Vector(mode, iv)
    ensures Decrypted(mode, Encrypted(mode, s, iv, w, nr), iv, w, nr) == s
  {
    hide Enciphered, Deciphered, Whitened;
    if |s| >= 16 {
      var p := Whitened(mode, s[..16], iv);
      var c := Enciphered(p, w, nr);
      var e := Encrypted(mode, s, iv, w, nr);
      assert e[..16] == c && e[16..] == Encrypted(mode, s[16..], c, w, nr);
      DecipherEnciphered(p, w, nr);
      WhitenedBack(mode, s[..16], iv);
      DecryptEncrypted(mode, s[16..], c, w, nr);
      assert s == s[..16] + s[16..];
    }
  }

  lemma {:induction false} EncryptDecrypted(mode: Mode, s: seq<bv8>, iv: seq<bv8>, w: seq<bv8>, nr: nat)
    requires Schedule(w, nr) && Vector(mode, iv)
    ensures Encrypted(mode, Decrypted(mode, s, iv, w, nr), iv, w, nr) == s
  {
    hide Enciphered, Deciphered, Whitened;
    if |s| >= 16 {
      var p := Deciphered(s[..16], w, nr);
      var d := Decrypted(mode, s, iv, w, nr);
      assert d[..16] == Whitened(mode, p, iv) && d[16..] == Decrypted(mode, s[16..], s[..16], w, nr);
      EncipherDeciphered(s[..16], w, nr);
      WhitenedBack(mode, p, iv);
      EncryptDecrypted(mode, s[16..], s[..16], w, nr);
      assert s == s[..16] + s[16..];
    }
  }

  // Byte offset 16 * j of s, as a block.
  function BlockAt(s: seq<bv8>, j: nat): (r: seq<bv8>)
    requires 16 * j + 16 <= |s|
    ensures |r| == 16
  {
    s[16 * j..16 * j + 16]
  }

  lemma BlockAfter(s: seq<bv8>, t: seq<bv8>, j: nat)
    requires |s| == 16 && 16 * j + 16 <= |t|
    ensures BlockAt(s + t, j + 1) == BlockAt(t, j)
    ensures BlockAt(s + t, 0) == s
  {
  }

  // The chaining equations of section 6.2, block by block: each ciphertext
  // block depends on its own plaintext block and the ciphertext block before it.
  lemma {:induction false} EncryptedBlock(mode: Mode, s: seq<bv8>, iv: seq<bv8>, w: seq<bv8>, nr: nat, j: nat)
    requires Schedule(w, nr) && Vector(mode, iv) && 16 * j + 16 <= |s|
    ensures var e := Encrypted(mode, s, iv, w, nr);
            BlockAt(e, j) == Enciphered(Whitened(mode, BlockAt(s, j), if j == 0 then iv else BlockAt(e, j - 1)), w, nr)
    decreases j
  {
    hide Enciphered, Whitened, BlockAt;
    var c := Enciphered(Whitened(mode, s[..16], iv), w, nr);
    var rest := Encrypted(mode, s[16..], c, w, nr);
    assert s == s[..16] + s[16..];
    if j == 0 {
      FirstBlock(s[..16], s[16..]);
      FirstBlock(c, rest);
    } else {
      EncryptedBlock(mode, s[16..], c, w, nr, j - 1);
      BlockAfter(s[..16], s[16..], j - 1);
      BlockAfter(c, rest, j - 1);
      if j > 1 { BlockAfter(c, rest, j - 2); }
    }
  }

  lemma FirstBlock(s: seq<bv8>, t: seq<bv8>)
    requires |s| == 16
    ensures BlockAt(s + t, 0) == s
  {
  }

  lemma {:induction false} DecryptedBlock(mode: Mode, s: seq<bv8>, iv: seq<bv8>, w: seq<bv8>, nr: nat, j: nat)
    requires Schedule(w, nr) && Vector(mode, iv) && 16 * j + 16 <= |s|
    ensures BlockAt(Decrypted(mode, s, iv, w, nr), j)
            == Whitened(mode, Deciphered(BlockAt(s, j), w, nr), if j == 0 then iv else BlockAt(s, j - 1))
    decreases j
  {
    hide Deciphered, Whitened, BlockAt;
    var first := Whitened(mode, Deciphered(s[..16], w, nr), iv);
    var rest := Decrypted(mode, s[16..], s[..16], w, nr);
    assert s == s[..16] + s[16..];
    if j == 0 {
      FirstBlock(s[..16], s[16..]);
      FirstBlock(first, rest);
    } else {
      DecryptedBlock(mode, s[16..], s[..16], w, nr, j - 1);
      BlockAfter(s[..16], s[16..], j - 1);
      BlockAfter(first, rest, j - 1);
      if j > 1 { BlockAfter(s[..16], s[16..], j - 2); }
    }
  }
}
