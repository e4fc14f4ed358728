// The rounds of src/aes.c and its key expansion byte by byte, as sections 5.1
// and 5.2 of FIPS 197 write them out: in terms of the key schedule, the
// substitution table and multiplication in GF(2^8) alone.
module AesRounds {
  import opened AesField
  import opened AesColumn
  import opened AesCipher

  lemma SumIsXor(a: bv8, b: bv8, c: bv8, d: bv8)
    ensures Sum4(a, b, c, d) == a ^ b ^ c ^ d
  {
  }

  lemma MulOne(b: bv8)
    ensures Mul(0x01, b) == b && Mul(0x02, b) == XTime(b)
  {
  }

  // Byte r + 4 * c is the one in row r and column c.
  lemma Place(r: nat, c: nat)
    requires r < 4 && c < 4
    ensures ShiftSource(r + 4 * c, false) == r + 4 * ((c + r) % 4)
    ensures Below(r + 4 * c, 1) == (r + 1) % 4 + 4 * c
    ensures Below(r + 4 * c, 2) == (r + 2) % 4 + 4 * c
    ensures Below(r + 4 * c, 3) == (r + 3) % 4 + 4 * c
  {
    RowAndColumn(r, c);
  }

  // Row r of the state moves r places to the left.
  lemma ScrambledByte(s: seq<bv8>, r: nat, c: nat)
    requires |s| == 16 && r < 4 && c < 4
    ensures Scrambled(s)[r + 4 * c] == SBox(s[r + 4 * ((c + r) % 4)])
  {
    hide SBox, ShiftSource;
    Place(r, c);
  }

  // A byte becomes the 2, 3, 1, 1 combination of its column, read from it downwards.
  lemma MixedByte(u: seq<bv8>, r: nat, c: nat)
    requires |u| == 16 && r < 4 && c < 4
    ensures Mixed(u, false)[r + 4 * c]
            == Sum4(Mul(0x02, u[r + 4 * c]), Mul(0x03, u[(r + 1) % 4 + 4 * c]), u[(r + 2) % 4 + 4 * c], u[(r + 3) % 4 + 4 * c])
  {
    hide Mul, Below, Sum4;
    Place(r, c);
    var k := r + 4 * c;
    var b1, b2, b3 := u[Below(k, 1)], u[Below(k, 2)], u[Below(k, 3)];
    MulOne(b2);
    MulOne(b3);
  }

  // Before the first round, byte k takes in byte k of the schedule.
  lemma WhitenedByte(s: seq<bv8>, w: seq<bv8>, nr: nat, k: nat)
    requires |s| == 16 && Schedule(w, nr) && k < 16
    ensures Rounds(s, w, nr, 0)[k] == s[k] ^ w[k]
  {
    assert RoundKey(w, nr, 0)[k] == w[k];
  }

  // In each of the next rounds but the last, a byte takes in the 2, 3, 1, 1
  // combination of the four bytes that have moved into its column.
  lemma RoundByte(s: seq<bv8>, w: seq<bv8>, nr: nat, i: nat, r: nat, c: nat)
    requires |s| == 16 && Schedule(w, nr) && 1 <= i < nr && r < 4 && c < 4
    ensures var t := Rounds(s, w, nr, i - 1);
            var r1, r2, r3 := (r + 1) % 4, (r + 2) % 4, (r + 3) % 4;
            Rounds(s, w, nr, i)[r + 4 * c]
            == Mul(0x02, SBox(t[r + 4 * ((c + r) % 4)])) ^ Mul(0x03, SBox(t[r1 + 4 * ((c + r1) % 4)]))
               ^ SBox(t[r2 + 4 * ((c + r2) % 4)]) ^ SBox(t[r3 + 4 * ((c + r3) % 4)])
               ^ w[16 * i + r + 4 * c]
  {
    hide SBox, Mul, Rounds, Sum4;
    var a, b, d, e := RoundSum(s, w, nr, i, r, c);
    SumIsXor(a, b, d, e);
  }

  lemma RoundSum(s: seq<bv8>, w: seq<bv8>, nr: nat, i: nat, r: nat, c: nat) returns (a: bv8, b: bv8, d: bv8, e: bv8)
    requires |s| == 16 && Schedule(w, nr) && 1 <= i < nr && r < 4 && c < 4
    ensures Rounds(s, w, nr, i)[r + 4 * c] == Sum4(a, b, d, e) ^ w[16 * i + r + 4 * c]
    ensures var t := Rounds(s, w, nr, i - 1);
            var r1, r2, r3 := (r + 1) % 4, (r + 2) % 4, (r + 3) % 4;
            && a == Mul(0x02, SBox(t[r + 4 * ((c + r) % 4)])) && b == Mul(0x03, SBox(t[r1 + 4 * ((c + r1) % 4)]))
            && d == SBox(t[r2 + 4 * ((c + r2) % 4)]) && e == SBox(t[r3 + 4 * ((c + r3) % 4)])
  {
    hide SBox, Mul, Mixed, Scrambled, Rounds, Sum4;
    var t := Rounds(s, w, nr, i - 1);
    RoundKeyByte(s, w, nr, i, r, c);
    a, b, d, e := CombinedByte(t, r, (r + 1) % 4, (r + 2) % 4, (r + 3) % 4, c);
  }

  lemma RoundKeyByte(s: seq<bv8>, w: seq<bv8>, nr: nat, i: nat, r: nat, c: nat)
    requires |s| == 16 && Schedule(w, nr) && 1 <= i < nr && r < 4 && c < 4
    ensures Rounds(s, w, nr, i)[r + 4 * c] == Mixed(Scrambled(Rounds(s, w, nr, i - 1)), false)[r + 4 * c] ^ w[16 * i + r + 4 * c]
  {
    hide Mixed, Scrambled;
  }

  lemma CombinedByte(t: seq<bv8>, r: nat, r1: nat, r2: nat, r3: nat, c: nat) returns (a: bv8, b: bv8, d: bv8, e: bv8)
    requires |t| == 16 && r < 4 && c < 4
    requires r1 == (r + 1) % 4 && r2 == (r + 2) % 4 && r3 == (r + 3) % 4
    ensures Mixed(Scrambled(t), false)[r + 4 * c] == Sum4(a, b, d, e)
    ensures a == Mul(0x02, SBox(t[r + 4 * ((c + r) % 4)])) && b == Mul(0x03, SBox(t[r1 + 4 * ((c + r1) % 4)]))
    ensures d == SBox(t[r2 + 4 * ((c + r2) % 4)]) && e == SBox(t[r3 + 4 * ((c + r3) % 4)])
  {
    hide SBox, Mul, Mixed, Scrambled, Sum4;
    var u := Scrambled(t);
    MixedByte(u, r, c);
    ScrambledByte(t, r, c);
    ScrambledByte(t, r1, c);
    ScrambledByte(t, r2, c);
    ScrambledByte(t, r3, c);
    a, b, d, e := Mul(0x02, u[r + 4 * c]), Mul(0x03, u[r1 + 4 * c]), u[r2 + 4 * c], u[r3 + 4 * c];
  }

  // In the last round nothing is combined.
  lemma LastRoundByte(s: seq<bv8>, w: seq<bv8>, nr: nat, r: nat, c: nat)
    requires |s| == 16 && Schedule(w, nr) && r < 4 && c < 4
    ensures Rounds(s, w, nr, nr)[r + 4 * c]
            == SBox(Rounds(s, w, nr, nr - 1)[r + 4 * ((c + r) % 4)]) ^ w[16 * nr + r + 4 * c]
  {
    hide SBox, Scrambled, Mixed;
    ScrambledByte(Rounds(s, w, nr, nr - 1), r, c);
  }

  // states[i] is the state after round i of enciphering s.
  ghost predicate States(states: seq<seq<bv8>>, s: seq<bv8>, w: seq<bv8>, nr: nat)
    requires |s| == 16 && Schedule(w, nr)
  {
    && |states| == nr + 1 && (forall i :: 0 <= i <= nr ==> |states[i]| == 16)
    && (forall k :: 0 <= k < 16 ==> states[0][k] == s[k] ^ w[k])
    && forall i, k :: 0 < i <= nr && 0 <= k < 16 ==> states[i][k] == RoundOf(states[i - 1], i == nr, k % 4, k / 4) ^ w[16 * i + k]
  }

  // What a round makes of its state t at row r of column c.
  function RoundOf(t: seq<bv8>, last: bool, r: nat, c: nat): bv8
    requires |t| == 16 && r < 4 && c < 4
  {
    var r1, r2, r3 := (r + 1) % 4, (r + 2) % 4, (r + 3) % 4;
    if last then SBox(t[r + 4 * ((c + r) % 4)])
    else
      Mul(0x02, SBox(t[r + 4 * ((c + r) % 4)])) ^ Mul(0x03, SBox(t[r1 + 4 * ((c + r1) % 4)]))
      ^ SBox(t[r2 + 4 * ((c + r2) % 4)]) ^ SBox(t[r3 + 4 * ((c + r3) % 4)])
  }

  lemma EncipheredStates(s: seq<bv8>, w: seq<bv8>, nr: nat) returns (states: seq<seq<bv8>>)
    requires |s| == 16 && Schedule(w, nr)
    ensures States(states, s, w, nr) && states[nr] == Enciphered(s, w, nr)
  {
    hide Rounds, RoundOf;
    states := seq(nr + 1, i requires 0 <= i <= nr => Rounds(s, w, nr, i));
    forall k | 0 <= k < 16 ensures states[0][k] == s[k] ^ w[k] { WhitenedByte(s, w, nr, k); }
    forall i, k | 0 < i <= nr && 0 <= k < 16
      ensures states[i][k] == RoundOf(states[i - 1], i == nr, k % 4, k / 4) ^ w[16 * i + k]
    {
      StateByte(s, w, nr, i, k);
    }
  }

  lemma StateByte(s: seq<bv8>, w: seq<bv8>, nr: nat, i: nat, k: nat)
    requires |s| == 16 && Schedule(w, nr) && 1 <= i <= nr && k < 16
    ensures Rounds(s, w, nr, i)[k] == RoundOf(Rounds(s, w, nr, i - 1), i == nr, k % 4, k / 4) ^ w[16 * i + k]
  {
    hide Rounds, RoundOf;
    assert k == k % 4 + 4 * (k / 4);
    StateAt(s, w, nr, i, k % 4, k / 4);
  }

  lemma StateAt(s: seq<bv8>, w: seq<bv8>, nr: nat, i: nat, r: nat, c: nat)
    requires |s| == 16 && Schedule(w, nr) && 1 <= i <= nr && r < 4 && c < 4
    ensures Rounds(s, w, nr, i)[r + 4 * c] == RoundOf(Rounds(s, w, nr, i - 1), i == nr, r, c) ^ w[16 * i + r + 4 * c]
  {
    hide SBox, Mul, Rounds;
    if i == nr { LastRoundByte(s, w, nr, r, c); } else { RoundByte(s, w, nr, i, r, c); }
  }

  // ---- The key expansion (section 5.2).

  // The first words are the key.
  lemma KeyByte(key: seq<bv8>, nk: nat, i: nat, b: nat)
    requires KeyWords(nk) && |key| == 4 * nk && i < nk && b < 4
    ensures Word(key, nk, i)[b] == key[4 * i + b]
  {
  }

  // Byte b of a later word takes in byte b of the word nk places back, and of the
  // word before it: at multiples of nk, the image of the byte after b and, in
  // front, a power of 2;
  lemma TurnedWordByte(key: seq<bv8>, nk: nat, j: nat, b: nat)
    requires KeyWords(nk) && |key| == 4 * nk && j >= 1 && b < 4
    ensures Word(key, nk, nk * j)[b]
            == Word(key, nk, nk * j - nk)[b] ^ SBox(Word(key, nk, nk * j - 1)[(b + 1) % 4]) ^ if b == 0 then RconByte(j) else 0
  {
    hide SBox, RconByte, Word;
    Multiple(nk, j);
    TurnedWord(key, nk, nk * j, j);
    TurnedByte(Word(key, nk, nk * j - 1), Word(key, nk, nk * j - nk), j, b);
  }

  lemma TurnedWord(key: seq<bv8>, nk: nat, i: nat, j: nat)
    requires KeyWords(nk) && |key| == 4 * nk && nk <= i && i % nk == 0 && i / nk == j
    ensures Word(key, nk, i) == Xor(Xor(Substituted(RotWord(Word(key, nk, i - 1)), false), Rcon(j)), Word(key, nk, i - nk))
  {
    hide Xor, Substituted, RotWord, Rcon;
  }

  lemma TurnedByte(last: seq<bv8>, far: seq<bv8>, j: nat, b: nat)
    requires |last| == 4 && |far| == 4 && b < 4
    ensures Xor(Xor(Substituted(RotWord(last), false), Rcon(j)), far)[b]
            == far[b] ^ SBox(last[(b + 1) % 4]) ^ if b == 0 then RconByte(j) else 0
  {
    hide SBox, RconByte;
    assert RotWord(last)[b] == last[(b + 1) % 4];
  }

  lemma Multiple(nk: nat, j: nat)
    requires KeyWords(nk) && j >= 1
    ensures nk * j % nk == 0 && nk * j / nk == j && nk <= nk * j
  {
  }

  // for keys of 256 bits, half way between, the image of byte b;
  lemma MiddleWordByte(key: seq<bv8>, i: nat, b: nat)
    requires |key| == 32 && i >= 8 && i % 8 == 4 && b < 4
    ensures Word(key, 8, i)[b] == Word(key, 8, i - 8)[b] ^ SBox(Word(key, 8, i - 1)[b])
  {
    hide SBox, Rcon, RotWord;
  }

  // and byte b itself otherwise.
  lemma OtherWordByte(key: seq<bv8>, nk: nat, i: nat, b: nat)
    requires KeyWords(nk) && |key| == 4 * nk && nk <= i && i % nk != 0 && !(nk == 8 && i % 8 == 4) && b < 4
    ensures Word(key, nk, i)[b] == Word(key, nk, i - nk)[b] ^ Word(key, nk, i - 1)[b]
  {
    hide SBox, Rcon, RotWord, Substituted;
  }

  lemma RconPowers(j: nat)
    requires j >= 1
    ensures RconByte(1) == 1 && RconByte(j + 1) == Mul(0x02, RconByte(j))
  {
    MulOne(RconByte(j));
  }

  // ---- The modes.

  // Byte k of ciphertext block j is that of an enciphered block that is the
  // plaintext block, in CBC exclusive-or the ciphertext block or vector before it.
  lemma EncryptedFrom(mode: Mode, s: seq<bv8>, iv: seq<bv8>, w: seq<bv8>, nr: nat, j: nat) returns (x: seq<bv8>)
    requires Schedule(w, nr) && Vector(mode, iv) && 16 * j + 16 <= |s|
    ensures |x| == 16
    ensures Encrypted(mode, s, iv, w, nr)[16 * j..16 * j + 16] == Enciphered(x, w, nr)
    ensures forall k :: 0 <= k < 16 ==> x[k] == match mode
      case ECB => s[16 * j + k]
      case CBC => s[16 * j + k] ^ if j == 0 then iv[k] else Encrypted(mode, s, iv, w, nr)[16 * (j - 1) + k]
  {
    hide Enciphered, Encrypted;
    EncryptedBlock(mode, s, iv, w, nr, j);
    var e := Encrypted(mode, s, iv, w, nr);
    x := Whitened(mode, BlockAt(s, j), if j == 0 then iv else BlockAt(e, j - 1));
  }

  // Bytes after the last whole block are left alone.
  lemma {:induction false} EncryptedTail(mode: Mode, s: seq<bv8>, iv: seq<bv8>, w: seq<bv8>, nr: nat)
    requires Schedule(w, nr) && Vector(mode, iv)
    ensures var n := |s| - |s| % 16;
            Encrypted(mode, s, iv, w, nr)[n..] == s[n..] && Decrypted(mode, s, iv, w, nr)[n..] == s[n..]
  {
    hide Enciphered, Deciphered, Whitened;
    if |s| >= 16 {
      var c, p := Enciphered(Whitened(mode, s[..16], iv), w, nr), Whitened(mode, Deciphered(s[..16], w, nr), iv);
      EncryptedTail(mode, s[16..], c, w, nr);
      EncryptedTail(mode, s[16..], s[..16], w, nr);
      hide Encrypted, Decrypted;
      Behind(c, Encrypted(mode, s[16..], c, w, nr), s);
      Behind(p, Decrypted(mode, s[16..], s[..16], w, nr), s);
    }
  }

  lemma Behind(c: seq<bv8>, rest: seq<bv8>, s: seq<bv8>)
    requires |c| == 16 && |c + rest| == |s|
    ensures var n, m := |s| - |s| % 16, |rest| - |rest| % 16;
            (c + rest)[n..] == rest[m..] && s[n..] == s[16..][m..]
  {
  }
}
