// src/aes.c: AES_Encrypt, AES_Decrypt and the PKCS#7 padding on whole buffers.
module AesModes {
  import opened AesCipher
  import opened Aes
  import opened AesContext

  // ---- Padding (section 6.3 of RFC 5652).

  function PadLength(n: nat): (r: nat)
    ensures 1 <= r <= 16 && (n + r) % 16 == 0
  {
    16 - n % 16
  }

  function Padded(m: seq<bv8>): (r: seq<bv8>)
    ensures |r| == |m| + PadLength(|m|)
  {
    m + seq(PadLength(|m|), _ => PadLength(|m|) as bv8)
  }

  // AES_delete_pkcs7Padding returns an unsigned 32-bit length, or loops for ever.
  datatype Removal = Length(n: nat) | Endless

  function Byte(k: int): nat {
    k % 0x100
  }

  function Word32(k: int): nat {
    k % 0x1_0000_0000
  }

  predicate Uniform(s: seq<bv8>, from: nat, b: bv8) {
    forall k :: from <= k < |s| ==> s[k] == b
  }

  // The scan for a byte other than `last`, as a machine over its 8-bit counter.
  datatype Scan = Running(i: nat) | Agreed | Differs

  function ScanStep(s: seq<bv8>, last: bv8, scan: Scan): Scan {
    match scan
    case Running(i) =>
      if i >= |s| then Agreed
      else if s[i] != last then Differs
      else Running(Byte(i + 1))
    case _ => scan
  }

  function ScanAfter(s: seq<bv8>, last: bv8, scan: Scan, steps: nat): Scan
    decreases steps
  {
    if steps == 0 then scan else ScanAfter(s, last, ScanStep(s, last, scan), steps - 1)
  }

  function ScanStart(s: seq<bv8>): Scan
    requires |s| > 0
  {
    Running(Byte(|s| - s[|s| - 1] as nat))
  }

  // What deletion does, case by case, on a non-empty buffer.
  function Unpadded(s: seq<bv8>): Removal
    requires |s| > 0
  {
    var last := s[|s| - 1];
    var n := last as nat;
    if |s| % 16 != 0 then Length(0)
    else if |s| >= 256 then (if Uniform(s[..256], 0, last) then Endless else Length(0))
    else if n > |s| then Length(Word32(|s| - n))
    else if Uniform(s, |s| - n, last) then Length(|s| - n)
    else Length(0)
  }

  // Where the table says Endless, the scan is still running after any number of steps.
  lemma {:induction false} ScanForEver(s: seq<bv8>, last: bv8, i: nat, steps: nat)
    requires |s| >= 256 && Uniform(s[..256], 0, last) && i < 256
    ensures ScanAfter(s, last, Running(i), steps).Running?
    decreases steps
  {
    assert s[i] == s[..256][i];
    if steps > 0 { ScanForEver(s, last, Byte(i + 1), steps - 1); }
  }

  // Otherwise it stops, and the way it stops decides the length.
  lemma {:induction false} ScanShort(s: seq<bv8>, last: bv8, i: nat)
    requires |s| < 256 && i < 256
    ensures ScanAfter(s, last, Running(i), 257 - i) == if Uniform(s, i, last) then Agreed else Differs
    decreases 256 - i
  {
    if i >= |s| {
      ScanSettled(s, last, Agreed, 256 - i);
    } else if s[i] != last {
      ScanSettled(s, last, Differs, 256 - i);
    } else {
      ScanShort(s, last, i + 1);
      assert Uniform(s, i, last) <==> Uniform(s, i + 1, last);
    }
  }

  lemma {:induction false} ScanSettled(s: seq<bv8>, last: bv8, scan: Scan, steps: nat)
    requires !scan.Running?
    ensures ScanAfter(s, last, scan, steps) == scan
    decreases steps
  {
    if steps > 0 { ScanSettled(s, last, scan, steps - 1); }
  }

  // Steps until the counter reaches k from i, going round through 255 to 0.
  function Distance(i: nat, k: nat): nat {
    Byte(k - i)
  }

  lemma DistanceShrinks(i: nat, k: nat)
    requires i < 256 && k < 256 && i != k
    ensures Byte(i + 1) < 256 && Distance(Byte(i + 1), k) < Distance(i, k)
  {
  }

  lemma {:induction false} ScanLong(s: seq<bv8>, last: bv8, i: nat, k: nat)
    requires |s| >= 256 && k < 256 && s[k] != last && i < 256
    ensures exists steps: nat :: ScanAfter(s, last, Running(i), steps) == Differs
    decreases Distance(i, k)
  {
    if s[i] != last {
      assert ScanAfter(s, last, Running(i), 1) == ScanAfter(s, last, Differs, 0);
      assert ScanAfter(s, last, Differs, 0) == Differs;
    } else {
      ScanLong(s, last, Byte(i + 1), k);
      var steps: nat :| ScanAfter(s, last, Running(Byte(i + 1)), steps) == Differs;
      assert ScanAfter(s, last, Running(i), steps + 1) == Differs;
    }
  }

  ghost function Difference(s: seq<bv8>, b: bv8): (k: nat)
    requires !Uniform(s, 0, b)
    ensures k < |s| && s[k] != b
  {
    var k :| 0 <= k < |s| && s[k] != b;
    k
  }

  // After that many steps the scan has stopped, with this result.
  ghost predicate StopsWith(s: seq<bv8>, steps: nat, r: Removal)
    requires |s| > 0
  {
    var last := s[|s| - 1];
    var end := ScanAfter(s, last, ScanStart(s), steps);
    !end.Running? && r == Length(if end.Agreed? then Word32(|s| - last as nat) else 0)
  }

  predicate StillRunning(s: seq<bv8>, steps: nat)
    requires |s| > 0
  {
    ScanAfter(s, s[|s| - 1], ScanStart(s), steps).Running?
  }

  ghost predicate NeverStops(s: seq<bv8>)
    requires |s| > 0
  {
    forall steps: nat :: StillRunning(s, steps)
  }

  lemma RemovalByScan(s: seq<bv8>)
    requires |s| > 0 && |s| % 16 == 0 && Unpadded(s) != Endless
    ensures var last := s[|s| - 1]; var n := last as nat;
            && (|s| >= 256 ==> !Uniform(s[..256], 0, last))
            && Unpadded(s) == Length(if |s| < 256 && Uniform(s, Byte(|s| - n), last) then Word32(|s| - n) else 0)
  {
    var last := s[|s| - 1];
    var n := last as nat;
    if |s| < 256 {
      if n > |s| {
        assert Byte(|s| - n) == 256 + |s| - n > |s|;
      } else {
        assert Byte(|s| - n) == |s| - n;
      }
    }
  }

  lemma ShortRemoval(s: seq<bv8>)
    requires 0 < |s| < 256 && |s| % 16 == 0
    ensures StopsWith(s, 257 - Byte(|s| - s[|s| - 1] as nat), Unpadded(s))
  {
    hide ScanAfter, Uniform;
    RemovalByScan(s);
    var last := s[|s| - 1];
    var n := last as nat;
    var i := Byte(|s| - n);
    ScanShort(s, last, i);
  }

  lemma LongRemoval(s: seq<bv8>)
    requires |s| >= 256 && |s| % 16 == 0 && !Uniform(s[..256], 0, s[|s| - 1])
    ensures exists steps: nat :: StopsWith(s, steps, Unpadded(s))
  {
    var last := s[|s| - 1];
    var i := Byte(|s| - last as nat);
    var k := Difference(s[..256], last);
    ScanLong(s, last, i, k);
    var steps: nat :| ScanAfter(s, last, Running(i), steps) == Differs;
    assert StopsWith(s, steps, Unpadded(s));
  }

  // The case analysis agrees with the machine.
  lemma RemovalMeaning(s: seq<bv8>)
    requires |s| > 0 && |s| % 16 == 0
    ensures if Unpadded(s) == Endless then NeverStops(s) else exists steps: nat :: StopsWith(s, steps, Unpadded(s))
  {
    var last := s[|s| - 1];
    if |s| < 256 {
      ShortRemoval(s);
    } else if Uniform(s[..256], 0, last) {
      forall steps: nat
        ensures StillRunning(s, steps)
      {
        ScanForEver(s, last, Byte(|s| - last as nat), steps);
      }
    } else {
      LongRemoval(s);
    }
  }

  lemma PadByte(n: nat)
    requires n <= 16
    ensures (n as bv8) as nat == n
  {
  }

  // Deleting the padding gives the length back exactly for messages under 240
  // bytes; from there on the 8-bit counter of the scan makes it impossible.
  lemma UnpadPadded(m: seq<bv8>)
    ensures Unpadded(Padded(m)) == Length(|m|) <==> |m| < 240
  {
    var p := PadLength(|m|);
    var s := Padded(m);
    PadByte(p);
    assert s[|s| - 1] == p as bv8;
    if |m| < 240 {
      assert |s| < 256;
    } else {
      assert |s| >= 256;
    }
  }

  // Either loop of AES_add_pkcs7Padding: `value` from start to end, counted.
  method Fill(input: array<bv8>, start: nat, end: nat, value: bv8) returns (count: nat)
    requires start <= end <= input.Length
    modifies input
    ensures count == end - start
    ensures Updated(old(input[..]), input[..], start, seq(count, _ => value))
  {
    ghost var was := input[..];
    count := 0;
    for i := start to end
      invariant count == i - start
      invariant forall k :: start <= k < i ==> input[k] == value
      invariant forall k :: 0 <= k < input.Length && (k < start || i <= k) ==> input[k] == was[k]
    {
      input[i] := value;
      count := count + 1;
    }
    UpdatedFrom(was, input[..], start, seq(count, _ => value));
  }

  method AddPadding(input: array<bv8>, len: nat) returns (padded: nat)
    requires len + PadLength(len) <= input.Length
    modifies input
    ensures padded == len + PadLength(len)
    ensures input[..padded] == Padded(old(input[..len]))
    ensures input[padded..] == old(input[padded..])
  {
    hide Updated;
    ghost var was := input[..];
    var reminder, block := len % 16, len / 16;
    var count: nat;
    if reminder != 0 {
      count := Fill(input, len, (block + 1) * 16, (16 - reminder) as bv8);
    } else {
      count := Fill(input, len, len + 16, 16);
    }
    padded := len + count;
    PaddedBytes(was, input[..], len);
    assert input[..padded] == input[..][..padded] && input[padded..] == input[..][padded..];
  }

  lemma PaddedBytes(was: seq<bv8>, now: seq<bv8>, len: nat)
    requires len <= |was|
    requires Updated(was, now, len, seq(PadLength(len), _ => PadLength(len) as bv8))
    ensures var n := len + PadLength(len);
            n <= |was| == |now| && now[..n] == Padded(was[..len]) && now[n..] == was[n..]
  {
    var n := len + PadLength(len);
    assert now[..n] == now[..len] + now[len..n];
  }

  // The loop of AES_delete_pkcs7Padding, its counter taken modulo 256.
  method ScanPadding(input: array<bv8>, len: nat, last: bv8, start: nat) returns (agreed: bool)
    requires len <= input.Length && start < 256
    requires len >= 256 ==> !Uniform(input[..256], 0, last)
    ensures agreed <==> len < 256 && Uniform(input[..len], start, last)
  {
    hide Byte, Distance, Uniform;
    ghost var k := if len < 256 then 0 else Difference(input[..256], last);
    var i: nat := start;
    while i < len
      invariant i < 256
      invariant len < 256 ==> start <= i && forall j :: start <= j < i && j < len ==> input[j] == last
      decreases if len < 256 then len - i else Distance(i, k)
    {
      if input[i] != last {
        NotUniform(input[..len], start, last, i);
        return false;
      }
      if len >= 256 {
        assert input[k] == input[..256][k];
        DistanceShrinks(i, k);
      } else {
        SmallByte(i + 1);
      }
      i := Byte(i + 1);
    }
    AllUniform(input[..len], start, last);
    return true;
  }

  lemma SmallByte(n: nat)
    requires n < 256
    ensures Byte(n) == n
  {
  }

  lemma NotUniform(s: seq<bv8>, from: nat, b: bv8, i: nat)
    requires i < |s| && s[i] != b
    ensures from <= i ==> !Uniform(s, from, b)
  {
  }

  lemma AllUniform(s: seq<bv8>, from: nat, b: bv8)
    requires forall j :: from <= j < |s| ==> s[j] == b
    ensures Uniform(s, from, b)
  {
  }

  method DeletePadding(input: array?<bv8>, len: nat) returns (r: nat)
    requires input != null ==> 0 < len <= input.Length && Unpadded(input[..len]) != Endless
    ensures r == if input == null then 0 else Unpadded(input[..len]).n
  {
    if input == null || len % 16 != 0 {
      return 0;
    }
    ghost var s := input[..len];
    var last := input[len - 1];
    var n := last as nat;
    RemovalByScan(s);
    assert len >= 256 ==> input[..256] == s[..256];
    var agreed := ScanPadding(input, len, last, Byte(len - n));
    return if agreed then Word32(len - n) else 0;
  }

  // ---- The modes on whole buffers.

  ghost predicate Ready(cx: Context, a: array<bv8>, b: array<bv8>, len: nat, iv: array?<bv8>)
    reads cx, iv
  {
    && cx.Valid() && a != cx.roundKeyTable && b != cx.roundKeyTable
    && len <= a.Length && len <= b.Length
    && (cx.mode == CBC ==> iv != null && iv.Length >= 16 && iv != a && iv != b)
  }

  // ECB passes no vector.
  ghost function VectorOf(mode: Mode, iv: array?<bv8>): (v: seq<bv8>)
    requires mode == CBC ==> iv != null && iv.Length >= 16
    reads iv
    ensures Vector(mode, v)
  {
    if mode == CBC then iv[..16] else []
  }

  lemma EncryptStep(mode: Mode, s: seq<bv8>, off: nat, v: seq<bv8>, w: seq<bv8>, nr: nat, done: seq<bv8>)
    requires Schedule(w, nr) && Vector(mode, v) && off + 16 <= |s|
    ensures var c := Enciphered(Whitened(mode, s[off..off + 16], v), w, nr);
            done + Encrypted(mode, s[off..], v, w, nr) == (done + c) + Encrypted(mode, s[off + 16..], c, w, nr)
  {
    hide Enciphered, Whitened;
    assert s[off..][..16] == s[off..off + 16] && s[off..][16..] == s[off + 16..];
  }

  lemma DecryptStep(mode: Mode, s: seq<bv8>, off: nat, v: seq<bv8>, w: seq<bv8>, nr: nat)
    requires Schedule(w, nr) && Vector(mode, v) && off + 16 <= |s|
    ensures Decrypted(mode, s[off..], v, w, nr)
            == Whitened(mode, Deciphered(s[off..off + 16], w, nr), v) + Decrypted(mode, s[off + 16..], s[off..off + 16], w, nr)
  {
    hide Deciphered, Whitened;
    assert s[off..][..16] == s[off..off + 16] && s[off..][16..] == s[off + 16..];
  }

  // One block at off, chained to the 16 bytes at ivOff of iv.
  method EncryptBlock(cx: Context, a: array<bv8>, off: nat, iv: array?<bv8>, ivOff: nat, ghost v: seq<bv8>)
    requires cx.Valid() && a != cx.roundKeyTable && off + 16 <= a.Length && Vector(cx.mode, v)
    requires cx.mode == CBC ==> iv != null && ivOff + 16 <= iv.Length && v == iv[ivOff..ivOff + 16]
    requires cx.mode == CBC && iv == a ==> ivOff + 16 <= off
    modifies a
    ensures Updated(old(a[..]), a[..], off, Enciphered(Whitened(cx.mode, old(a[off..off + 16]), v), cx.Keys(), cx.nr))
  {
    hide Updated, Enciphered, Xor;
    ghost var was := a[..];
    ghost var p := Whitened(cx.mode, a[off..off + 16], v);
    NoUpdate(was, off, 16);
    if cx.mode == CBC {
      XorBytes(a, off, iv, ivOff, 16);
    }
    ghost var now := a[..];
    Window(was, now, off, p);
    assert a[off..off + 16] == p;
    cx.BlockEncrypt(a, off);
    UpdatedTwice(was, now, a[..], off, p, Enciphered(p, cx.Keys(), cx.nr));
  }

  // The buffer holds s encrypted up to off and plain from there, then `tail`;
  // v is the vector for the block at off.
  ghost predicate EncryptedTo(s: seq<bv8>, tail: seq<bv8>, now: seq<bv8>, off: nat,
                              mode: Mode, v0: seq<bv8>, v: seq<bv8>, w: seq<bv8>, nr: nat)
    requires Schedule(w, nr) && Vector(mode, v0) && Vector(mode, v) && off <= |s|
  {
    && |now| == |s| + |tail|
    && now[off..|s|] == s[off..]
    && now[|s|..] == tail
    && now[..off] + Encrypted(mode, s[off..], v, w, nr) == Encrypted(mode, s, v0, w, nr)
  }

  lemma EncryptedNone(s: seq<bv8>, tail: seq<bv8>, now: seq<bv8>, mode: Mode, v0: seq<bv8>, w: seq<bv8>, nr: nat)
    requires Schedule(w, nr) && Vector(mode, v0)
    requires |now| == |s| + |tail| && now[..|s|] == s && now[|s|..] == tail
    ensures EncryptedTo(s, tail, now, 0, mode, v0, v0, w, nr)
  {
    hide Encrypted;
    assert now[0..|s|] == s && s[0..] == s;
    assert now[..0] + Encrypted(mode, s, v0, w, nr) == Encrypted(mode, s, v0, w, nr);
  }

  lemma EncryptedOneMore(s: seq<bv8>, tail: seq<bv8>, now: seq<bv8>, next: seq<bv8>, off: nat,
                         mode: Mode, v0: seq<bv8>, v: seq<bv8>, w: seq<bv8>, nr: nat)
    requires Schedule(w, nr) && Vector(mode, v0) && Vector(mode, v) && off + 16 <= |s|
    requires EncryptedTo(s, tail, now, off, mode, v0, v, w, nr)
    requires Updated(now, next, off, Enciphered(Whitened(mode, s[off..off + 16], v), w, nr))
    ensures var c := Enciphered(Whitened(mode, s[off..off + 16], v), w, nr);
            EncryptedTo(s, tail, next, off + 16, mode, v0, c, w, nr) && next[off..off + 16] == c
  {
    hide Encrypted, Enciphered, Whitened;
    var c := Enciphered(Whitened(mode, s[off..off + 16], v), w, nr);
    EncryptStep(mode, s, off, v, w, nr, now[..off]);
    Advance(now, next, off, |s|, c);
    assert s[off..][16..] == s[off + 16..];
  }

  lemma EncryptedBytes(s: seq<bv8>, tail: seq<bv8>, now: seq<bv8>, off: nat,
                       mode: Mode, v0: seq<bv8>, v: seq<bv8>, w: seq<bv8>, nr: nat)
    requires Schedule(w, nr) && Vector(mode, v0) && Vector(mode, v) && off + 16 <= |s|
    requires EncryptedTo(s, tail, now, off, mode, v0, v, w, nr)
    ensures off + 16 <= |now| && now[off..off + 16] == s[off..off + 16]
  {
    hide Encrypted;
    assert now[off..off + 16] == now[off..|s|][..16] && s[off..off + 16] == s[off..][..16];
  }

  lemma EncryptedAll(s: seq<bv8>, tail: seq<bv8>, now: seq<bv8>, off: nat,
                     mode: Mode, v0: seq<bv8>, v: seq<bv8>, w: seq<bv8>, nr: nat)
    requires Schedule(w, nr) && Vector(mode, v0) && Vector(mode, v) && off <= |s| < off + 16
    requires EncryptedTo(s, tail, now, off, mode, v0, v, w, nr)
    ensures |now| == |s| + |tail| && now[..|s|] == Encrypted(mode, s, v0, w, nr) && now[|s|..] == tail
  {
    hide Enciphered, Whitened;
    LastPart(mode, s[off..], v, w, nr);
    assert now[..|s|] == now[..off] + now[off..|s|];
  }

  method Encrypt(cx: Context, plain: array<bv8>, cipher: array<bv8>, len: nat, iv: array?<bv8>)
    requires Ready(cx, plain, cipher, len, iv)
    modifies cipher
    ensures cipher[..len] == Encrypted(cx.mode, old(plain[..len]), VectorOf(cx.mode, iv), cx.Keys(), cx.nr)
    ensures cipher[len..] == old(cipher[len..])
  {
    hide Enciphered, Whitened, Encrypted, EncryptedTo, Updated;
    ghost var s, tail := plain[..len], cipher[len..];
    ghost var v0 := VectorOf(cx.mode, iv);
    ghost var w := cx.Keys();
    CopyIn(plain, cipher, len);
    ghost var v := v0;
    var pIV, ivOff, off := iv, 0, 0;
    var i := len / 16;
    EncryptedNone(s, tail, cipher[..], cx.mode, v0, w, cx.nr);
    while i > 0
      invariant 0 <= i <= len / 16 && off == 16 * (len / 16 - i)
      invariant Vector(cx.mode, v)
      invariant cx.mode == CBC ==> pIV != null && 0 <= ivOff && ivOff + 16 <= pIV.Length && v == pIV[ivOff..ivOff + 16]
      invariant if i == len / 16 then pIV == iv else pIV == cipher && ivOff + 16 == off
      invariant EncryptedTo(s, tail, cipher[..], off, cx.mode, v0, v, w, cx.nr)
    {
      ghost var now := cipher[..];
      EncryptedBytes(s, tail, now, off, cx.mode, v0, v, w, cx.nr);
      assert cipher[off..off + 16] == now[off..off + 16];
      EncryptBlock(cx, cipher, off, pIV, ivOff, v);
      EncryptedOneMore(s, tail, now, cipher[..], off, cx.mode, v0, v, w, cx.nr);
      v := Enciphered(Whitened(cx.mode, s[off..off + 16], v), w, cx.nr);
      assert cipher[off..off + 16] == cipher[..][off..off + 16];
      pIV, ivOff := cipher, off;
      off := off + 16;
      i := i - 1;
    }
    EncryptedAll(s, tail, cipher[..], off, cx.mode, v0, v, w, cx.nr);
    assert cipher[..len] == cipher[..][..len] && cipher[len..] == cipher[..][len..];
  }

  lemma LastPart(mode: Mode, s: seq<bv8>, v: seq<bv8>, w: seq<bv8>, nr: nat)
    requires Schedule(w, nr) && Vector(mode, v) && |s| < 16
    ensures Encrypted(mode, s, v, w, nr) == s
  {
  }

  lemma Advance(was: seq<bv8>, now: seq<bv8>, off: nat, len: nat, block: seq<bv8>)
    requires |block| == 16 && off + 16 <= len <= |was| && Updated(was, now, off, block)
    ensures now[..off + 16] == was[..off] + block
    ensures now[off..off + 16] == block
    ensures now[off + 16..len] == was[off..len][16..]
    ensures now[len..] == was[len..]
  {
    assert now[off + 16..len] == now[off + 16..][..len - off - 16];
    assert was[off..len][16..] == was[off + 16..][..len - off - 16];
    assert now[len..] == now[off + 16..][len - off - 16..];
    assert was[len..] == was[off + 16..][len - off - 16..];
  }

  method CopyIn(source: array<bv8>, target: array<bv8>, len: nat)
    requires len <= source.Length && len <= target.Length
    modifies target
    ensures target[..len] == old(source[..len])
    ensures target[len..] == old(target[len..])
  {
    if source != target {
      assert source[0..0 + len] == source[..len];
      Copy(target, 0, source, 0, len);
      assert target[..len] == target[0..0 + len];
    }
  }

  // One block at off, chained to the block before it or, in the first, to iv.
  method DecryptBlock(cx: Context, a: array<bv8>, off: nat, iv: array?<bv8>, ghost v: seq<bv8>)
    requires cx.Valid() && a != cx.roundKeyTable && off + 16 <= a.Length && Vector(cx.mode, v)
    requires cx.mode == CBC ==> iv != null && iv != a && iv.Length >= 16
    requires cx.mode == CBC && off == 0 ==> v == iv[..16]
    requires cx.mode == CBC && off != 0 ==> off >= 16 && v == a[off - 16..off]
    modifies a
    ensures Updated(old(a[..]), a[..], off, Whitened(cx.mode, Deciphered(old(a[off..off + 16]), cx.Keys(), cx.nr), v))
  {
    hide Updated, Deciphered, Xor;
    ghost var was := a[..];
    ghost var p := Deciphered(a[off..off + 16], cx.Keys(), cx.nr);
    cx.BlockDecrypt(a, off);
    ghost var now := a[..];
    Window(was, now, off, p);
    assert a[off..off + 16] == p;
    if cx.mode == CBC {
      if off == 0 {
        assert iv[0..0 + 16] == iv[..16];
        XorBytes(a, off, iv, 0, 16);
      } else {
        BeforeBlock(was, now, off, p);
        assert a[off - 16..off - 16 + 16] == v;
        XorBytes(a, off, a, off - 16, 16);
      }
      UpdatedTwice(was, now, a[..], off, p, Xor(p, v));
    }
  }

  lemma BeforeBlock(was: seq<bv8>, now: seq<bv8>, off: nat, t: seq<bv8>)
    requires Updated(was, now, off, t) && 16 <= off
    ensures now[off - 16..off] == was[off - 16..off]
  {
    assert now[off - 16..off] == now[..off][off - 16..];
    assert was[off - 16..off] == was[..off][off - 16..];
  }

  // The vector of the block at off.
  ghost function VectorAt(mode: Mode, s: seq<bv8>, v0: seq<bv8>, off: nat): (v: seq<bv8>)
    requires Vector(mode, v0) && off <= |s| && off % 16 == 0
    ensures Vector(mode, v)
  {
    if off == 0 then v0 else s[off - 16..off]
  }

  // Of the first len bytes of `was`, those from k on decrypted.
  ghost predicate DecryptedFrom(was: seq<bv8>, now: seq<bv8>, k: nat, len: nat, mode: Mode, v0: seq<bv8>, w: seq<bv8>, nr: nat)
    requires Schedule(w, nr) && Vector(mode, v0) && k <= len <= |was| && k % 16 == 0
  {
    && |now| == |was|
    && now[..k] == was[..k]
    && now[k..len] == Decrypted(mode, was[k..len], VectorAt(mode, was, v0, k), w, nr)
    && now[len..] == was[len..]
  }

  lemma DecryptedNone(was: seq<bv8>, len: nat, mode: Mode, v0: seq<bv8>, w: seq<bv8>, nr: nat)
    requires Schedule(w, nr) && Vector(mode, v0) && len <= |was| && len % 16 == 0
    ensures DecryptedFrom(was, was, len, len, mode, v0, w, nr)
  {
  }

  lemma DecryptedAll(was: seq<bv8>, now: seq<bv8>, len: nat, mode: Mode, v0: seq<bv8>, w: seq<bv8>, nr: nat)
    requires Schedule(w, nr) && Vector(mode, v0) && len <= |was|
    requires DecryptedFrom(was, now, 0, len, mode, v0, w, nr)
    ensures |now| == |was| && now[..len] == Decrypted(mode, was[..len], v0, w, nr) && now[len..] == was[len..]
  {
    hide Decrypted;
    assert now[0..len] == now[..len] && was[0..len] == was[..len];
  }

  // The ciphertext block before k + 16, and the one before that, are still in place.
  lemma StillThere(was: seq<bv8>, now: seq<bv8>, k: nat, len: nat, mode: Mode, v0: seq<bv8>, w: seq<bv8>, nr: nat)
    requires Schedule(w, nr) && Vector(mode, v0) && k + 16 <= len <= |was| && k % 16 == 0
    requires DecryptedFrom(was, now, k + 16, len, mode, v0, w, nr)
    ensures |now| == |was| && now[k..k + 16] == was[k..k + 16]
    ensures k >= 16 ==> now[k - 16..k] == was[k - 16..k]
  {
    hide Decrypted;
    assert now[k..k + 16] == now[..k + 16][k..] && was[k..k + 16] == was[..k + 16][k..];
    if k >= 16 {
      assert now[k - 16..k] == now[..k + 16][k - 16..k] && was[k - 16..k] == was[..k + 16][k - 16..k];
    }
  }

  lemma DecryptedOneMore(was: seq<bv8>, now: seq<bv8>, next: seq<bv8>, k: nat, len: nat, mode: Mode, v0: seq<bv8>, w: seq<bv8>, nr: nat)
    requires Schedule(w, nr) && Vector(mode, v0) && k + 16 <= len <= |was| && k % 16 == 0
    requires DecryptedFrom(was, now, k + 16, len, mode, v0, w, nr)
    requires Updated(now, next, k, Whitened(mode, Deciphered(was[k..k + 16], w, nr), VectorAt(mode, was, v0, k)))
    ensures DecryptedFrom(was, next, k, len, mode, v0, w, nr)
  {
    hide Decrypted, Whitened, Deciphered;
    DecryptStep(mode, was[..len], k, VectorAt(mode, was, v0, k), w, nr);
    assert was[..len][k..] == was[k..len] && was[..len][k..k + 16] == was[k..k + 16] && was[..len][k + 16..] == was[k + 16..len];
    Retreat(now, next, k, len, Whitened(mode, Deciphered(was[k..k + 16], w, nr), VectorAt(mode, was, v0, k)));
    assert was[..k + 16][..k] == was[..k];
  }

  // Back to front, so that no ciphertext block is overwritten before it has
  // served as the vector of the block after it.
  method DecryptInPlace(cx: Context, a: array<bv8>, len: nat, iv: array?<bv8>)
    requires Ready(cx, a, a, len, iv) && len % 16 == 0
    modifies a
    ensures a[..len] == Decrypted(cx.mode, old(a[..len]), VectorOf(cx.mode, iv), cx.Keys(), cx.nr)
    ensures a[len..] == old(a[len..])
  {
    hide Deciphered, Whitened, Decrypted, Updated, DecryptedFrom;
    ghost var was := a[..];
    ghost var v0 := VectorOf(cx.mode, iv);
    ghost var w := cx.Keys();
    var off: int := len - 16;
    var i := len / 16;
    DecryptedNone(was, len, cx.mode, v0, w, cx.nr);
    while i > 0
      invariant 0 <= i <= len / 16 && off == 16 * (i - 1)
      invariant DecryptedFrom(was, a[..], off + 16, len, cx.mode, v0, w, cx.nr)
    {
      ghost var now := a[..];
      StillThere(was, now, off, len, cx.mode, v0, w, cx.nr);
      assert a[off..off + 16] == now[off..off + 16];
      assert off >= 16 ==> a[off - 16..off] == now[off - 16..off];
      DecryptBlock(cx, a, off, iv, VectorAt(cx.mode, was, v0, off));
      DecryptedOneMore(was, now, a[..], off, len, cx.mode, v0, w, cx.nr);
      i := i - 1;
      off := off - 16;
    }
    DecryptedAll(was, a[..], len, cx.mode, v0, w, cx.nr);
  }

  // The buffer named first is the one decrypted; when the two differ, its old
  // contents also go to the second.
  method Decrypt(cx: Context, first: array<bv8>, second: array<bv8>, len: nat, iv: array?<bv8>)
    requires Ready(cx, first, second, len, iv) && len % 16 == 0
    modifies first, second
    ensures first[..len] == Decrypted(cx.mode, old(first[..len]), VectorOf(cx.mode, iv), cx.Keys(), cx.nr)
    ensures first[len..] == old(first[len..])
    ensures second != first ==> second[..len] == old(first[..len]) && second[len..] == old(second[len..])
  {
    hide Decrypted;
    CopyIn(first, second, len);
    DecryptInPlace(cx, first, len, iv);
  }

  lemma Retreat(was: seq<bv8>, now: seq<bv8>, off: nat, len: nat, block: seq<bv8>)
    requires |block| == 16 && off + 16 <= len <= |was| && Updated(was, now, off, block)
    ensures now[..off] == was[..off] == was[..off + 16][..off]
    ensures now[off..len] == block + was[off + 16..len]
    ensures now[len..] == was[len..]
  {
    assert now[off + 16..len] == now[off + 16..][..len - off - 16];
    assert was[off + 16..len] == was[off + 16..][..len - off - 16];
    assert now[off..len] == now[off..off + 16] + now[off + 16..len];
    assert now[len..] == now[off + 16..][len - off - 16..];
    assert was[len..] == was[off + 16..][len - off - 16..];
  }

  // ---- Whole sessions.

  // Encrypting and decrypting in place, as test/test_aes.c does.
  method EncryptThenDecrypt(cx: Context, a: array<bv8>, len: nat, iv: array?<bv8>)
    requires Ready(cx, a, a, len, iv) && len % 16 == 0
    modifies a
    ensures a[..] == old(a[..])
  {
    hide Encrypted, Decrypted;
    ghost var was := a[..];
    Encrypt(cx, a, a, len, iv);
    Decrypt(cx, a, a, len, iv);
    DecryptEncrypted(cx.mode, was[..len], VectorOf(cx.mode, iv), cx.Keys(), cx.nr);
    assert was[..len] == old(a[..len]) && was == was[..len] + was[len..];
    assert a[..] == a[..len] + a[len..];
  }

  // Pad, encrypt, decrypt, unpad: the message and its length come back.
  method SealAndOpen(cx: Context, a: array<bv8>, len: nat, iv: array?<bv8>) returns (r: nat)
    requires len < 240 && Ready(cx, a, a, len + PadLength(len), iv)
    modifies a
    ensures r == len && a[..r] == old(a[..len])
  {
    hide Encrypted, Decrypted;
    ghost var m := a[..len];
    var padded := AddPadding(a, len);
    EncryptThenDecrypt(cx, a, padded, iv);
    assert a[..padded] == Padded(m);
    UnpadPadded(m);
    r := DeletePadding(a, padded);
    assert a[..len] == a[..padded][..len];
  }
}
