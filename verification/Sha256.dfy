/** Streaming SHA-256 of a file (node.cpp) against sections 5.1.1, 5.2.1 and 6.2.2 of FIPS 180-4. */
module Sha256 {

  type Bytes = seq<bv8>

  /** The constants of section 4.2.2, eight to a row. */
  const K: seq<seq<bv32>> := [
    [0x428a2f98, 0x71374491, 0xb5c0fbcf, 0xe9b5dba5, 0x3956c25b, 0x59f111f1, 0x923f82a4, 0xab1c5ed5],
    [0xd807aa98, 0x12835b01, 0x243185be, 0x550c7dc3, 0x72be5d74, 0x80deb1fe, 0x9bdc06a7, 0xc19bf174],
    [0xe49b69c1, 0xefbe4786, 0x0fc19dc6, 0x240ca1cc, 0x2de92c6f, 0x4a7484aa, 0x5cb0a9dc, 0x76f988da],
    [0x983e5152, 0xa831c66d, 0xb00327c8, 0xbf597fc7, 0xc6e00bf3, 0xd5a79147, 0x06ca6351, 0x14292967],
    [0x27b70a85, 0x2e1b2138, 0x4d2c6dfc, 0x53380d13, 0x650a7354, 0x766a0abb, 0x81c2c92e, 0x92722c85],
    [0xa2bfe8a1, 0xa81a664b, 0xc24b8b70, 0xc76c51a3, 0xd192e819, 0xd6990624, 0xf40e3585, 0x106aa070],
    [0x19a4c116, 0x1e376c08, 0x2748774c, 0x34b0bcb5, 0x391c0cb3, 0x4ed8aa4a, 0x5b9cca4f, 0x682e6ff3],
    [0x748f82ee, 0x78a5636f, 0x84c87814, 0x8cc70208, 0x90befffa, 0xa4506ceb, 0xbef9a3f7, 0xc67178f2]]

  const H0: seq<bv32> := [
    0x6a09e667, 0xbb67ae85, 0x3c6ef372, 0xa54ff53a, 0x510e527f, 0x9b05688c, 0x1f83d9ab, 0x5be0cd19]

  const BLOCK := 64

  function RoundConstant(t: nat): bv32
    requires t < 64
  {
    K[t / 8][t % 8]
  }

  /** Addition modulo 2^32. */
  function Plus(x: bv32, y: bv32): bv32 {
    x + y
  }

  function SumOfFour(a: bv32, b: bv32, c: bv32, d: bv32): bv32 {
    a + b + c + d
  }

  // ----- the functions of section 4.1.2

  function Rotr(x: bv32, n: bv6): bv32
    requires 0 < n < 32
  {
    (x >> n) | (x << (32 - n))
  }

  function Choose(x: bv32, y: bv32, z: bv32): bv32 {
    (x & y) ^ (!x & z)
  }

  function Majority(x: bv32, y: bv32, z: bv32): bv32 {
    (x & y) ^ (x & z) ^ (y & z)
  }

  function BigSigma0(x: bv32): bv32 {
    Rotr(x, 2) ^ Rotr(x, 13) ^ Rotr(x, 22)
  }

  function BigSigma1(x: bv32): bv32 {
    Rotr(x, 6) ^ Rotr(x, 11) ^ Rotr(x, 25)
  }

  function SmallSigma0(x: bv32): bv32 {
    Rotr(x, 7) ^ Rotr(x, 18) ^ (x >> 3)
  }

  function SmallSigma1(x: bv32): bv32 {
    Rotr(x, 17) ^ Rotr(x, 19) ^ (x >> 10)
  }

  // ----- one block (section 6.2.2)

  function BigEndian(p: Bytes, t: nat): bv32
    requires 4 * t + 4 <= |p|
  {
    ((p[4 * t] as bv32) << 24) | ((p[4 * t + 1] as bv32) << 16) | ((p[4 * t + 2] as bv32) << 8) | (p[4 * t + 3] as bv32)
  }

  /** The first n words of the message schedule. */
  function Schedule(p: Bytes, n: nat): (w: seq<bv32>)
    requires |p| == BLOCK && n <= 64
    ensures |w| == n
  {
    if n == 0 then []
    else
      var w, t := Schedule(p, n - 1), n - 1;
      if t < 16 then w + [BigEndian(p, t)]
      else w + [SumOfFour(SmallSigma1(w[t - 2]), w[t - 7], SmallSigma0(w[t - 15]), w[t - 16])]
  }

  datatype State = State(a: bv32, b: bv32, c: bv32, d: bv32, e: bv32, f: bv32, g: bv32, h: bv32)

  function Round(s: State, k: bv32, w: bv32): State {
    var t1 := Plus(Plus(Plus(Plus(s.h, BigSigma1(s.e)), Choose(s.e, s.f, s.g)), k), w);
    var t2 := Plus(BigSigma0(s.a), Majority(s.a, s.b, s.c));
    State(Plus(t1, t2), s.a, s.b, s.c, Plus(s.d, t1), s.e, s.f, s.g)
  }

  function Rounds(s: State, w: seq<bv32>, n: nat): State
    requires n <= 64 && n <= |w|
  {
    if n == 0 then s else Round(Rounds(s, w, n - 1), RoundConstant(n - 1), w[n - 1])
  }

  function StateOf(h: seq<bv32>): State
    requires |h| == 8
  {
    State(h[0], h[1], h[2], h[3], h[4], h[5], h[6], h[7])
  }

  /** The intermediate hash value after one more block. */
  function Compress(h: seq<bv32>, p: Bytes): (r: seq<bv32>)
    requires |h| == 8 && |p| == BLOCK
    ensures |r| == 8
  {
    AddState(h, Rounds(StateOf(h), Schedule(p, 64), 64))
  }

  /** The working variables added to the hash value. */
  function AddState(h: seq<bv32>, s: State): (r: seq<bv32>)
    requires |h| == 8
    ensures |r| == 8
  {
    [Plus(h[0], s.a), Plus(h[1], s.b), Plus(h[2], s.c), Plus(h[3], s.d),
     Plus(h[4], s.e), Plus(h[5], s.f), Plus(h[6], s.g), Plus(h[7], s.h)]
  }

  /** The hash value after the first m blocks of a message. */
  function HashBlocks(h: seq<bv32>, message: Bytes, m: nat): (r: seq<bv32>)
    requires |h| == 8 && BLOCK * m <= |message|
    ensures |r| == 8
  {
    if m == 0 then h else Compress(HashBlocks(h, message, m - 1), message[BLOCK * (m - 1)..BLOCK * m])
  }

  // ----- padding (section 5.1.1)

  /** The 64-bit big-endian representation of a number. */
  function EightBytes(n: nat): (bs: Bytes)
    ensures |bs| == 8
  {
    seq(8, t requires 0 <= t < 8 => ByteOf(n, 7 - t))
  }

  /** Byte k of a number, lowest first. */
  function ByteOf(n: nat, k: nat): bv8 {
    (if k == 0 then n % 256 else ByteOf(n / 256, k - 1) as int) as bv8
  }

  /** With j zeros after the marker, eight bytes remain to the block boundary. */
  predicate LeavesEight(n: nat, j: nat) {
    (n + 1 + j) % BLOCK == 56
  }

  /** The smallest number of zeros that does. */
  function ZeroCount(n: nat): (k: nat)
    ensures k < BLOCK && LeavesEight(n, k)
    ensures forall j :: 0 <= j < k ==> !LeavesEight(n, j)
  {
    (119 - n % BLOCK) % BLOCK
  }

  function Pad(message: Bytes): Bytes {
    message + [0x80] + seq(ZeroCount(|message|), _ => 0) + EightBytes(8 * |message|)
  }

  lemma PaddedLength(message: Bytes)
    ensures |Pad(message)| % BLOCK == 0
  {
  }

  function Digest(message: Bytes): seq<bv32> {
    PaddedLength(message);
    HashBlocks(H0, Pad(message), |Pad(message)| / BLOCK)
  }

  // ----- the code

  /** The loops that fill the message schedule. */
  method FillSchedule(p: Bytes) returns (w: array<bv32>)
    requires |p| == BLOCK
    ensures fresh(w) && w[..] == Schedule(p, 64)
  {
    hide BigEndian, SmallSigma0, SmallSigma1, SumOfFour;
    w := new bv32[64];
    for t := 0 to 16
      invariant w[..t] == Schedule(p, t)
    {
      w[t] := BigEndian(p, t);
      assert w[..t + 1] == w[..t] + [w[t]];
    }
    for t := 16 to 64
      invariant w[..t] == Schedule(p, t)
    {
      ghost var before := w[..t];
      var s0, s1 := SmallSigma0(w[t - 15]), SmallSigma1(w[t - 2]);
      AddCommutes(w[t - 16], s0, w[t - 7], s1);
      w[t] := SumOfFour(w[t - 16], s0, w[t - 7], s1);
      assert w[..t] == before && w[..t + 1] == w[..t] + [w[t]];
    }
    assert w[..] == w[..64];
  }

  /** The 64 rounds on the eight working variables. */
  method RunRounds(start: seq<bv32>, w: seq<bv32>) returns (s: State)
    requires |start| == 8 && |w| == 64
    ensures s == Rounds(StateOf(start), w, 64)
  {
    hide BigSigma0, BigSigma1, Choose, Majority, Plus, RoundConstant;
    var a, b, c, d, e, f, g, hh := start[0], start[1], start[2], start[3], start[4], start[5], start[6], start[7];
    for t := 0 to 64
      invariant State(a, b, c, d, e, f, g, hh) == Rounds(StateOf(start), w, t)
    {
      var t1 := Plus(Plus(Plus(Plus(hh, BigSigma1(e)), Choose(e, f, g)), RoundConstant(t)), w[t]);
      var t2 := Plus(BigSigma0(a), Majority(a, b, c));
      hh := g;
      g := f;
      f := e;
      e := Plus(d, t1);
      d := c;
      c := b;
      b := a;
      a := Plus(t1, t2);
    }
    s := State(a, b, c, d, e, f, g, hh);
  }

  /** The lambda that absorbs one block into the hash value. */
  method ProcessBlock(h: array<bv32>, p: Bytes)
    requires h.Length == 8 && |p| == BLOCK
    modifies h
    ensures h[..] == Compress(old(h[..]), p)
  {
    hide Schedule, Rounds, AddState;
    var w := FillSchedule(p);
    var s := RunRounds(h[..], w[..]);
    ghost var was := h[..];
    AddFour(h, 0, s.a, s.b, s.c, s.d);
    AddFour(h, 4, s.e, s.f, s.g, s.h);
    AddedHalves(was, h[..], s);
  }

  /** Four of the eight additions. */
  method AddFour(h: array<bv32>, at: nat, a: bv32, b: bv32, c: bv32, d: bv32)
    requires at + 4 <= h.Length
    modifies h
    ensures h[..] == old(h[..])[..at] + PlusFour(old(h[..])[at..at + 4], a, b, c, d) + old(h[..])[at + 4..]
  {
    hide Plus;
    h[at], h[at + 1], h[at + 2], h[at + 3] := Plus(h[at], a), Plus(h[at + 1], b), Plus(h[at + 2], c), Plus(h[at + 3], d);
  }

  function PlusFour(h: seq<bv32>, a: bv32, b: bv32, c: bv32, d: bv32): (r: seq<bv32>)
    requires |h| == 4
    ensures |r| == 4
  {
    [Plus(h[0], a), Plus(h[1], b), Plus(h[2], c), Plus(h[3], d)]
  }

  lemma AddedHalves(was: seq<bv32>, now: seq<bv32>, s: State)
    requires |was| == 8
    requires var mid := was[..0] + PlusFour(was[0..4], s.a, s.b, s.c, s.d) + was[4..];
      |mid| == 8 && now == mid[..4] + PlusFour(mid[4..8], s.e, s.f, s.g, s.h) + mid[8..]
    ensures now == AddState(was, s)
  {
    hide Plus;
  }

  lemma AddCommutes(a: bv32, b: bv32, c: bv32, d: bv32)
    ensures SumOfFour(a, b, c, d) == SumOfFour(d, c, b, a)
  {
  }

  /** Absorbs all whole blocks of the buffer and returns how many bytes that was. */
  method ProcessWhole(h: array<bv32>, carry: Bytes) returns (i: nat)
    requires h.Length == 8
    modifies h
    ensures i == |carry| / BLOCK * BLOCK && i <= |carry|
    ensures h[..] == HashBlocks(old(h[..]), carry, |carry| / BLOCK)
  {
    hide Compress;
    i := 0;
    while i + 64 <= |carry|
      invariant i <= |carry| && i % BLOCK == 0
      invariant h[..] == HashBlocks(old(h[..]), carry, i / BLOCK)
    {
      ProcessBlock(h, carry[i..i + 64]);
      i := i + 64;
    }
  }

  /** Hashing may be resumed at any block boundary. */
  lemma {:induction false} HashResumes(h: seq<bv32>, message: Bytes, done: nat, m: nat)
    requires |h| == 8 && BLOCK * (done + m) <= |message|
    ensures HashBlocks(h, message, done + m) == HashBlocks(HashBlocks(h, message, done), message[BLOCK * done..], m)
  {
    hide Compress;
    if m > 0 {
      HashResumes(h, message, done, m - 1);
      var rest := message[BLOCK * done..];
      assert rest[BLOCK * (m - 1)..BLOCK * m] == message[BLOCK * (done + m - 1)..BLOCK * (done + m)];
    }
  }

  /** Only the blocks themselves matter. */
  lemma {:induction false} HashPrefix(h: seq<bv32>, u: Bytes, v: Bytes, m: nat)
    requires |h| == 8 && BLOCK * m <= |u| && u <= v
    ensures HashBlocks(h, u, m) == HashBlocks(h, v, m)
  {
    hide Compress;
    if m > 0 {
      HashPrefix(h, u, v, m - 1);
      assert u[BLOCK * (m - 1)..BLOCK * m] == v[BLOCK * (m - 1)..BLOCK * m];
    }
  }

  /** What has been absorbed after reading the first n bytes: every whole block, the rest is carried. */
  ghost predicate Absorbed(h: seq<bv32>, carry: Bytes, message: Bytes, n: nat) {
    && |h| == 8 && n <= |message| && |carry| == n % BLOCK && carry == message[n - n % BLOCK..n]
    && h == HashBlocks(H0, message, n / BLOCK)
  }

  lemma AbsorbMore(h: seq<bv32>, carry: Bytes, message: Bytes, n: nat, more: nat)
    requires Absorbed(h, carry, message, n) && n + more <= |message|
    ensures var joined := carry + message[n..n + more];
      var whole := |joined| / BLOCK;
      Absorbed(HashBlocks(h, joined, whole), joined[whole * BLOCK..], message, n + more)
  {
    hide HashBlocks;
    var joined := carry + message[n..n + more];
    var done, whole := n / BLOCK, |joined| / BLOCK;
    assert joined == message[BLOCK * done..n + more];
    var rest := message[BLOCK * done..];
    assert joined == rest[..|joined|];
    HashPrefix(h, joined, rest, whole);
    HashResumes(H0, message, done, whole);
    assert (n + more) / BLOCK == done + whole;
    HashLength(h, joined, whole);
  }

  lemma HashLength(h: seq<bv32>, message: Bytes, m: nat)
    requires |h| == 8 && BLOCK * m <= |message|
    ensures |HashBlocks(h, message, m)| == 8
  {
  }

  /** A file being read. */
  class Source {
    const data: Bytes
    var pos: nat

    constructor (data: Bytes)
      ensures this.data == data && pos == 0
    {
      this.data, pos := data, 0;
    }

    /** Up to n bytes; fewer only at the end of the file. */
    method Read(n: nat) returns (bs: Bytes)
      requires pos <= |data|
      modifies `pos
      ensures old(pos) <= pos <= |data| && bs == data[old(pos)..pos]
      ensures |bs| <= n && (|bs| < n ==> pos == |data|)
    {
      var end := if pos + n < |data| then pos + n else |data|;
      bs := data[pos..end];
      pos := end;
    }
  }

  /** The padding loops on the carried bytes. */
  method PadCarry(carry: Bytes, total: nat) returns (padded: Bytes)
    requires |carry| == total % BLOCK
    ensures padded == carry + [0x80] + seq(ZeroCount(total), _ => 0) + EightBytes(8 * total)
  {
    hide EightBytes, ByteOf;
    padded := carry + [0x80];
    ghost var zeros := 0;
    while |padded| % 64 != 56
      invariant zeros <= ZeroCount(total) && padded == carry + [0x80] + seq(zeros, _ => 0)
      decreases ZeroCount(total) - zeros
    {
      padded := padded + [0];
      zeros := zeros + 1;
    }
    assert zeros == ZeroCount(total);
    ghost var front := padded;
    EightBytesAt(8 * total);
    for t := 0 to 8
      invariant padded == front + EightBytes(8 * total)[..t]
    {
      padded := padded + [ByteOf(8 * total, 7 - t)];
    }
    assert EightBytes(8 * total)[..8] == EightBytes(8 * total);
  }

  lemma EightBytesAt(n: nat)
    ensures |EightBytes(n)| == 8 && forall t :: 0 <= t < 8 ==> EightBytes(n)[t] == ByteOf(n, 7 - t)
  {
  }

  /** sha256_file up to the hash value, for any buffer size: the digest of the whole file. */
  method HashFile(file: Source, bufSize: nat) returns (h: array<bv32>)
    requires bufSize > 0 && file.pos == 0
    modifies file
    ensures h.Length == 8 && h[..] == Digest(file.data)
  {
    hide HashBlocks, EightBytes, Compress;
    h := new bv32[8](i requires 0 <= i < 8 => H0[i]);
    StartAbsorbed(file.data);
    assert h[..] == H0;
    var total := 0;
    var carry: Bytes := [];
    while true
      invariant file.pos == total <= |file.data| && fresh(h) && h.Length == 8
      invariant |carry| < BLOCK && Absorbed(h[..], carry, file.data, total)
      decreases |file.data| - total
    {
      var bs := file.Read(bufSize);
      var n := |bs|;
      if n == 0 {
        break;
      }
      AbsorbMore(h[..], carry, file.data, total, n);
      total := total + n;
      carry := carry + bs;
      var i := ProcessWhole(h, carry);
      carry := carry[i..];
      if n < bufSize {
        break;
      }
    }
    assert total == |file.data|;
    var padded := PadCarry(carry, total);
    FinishAbsorbs(h[..], carry, file.data, padded);
    var i := ProcessWhole(h, padded);
  }

  lemma StartAbsorbed(message: Bytes)
    ensures Absorbed(H0, [], message, 0)
  {
  }

  /** Padding only the end of a message pads the message. */
  lemma PaddedSplits(carry: Bytes, message: Bytes, padded: Bytes, cut: nat)
    requires cut <= |message| && carry == message[cut..]
    requires padded == carry + [0x80] + seq(ZeroCount(|message|), _ => 0) + EightBytes(8 * |message|)
    ensures cut <= |Pad(message)| && Pad(message) == message[..cut] + padded && Pad(message)[cut..] == padded
  {
    hide EightBytes, ZeroCount;
    assert message == message[..cut] + carry;
  }

  /** The padded carry ends on a block boundary and completes the padded message. */
  lemma FinishAbsorbs(h: seq<bv32>, carry: Bytes, message: Bytes, padded: Bytes)
    requires Absorbed(h, carry, message, |message|)
    requires padded == carry + [0x80] + seq(ZeroCount(|message|), _ => 0) + EightBytes(8 * |message|)
    ensures |padded| % BLOCK == 0
    ensures HashBlocks(h, padded, |padded| / BLOCK) == Digest(message)
  {
    hide HashBlocks, EightBytes, Pad, ZeroCount;
    PaddedLength(message);
    var whole, done := Pad(message), |message| / BLOCK;
    PaddedSplits(carry, message, padded, BLOCK * done);
    HashPrefix(H0, message, whole, done);
    assert |whole| / BLOCK == done + |padded| / BLOCK;
    HashResumes(H0, whole, done, |padded| / BLOCK);
  }

  // ----- the text form

  const HEX := "0123456789abcdef"

  function HexDigit(w: bv32, t: nat): char
    requires t < 8
  {
    HEX[((w >> (28 - 4 * t)) & 0xF) as int]
  }

  /** Eight digits per word, most significant first. */
  function Hex(h: seq<bv32>): (s: string)
    ensures |s| == 8 * |h|
  {
    seq(8 * |h|, k requires 0 <= k < 8 * |h| => HexDigit(h[k / 8], k % 8))
  }

  /** sha256_file */
  method HashText(file: Source, bufSize: nat) returns (text: string)
    requires bufSize > 0 && file.pos == 0
    modifies file
    ensures text == Hex(Digest(file.data))
  {
    hide Digest, HexDigit;
    var h := HashFile(file, bufSize);
    text := "";
    for t := 0 to 8
      invariant text == Hex(h[..])[..8 * t]
    {
      for k := 0 to 8
        invariant text == Hex(h[..])[..8 * t + k]
      {
        text := text + [HexDigit(h[t], k)];
      }
    }
  }
}
