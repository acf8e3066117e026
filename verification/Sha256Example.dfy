/**
 A known answer that fixes every constant and rotation of the hash: the one-block example that NIST gives for FIPS 180-4,
 the three bytes "abc", round by round.
 */
module Sha256Example {
  import opened Sha256

  const ABC: Bytes := [0x61, 0x62, 0x63]

  // ----- the message schedule

  // Its 64 words, eight to a row.

  const R0: seq<bv32> := [0x61626380, 0x00000000, 0x00000000, 0x00000000, 0x00000000, 0x00000000, 0x00000000, 0x00000000]

  const R1: seq<bv32> := [0x00000000, 0x00000000, 0x00000000, 0x00000000, 0x00000000, 0x00000000, 0x00000000, 0x00000018]

  const R2: seq<bv32> := [0x61626380, 0x000f0000, 0x7da86405, 0x600003c6, 0x3e9d7b78, 0x0183fc00, 0x12dcbfdb, 0xe2e2c38e]

  const R3: seq<bv32> := [0xc8215c1a, 0xb73679a2, 0xe5bc3909, 0x32663c5b, 0x9d209d67, 0xec8726cb, 0x702138a4, 0xd3b7973b]

  const R4: seq<bv32> := [0x93f5997f, 0x3b68ba73, 0xaff4ffc1, 0xf10a5c62, 0x0a8b3996, 0x72af830a, 0x9409e33e, 0x24641522]

  const R5: seq<bv32> := [0x9f47bf94, 0xf0a64f5a, 0x3e246a79, 0x27333ba3, 0x0c4763f2, 0x840abf27, 0x7a290d5d, 0x065c43da]

  const R6: seq<bv32> := [0xfb3e89cb, 0xcc7617db, 0xb9e66c34, 0xa9993667, 0x84badedd, 0xc21462bc, 0x1487472c, 0xb20f7a99]

  const R7: seq<bv32> := [0xef57b9cd, 0xebe6b238, 0x9fe3095e, 0x78bc8d4b, 0xa43fcf15, 0x668b2ff8, 0xeeaba2cc, 0x12b1edeb]

  function Row(k: nat): (w: seq<bv32>)
    requires k < 8
    ensures |w| == 8
  {
    if k == 0 then R0 else if k == 1 then R1 else if k == 2 then R2 else if k == 3 then R3
    else if k == 4 then R4 else if k == 5 then R5 else if k == 6 then R6 else R7
  }

  function Word(t: nat): bv32
    requires t < 64
  {
    Row(t / 8)[t % 8]
  }

  /** Word t of a row follows from the words before it and the two rows u and m before that. */
  predicate Follows(u: seq<bv32>, m: seq<bv32>, v: seq<bv32>, t: nat)
    requires |u| == |m| == |v| == 8 && t < 8
  {
    v[t] == SumOfFour(SmallSigma1(if t < 2 then m[t + 6] else v[t - 2]), if t < 7 then m[t + 1] else v[0],
                      SmallSigma0(if t < 7 then u[t + 1] else m[0]), u[t])
  }

  lemma Row2()
    ensures forall t :: 0 <= t < 8 ==> Follows(Row(0), Row(1), Row(2), t)
  {
    assert Follows(R0, R1, R2, 0) && Follows(R0, R1, R2, 1) && Follows(R0, R1, R2, 2) && Follows(R0, R1, R2, 3);
    assert Follows(R0, R1, R2, 4) && Follows(R0, R1, R2, 5) && Follows(R0, R1, R2, 6) && Follows(R0, R1, R2, 7);
  }

  lemma Row3()
    ensures forall t :: 0 <= t < 8 ==> Follows(Row(1), Row(2), Row(3), t)
  {
    assert Follows(R1, R2, R3, 0) && Follows(R1, R2, R3, 1) && Follows(R1, R2, R3, 2) && Follows(R1, R2, R3, 3);
    assert Follows(R1, R2, R3, 4) && Follows(R1, R2, R3, 5) && Follows(R1, R2, R3, 6) && Follows(R1, R2, R3, 7);
  }

  lemma Row4()
    ensures forall t :: 0 <= t < 8 ==> Follows(Row(2), Row(3), Row(4), t)
  {
    assert Follows(R2, R3, R4, 0) && Follows(R2, R3, R4, 1) && Follows(R2, R3, R4, 2) && Follows(R2, R3, R4, 3);
    assert Follows(R2, R3, R4, 4) && Follows(R2, R3, R4, 5) && Follows(R2, R3, R4, 6) && Follows(R2, R3, R4, 7);
  }

  lemma Row5()
    ensures forall t :: 0 <= t < 8 ==> Follows(Row(3), Row(4), Row(5), t)
  {
    assert Follows(R3, R4, R5, 0) && Follows(R3, R4, R5, 1) && Follows(R3, R4, R5, 2) && Follows(R3, R4, R5, 3);
    assert Follows(R3, R4, R5, 4) && Follows(R3, R4, R5, 5) && Follows(R3, R4, R5, 6) && Follows(R3, R4, R5, 7);
  }

  lemma Row6()
    ensures forall t :: 0 <= t < 8 ==> Follows(Row(4), Row(5), Row(6), t)
  {
    assert Follows(R4, R5, R6, 0) && Follows(R4, R5, R6, 1) && Follows(R4, R5, R6, 2) && Follows(R4, R5, R6, 3);
    assert Follows(R4, R5, R6, 4) && Follows(R4, R5, R6, 5) && Follows(R4, R5, R6, 6) && Follows(R4, R5, R6, 7);
  }

  lemma Row7()
    ensures forall t :: 0 <= t < 8 ==> Follows(Row(5), Row(6), Row(7), t)
  {
    assert Follows(R5, R6, R7, 0) && Follows(R5, R6, R7, 1) && Follows(R5, R6, R7, 2) && Follows(R5, R6, R7, 3);
    assert Follows(R5, R6, R7, 4) && Follows(R5, R6, R7, 5) && Follows(R5, R6, R7, 6) && Follows(R5, R6, R7, 7);
  }

  lemma RowsFollow(k: nat, t: nat)
    requires 2 <= k < 8 && t < 8
    ensures Follows(Row(k - 2), Row(k - 1), Row(k), t)
  {
    hide Follows, Row;
    if k == 2 {
      Row2();
    } else if k == 3 {
      Row3();
    } else if k == 4 {
      Row4();
    } else if k == 5 {
      Row5();
    } else if k == 6 {
      Row6();
    } else {
      Row7();
    }
  }

  lemma LaterWord(t: nat)
    requires 16 <= t < 64
    ensures Word(t) == SumOfFour(SmallSigma1(Word(t - 2)), Word(t - 7), SmallSigma0(Word(t - 15)), Word(t - 16))
  {
    hide SmallSigma0, SmallSigma1, SumOfFour, Row;
    var k, j := t / 8, t % 8;
    RowsFollow(k, j);
    assert (t - 16) / 8 == k - 2 && (t - 16) % 8 == j;
    assert if j < 2 then (t - 2) / 8 == k - 1 && (t - 2) % 8 == j + 6 else (t - 2) / 8 == k && (t - 2) % 8 == j - 2;
    assert if j < 7 then (t - 7) / 8 == k - 1 && (t - 7) % 8 == j + 1 else (t - 7) / 8 == k && (t - 7) % 8 == 0;
    assert if j < 7 then (t - 15) / 8 == k - 2 && (t - 15) % 8 == j + 1 else (t - 15) / 8 == k - 1 && (t - 15) % 8 == 0;
  }

  /** The padded message: the three bytes, the marker, 52 zeros and the bit length 24. */
  function Padded(): (p: Bytes)
    ensures |p| == BLOCK
  {
    [0x61, 0x62, 0x63, 0x80] + seq(52, _ => 0) + [0, 0, 0, 0, 0, 0, 0, 24]
  }

  lemma PaddedAbc()
    ensures Pad(ABC) == Padded()
  {
    assert ZeroCount(3) == 52;
    LengthBytes();
  }

  lemma LengthBytes()
    ensures EightBytes(24) == [0, 0, 0, 0, 0, 0, 0, 24]
  {
    hide ByteOf;
    LowByte();
    forall t | 0 <= t < 7 ensures EightBytes(24)[t] == 0 {
      HighByte(7 - t);
    }
  }

  lemma LowByte()
    ensures ByteOf(24, 0) == 24
  {
    LastByte(24);
    hide ByteOf;
  }

  lemma LastByte(n: nat)
    requires n < 256
    ensures ByteOf(n, 0) == n as bv8
  {
  }

  lemma HighByte(k: nat)
    requires k > 0
    ensures ByteOf(24, k) == 0
  {
    ZeroBytes(k - 1);
    ZeroBytes(k);
  }

  lemma {:induction false} ZeroBytes(k: nat)
    ensures ByteOf(0, k) == 0
  {
    if k > 0 {
      ZeroBytes(k - 1);
    }
  }

  lemma FirstWords(t: nat)
    requires t < 16
    ensures BigEndian(Padded(), t) == Word(t)
  {
    hide BigEndian, Padded, Word;
    if t == 0 {
      FirstWord();
    } else if t < 15 {
      ZeroWord(t);
    } else {
      LastWord();
    }
  }

  lemma FirstWord()
    ensures BigEndian(Padded(), 0) == Word(0)
  {
  }

  lemma ZeroWord(t: nat)
    requires 0 < t < 15
    ensures BigEndian(Padded(), t) == Word(t)
  {
    assert Padded()[4 * t] == Padded()[4 * t + 1] == Padded()[4 * t + 2] == Padded()[4 * t + 3] == 0;
    hide Padded;
    assert Word(t) == 0;
  }

  lemma LastWord()
    ensures BigEndian(Padded(), 15) == Word(15)
  {
  }

  function Words(): (w: seq<bv32>)
    ensures |w| == 64
  {
    seq(64, t requires 0 <= t < 64 => Word(t))
  }

  lemma {:induction false} ScheduleIsTable(n: nat)
    requires n <= 64
    ensures Schedule(Padded(), n) == Words()[..n]
  {
    hide SmallSigma0, SmallSigma1, SumOfFour, BigEndian, Word;
    if n > 0 {
      ScheduleIsTable(n - 1);
      if n <= 16 {
        FirstWords(n - 1);
      } else {
        LaterWord(n - 1);
      }
    }
  }

  // ----- the rounds

  function Start(): State {
    StateOf(H0)
  }

  /** Round t makes a and e the new first words of the two halves and moves the others down. */
  lemma Next(t: nat, s: State, a: bv32, e: bv32) returns (n: State)
    requires t < 64 && s == Rounds(Start(), Words(), t)
    requires var r := Round(s, RoundConstant(t), Word(t)); r.a == a && r.e == e
    ensures n == Rounds(Start(), Words(), t + 1) == State(a, s.a, s.b, s.c, e, s.e, s.f, s.g)
  {
    hide Word, RoundConstant, Start;
    n := Round(s, RoundConstant(t), Word(t));
  }

  lemma RoundsFrom0(s: State) returns (n: State)
    requires s == Rounds(Start(), Words(), 0)
          == State(0x6a09e667, 0xbb67ae85, 0x3c6ef372, 0xa54ff53a, 0x510e527f, 0x9b05688c, 0x1f83d9ab, 0x5be0cd19)
    ensures n == Rounds(Start(), Words(), 4)
         == State(0xd550f666, 0xc8c347a7, 0x5a6ad9ad, 0x5d6aebcd, 0x24e00850, 0xf92939eb, 0x78ce7989, 0xfa2a4622)
  {
    hide Rounds, Words, Start;
    n := Next(0, s, 0x5d6aebcd, 0xfa2a4622);
    n := Next(1, n, 0x5a6ad9ad, 0x78ce7989);
    n := Next(2, n, 0xc8c347a7, 0xf92939eb);
    n := Next(3, n, 0xd550f666, 0x24e00850);
  }

  lemma RoundsFrom4(s: State) returns (n: State)
    requires s == Rounds(Start(), Words(), 4)
          == State(0xd550f666, 0xc8c347a7, 0x5a6ad9ad, 0x5d6aebcd, 0x24e00850, 0xf92939eb, 0x78ce7989, 0xfa2a4622)
    ensures n == Rounds(Start(), Words(), 8)
         == State(0x85a07b5f, 0xe5030380, 0x2b4209f5, 0x04409a6a, 0x0c657a79, 0x9b27a401, 0x714260ad, 0x43ada245)
  {
    hide Rounds, Words, Start;
    n := Next(4, s, 0x04409a6a, 0x43ada245);
    n := Next(5, n, 0x2b4209f5, 0x714260ad);
    n := Next(6, n, 0xe5030380, 0x9b27a401);
    n := Next(7, n, 0x85a07b5f, 0x0c657a79);
  }

  lemma RoundsFrom8(s: State) returns (n: State)
    requires s == Rounds(Start(), Words(), 8)
          == State(0x85a07b5f, 0xe5030380, 0x2b4209f5, 0x04409a6a, 0x0c657a79, 0x9b27a401, 0x714260ad, 0x43ada245)
    ensures n == Rounds(Start(), Words(), 12)
         == State(0xf71fc5a9, 0x4798a3f4, 0x8c87346b, 0x8e04ecb9, 0x816fd6e9, 0x436b23e8, 0x1cc92596, 0x32ca2d8c)
  {
    hide Rounds, Words, Start;
    n := Next(8, s, 0x8e04ecb9, 0x32ca2d8c);
    n := Next(9, n, 0x8c87346b, 0x1cc92596);
    n := Next(10, n, 0x4798a3f4, 0x436b23e8);
    n := Next(11, n, 0xf71fc5a9, 0x816fd6e9);
  }

  lemma RoundsFrom12(s: State) returns (n: State)
    requires s == Rounds(Start(), Words(), 12)
          == State(0xf71fc5a9, 0x4798a3f4, 0x8c87346b, 0x8e04ecb9, 0x816fd6e9, 0x436b23e8, 0x1cc92596, 0x32ca2d8c)
    ensures n == Rounds(Start(), Words(), 16)
         == State(0xb0fa238e, 0xc0645fde, 0xd932eb16, 0x87912990, 0x07590dcd, 0x0b92f20c, 0x745a48de, 0x1e578218)
  {
    hide Rounds, Words, Start;
    n := Next(12, s, 0x87912990, 0x1e578218);
    n := Next(13, n, 0xd932eb16, 0x745a48de);
    n := Next(14, n, 0xc0645fde, 0x0b92f20c);
    n := Next(15, n, 0xb0fa238e, 0x07590dcd);
  }

  lemma RoundsFrom16(s: State) returns (n: State)
    requires s == Rounds(Start(), Words(), 16)
          == State(0xb0fa238e, 0xc0645fde, 0xd932eb16, 0x87912990, 0x07590dcd, 0x0b92f20c, 0x745a48de, 0x1e578218)
    ensures n == Rounds(Start(), Words(), 20)
         == State(0xe1f20c33, 0xfe777bbf, 0xc2fbd9d1, 0x21da9a9b, 0xb0638179, 0xcc899961, 0x846ee454, 0x8034229c)
  {
    hide Rounds, Words, Start;
    n := Next(16, s, 0x21da9a9b, 0x8034229c);
    n := Next(17, n, 0xc2fbd9d1, 0x846ee454);
    n := Next(18, n, 0xfe777bbf, 0xcc899961);
    n := Next(19, n, 0xe1f20c33, 0xb0638179);
  }

  lemma RoundsFrom20(s: State) returns (n: State)
    requires s == Rounds(Start(), Words(), 20)
          == State(0xe1f20c33, 0xfe777bbf, 0xc2fbd9d1, 0x21da9a9b, 0xb0638179, 0xcc899961, 0x846ee454, 0x8034229c)
    ensures n == Rounds(Start(), Words(), 24)
         == State(0xc5d53d8d, 0xa7a3623f, 0xc2606d6d, 0x9dc68b63, 0xaa47c347, 0x49f5114a, 0xe1257970, 0x8ada8930)
  {
    hide Rounds, Words, Start;
    n := Next(20, s, 0x9dc68b63, 0x8ada8930);
    n := Next(21, n, 0xc2606d6d, 0xe1257970);
    n := Next(22, n, 0xa7a3623f, 0x49f5114a);
    n := Next(23, n, 0xc5d53d8d, 0xaa47c347);
  }

  lemma RoundsFrom24(s: State) returns (n: State)
    requires s == Rounds(Start(), Words(), 24)
          == State(0xc5d53d8d, 0xa7a3623f, 0xc2606d6d, 0x9dc68b63, 0xaa47c347, 0x49f5114a, 0xe1257970, 0x8ada8930)
    ensures n == Rounds(Start(), Words(), 28)
         == State(0x77d37528, 0xb62ec4bc, 0xcde8037d, 0x1c2c2838, 0xedffbff8, 0xc74c6516, 0x14383d8e, 0x2823ef91)
  {
    hide Rounds, Words, Start;
    n := Next(24, s, 0x1c2c2838, 0x2823ef91);
    n := Next(25, n, 0xcde8037d, 0x14383d8e);
    n := Next(26, n, 0xb62ec4bc, 0xc74c6516);
    n := Next(27, n, 0x77d37528, 0xedffbff8);
  }

  lemma RoundsFrom28(s: State) returns (n: State)
    requires s == Rounds(Start(), Words(), 28)
          == State(0x77d37528, 0xb62ec4bc, 0xcde8037d, 0x1c2c2838, 0xedffbff8, 0xc74c6516, 0x14383d8e, 0x2823ef91)
    ensures n == Rounds(Start(), Words(), 32)
         == State(0x73b33bf5, 0xea992a22, 0xa0060b30, 0x363482c9, 0xba591112, 0x0109ab3a, 0xade79437, 0x6112a3b7)
  {
    hide Rounds, Words, Start;
    n := Next(28, s, 0x363482c9, 0x6112a3b7);
    n := Next(29, n, 0xa0060b30, 0xade79437);
    n := Next(30, n, 0xea992a22, 0x0109ab3a);
    n := Next(31, n, 0x73b33bf5, 0xba591112);
  }

  lemma RoundsFrom32(s: State) returns (n: State)
    requires s == Rounds(Start(), Words(), 32)
          == State(0x73b33bf5, 0xea992a22, 0xa0060b30, 0x363482c9, 0xba591112, 0x0109ab3a, 0xade79437, 0x6112a3b7)
    ensures n == Rounds(Start(), Words(), 36)
         == State(0x65a0cfe4, 0xa9a7738c, 0xfe604df5, 0x98e12507, 0xf4b002d6, 0x085f3833, 0x59249dd3, 0x9cd9f5f6)
  {
    hide Rounds, Words, Start;
    n := Next(32, s, 0x98e12507, 0x9cd9f5f6);
    n := Next(33, n, 0xfe604df5, 0x59249dd3);
    n := Next(34, n, 0xa9a7738c, 0x085f3833);
    n := Next(35, n, 0x65a0cfe4, 0xf4b002d6);
  }

  lemma RoundsFrom36(s: State) returns (n: State)
    requires s == Rounds(Start(), Words(), 36)
          == State(0x65a0cfe4, 0xa9a7738c, 0xfe604df5, 0x98e12507, 0xf4b002d6, 0x085f3833, 0x59249dd3, 0x9cd9f5f6)
    ensures n == Rounds(Start(), Words(), 40)
         == State(0x79ea687a, 0x6dc57a8a, 0x34df1604, 0x41a65cb1, 0x1efbc0a0, 0xf0781bc8, 0xa507a53d, 0x0772a26b)
  {
    hide Rounds, Words, Start;
    n := Next(36, s, 0x41a65cb1, 0x0772a26b);
    n := Next(37, n, 0x34df1604, 0xa507a53d);
    n := Next(38, n, 0x6dc57a8a, 0xf0781bc8);
    n := Next(39, n, 0x79ea687a, 0x1efbc0a0);
  }

  lemma RoundsFrom40(s: State) returns (n: State)
    requires s == Rounds(Start(), Words(), 40)
          == State(0x79ea687a, 0x6dc57a8a, 0x34df1604, 0x41a65cb1, 0x1efbc0a0, 0xf0781bc8, 0xa507a53d, 0x0772a26b)
    ensures n == Rounds(Start(), Words(), 44)
         == State(0x9d4baf93, 0x17aa0dfe, 0xdf46652f, 0xd6670766, 0xfda24c2e, 0xdecd4715, 0x838b2711, 0x26352d63)
  {
    hide Rounds, Words, Start;
    n := Next(40, s, 0xd6670766, 0x26352d63);
    n := Next(41, n, 0xdf46652f, 0x838b2711);
    n := Next(42, n, 0x17aa0dfe, 0xdecd4715);
    n := Next(43, n, 0x9d4baf93, 0xfda24c2e);
  }

  lemma RoundsFrom44(s: State) returns (n: State)
    requires s == Rounds(Start(), Words(), 44)
          == State(0x9d4baf93, 0x17aa0dfe, 0xdf46652f, 0xd6670766, 0xfda24c2e, 0xdecd4715, 0x838b2711, 0x26352d63)
    ensures n == Rounds(Start(), Words(), 48)
         == State(0x4172328d, 0xa14c14b0, 0x72ab4b91, 0x26628815, 0xfecf0bc6, 0xd57b94a9, 0xb7755da1, 0xa80f11f0)
  {
    hide Rounds, Words, Start;
    n := Next(44, s, 0x26628815, 0xa80f11f0);
    n := Next(45, n, 0x72ab4b91, 0xb7755da1);
    n := Next(46, n, 0xa14c14b0, 0xd57b94a9);
    n := Next(47, n, 0x4172328d, 0xfecf0bc6);
  }

  lemma RoundsFrom48(s: State) returns (n: State)
    requires s == Rounds(Start(), Words(), 48)
          == State(0x4172328d, 0xa14c14b0, 0x72ab4b91, 0x26628815, 0xfecf0bc6, 0xd57b94a9, 0xb7755da1, 0xa80f11f0)
    ensures n == Rounds(Start(), Words(), 52)
         == State(0x886e7a22, 0x7a0508a1, 0xf11bfaa8, 0x05757ceb, 0x49231c1e, 0x52f1ccf7, 0x6e5c390c, 0xbd714038)
  {
    hide Rounds, Words, Start;
    n := Next(48, s, 0x05757ceb, 0xbd714038);
    n := Next(49, n, 0xf11bfaa8, 0x6e5c390c);
    n := Next(50, n, 0x7a0508a1, 0x52f1ccf7);
    n := Next(51, n, 0x886e7a22, 0x49231c1e);
  }

  lemma RoundsFrom52(s: State) returns (n: State)
    requires s == Rounds(Start(), Words(), 52)
          == State(0x886e7a22, 0x7a0508a1, 0xf11bfaa8, 0x05757ceb, 0x49231c1e, 0x52f1ccf7, 0x6e5c390c, 0xbd714038)
    ensures n == Rounds(Start(), Words(), 56)
         == State(0x38cc9913, 0x3ec45cdb, 0xf5702fdb, 0x101fd28f, 0x54cb266b, 0xe50e1b4f, 0x9f4787c3, 0x529e7d00)
  {
    hide Rounds, Words, Start;
    n := Next(52, s, 0x101fd28f, 0x529e7d00);
    n := Next(53, n, 0xf5702fdb, 0x9f4787c3);
    n := Next(54, n, 0x3ec45cdb, 0xe50e1b4f);
    n := Next(55, n, 0x38cc9913, 0x54cb266b);
  }

  lemma RoundsFrom56(s: State) returns (n: State)
    requires s == Rounds(Start(), Words(), 56)
          == State(0x38cc9913, 0x3ec45cdb, 0xf5702fdb, 0x101fd28f, 0x54cb266b, 0xe50e1b4f, 0x9f4787c3, 0x529e7d00)
    ensures n == Rounds(Start(), Words(), 60)
         == State(0xb6ae8fff, 0xffb70472, 0xc062d46f, 0xfcd1887b, 0xb21bad3d, 0x6d83bfc6, 0x7e44008e, 0x9b5e906c)
  {
    hide Rounds, Words, Start;
    n := Next(56, s, 0xfcd1887b, 0x9b5e906c);
    n := Next(57, n, 0xc062d46f, 0x7e44008e);
    n := Next(58, n, 0xffb70472, 0x6d83bfc6);
    n := Next(59, n, 0xb6ae8fff, 0xb21bad3d);
  }

  lemma RoundsFrom60(s: State) returns (n: State)
    requires s == Rounds(Start(), Words(), 60)
          == State(0xb6ae8fff, 0xffb70472, 0xc062d46f, 0xfcd1887b, 0xb21bad3d, 0x6d83bfc6, 0x7e44008e, 0x9b5e906c)
    ensures n == Rounds(Start(), Words(), 64)
         == State(0x506e3058, 0xd39a2165, 0x04d24d6c, 0xb85e2ce9, 0x5ef50f24, 0xfb121210, 0x948d25b6, 0x961f4894)
  {
    hide Rounds, Words, Start;
    n := Next(60, s, 0xb85e2ce9, 0x961f4894);
    n := Next(61, n, 0x04d24d6c, 0x948d25b6);
    n := Next(62, n, 0xd39a2165, 0xfb121210);
    n := Next(63, n, 0x506e3058, 0x5ef50f24);
  }

  lemma FirstState() returns (s: State)
    ensures s == Rounds(Start(), Words(), 0)
         == State(0x6a09e667, 0xbb67ae85, 0x3c6ef372, 0xa54ff53a, 0x510e527f, 0x9b05688c, 0x1f83d9ab, 0x5be0cd19)
  {
    s := Start();
  }

  lemma OneBlock(p: Bytes)
    requires |p| == BLOCK
    ensures HashBlocks(H0, p, 1) == Compress(H0, p)
  {
    hide Compress;
    assert p[0..64] == p;
    assert HashBlocks(H0, p, 0) == H0;
  }

  /** The digest of "abc". */
  lemma DigestOfAbc()
    ensures Digest(ABC) == [
      0xba7816bf, 0x8f01cfea, 0x414140de, 0x5dae2223, 0xb00361a3, 0x96177a9c, 0xb410ff61, 0xf20015ad]
  {
    hide Rounds, Words, Schedule, Round;
    PaddedAbc();
    ScheduleIsTable(64);
    var s := FirstState();
    s := RoundsFrom0(s);
    s := RoundsFrom4(s);
    s := RoundsFrom8(s);
    s := RoundsFrom12(s);
    s := RoundsFrom16(s);
    s := RoundsFrom20(s);
    s := RoundsFrom24(s);
    s := RoundsFrom28(s);
    s := RoundsFrom32(s);
    s := RoundsFrom36(s);
    s := RoundsFrom40(s);
    s := RoundsFrom44(s);
    s := RoundsFrom48(s);
    s := RoundsFrom52(s);
    s := RoundsFrom56(s);
    s := RoundsFrom60(s);
    assert Words()[..64] == Words();
    OneBlock(Padded());
  }

  lemma FirstFourDigits()
    ensures HexDigit(0xba7816bf, 0) == 'b' && HexDigit(0xba7816bf, 1) == 'a'
    ensures HexDigit(0xba7816bf, 2) == '7' && HexDigit(0xba7816bf, 3) == '8'
  {
  }

  lemma LastFourDigits()
    ensures HexDigit(0xba7816bf, 4) == '1' && HexDigit(0xba7816bf, 5) == '6'
    ensures HexDigit(0xba7816bf, 6) == 'b' && HexDigit(0xba7816bf, 7) == 'f'
  {
  }

  /** Its text starts with the digits of its first word. */
  lemma TextOfAbc()
    ensures |Hex(Digest(ABC))| == 64 && Hex(Digest(ABC))[..8] == "ba7816bf"
  {
    hide HexDigit, Digest;
    DigestOfAbc();
    FirstFourDigits();
    LastFourDigits();
  }
}
