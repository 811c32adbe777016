/** The in-place permutation of libethash/sha3.c and libdevcore/SHA3.cpp. */
module Keccak {
  import opened Fips202

  function RhoTable(): (r: seq<nat>)
    ensures |r| == 24
  {
    [1, 3, 6, 10, 15, 21,
     28, 36, 45, 55, 2, 14,
     27, 41, 56, 8, 25, 43,
     62, 18, 39, 61, 20, 44]
  }

  function PiTable(): (r: seq<nat>)
    ensures |r| == 24
  {
    [10, 7, 11, 17, 18, 3,
     5, 16, 8, 21, 24, 4,
     15, 23, 19, 13, 12, 2,
     20, 14, 22, 9, 6, 1]
  }

  // ----- the tables

  lemma NextFrom0()
    ensures Next(1) == 10 && Next(10) == 7 && Next(7) == 11
    ensures Next(11) == 17 && Next(17) == 18 && Next(18) == 3
  {
  }

  lemma NextFrom6()
    ensures Next(3) == 5 && Next(5) == 16 && Next(16) == 8
    ensures Next(8) == 21 && Next(21) == 24 && Next(24) == 4
  {
  }

  lemma NextFrom12()
    ensures Next(4) == 15 && Next(15) == 23 && Next(23) == 19
    ensures Next(19) == 13 && Next(13) == 12 && Next(12) == 2
  {
  }

  lemma NextFrom18()
    ensures Next(2) == 20 && Next(20) == 14 && Next(14) == 22
    ensures Next(22) == 9 && Next(9) == 6 && Next(6) == 1
  {
  }

  lemma WalkStep(t: nat)
    ensures WalkLane(t + 1) == Next(WalkLane(t))
  {
  }

  lemma WalkBegins()
    ensures WalkLane(0) == 1
  {
  }

  /** Computing the walk of section 3.2.2 step by step. */
  lemma WalkComputed()
    ensures WalkLane(0) == 1 && WalkLane(1) == 10 && WalkLane(2) == 7
    ensures WalkLane(3) == 11 && WalkLane(4) == 17 && WalkLane(5) == 18
    ensures WalkLane(6) == 3 && WalkLane(7) == 5 && WalkLane(8) == 16
    ensures WalkLane(9) == 8 && WalkLane(10) == 21 && WalkLane(11) == 24
    ensures WalkLane(12) == 4 && WalkLane(13) == 15 && WalkLane(14) == 23
    ensures WalkLane(15) == 19 && WalkLane(16) == 13 && WalkLane(17) == 12
    ensures WalkLane(18) == 2 && WalkLane(19) == 20 && WalkLane(20) == 14
    ensures WalkLane(21) == 22 && WalkLane(22) == 9 && WalkLane(23) == 6
    ensures WalkLane(24) == 1
  {
    hide *;
    WalkBegins();
    NextFrom0();
    NextFrom6();
    NextFrom12();
    NextFrom18();
    WalkStep(0); WalkStep(1); WalkStep(2); WalkStep(3);
    WalkStep(4); WalkStep(5); WalkStep(6); WalkStep(7);
    WalkStep(8); WalkStep(9); WalkStep(10); WalkStep(11);
    WalkStep(12); WalkStep(13); WalkStep(14); WalkStep(15);
    WalkStep(16); WalkStep(17); WalkStep(18); WalkStep(19);
    WalkStep(20); WalkStep(21); WalkStep(22); WalkStep(23);
  }

  lemma OffsetsComputed()
    ensures WalkOffset(0) == 1 && WalkOffset(1) == 3 && WalkOffset(2) == 6 && WalkOffset(3) == 10
          && WalkOffset(4) == 15 && WalkOffset(5) == 21
    ensures WalkOffset(6) == 28 && WalkOffset(7) == 36 && WalkOffset(8) == 45 && WalkOffset(9) == 55
          && WalkOffset(10) == 2 && WalkOffset(11) == 14
    ensures WalkOffset(12) == 27 && WalkOffset(13) == 41 && WalkOffset(14) == 56 && WalkOffset(15) == 8
          && WalkOffset(16) == 25 && WalkOffset(17) == 43
    ensures WalkOffset(18) == 62 && WalkOffset(19) == 18 && WalkOffset(20) == 39 && WalkOffset(21) == 61
          && WalkOffset(22) == 20 && WalkOffset(23) == 44
  {
  }

  lemma PiSourcesComputed()
    ensures PiSource(10) == 1 && PiSource(7) == 10 && PiSource(11) == 7 && PiSource(17) == 11
          && PiSource(18) == 17 && PiSource(3) == 18
    ensures PiSource(5) == 3 && PiSource(16) == 5 && PiSource(8) == 16 && PiSource(21) == 8 && PiSource(24) == 21
          && PiSource(4) == 24
    ensures PiSource(15) == 4 && PiSource(23) == 15 && PiSource(19) == 23 && PiSource(13) == 19
          && PiSource(12) == 13 && PiSource(2) == 12
    ensures PiSource(20) == 2 && PiSource(14) == 20 && PiSource(22) == 14 && PiSource(9) == 22 && PiSource(6) == 9
          && PiSource(1) == 6
  {
  }

  /** Entry t of the tables is where step t of the walk leads and how far its lane turns, and pi
      moves a lane to the next one of the walk. */
  lemma TablesFollowWalk(t: nat)
    requires t < 24
    ensures PiTable()[t] == WalkLane(t + 1)
    ensures RhoTable()[t] == WalkOffset(t)
    ensures PiSource(WalkLane(t + 1)) == WalkLane(t)
  {
    WalkComputed();
    OffsetsComputed();
    PiSourcesComputed();
    hide WalkOffset, PiSource, Next, WalkLane;
    assert t == 0 || t == 1 || t == 2 || t == 3 || t == 4 || t == 5 || t == 6 || t == 7 || t == 8 || t == 9
         || t == 10 || t == 11 || t == 12 || t == 13 || t == 14 || t == 15 || t == 16 || t == 17 || t == 18
         || t == 19 || t == 20 || t == 21 || t == 22 || t == 23;
  }

  /** The step that writes a lane; 24 for lane 0, which none writes. */
  function Written(lane: nat): nat
    requires lane < 25
  {
    [24, 23, 17, 5, 11, 6, 22, 1, 8, 21, 0, 2, 16, 15, 19, 12, 7, 3, 4, 14, 18, 9, 20, 13, 10][lane]
  }

  /** The walk visits every lane but lane 0 exactly once in 24 steps, and then starts over. */
  lemma WalkVisitsOnce(t: nat)
    requires t < 24
    ensures Written(WalkLane(t)) == if t == 0 then 23 else t - 1
    ensures Written(WalkLane(t + 1)) == t
  {
    WalkComputed();
    hide Next, WalkLane;
    assert t == 0 || t == 1 || t == 2 || t == 3 || t == 4 || t == 5 || t == 6 || t == 7 || t == 8 || t == 9
         || t == 10 || t == 11 || t == 12 || t == 13 || t == 14 || t == 15 || t == 16 || t == 17 || t == 18
         || t == 19 || t == 20 || t == 21 || t == 22 || t == 23;
  }

  lemma EveryLaneWritten(lane: nat)
    requires lane < 25
    ensures Written(lane) < 24 <==> lane != 0
    ensures lane != 0 ==> WalkLane(Written(lane) + 1) == lane
  {
    WalkComputed();
    hide Next, WalkLane;
    assert lane == 0 || lane == 1 || lane == 2 || lane == 3 || lane == 4 || lane == 5 || lane == 6 || lane == 7
         || lane == 8 || lane == 9 || lane == 10 || lane == 11 || lane == 12 || lane == 13 || lane == 14
         || lane == 15 || lane == 16 || lane == 17 || lane == 18 || lane == 19 || lane == 20 || lane == 21
         || lane == 22 || lane == 23 || lane == 24;
  }

  /** The offset of the lane visited at step t is the one of step t. */
  lemma {:induction false} OffsetOfStep(t: nat, u: nat)
    requires u <= t < 24
    ensures OffsetFrom(WalkLane(t), u) == WalkOffset(t)
    decreases t - u
  {
    hide Written, WalkOffset;
    WalkVisitsOnce(t);
    WalkVisitsOnce(u);
    if u < t {
      OffsetOfStep(t, u + 1);
    }
  }

  lemma {:induction false} LaneZeroStays(t: nat)
    requires t <= 24
    ensures OffsetFrom(0, t) == 0
    decreases 24 - t
  {
    if t < 24 {
      WalkVisitsOnce(t);
      EveryLaneWritten(WalkLane(t));
      LaneZeroStays(t + 1);
    }
  }

  /** The composition of rho and pi, lane by lane. */
  function RhoPiLane(a: Lanes, i: nat): bv64
    requires i < 25
  {
    Turn(a[PiSource(i)], Offset(PiSource(i)))
  }

  lemma RhoPiLanes(a: Lanes, b: Lanes)
    requires forall i :: 0 <= i < 25 ==> b[i] == RhoPiLane(a, i)
    ensures b == Pi(Rho(a))
  {
    hide PiSource, Turn, Offset;
  }

  lemma RhoPiAt(a: Lanes, t: nat)
    requires t < 24
    ensures RhoPiLane(a, WalkLane(t + 1)) == Turn(a[WalkLane(t)], WalkOffset(t))
  {
    hide Turn, PiTable, RhoTable, WalkOffset;
    TablesFollowWalk(t);
    OffsetOfStep(t, 0);
  }

  lemma RhoPiLaneZero(a: Lanes)
    ensures RhoPiLane(a, 0) == a[0]
  {
    OffsetOfLaneZero();
    hide Offset, Turn;
    TurnByZero(a[0]);
  }

  lemma OffsetOfLaneZero()
    ensures Offset(0) == 0 && PiSource(0) == 0
  {
    hide WalkOffset, WalkLane;
    LaneZeroStays(0);
  }

  // ----- the round constants

  /** The table RC of the source. */
  function RcEntry(r: nat): bv64
    requires r < 24
  {
    match r
    case 0 => 0x1
    case 1 => 0x8082
    case 2 => 0x800000000000808a
    case 3 => 0x8000000080008000
    case 4 => 0x808b
    case 5 => 0x80000001
    case 6 => 0x8000000080008081
    case 7 => 0x8000000000008009
    case 8 => 0x8a
    case 9 => 0x88
    case 10 => 0x80008009
    case 11 => 0x8000000a
    case 12 => 0x8000808b
    case 13 => 0x800000000000008b
    case 14 => 0x8000000000008089
    case 15 => 0x8000000000008003
    case 16 => 0x8000000000008002
    case 17 => 0x8000000000000080
    case 18 => 0x800a
    case 19 => 0x800000008000000a
    case 20 => 0x8000000080008081
    case 21 => 0x8000000000008080
    case 22 => 0x80000001
    case _ => 0x8000000080008008
  }

  // The register of algorithm 5, clocked through all 24 rounds.

  lemma Clocked0()
    ensures RegisterAt(0) == 1 && RegisterAt(1) == 2 && RegisterAt(2) == 4 && RegisterAt(3) == 8
    ensures RegisterAt(4) == 16 && RegisterAt(5) == 32 && RegisterAt(6) == 64 && RegisterAt(7) == 128
    ensures RegisterAt(8) == 113 && RegisterAt(9) == 226 && RegisterAt(10) == 181 && RegisterAt(11) == 27
    ensures RegisterAt(12) == 54 && RegisterAt(13) == 108 && RegisterAt(14) == 216 && RegisterAt(15) == 193
    ensures RegisterAt(16) == 243 && RegisterAt(17) == 151 && RegisterAt(18) == 95 && RegisterAt(19) == 190
    ensures RegisterAt(20) == 13 && RegisterAt(21) == 26
    ensures Rc(0) && !Rc(1) && !Rc(2) && !Rc(3) && !Rc(4) && !Rc(5) && !Rc(6)
    ensures !Rc(7) && Rc(8) && !Rc(9) && Rc(10) && Rc(11) && !Rc(12) && !Rc(13)
    ensures !Rc(14) && Rc(15) && Rc(16) && Rc(17) && Rc(18) && !Rc(19) && Rc(20)
  {
  }

  lemma Clocked1()
    requires RegisterAt(21) == 26
    ensures RegisterAt(21) == 26 && RegisterAt(22) == 52 && RegisterAt(23) == 104 && RegisterAt(24) == 208
    ensures RegisterAt(25) == 209 && RegisterAt(26) == 211 && RegisterAt(27) == 215 && RegisterAt(28) == 223
    ensures RegisterAt(29) == 207 && RegisterAt(30) == 239 && RegisterAt(31) == 175 && RegisterAt(32) == 47
    ensures RegisterAt(33) == 94 && RegisterAt(34) == 188 && RegisterAt(35) == 9 && RegisterAt(36) == 18
    ensures RegisterAt(37) == 36 && RegisterAt(38) == 72 && RegisterAt(39) == 144 && RegisterAt(40) == 81
    ensures RegisterAt(41) == 162 && RegisterAt(42) == 53
    ensures !Rc(21) && !Rc(22) && !Rc(23) && !Rc(24) && Rc(25) && Rc(26) && Rc(27)
    ensures Rc(28) && Rc(29) && Rc(30) && Rc(31) && Rc(32) && !Rc(33) && !Rc(34)
    ensures Rc(35) && !Rc(36) && !Rc(37) && !Rc(38) && !Rc(39) && Rc(40) && !Rc(41)
  {
  }

  lemma Clocked2()
    requires RegisterAt(42) == 53
    ensures RegisterAt(42) == 53 && RegisterAt(43) == 106 && RegisterAt(44) == 212 && RegisterAt(45) == 217
    ensures RegisterAt(46) == 195 && RegisterAt(47) == 247 && RegisterAt(48) == 159 && RegisterAt(49) == 79
    ensures RegisterAt(50) == 158 && RegisterAt(51) == 77 && RegisterAt(52) == 154 && RegisterAt(53) == 69
    ensures RegisterAt(54) == 138 && RegisterAt(55) == 101 && RegisterAt(56) == 202 && RegisterAt(57) == 229
    ensures RegisterAt(58) == 187 && RegisterAt(59) == 7 && RegisterAt(60) == 14 && RegisterAt(61) == 28
    ensures RegisterAt(62) == 56 && RegisterAt(63) == 112
    ensures Rc(42) && !Rc(43) && !Rc(44) && Rc(45) && Rc(46) && Rc(47) && Rc(48)
    ensures Rc(49) && !Rc(50) && Rc(51) && !Rc(52) && Rc(53) && !Rc(54) && Rc(55)
    ensures !Rc(56) && Rc(57) && Rc(58) && Rc(59) && !Rc(60) && !Rc(61) && !Rc(62)
  {
  }

  lemma Clocked3()
    requires RegisterAt(63) == 112
    ensures RegisterAt(63) == 112 && RegisterAt(64) == 224 && RegisterAt(65) == 177 && RegisterAt(66) == 19
    ensures RegisterAt(67) == 38 && RegisterAt(68) == 76 && RegisterAt(69) == 152 && RegisterAt(70) == 65
    ensures RegisterAt(71) == 130 && RegisterAt(72) == 117 && RegisterAt(73) == 234 && RegisterAt(74) == 165
    ensures RegisterAt(75) == 59 && RegisterAt(76) == 118 && RegisterAt(77) == 236 && RegisterAt(78) == 169
    ensures RegisterAt(79) == 35 && RegisterAt(80) == 70 && RegisterAt(81) == 140 && RegisterAt(82) == 105
    ensures RegisterAt(83) == 210 && RegisterAt(84) == 213
    ensures !Rc(63) && !Rc(64) && Rc(65) && Rc(66) && !Rc(67) && !Rc(68) && !Rc(69)
    ensures Rc(70) && !Rc(71) && Rc(72) && !Rc(73) && Rc(74) && Rc(75) && !Rc(76)
    ensures !Rc(77) && Rc(78) && Rc(79) && !Rc(80) && !Rc(81) && Rc(82) && !Rc(83)
  {
  }

  lemma Clocked4()
    requires RegisterAt(84) == 213
    ensures RegisterAt(84) == 213 && RegisterAt(85) == 219 && RegisterAt(86) == 199 && RegisterAt(87) == 255
    ensures RegisterAt(88) == 143 && RegisterAt(89) == 111 && RegisterAt(90) == 222 && RegisterAt(91) == 205
    ensures RegisterAt(92) == 235 && RegisterAt(93) == 167 && RegisterAt(94) == 63 && RegisterAt(95) == 126
    ensures RegisterAt(96) == 252 && RegisterAt(97) == 137 && RegisterAt(98) == 99 && RegisterAt(99) == 198
    ensures RegisterAt(100) == 253 && RegisterAt(101) == 139 && RegisterAt(102) == 103 && RegisterAt(103) == 206
    ensures RegisterAt(104) == 237 && RegisterAt(105) == 171
    ensures Rc(84) && Rc(85) && Rc(86) && Rc(87) && Rc(88) && Rc(89) && !Rc(90)
    ensures Rc(91) && Rc(92) && Rc(93) && Rc(94) && !Rc(95) && !Rc(96) && Rc(97)
    ensures Rc(98) && !Rc(99) && Rc(100) && Rc(101) && Rc(102) && !Rc(103) && Rc(104)
  {
  }

  lemma Clocked5()
    requires RegisterAt(105) == 171
    ensures RegisterAt(105) == 171 && RegisterAt(106) == 39 && RegisterAt(107) == 78 && RegisterAt(108) == 156
    ensures RegisterAt(109) == 73 && RegisterAt(110) == 146 && RegisterAt(111) == 85 && RegisterAt(112) == 170
    ensures RegisterAt(113) == 37 && RegisterAt(114) == 74 && RegisterAt(115) == 148 && RegisterAt(116) == 89
    ensures RegisterAt(117) == 178 && RegisterAt(118) == 21 && RegisterAt(119) == 42 && RegisterAt(120) == 84
    ensures RegisterAt(121) == 168 && RegisterAt(122) == 33 && RegisterAt(123) == 66 && RegisterAt(124) == 132
    ensures RegisterAt(125) == 121 && RegisterAt(126) == 242
    ensures Rc(105) && Rc(106) && !Rc(107) && !Rc(108) && Rc(109) && !Rc(110) && Rc(111)
    ensures !Rc(112) && Rc(113) && !Rc(114) && !Rc(115) && Rc(116) && !Rc(117) && Rc(118)
    ensures !Rc(119) && !Rc(120) && !Rc(121) && Rc(122) && !Rc(123) && !Rc(124) && Rc(125)
  {
  }

  lemma Clocked6()
    requires RegisterAt(126) == 242
    ensures RegisterAt(126) == 242 && RegisterAt(127) == 149 && RegisterAt(128) == 91 && RegisterAt(129) == 182
    ensures RegisterAt(130) == 29 && RegisterAt(131) == 58 && RegisterAt(132) == 116 && RegisterAt(133) == 232
    ensures RegisterAt(134) == 161 && RegisterAt(135) == 51 && RegisterAt(136) == 102 && RegisterAt(137) == 204
    ensures RegisterAt(138) == 233 && RegisterAt(139) == 163 && RegisterAt(140) == 55 && RegisterAt(141) == 110
    ensures RegisterAt(142) == 220 && RegisterAt(143) == 201 && RegisterAt(144) == 227 && RegisterAt(145) == 183
    ensures RegisterAt(146) == 31 && RegisterAt(147) == 62
    ensures !Rc(126) && Rc(127) && Rc(128) && !Rc(129) && Rc(130) && !Rc(131) && !Rc(132)
    ensures !Rc(133) && Rc(134) && Rc(135) && !Rc(136) && !Rc(137) && Rc(138) && Rc(139)
    ensures Rc(140) && !Rc(141) && !Rc(142) && Rc(143) && Rc(144) && Rc(145) && Rc(146)
  {
  }

  lemma Clocked7()
    requires RegisterAt(147) == 62
    ensures RegisterAt(147) == 62 && RegisterAt(148) == 124 && RegisterAt(149) == 248 && RegisterAt(150) == 129
    ensures RegisterAt(151) == 115 && RegisterAt(152) == 230 && RegisterAt(153) == 189 && RegisterAt(154) == 11
    ensures RegisterAt(155) == 22 && RegisterAt(156) == 44 && RegisterAt(157) == 88 && RegisterAt(158) == 176
    ensures RegisterAt(159) == 17 && RegisterAt(160) == 34 && RegisterAt(161) == 68 && RegisterAt(162) == 136
    ensures RegisterAt(163) == 97 && RegisterAt(164) == 194 && RegisterAt(165) == 245 && RegisterAt(166) == 155
    ensures RegisterAt(167) == 71 && RegisterAt(168) == 142
    ensures !Rc(147) && !Rc(148) && !Rc(149) && Rc(150) && Rc(151) && !Rc(152) && Rc(153)
    ensures Rc(154) && !Rc(155) && !Rc(156) && !Rc(157) && !Rc(158) && Rc(159) && !Rc(160)
    ensures !Rc(161) && !Rc(162) && Rc(163) && !Rc(164) && Rc(165) && Rc(166) && Rc(167)
  {
  }

  lemma ConstantsComputed()
    ensures ConstantOf(true, false, false, false, false, false, false) == 0x1
    ensures ConstantOf(false, true, false, true, true, false, false) == 0x8082
    ensures ConstantOf(false, true, true, true, true, false, true) == 0x800000000000808a
    ensures ConstantOf(false, false, false, false, true, true, true) == 0x8000000080008000
    ensures ConstantOf(true, true, true, true, true, false, false) == 0x808b
    ensures ConstantOf(true, false, false, false, false, true, false) == 0x80000001
    ensures ConstantOf(true, false, false, true, true, true, true) == 0x8000000080008081
    ensures ConstantOf(true, false, true, false, true, false, true) == 0x8000000000008009
    ensures ConstantOf(false, true, true, true, false, false, false) == 0x8a
    ensures ConstantOf(false, false, true, true, false, false, false) == 0x88
    ensures ConstantOf(true, false, true, false, true, true, false) == 0x80008009
    ensures ConstantOf(false, true, true, false, false, true, false) == 0x8000000a
    ensures ConstantOf(true, true, true, true, true, true, false) == 0x8000808b
    ensures ConstantOf(true, true, true, true, false, false, true) == 0x800000000000008b
    ensures ConstantOf(true, false, true, true, true, false, true) == 0x8000000000008089
    ensures ConstantOf(true, true, false, false, true, false, true) == 0x8000000000008003
    ensures ConstantOf(false, true, false, false, true, false, true) == 0x8000000000008002
    ensures ConstantOf(false, false, false, true, false, false, true) == 0x8000000000000080
    ensures ConstantOf(false, true, true, false, true, false, false) == 0x800a
    ensures ConstantOf(false, true, true, false, false, true, true) == 0x800000008000000a
    ensures ConstantOf(true, false, false, true, true, true, true) == 0x8000000080008081
    ensures ConstantOf(false, false, false, true, true, false, true) == 0x8000000000008080
    ensures ConstantOf(true, false, false, false, false, true, false) == 0x80000001
    ensures ConstantOf(false, false, true, false, true, true, true) == 0x8000000080008008
  {
  }

  lemma RcEntries0()
    ensures RcEntry(0) == 0x1 && RcEntry(1) == 0x8082 && RcEntry(2) == 0x800000000000808a
    ensures RcEntry(3) == 0x8000000080008000 && RcEntry(4) == 0x808b && RcEntry(5) == 0x80000001
    ensures RcEntry(6) == 0x8000000080008081 && RcEntry(7) == 0x8000000000008009
  {
  }

  lemma RcEntries1()
    ensures RcEntry(8) == 0x8a && RcEntry(9) == 0x88 && RcEntry(10) == 0x80008009
    ensures RcEntry(11) == 0x8000000a && RcEntry(12) == 0x8000808b && RcEntry(13) == 0x800000000000008b
    ensures RcEntry(14) == 0x8000000000008089 && RcEntry(15) == 0x8000000000008003
  {
  }

  lemma RcEntries2()
    ensures RcEntry(16) == 0x8000000000008002 && RcEntry(17) == 0x8000000000000080 && RcEntry(18) == 0x800a
    ensures RcEntry(19) == 0x800000008000000a && RcEntry(20) == 0x8000000080008081 && RcEntry(21) == 0x8000000000008080
    ensures RcEntry(22) == 0x80000001 && RcEntry(23) == 0x8000000080008008
  {
  }

  /** The table of the source holds the constants that the shift register of section 3.2.5 produces. */
  lemma RcIsComputed(r: nat)
    requires r < 24
    ensures RcEntry(r) == RoundConstant(r)
  {
    hide Rc, RegisterAt, RcEntry, ConstantOf;
    Clocked0();
    Clocked1();
    Clocked2();
    Clocked3();
    Clocked4();
    Clocked5();
    Clocked6();
    Clocked7();
    ConstantsComputed();
    RcEntries0();
    RcEntries1();
    RcEntries2();
    assert r == 0 || r == 1 || r == 2 || r == 3 || r == 4 || r == 5 || r == 6 || r == 7 || r == 8 || r == 9
         || r == 10 || r == 11 || r == 12 || r == 13 || r == 14 || r == 15 || r == 16 || r == 17 || r == 18
         || r == 19 || r == 20 || r == 21 || r == 22 || r == 23;
  }

  // ----- the steps in place

  lemma WalkStarts()
    ensures WalkLane(0) == 1
  {
  }

  /** The walk with one temporary: each lane is saved before the turned previous one replaces it. */
  method RhoPiInPlace(a: array<bv64>)
    requires a.Length == 25
    modifies a
    ensures a[..] == Pi(Rho(old(a[..])))
  {
    hide RhoPiLane, Turn, Pi, Rho, WalkLane, WalkOffset, PiTable, RhoTable, Written;
    ghost var before: Lanes := a[..];
    var t := a[1];
    assert t == before[WalkLane(0)] by {
      WalkStarts();
    }
    forall i | 0 <= i < 25 ensures Written(i) < 24 ==> WalkLane(Written(i) + 1) == i {
      EveryLaneWritten(i);
    }
    for x := 0 to 24
      invariant t == before[WalkLane(x)]
      invariant forall i :: 0 <= i < 25 ==> a[i] == if Written(i) < x then RhoPiLane(before, i) else before[i]
    {
      TablesFollowWalk(x);
      WalkVisitsOnce(x);
      RhoPiAt(before, x);
      var b := a[PiTable()[x]];
      a[PiTable()[x]] := Turn(t, RhoTable()[x]);
      t := b;
    }
    RhoPiLaneZero(before);
    forall i | 0 <= i < 25 ensures a[i] == RhoPiLane(before, i) {
      EveryLaneWritten(i);
    }
    RhoPiLanes(before, a[..]);
  }

  // ----- theta

  /** The sum of the first n lanes of a column. */
  function PartialColumn(a: Lanes, x: nat, n: nat): bv64
    requires x < 5 && n <= 5
  {
    if n == 0 then 0 else Xor(PartialColumn(a, x, n - 1), a[x + 5 * (n - 1)])
  }

  lemma WholeColumn(a: Lanes, x: nat)
    requires x < 5
    ensures PartialColumn(a, x, 5) == Column(a, x)
  {
    XorZero(a[x]);
    hide Xor;
    assert PartialColumn(a, x, 1) == a[x];
    assert PartialColumn(a, x, 3) == Xor(Xor(a[x], a[x + 5]), a[x + 10]);
  }

  method ColumnSums(a: array<bv64>, b: array<bv64>)
    requires a.Length == 25 && b.Length == 5 && a != b
    modifies b
    ensures forall x :: 0 <= x < 5 ==> b[x] == Column(a[..], x)
  {
    hide Column, Xor;
    for x := 0 to 5
      invariant forall k :: 0 <= k < x ==> b[k] == Column(a[..], k)
    {
      b[x] := 0;
      for n := 0 to 5
        invariant forall k :: 0 <= k < x ==> b[k] == Column(a[..], k)
        invariant b[x] == PartialColumn(a[..], x, n)
      {
        b[x] := Xor(b[x], a[x + 5 * n]);
      }
      WholeColumn(a[..], x);
    }
  }

  lemma ThetaLanes(a: Lanes, b: Lanes)
    requires forall i :: 0 <= i < 25 ==> b[i] == Xor(a[i], ThetaEffect(a, X(i)))
    ensures b == Theta(a)
  {
    hide ThetaEffect, Xor;
  }

  method ThetaInPlace(a: array<bv64>)
    requires a.Length == 25
    modifies a
    ensures a[..] == Theta(old(a[..]))
  {
    hide Column, Turn, Xor, X, Y;
    ghost var before: Lanes := a[..];
    var b := new bv64[5];
    ColumnSums(a, b);
    for x := 0 to 5
      invariant forall k :: 0 <= k < 5 ==> b[k] == Column(before, k)
      invariant forall i :: 0 <= i < 25 ==>
        a[i] == if X(i) < x then Xor(before[i], ThetaEffect(before, X(i))) else before[i]
    {
      for n := 0 to 5
        invariant forall k :: 0 <= k < 5 ==> b[k] == Column(before, k)
        invariant forall i :: 0 <= i < 25 ==>
          a[i] == if X(i) < x || (X(i) == x && Y(i) < n) then Xor(before[i], ThetaEffect(before, X(i))) else before[i]
      {
        AtXY(x, n);
        a[5 * n + x] := Xor(a[5 * n + x], Xor(b[Plus(x, 4)], Turn(b[Plus(x, 1)], 1)));
      }
    }
    ThetaLanes(before, a[..]);
  }

  lemma AtXY(x: nat, y: nat)
    requires x < 5
    ensures X(5 * y + x) == x && Y(5 * y + x) == y
  {
  }

  // ----- chi

  lemma ChiLanes(a: Lanes, b: Lanes)
    requires forall i :: 0 <= i < 25 ==> b[i] == ChiLane(a, i)
    ensures b == Chi(a)
  {
    hide ChiLane;
  }

  lemma ChiAt(a: Lanes, i: nat, x: nat, row: nat)
    requires i < 25 && x == X(i) && row == 5 * Y(i)
    ensures ChiLane(a, i) == ChiBits(a[i], a[row + Plus(x, 1)], a[row + Plus(x, 2)])
  {
    hide ChiBits;
  }

  method CopyRow(a: array<bv64>, b: array<bv64>, row: nat)
    requires a.Length == 25 && b.Length == 5 && a != b && row <= 20
    modifies b
    ensures forall x :: 0 <= x < 5 ==> b[x] == a[row + x]
  {
    for x := 0 to 5
      invariant forall k :: 0 <= k < x ==> b[k] == a[row + k]
    {
      b[x] := a[row + x];
    }
  }

  /** One row, which starts at lane 5 n: it is copied before its lanes are overwritten. */
  method ChiRowInPlace(a: array<bv64>, b: array<bv64>, n: nat)
    requires a.Length == 25 && b.Length == 5 && a != b && n < 5
    modifies a, b
    ensures forall i :: 0 <= i < 25 ==>
      a[i] == if 5 * n <= i < 5 * n + 5 then ChiLane(old(a[..]), i) else old(a[i])
  {
    hide ChiBits, ChiLane, X, Y, Plus;
    ghost var before: Lanes := a[..];
    CopyRow(a, b, 5 * n);
    for x := 0 to 5
      invariant forall k :: 0 <= k < 5 ==> b[k] == before[5 * n + k]
      invariant forall i :: 0 <= i < 25 ==>
        a[i] == if 5 * n <= i < 5 * n + x then ChiLane(before, i) else before[i]
    {
      AtXY(x, n);
      ChiAt(before, 5 * n + x, x, 5 * n);
      a[5 * n + x] := ChiBits(b[x], b[Plus(x, 1)], b[Plus(x, 2)]);
    }
  }

  /** A lane of chi depends on its own row only. */
  lemma ChiOfRow(a: Lanes, c: Lanes, n: nat)
    requires n < 5 && forall i :: 5 * n <= i < 5 * n + 5 ==> a[i] == c[i]
    ensures forall i :: 5 * n <= i < 5 * n + 5 ==> ChiLane(a, i) == ChiLane(c, i)
  {
    hide ChiBits, X, Y, ChiLane;
    forall i | 5 * n <= i < 5 * n + 5 ensures ChiLane(a, i) == ChiLane(c, i) {
      var x := i - 5 * n;
      AtXY(x, n);
      ChiAt(a, i, x, 5 * n);
      ChiAt(c, i, x, 5 * n);
    }
  }

  /** Chi row by row. */
  method ChiInPlace(a: array<bv64>)
    requires a.Length == 25
    modifies a
    ensures a[..] == Chi(old(a[..]))
  {
    hide Chi, ChiLane, X, Y;
    ghost var before: Lanes := a[..];
    var b := new bv64[5];
    for n := 0 to 5
      invariant forall i :: 0 <= i < 25 ==> a[i] == if i < 5 * n then ChiLane(before, i) else before[i]
    {
      ChiOfRow(a[..], before, n);
      ChiRowInPlace(a, b, n);
    }
    ChiLanes(before, a[..]);
  }

  // ----- the permutation

  /** keccakf on 25 lanes: every in-place round is theta, rho, pi, chi and iota of section 3.3. */
  method KeccakfInPlace(a: array<bv64>)
    requires a.Length == 25
    modifies a
    ensures a[..] == KeccakF(old(a[..]))
  {
    hide Theta, Rho, Pi, Chi, RoundConstant, RcEntry, Xor;
    for i := 0 to 24
      invariant a[..] == Rounds(old(a[..]), i)
    {
      ThetaInPlace(a);
      RhoPiInPlace(a);
      ChiInPlace(a);
      RcIsComputed(i);
      ghost var mixed: Lanes := a[..];
      a[0] := Xor(a[0], RcEntry(i));
      assert a[..] == Iota(mixed, i);
    }
  }
}
