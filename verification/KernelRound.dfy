/** One unrolled round of the kernel's KECCAK-f[1600] (libethash-cl/CLMiner_kernel.cl), against FIPS 202. */
module KernelRound {
  import opened Fips202
  import opened Keccak
  import opened KernelLanes
  import opened KernelRotations

  type Pairs = s: seq<U2> | |s| == 25 witness seq(25, _ => U2(0, 0))

  /** The 64-bit lanes that the pairs stand for. */
  function JoinAll(s: Pairs): (l: Lanes)
    ensures forall i :: 0 <= i < 25 ==> l[i] == Join(s[i])
  {
    seq(25, i requires 0 <= i < 25 => Join(s[i]))
  }

  // ----- theta

  function Column2(s: Pairs, x: nat): U2
    requires x < 5
  {
    Xor2(Xor2(Xor2(Xor2(s[x], s[x + 5]), s[x + 10]), s[x + 15]), s[x + 20])
  }

  function Effect2(s: Pairs, x: nat): U2
    requires x < 5
  {
    Xor2(Column2(s, Plus(x, 4)), Rol2(Column2(s, Plus(x, 1)), 1))
  }

  lemma JoinColumn(s: Pairs, x: nat)
    requires x < 5
    ensures Join(Column2(s, x)) == Column(JoinAll(s), x)
  {
    hide Join, Xor, Xor2;
    var s1 := Xor2(s[x], s[x + 5]);
    var s2 := Xor2(s1, s[x + 10]);
    var s3 := Xor2(s2, s[x + 15]);
    JoinXor(s[x], s[x + 5]);
    JoinXor(s1, s[x + 10]);
    JoinXor(s2, s[x + 15]);
    JoinXor(s3, s[x + 20]);
  }

  lemma JoinEffect(s: Pairs, x: nat)
    requires x < 5
    ensures Join(Effect2(s, x)) == ThetaEffect(JoinAll(s), x)
  {
    hide Join, Xor, Xor2, Rol, Rol2, Column2, Column, Amount, JoinAll;
    var near, far := Column2(s, Plus(x, 4)), Column2(s, Plus(x, 1));
    JoinColumn(s, Plus(x, 4));
    JoinColumn(s, Plus(x, 1));
    Rol2Rotates(far, 1);
    AmountsComputed();
    JoinXor(near, Rol2(far, 1));
  }

  /** Adding u to the five lanes of a column, one after another. */
  method AddToColumn(a: array<U2>, x: nat, u: U2)
    requires a.Length == 25 && x < 5
    modifies a
    ensures forall i :: 0 <= i < 25 ==> a[i] == if X(i) == x then Xor2(old(a[i]), u) else old(a[i])
  {
    hide Xor2;
    a[x] := Xor2(a[x], u);
    a[x + 5] := Xor2(a[x + 5], u);
    a[x + 10] := Xor2(a[x + 10], u);
    a[x + 15] := Xor2(a[x + 15], u);
    a[x + 20] := Xor2(a[x + 20], u);
  }

  method ColumnsKernel(a: array<U2>, t: array<U2>)
    requires a.Length == 25 && t.Length == 25 && a != t
    modifies t
    ensures t[0] == Column2(a[..], 0) && t[1] == Column2(a[..], 1) && t[2] == Column2(a[..], 2)
    ensures t[3] == Column2(a[..], 3) && t[4] == Column2(a[..], 4)
  {
    hide Xor2;
    t[0] := Xor2(Xor2(Xor2(Xor2(a[0], a[5]), a[10]), a[15]), a[20]);
    t[1] := Xor2(Xor2(Xor2(Xor2(a[1], a[6]), a[11]), a[16]), a[21]);
    t[2] := Xor2(Xor2(Xor2(Xor2(a[2], a[7]), a[12]), a[17]), a[22]);
    t[3] := Xor2(Xor2(Xor2(Xor2(a[3], a[8]), a[13]), a[18]), a[23]);
    t[4] := Xor2(Xor2(Xor2(Xor2(a[4], a[9]), a[14]), a[19]), a[24]);
  }

  method ThetaKernel(a: array<U2>, t: array<U2>)
    requires a.Length == 25 && t.Length == 25 && a != t
    modifies a, t
    ensures JoinAll(a[..]) == Theta(JoinAll(old(a[..])))
  {
    hide Xor2, Rol2, JoinAll, Theta, X, Column2;
    ghost var s: Pairs := a[..];
    ColumnsKernel(a, t);
    AddToColumn(a, 0, Xor2(t[4], Rol2(t[1], 1)));
    AddToColumn(a, 1, Xor2(t[0], Rol2(t[2], 1)));
    AddToColumn(a, 2, Xor2(t[1], Rol2(t[3], 1)));
    AddToColumn(a, 3, Xor2(t[2], Rol2(t[4], 1)));
    AddToColumn(a, 4, Xor2(t[3], Rol2(t[0], 1)));
    ThetaJoined(s, a[..]);
  }

  lemma ThetaJoined(s: Pairs, s': Pairs)
    requires forall i :: 0 <= i < 25 ==> s'[i] == Xor2(s[i], Effect2(s, X(i)))
    ensures JoinAll(s') == Theta(JoinAll(s))
  {
    hide Join, Xor, Xor2, Effect2, ThetaEffect, X;
    forall i | 0 <= i < 25 ensures JoinAll(s')[i] == Theta(JoinAll(s))[i] {
      JoinXor(s[i], Effect2(s, X(i)));
      JoinEffect(s, X(i));
    }
  }

  // ----- rho and pi

  /** The 25 moves, unrolled. */
  method RhoPiKernel(a: array<U2>, t: array<U2>)
    requires a.Length == 25 && t.Length == 25 && a != t
    modifies t
    ensures Moved(a[..], t[..])
  {
    hide Rol2;
    MoveRow0(a, t);
    MoveRow1(a, t);
    MoveRow2(a, t);
    MoveRow3(a, t);
    MoveRow4(a, t);
  }

  method MoveRow0(a: array<U2>, t: array<U2>)
    requires a.Length == 25 && t.Length == 25 && a != t
    modifies t
    ensures MovedRow0(a[..], t[..])
    ensures forall i :: 0 <= i < 25 && i != 0 && i != 10 && i != 20 && i != 5 && i != 15 ==> t[i] == old(t[i])
  {
    hide Rol2;
    t[0] := a[0];
    t[10] := Rol2(a[1], 1);
    t[20] := Rol2(a[2], 62);
    t[5] := Rol2(a[3], 28);
    t[15] := Rol2(a[4], 27);
  }

  ghost predicate MovedRow0(s: Pairs, t: Pairs) {
    t[0] == s[0] && t[10] == Rol2(s[1], 1) && t[20] == Rol2(s[2], 62) && t[5] == Rol2(s[3], 28)
    && t[15] == Rol2(s[4], 27)
  }

  method MoveRow1(a: array<U2>, t: array<U2>)
    requires a.Length == 25 && t.Length == 25 && a != t
    modifies t
    ensures MovedRow1(a[..], t[..])
    ensures forall i :: 0 <= i < 25 && i != 16 && i != 1 && i != 11 && i != 21 && i != 6 ==> t[i] == old(t[i])
  {
    hide Rol2;
    t[16] := Rol2(a[5], 36);
    t[1] := Rol2(a[6], 44);
    t[11] := Rol2(a[7], 6);
    t[21] := Rol2(a[8], 55);
    t[6] := Rol2(a[9], 20);
  }

  ghost predicate MovedRow1(s: Pairs, t: Pairs) {
    t[16] == Rol2(s[5], 36) && t[1] == Rol2(s[6], 44) && t[11] == Rol2(s[7], 6) && t[21] == Rol2(s[8], 55)
    && t[6] == Rol2(s[9], 20)
  }

  method MoveRow2(a: array<U2>, t: array<U2>)
    requires a.Length == 25 && t.Length == 25 && a != t
    modifies t
    ensures MovedRow2(a[..], t[..])
    ensures forall i :: 0 <= i < 25 && i != 7 && i != 17 && i != 2 && i != 12 && i != 22 ==> t[i] == old(t[i])
  {
    hide Rol2;
    t[7] := Rol2(a[10], 3);
    t[17] := Rol2(a[11], 10);
    t[2] := Rol2(a[12], 43);
    t[12] := Rol2(a[13], 25);
    t[22] := Rol2(a[14], 39);
  }

  ghost predicate MovedRow2(s: Pairs, t: Pairs) {
    t[7] == Rol2(s[10], 3) && t[17] == Rol2(s[11], 10) && t[2] == Rol2(s[12], 43) && t[12] == Rol2(s[13], 25)
    && t[22] == Rol2(s[14], 39)
  }

  method MoveRow3(a: array<U2>, t: array<U2>)
    requires a.Length == 25 && t.Length == 25 && a != t
    modifies t
    ensures MovedRow3(a[..], t[..])
    ensures forall i :: 0 <= i < 25 && i != 23 && i != 8 && i != 18 && i != 3 && i != 13 ==> t[i] == old(t[i])
  {
    hide Rol2;
    t[23] := Rol2(a[15], 41);
    t[8] := Rol2(a[16], 45);
    t[18] := Rol2(a[17], 15);
    t[3] := Rol2(a[18], 21);
    t[13] := Rol2(a[19], 8);
  }

  ghost predicate MovedRow3(s: Pairs, t: Pairs) {
    t[23] == Rol2(s[15], 41) && t[8] == Rol2(s[16], 45) && t[18] == Rol2(s[17], 15) && t[3] == Rol2(s[18], 21)
    && t[13] == Rol2(s[19], 8)
  }

  method MoveRow4(a: array<U2>, t: array<U2>)
    requires a.Length == 25 && t.Length == 25 && a != t
    modifies t
    ensures MovedRow4(a[..], t[..])
    ensures forall i :: 0 <= i < 25 && i != 14 && i != 24 && i != 9 && i != 19 && i != 4 ==> t[i] == old(t[i])
  {
    hide Rol2;
    t[14] := Rol2(a[20], 18);
    t[24] := Rol2(a[21], 2);
    t[9] := Rol2(a[22], 61);
    t[19] := Rol2(a[23], 56);
    t[4] := Rol2(a[24], 14);
  }

  ghost predicate MovedRow4(s: Pairs, t: Pairs) {
    t[14] == Rol2(s[20], 18) && t[24] == Rol2(s[21], 2) && t[9] == Rol2(s[22], 61) && t[19] == Rol2(s[23], 56)
    && t[4] == Rol2(s[24], 14)
  }

  ghost predicate Moved(s: Pairs, t: Pairs) {
    MovedRow0(s, t) && MovedRow1(s, t) && MovedRow2(s, t) && MovedRow3(s, t) && MovedRow4(s, t)
  }

  /** Step u of the walk, in either representation. */
  lemma MovedAt(s: Pairs, v: U2, u: nat)
    requires u < 24 && Join(v) == Rol(Join(s[WalkLane(u)]), Amount(WalkOffset(u)))
    ensures Join(v) == RhoPiLane(JoinAll(s), WalkLane(u + 1))
  {
    hide Join, Rol, Amount, RhoPiLane, WalkOffset, WalkLane;
    RhoPiAt(JoinAll(s), u);
  }

  lemma Moved0(s: Pairs, t: Pairs)
    requires Moved(s, t)
    ensures Join(t[10]) == RhoPiLane(JoinAll(s), 10)
    ensures Join(t[7]) == RhoPiLane(JoinAll(s), 7)
    ensures Join(t[11]) == RhoPiLane(JoinAll(s), 11)
    ensures Join(t[17]) == RhoPiLane(JoinAll(s), 17)
  {
    hide Join, Rol, Rol2, Amount, RhoPiLane, JoinAll, WalkLane, WalkOffset;
    WalkComputed();
    OffsetsComputed();
    AmountsComputed();
    Rol2Rotates(s[1], 1);
    MovedAt(s, t[10], 0);
    Rol2Rotates(s[10], 3);
    MovedAt(s, t[7], 1);
    Rol2Rotates(s[7], 6);
    MovedAt(s, t[11], 2);
    Rol2Rotates(s[11], 10);
    MovedAt(s, t[17], 3);
  }

  lemma Moved1(s: Pairs, t: Pairs)
    requires Moved(s, t)
    ensures Join(t[18]) == RhoPiLane(JoinAll(s), 18)
    ensures Join(t[3]) == RhoPiLane(JoinAll(s), 3)
    ensures Join(t[5]) == RhoPiLane(JoinAll(s), 5)
    ensures Join(t[16]) == RhoPiLane(JoinAll(s), 16)
  {
    hide Join, Rol, Rol2, Amount, RhoPiLane, JoinAll, WalkLane, WalkOffset;
    WalkComputed();
    OffsetsComputed();
    AmountsComputed();
    Rol2Rotates(s[17], 15);
    MovedAt(s, t[18], 4);
    Rol2Rotates(s[18], 21);
    MovedAt(s, t[3], 5);
    Rol2Rotates(s[3], 28);
    MovedAt(s, t[5], 6);
    Rol2Rotates(s[5], 36);
    MovedAt(s, t[16], 7);
  }

  lemma Moved2(s: Pairs, t: Pairs)
    requires Moved(s, t)
    ensures Join(t[8]) == RhoPiLane(JoinAll(s), 8)
    ensures Join(t[21]) == RhoPiLane(JoinAll(s), 21)
    ensures Join(t[24]) == RhoPiLane(JoinAll(s), 24)
    ensures Join(t[4]) == RhoPiLane(JoinAll(s), 4)
  {
    hide Join, Rol, Rol2, Amount, RhoPiLane, JoinAll, WalkLane, WalkOffset;
    WalkComputed();
    OffsetsComputed();
    AmountsComputed();
    Rol2Rotates(s[16], 45);
    MovedAt(s, t[8], 8);
    Rol2Rotates(s[8], 55);
    MovedAt(s, t[21], 9);
    Rol2Rotates(s[21], 2);
    MovedAt(s, t[24], 10);
    Rol2Rotates(s[24], 14);
    MovedAt(s, t[4], 11);
  }

  lemma Moved3(s: Pairs, t: Pairs)
    requires Moved(s, t)
    ensures Join(t[15]) == RhoPiLane(JoinAll(s), 15)
    ensures Join(t[23]) == RhoPiLane(JoinAll(s), 23)
    ensures Join(t[19]) == RhoPiLane(JoinAll(s), 19)
    ensures Join(t[13]) == RhoPiLane(JoinAll(s), 13)
  {
    hide Join, Rol, Rol2, Amount, RhoPiLane, JoinAll, WalkLane, WalkOffset;
    WalkComputed();
    OffsetsComputed();
    AmountsComputed();
    Rol2Rotates(s[4], 27);
    MovedAt(s, t[15], 12);
    Rol2Rotates(s[15], 41);
    MovedAt(s, t[23], 13);
    Rol2Rotates(s[23], 56);
    MovedAt(s, t[19], 14);
    Rol2Rotates(s[19], 8);
    MovedAt(s, t[13], 15);
  }

  lemma Moved4(s: Pairs, t: Pairs)
    requires Moved(s, t)
    ensures Join(t[12]) == RhoPiLane(JoinAll(s), 12)
    ensures Join(t[2]) == RhoPiLane(JoinAll(s), 2)
    ensures Join(t[20]) == RhoPiLane(JoinAll(s), 20)
    ensures Join(t[14]) == RhoPiLane(JoinAll(s), 14)
  {
    hide Join, Rol, Rol2, Amount, RhoPiLane, JoinAll, WalkLane, WalkOffset;
    WalkComputed();
    OffsetsComputed();
    AmountsComputed();
    Rol2Rotates(s[13], 25);
    MovedAt(s, t[12], 16);
    Rol2Rotates(s[12], 43);
    MovedAt(s, t[2], 17);
    Rol2Rotates(s[2], 62);
    MovedAt(s, t[20], 18);
    Rol2Rotates(s[20], 18);
    MovedAt(s, t[14], 19);
  }

  lemma Moved5(s: Pairs, t: Pairs)
    requires Moved(s, t)
    ensures Join(t[22]) == RhoPiLane(JoinAll(s), 22)
    ensures Join(t[9]) == RhoPiLane(JoinAll(s), 9)
    ensures Join(t[6]) == RhoPiLane(JoinAll(s), 6)
    ensures Join(t[1]) == RhoPiLane(JoinAll(s), 1)
  {
    hide Join, Rol, Rol2, Amount, RhoPiLane, JoinAll, WalkLane, WalkOffset;
    WalkComputed();
    OffsetsComputed();
    AmountsComputed();
    Rol2Rotates(s[14], 39);
    MovedAt(s, t[22], 20);
    Rol2Rotates(s[22], 61);
    MovedAt(s, t[9], 21);
    Rol2Rotates(s[9], 20);
    MovedAt(s, t[6], 22);
    Rol2Rotates(s[6], 44);
    MovedAt(s, t[1], 23);
  }

  lemma MovedZero(s: Pairs, t: Pairs)
    requires Moved(s, t)
    ensures t[0] == s[0]
  {
    hide Rol2;
  }

  lemma MovedLane(s: Pairs, t: Pairs, i: nat)
    requires Moved(s, t) && i < 25
    ensures Join(t[i]) == RhoPiLane(JoinAll(s), i)
  {
    hide Join, Moved, MovedRow0, MovedRow1, MovedRow2, MovedRow3, MovedRow4, RhoPiLane;
    if i == 0 {
      MovedZero(s, t);
      RhoPiLaneZero(JoinAll(s));
    } else {
      Moved0(s, t);
      Moved1(s, t);
      Moved2(s, t);
      Moved3(s, t);
      Moved4(s, t);
      Moved5(s, t);
      assert i == 1 || i == 2 || i == 3 || i == 4 || i == 5 || i == 6 || i == 7 || i == 8 || i == 9 || i == 10
           || i == 11 || i == 12 || i == 13 || i == 14 || i == 15 || i == 16 || i == 17 || i == 18 || i == 19
           || i == 20 || i == 21 || i == 22 || i == 23 || i == 24;
    }
  }

  lemma RhoPiJoined(s: Pairs, t: Pairs)
    requires Moved(s, t)
    ensures JoinAll(t) == Pi(Rho(JoinAll(s)))
  {
    hide Join, Moved, RhoPiLane, Pi, Rho;
    forall i | 0 <= i < 25 ensures JoinAll(t)[i] == RhoPiLane(JoinAll(s), i) {
      MovedLane(s, t, i);
    }
    RhoPiLanes(JoinAll(s), JoinAll(t));
  }

  // ----- chi

  /** Lane x of the row that starts at lane n. */
  function Chi2(t: Pairs, n: nat, x: nat): U2
    requires n <= 20 && x < 5
  {
    BitSelect2(Xor2(t[n + x], t[n + Plus(x, 2)]), t[n + x], t[n + Plus(x, 1)])
  }

  /** chi: one row of five lanes starting at lane n. */
  method ChiRow(a: array<U2>, n: nat, t: array<U2>)
    requires a.Length == 25 && t.Length == 25 && a != t && n <= 20
    modifies a
    ensures forall x :: 0 <= x < 5 ==> a[n + x] == Chi2(t[..], n, x)
    ensures forall i :: 0 <= i < 25 && !(n <= i < n + 5) ==> a[i] == old(a[i])
  {
    hide BitSelect2, Xor2;
    a[n + 0] := BitSelect2(Xor2(t[n + 0], t[n + 2]), t[n + 0], t[n + 1]);
    a[n + 1] := BitSelect2(Xor2(t[n + 1], t[n + 3]), t[n + 1], t[n + 2]);
    a[n + 2] := BitSelect2(Xor2(t[n + 2], t[n + 4]), t[n + 2], t[n + 3]);
    a[n + 3] := BitSelect2(Xor2(t[n + 3], t[n + 0]), t[n + 3], t[n + 4]);
    a[n + 4] := BitSelect2(Xor2(t[n + 4], t[n + 1]), t[n + 4], t[n + 0]);
  }

  lemma ChiJoinedAt(t: Pairs, i: nat)
    requires i < 25
    ensures Join(Chi2(t, 5 * Y(i), X(i))) == ChiLane(JoinAll(t), i)
  {
    hide Join, Xor2, BitSelect2, ChiBits;
    var x, row := X(i), 5 * Y(i);
    JoinChi(t[i], t[row + Plus(x, 1)], t[row + Plus(x, 2)]);
  }

  lemma ChiJoined(t: Pairs, s: Pairs)
    requires forall i :: 0 <= i < 25 ==> s[i] == Chi2(t, 5 * Y(i), X(i))
    ensures JoinAll(s) == Chi(JoinAll(t))
  {
    hide Join, Chi2, ChiLane, X, Y;
    forall i | 0 <= i < 25 ensures JoinAll(s)[i] == ChiLane(JoinAll(t), i) {
      ChiJoinedAt(t, i);
    }
  }

  // ----- iota and the round

  /** Keccak_f1600_RC. */
  function KernelConstant(r: nat): U2
    requires r < 24
  {
    match r
    case 0 => U2(0x00000001, 0x00000000)
    case 1 => U2(0x00008082, 0x00000000)
    case 2 => U2(0x0000808a, 0x80000000)
    case 3 => U2(0x80008000, 0x80000000)
    case 4 => U2(0x0000808b, 0x00000000)
    case 5 => U2(0x80000001, 0x00000000)
    case 6 => U2(0x80008081, 0x80000000)
    case 7 => U2(0x00008009, 0x80000000)
    case 8 => U2(0x0000008a, 0x00000000)
    case 9 => U2(0x00000088, 0x00000000)
    case 10 => U2(0x80008009, 0x00000000)
    case 11 => U2(0x8000000a, 0x00000000)
    case 12 => U2(0x8000808b, 0x00000000)
    case 13 => U2(0x0000008b, 0x80000000)
    case 14 => U2(0x00008089, 0x80000000)
    case 15 => U2(0x00008003, 0x80000000)
    case 16 => U2(0x00008002, 0x80000000)
    case 17 => U2(0x00000080, 0x80000000)
    case 18 => U2(0x0000800a, 0x00000000)
    case 19 => U2(0x8000000a, 0x80000000)
    case 20 => U2(0x80008081, 0x80000000)
    case 21 => U2(0x00008080, 0x80000000)
    case 22 => U2(0x80000001, 0x00000000)
    case _ => U2(0x80008008, 0x80000000)
  }

  lemma KernelConstants0()
    ensures Join(KernelConstant(0)) == RcEntry(0)
    ensures Join(KernelConstant(1)) == RcEntry(1)
    ensures Join(KernelConstant(2)) == RcEntry(2)
  {
  }

  lemma KernelConstants1()
    ensures Join(KernelConstant(3)) == RcEntry(3)
    ensures Join(KernelConstant(4)) == RcEntry(4)
    ensures Join(KernelConstant(5)) == RcEntry(5)
  {
  }

  lemma KernelConstants2()
    ensures Join(KernelConstant(6)) == RcEntry(6)
    ensures Join(KernelConstant(7)) == RcEntry(7)
    ensures Join(KernelConstant(8)) == RcEntry(8)
  {
  }

  lemma KernelConstants3()
    ensures Join(KernelConstant(9)) == RcEntry(9)
    ensures Join(KernelConstant(10)) == RcEntry(10)
    ensures Join(KernelConstant(11)) == RcEntry(11)
  {
  }

  lemma KernelConstants4()
    ensures Join(KernelConstant(12)) == RcEntry(12)
    ensures Join(KernelConstant(13)) == RcEntry(13)
    ensures Join(KernelConstant(14)) == RcEntry(14)
  {
  }

  lemma KernelConstants5()
    ensures Join(KernelConstant(15)) == RcEntry(15)
    ensures Join(KernelConstant(16)) == RcEntry(16)
    ensures Join(KernelConstant(17)) == RcEntry(17)
  {
  }

  lemma KernelConstants6()
    ensures Join(KernelConstant(18)) == RcEntry(18)
    ensures Join(KernelConstant(19)) == RcEntry(19)
    ensures Join(KernelConstant(20)) == RcEntry(20)
  {
  }

  lemma KernelConstants7()
    ensures Join(KernelConstant(21)) == RcEntry(21)
    ensures Join(KernelConstant(22)) == RcEntry(22)
    ensures Join(KernelConstant(23)) == RcEntry(23)
  {
  }

  lemma KernelConstantIsRc(r: nat)
    requires r < 24
    ensures Join(KernelConstant(r)) == RoundConstant(r)
  {
    hide *;
    RcIsComputed(r);
    if r < 3 {
      KernelConstants0();
    } else if r < 6 {
      KernelConstants1();
    } else if r < 9 {
      KernelConstants2();
    } else if r < 12 {
      KernelConstants3();
    } else if r < 15 {
      KernelConstants4();
    } else if r < 18 {
      KernelConstants5();
    } else if r < 21 {
      KernelConstants6();
    } else {
      KernelConstants7();
    }
  }

  lemma IotaJoined(t: Pairs, s: Pairs, r: nat)
    requires r < 24 && s[0] == Xor2(Chi2(t, 0, 0), KernelConstant(r))
    requires forall x :: 1 <= x < 5 ==> s[x] == Chi2(t, 0, x)
    requires forall x :: 0 <= x < 5 ==> s[5 + x] == Chi2(t, 5, x)
    requires forall x :: 0 <= x < 5 ==> s[10 + x] == Chi2(t, 10, x)
    requires forall x :: 0 <= x < 5 ==> s[15 + x] == Chi2(t, 15, x)
    requires forall x :: 0 <= x < 5 ==> s[20 + x] == Chi2(t, 20, x)
    ensures JoinAll(s) == Iota(Chi(JoinAll(t)), r)
  {
    hide Join, Xor, Xor2, Chi2, KernelConstant, RoundConstant, Chi, X, Y;
    var before: Pairs := s[0 := Chi2(t, 0, 0)];
    forall i | 0 <= i < 25 ensures before[i] == Chi2(t, 5 * Y(i), X(i)) {
      assert X(i) + 5 * Y(i) == i;
      assert Y(i) == 0 || Y(i) == 1 || Y(i) == 2 || Y(i) == 3 || Y(i) == 4;
    }
    ChiJoined(t, before);
    JoinXor(Chi2(t, 0, 0), KernelConstant(r));
    KernelConstantIsRc(r);
    assert JoinAll(s) == JoinAll(before)[0 := Join(s[0])];
  }

  /** The first row of chi, iota, then the other rows. */
  method ChiIotaKernel(a: array<U2>, t: array<U2>, r: nat)
    requires a.Length == 25 && t.Length == 25 && a != t && r < 24
    modifies a
    ensures JoinAll(a[..]) == Iota(Chi(JoinAll(t[..])), r)
  {
    hide Join, Xor, Xor2, Chi2, KernelConstant, RoundConstant, Chi, JoinAll, X, Y;
    ChiRow(a, 0, t);
    assert a[0 + 0] == Chi2(t[..], 0, 0);
    a[0] := Xor2(a[0], KernelConstant(r));
    ChiRow(a, 5, t);
    ChiRow(a, 10, t);
    ChiRow(a, 15, t);
    ChiRow(a, 20, t);
    IotaJoined(t[..], a[..], r);
  }

  /** keccak_f1600_round. */
  method RoundKernel(a: array<U2>, r: nat)
    requires a.Length == 25 && r < 24
    modifies a
    ensures JoinAll(a[..]) == Round(JoinAll(old(a[..])), r)
  {
    hide Join, Xor, Xor2, Moved, Chi2, KernelConstant, RoundConstant, Theta, Pi, Rho, Chi, JoinAll, X, Y;
    var t := new U2[25](_ => U2(0, 0));
    ThetaKernel(a, t);
    RhoPiKernel(a, t);
    RhoPiJoined(a[..], t[..]);
    ChiIotaKernel(a, t, r);
  }
}
