/** For which amounts ROL2 of libethash-cl/CLMiner_kernel.cl rotates: all but 0 and 32. The kernel
    passes neither. */
module KernelRotations {
  import opened Fips202
  import opened KernelLanes

  lemma AmountsComputed()
    ensures Amount(1) == 1 && Amount(62) == 62 && Amount(28) == 28 && Amount(27) == 27 && Amount(36) == 36
          && Amount(44) == 44
    ensures Amount(6) == 6 && Amount(55) == 55 && Amount(20) == 20 && Amount(3) == 3 && Amount(10) == 10
          && Amount(43) == 43
    ensures Amount(25) == 25 && Amount(39) == 39 && Amount(41) == 41 && Amount(45) == 45 && Amount(15) == 15
          && Amount(21) == 21
    ensures Amount(8) == 8 && Amount(18) == 18 && Amount(2) == 2 && Amount(61) == 61 && Amount(56) == 56
          && Amount(14) == 14
  {
  }

  // ----- one amount at a time

  lemma RolBy1(v: U2) ensures Join(Rol2(v, 1)) == Rol(Join(v), 1) {}
  lemma RolBy2(v: U2) ensures Join(Rol2(v, 2)) == Rol(Join(v), 2) {}
  lemma RolBy3(v: U2) ensures Join(Rol2(v, 3)) == Rol(Join(v), 3) {}
  lemma RolBy4(v: U2) ensures Join(Rol2(v, 4)) == Rol(Join(v), 4) {}
  lemma RolBy5(v: U2) ensures Join(Rol2(v, 5)) == Rol(Join(v), 5) {}
  lemma RolBy6(v: U2) ensures Join(Rol2(v, 6)) == Rol(Join(v), 6) {}
  lemma RolBy7(v: U2) ensures Join(Rol2(v, 7)) == Rol(Join(v), 7) {}
  lemma RolBy8(v: U2) ensures Join(Rol2(v, 8)) == Rol(Join(v), 8) {}
  lemma RolBy9(v: U2) ensures Join(Rol2(v, 9)) == Rol(Join(v), 9) {}
  lemma RolBy10(v: U2) ensures Join(Rol2(v, 10)) == Rol(Join(v), 10) {}
  lemma RolBy11(v: U2) ensures Join(Rol2(v, 11)) == Rol(Join(v), 11) {}
  lemma RolBy12(v: U2) ensures Join(Rol2(v, 12)) == Rol(Join(v), 12) {}
  lemma RolBy13(v: U2) ensures Join(Rol2(v, 13)) == Rol(Join(v), 13) {}
  lemma RolBy14(v: U2) ensures Join(Rol2(v, 14)) == Rol(Join(v), 14) {}
  lemma RolBy15(v: U2) ensures Join(Rol2(v, 15)) == Rol(Join(v), 15) {}
  lemma RolBy16(v: U2) ensures Join(Rol2(v, 16)) == Rol(Join(v), 16) {}
  lemma RolBy17(v: U2) ensures Join(Rol2(v, 17)) == Rol(Join(v), 17) {}
  lemma RolBy18(v: U2) ensures Join(Rol2(v, 18)) == Rol(Join(v), 18) {}
  lemma RolBy19(v: U2) ensures Join(Rol2(v, 19)) == Rol(Join(v), 19) {}
  lemma RolBy20(v: U2) ensures Join(Rol2(v, 20)) == Rol(Join(v), 20) {}
  lemma RolBy21(v: U2) ensures Join(Rol2(v, 21)) == Rol(Join(v), 21) {}
  lemma RolBy22(v: U2) ensures Join(Rol2(v, 22)) == Rol(Join(v), 22) {}
  lemma RolBy23(v: U2) ensures Join(Rol2(v, 23)) == Rol(Join(v), 23) {}
  lemma RolBy24(v: U2) ensures Join(Rol2(v, 24)) == Rol(Join(v), 24) {}
  lemma RolBy25(v: U2) ensures Join(Rol2(v, 25)) == Rol(Join(v), 25) {}
  lemma RolBy26(v: U2) ensures Join(Rol2(v, 26)) == Rol(Join(v), 26) {}
  lemma RolBy27(v: U2) ensures Join(Rol2(v, 27)) == Rol(Join(v), 27) {}
  lemma RolBy28(v: U2) ensures Join(Rol2(v, 28)) == Rol(Join(v), 28) {}
  lemma RolBy29(v: U2) ensures Join(Rol2(v, 29)) == Rol(Join(v), 29) {}
  lemma RolBy30(v: U2) ensures Join(Rol2(v, 30)) == Rol(Join(v), 30) {}
  lemma RolBy31(v: U2) ensures Join(Rol2(v, 31)) == Rol(Join(v), 31) {}
  lemma RolBy33(v: U2) ensures Join(Rol2(v, 33)) == Rol(Join(v), 33) {}
  lemma RolBy34(v: U2) ensures Join(Rol2(v, 34)) == Rol(Join(v), 34) {}
  lemma RolBy35(v: U2) ensures Join(Rol2(v, 35)) == Rol(Join(v), 35) {}
  lemma RolBy36(v: U2) ensures Join(Rol2(v, 36)) == Rol(Join(v), 36) {}
  lemma RolBy37(v: U2) ensures Join(Rol2(v, 37)) == Rol(Join(v), 37) {}
  lemma RolBy38(v: U2) ensures Join(Rol2(v, 38)) == Rol(Join(v), 38) {}
  lemma RolBy39(v: U2) ensures Join(Rol2(v, 39)) == Rol(Join(v), 39) {}
  lemma RolBy40(v: U2) ensures Join(Rol2(v, 40)) == Rol(Join(v), 40) {}
  lemma RolBy41(v: U2) ensures Join(Rol2(v, 41)) == Rol(Join(v), 41) {}
  lemma RolBy42(v: U2) ensures Join(Rol2(v, 42)) == Rol(Join(v), 42) {}
  lemma RolBy43(v: U2) ensures Join(Rol2(v, 43)) == Rol(Join(v), 43) {}
  lemma RolBy44(v: U2) ensures Join(Rol2(v, 44)) == Rol(Join(v), 44) {}
  lemma RolBy45(v: U2) ensures Join(Rol2(v, 45)) == Rol(Join(v), 45) {}
  lemma RolBy46(v: U2) ensures Join(Rol2(v, 46)) == Rol(Join(v), 46) {}
  lemma RolBy47(v: U2) ensures Join(Rol2(v, 47)) == Rol(Join(v), 47) {}
  lemma RolBy48(v: U2) ensures Join(Rol2(v, 48)) == Rol(Join(v), 48) {}
  lemma RolBy49(v: U2) ensures Join(Rol2(v, 49)) == Rol(Join(v), 49) {}
  lemma RolBy50(v: U2) ensures Join(Rol2(v, 50)) == Rol(Join(v), 50) {}
  lemma RolBy51(v: U2) ensures Join(Rol2(v, 51)) == Rol(Join(v), 51) {}
  lemma RolBy52(v: U2) ensures Join(Rol2(v, 52)) == Rol(Join(v), 52) {}
  lemma RolBy53(v: U2) ensures Join(Rol2(v, 53)) == Rol(Join(v), 53) {}
  lemma RolBy54(v: U2) ensures Join(Rol2(v, 54)) == Rol(Join(v), 54) {}
  lemma RolBy55(v: U2) ensures Join(Rol2(v, 55)) == Rol(Join(v), 55) {}
  lemma RolBy56(v: U2) ensures Join(Rol2(v, 56)) == Rol(Join(v), 56) {}
  lemma RolBy57(v: U2) ensures Join(Rol2(v, 57)) == Rol(Join(v), 57) {}
  lemma RolBy58(v: U2) ensures Join(Rol2(v, 58)) == Rol(Join(v), 58) {}
  lemma RolBy59(v: U2) ensures Join(Rol2(v, 59)) == Rol(Join(v), 59) {}
  lemma RolBy60(v: U2) ensures Join(Rol2(v, 60)) == Rol(Join(v), 60) {}
  lemma RolBy61(v: U2) ensures Join(Rol2(v, 61)) == Rol(Join(v), 61) {}
  lemma RolBy62(v: U2) ensures Join(Rol2(v, 62)) == Rol(Join(v), 62) {}
  lemma RolBy63(v: U2) ensures Join(Rol2(v, 63)) == Rol(Join(v), 63) {}

  lemma RolFrom1(v: U2, n: bv6)
    requires 1 <= n < 8
    ensures Join(Rol2(v, n)) == Rol(Join(v), n)
  {
    hide *;
    RolBy1(v); RolBy2(v); RolBy3(v); RolBy4(v);
    RolBy5(v); RolBy6(v); RolBy7(v);
    assert n == 1 || n == 2 || n == 3 || n == 4 || n == 5 || n == 6 || n == 7;
  }

  lemma RolFrom8(v: U2, n: bv6)
    requires 8 <= n < 16
    ensures Join(Rol2(v, n)) == Rol(Join(v), n)
  {
    hide *;
    RolBy8(v); RolBy9(v); RolBy10(v); RolBy11(v);
    RolBy12(v); RolBy13(v); RolBy14(v); RolBy15(v);
    assert n == 8 || n == 9 || n == 10 || n == 11 || n == 12 || n == 13 || n == 14 || n == 15;
  }

  lemma RolFrom16(v: U2, n: bv6)
    requires 16 <= n < 24
    ensures Join(Rol2(v, n)) == Rol(Join(v), n)
  {
    hide *;
    RolBy16(v); RolBy17(v); RolBy18(v); RolBy19(v);
    RolBy20(v); RolBy21(v); RolBy22(v); RolBy23(v);
    assert n == 16 || n == 17 || n == 18 || n == 19 || n == 20 || n == 21 || n == 22 || n == 23;
  }

  lemma RolFrom24(v: U2, n: bv6)
    requires 24 <= n < 32
    ensures Join(Rol2(v, n)) == Rol(Join(v), n)
  {
    hide *;
    RolBy24(v); RolBy25(v); RolBy26(v); RolBy27(v);
    RolBy28(v); RolBy29(v); RolBy30(v); RolBy31(v);
    assert n == 24 || n == 25 || n == 26 || n == 27 || n == 28 || n == 29 || n == 30 || n == 31;
  }

  lemma RolFrom33(v: U2, n: bv6)
    requires 33 <= n < 40
    ensures Join(Rol2(v, n)) == Rol(Join(v), n)
  {
    hide *;
    RolBy33(v); RolBy34(v); RolBy35(v); RolBy36(v);
    RolBy37(v); RolBy38(v); RolBy39(v);
    assert n == 33 || n == 34 || n == 35 || n == 36 || n == 37 || n == 38 || n == 39;
  }

  lemma RolFrom40(v: U2, n: bv6)
    requires 40 <= n < 48
    ensures Join(Rol2(v, n)) == Rol(Join(v), n)
  {
    hide *;
    RolBy40(v); RolBy41(v); RolBy42(v); RolBy43(v);
    RolBy44(v); RolBy45(v); RolBy46(v); RolBy47(v);
    assert n == 40 || n == 41 || n == 42 || n == 43 || n == 44 || n == 45 || n == 46 || n == 47;
  }

  lemma RolFrom48(v: U2, n: bv6)
    requires 48 <= n < 56
    ensures Join(Rol2(v, n)) == Rol(Join(v), n)
  {
    hide *;
    RolBy48(v); RolBy49(v); RolBy50(v); RolBy51(v);
    RolBy52(v); RolBy53(v); RolBy54(v); RolBy55(v);
    assert n == 48 || n == 49 || n == 50 || n == 51 || n == 52 || n == 53 || n == 54 || n == 55;
  }

  lemma RolFrom56(v: U2, n: bv6)
    requires 56 <= n
    ensures Join(Rol2(v, n)) == Rol(Join(v), n)
  {
    hide *;
    RolBy56(v); RolBy57(v); RolBy58(v); RolBy59(v);
    RolBy60(v); RolBy61(v); RolBy62(v); RolBy63(v);
    assert n == 56 || n == 57 || n == 58 || n == 59 || n == 60 || n == 61 || n == 62 || n == 63;
  }

  /** A rotation by any amount that the kernel may ask for. */
  lemma Rol2Rotates(v: U2, n: bv6)
    requires n & 31 != 0
    ensures Join(Rol2(v, n)) == Rol(Join(v), n)
  {
    hide *;
    assert n != 0 && n != 32;
    if n < 8 {
      RolFrom1(v, n);
    } else if n < 16 {
      RolFrom8(v, n);
    } else if n < 24 {
      RolFrom16(v, n);
    } else if n < 32 {
      RolFrom24(v, n);
    } else if n < 40 {
      RolFrom33(v, n);
    } else if n < 48 {
      RolFrom40(v, n);
    } else if n < 56 {
      RolFrom48(v, n);
    } else {
      RolFrom56(v, n);
    }
  }

  /** By 0 and by 32 the shifts by the rest of a word come out as shifts by nothing. */
  lemma HalfTurnIsWrong()
    ensures var v := U2(1, 2); Join(Rol2(v, 0)) != Rol(Join(v), 0) && Join(Rol2(v, 32)) != Rol(Join(v), 32)
  {
  }

  /** ROL2 rotates every pair exactly if the amount is not a multiple of 32. */
  lemma Rol2Iff(n: bv6)
    ensures (forall v :: Join(Rol2(v, n)) == Rol(Join(v), n)) <==> n & 31 != 0
  {
    HalfTurnIsWrong();
    hide *;
    if n & 31 != 0 {
      forall v ensures Join(Rol2(v, n)) == Rol(Join(v), n) {
        Rol2Rotates(v, n);
      }
    } else {
      assert n == 0 || n == 32;
      var v := U2(1, 2);
      assert Join(Rol2(v, n)) != Rol(Join(v), n);
    }
  }
}
