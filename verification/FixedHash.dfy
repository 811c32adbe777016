/** Fixed-width byte arrays read as big-endian numbers (libdevcore/FixedHash.h). */
module FixedHash {
  import opened CommonData

  /** The first differing byte decides the order of two numbers of equal width. */
  lemma FirstDifferenceDecides(a: seq<byte>, b: seq<byte>, i: nat)
    requires |a| == |b| && i < |a| && a[..i] == b[..i] && a[i] < b[i]
    ensures Value(a) < Value(b)
  {
    hide Value, Pow256, Shift;
    SamePrefix(a, b, i);
    ValueCons(a[i..]);
    ValueCons(b[i..]);
    ValueBound(a[i + 1..]);
    ShiftMonotone(a[i], b[i], |a| - i - 1);
  }

  /** A common prefix does not matter for the difference of two numbers. */
  lemma SamePrefix(a: seq<byte>, b: seq<byte>, i: nat)
    requires |a| == |b| && i <= |a| && a[..i] == b[..i]
    ensures Value(a) - Value(b) == Value(a[i..]) - Value(b[i..])
  {
    assert a == a[..i] + a[i..];
    assert b == b[..i] + b[i..];
    ValueConcat(a[..i], a[i..]);
    ValueConcat(b[..i], b[i..]);
  }

  /** Equal widths and equal numbers mean equal bytes. */
  lemma ValueInjective(a: seq<byte>, b: seq<byte>)
    requires |a| == |b|
    ensures Value(a) == Value(b) <==> a == b
  {
    DigitsOfValue(a);
    DigitsOfValue(b);
  }

  class Hash {
    const data: array<byte>

    /** Conversion from the arithmetic type. */
    constructor FromArith(n: nat, arith: nat)
      ensures fresh(data) && data.Length == n
      ensures data[..] == Digits(arith, n)
      ensures arith < Pow256(n) ==> Value(data[..]) == arith
    {
      var buffer := new byte[n](_ => 0);
      ToBigEndian(arith, buffer);
      data := buffer;
      new;
      ValueOfDigits(arith, n);
      if arith < Pow256(n) {
        DivModUnique(arith, Pow256(n), 0, arith);
      }
    }

    /** Conversion to the arithmetic type; Digits turns the result back into the same bytes. */
    method ToArith() returns (arith: nat)
      ensures arith == Value(data[..])
      ensures Digits(arith, data.Length) == data[..]
    {
      arith := CommonData.FromBigEndian(data[..], data.Length);
      ValueBound(data[..]);
      DivModUnique(Value(data[..]), Pow256(data.Length), 0, Value(data[..]));
      DigitsOfValue(data[..]);
    }

    /** operator<: compares byte by byte and stops at the first difference. */
    method Less(other: Hash) returns (less: bool)
      requires other.data.Length == data.Length
      ensures less <==> Value(data[..]) < Value(other.data[..])
    {
      for i := 0 to data.Length
        invariant data[..i] == other.data[..i]
      {
        if data[i] < other.data[i] {
          FirstDifferenceDecides(data[..], other.data[..], i);
          return true;
        } else if data[i] > other.data[i] {
          FirstDifferenceDecides(other.data[..], data[..], i);
          return false;
        }
      }
      assert data[..] == other.data[..];
      return false;
    }

    /** operator++: adds one, carrying leftwards while bytes wrap to zero; the all-ones value becomes zero. */
    method Increment()
      modifies data
      ensures Value(data[..]) == (Value(old(data[..])) + 1) % Pow256(data.Length)
    {
      hide Value, Pow256, Shift;
      NothingToCarry();
      ghost var before := data[..];
      ghost var n := data.Length;
      var i := data.Length;
      var carry := true;
      assert data[n..] == [];
      while i > 0 && carry
        invariant 0 <= i <= n
        invariant carry ==> data[..i] == before[..i] && Value(before[i..]) + 1 == Pow256(n - i) && Value(data[i..]) == 0
        invariant !carry ==> Value(data[..]) == Value(before) + 1
        decreases i, carry
      {
        ghost var now := data[..];
        i := i - 1;
        data[i] := (data[i] as int + 1) % 256;
        assert data[..][i + 1..] == now[i + 1..];
        CarryStep(before, data[..], i);
        assert data[..][i..] == data[i..];
        carry := data[i] == 0;
      }
      if carry {
        assert before[0..] == before && data[0..] == data[..];
        DivModUnique(Pow256(n), Pow256(n), 1, 0);
      } else {
        ValueBound(data[..]);
        DivModUnique(Value(before) + 1, Pow256(n), 0, Value(before) + 1);
      }
    }
  }

  lemma NothingToCarry()
    ensures Value([]) == 0 && Pow256(0) == 1 && forall n: nat :: Pow256(n) > 0
  {
  }

  /** One byte of the increment: either the carry stops here, or the suffix has wrapped to zero. */
  lemma CarryStep(before: seq<byte>, now: seq<byte>, i: nat)
    requires |before| == |now| && i < |now| && now[..i] == before[..i]
    requires now[i] == if before[i] == 255 then 0 else before[i] + 1
    requires Value(before[i + 1..]) + 1 == Pow256(|now| - i - 1) && Value(now[i + 1..]) == 0
    ensures now[i] != 0 ==> Value(now) == Value(before) + 1
    ensures now[i] == 0 ==> Value(before[i..]) + 1 == Pow256(|now| - i) && Value(now[i..]) == 0
  {
    var n := |now| - i - 1;
    ValueCons(before[i..]);
    ValueCons(now[i..]);
    ShiftAdd(before[i], 1, n);
    ShiftMonotone(now[i], now[i], n);
    SamePrefix(now, before, i);
    TopDigit(n);
  }

  lemma {:induction false} TopDigit(n: nat)
    ensures Shift(255, n) + Pow256(n) == Pow256(n + 1)
  {
    if n > 0 {
      TopDigit(n - 1);
    }
  }
}
