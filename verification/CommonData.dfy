/** Big-endian conversions (libdevcore/CommonData.h).

    The functions give the mathematical meaning of a byte string; the methods are the
    loops of the source, each proved equal to a function. */
module CommonData {

  type byte = b: int | 0 <= b < 256

  /** v * 256^n: a shift left by n bytes. */
  function Shift(v: nat, n: nat): (r: nat)
    ensures v > 0 ==> r > 0
  {
    if n == 0 then v else 256 * Shift(v, n - 1)
  }

  /** 256^n: the number of values of an n-byte word. */
  function Pow256(n: nat): nat {
    Shift(1, n)
  }

  lemma {:induction false} ShiftAdd(v: nat, w: nat, n: nat)
    ensures Shift(v + w, n) == Shift(v, n) + Shift(w, n)
  {
    if n > 0 {
      ShiftAdd(v, w, n - 1);
    }
  }

  lemma {:induction false} ShiftMonotone(v: nat, w: nat, n: nat)
    ensures v < w ==> Shift(v, n) + Pow256(n) <= Shift(w, n)
    ensures v > 0 ==> Shift(v, n) >= Pow256(n) >= 1
    ensures v == 0 ==> Shift(v, n) == 0
  {
    if n > 0 {
      ShiftMonotone(v, w, n - 1);
    }
  }

  /** The number that a byte string denotes, most significant byte first. */
  function Value(s: seq<byte>): nat {
    if |s| == 0 then 0 else 256 * Value(s[..|s| - 1]) + s[|s| - 1]
  }

  /** The last n base-256 digits of v, most significant first. */
  function Digits(v: nat, n: nat): (s: seq<byte>)
    ensures |s| == n
  {
    if n == 0 then [] else Digits(v / 256, n - 1) + [v % 256]
  }

  /** The number of base-256 digits of v; none for zero. */
  function ByteLength(v: nat): nat {
    if v == 0 then 0 else 1 + ByteLength(v / 256)
  }

  /** BE of the Yellow Paper: the digits of v without a leading zero. */
  function Compact(v: nat): (s: seq<byte>) {
    Digits(v, ByteLength(v))
  }

  predicate NoLeadingZero(s: seq<byte>) {
    |s| > 0 ==> s[0] != 0
  }

  lemma {:induction false} ValueBound(s: seq<byte>)
    ensures Value(s) < Pow256(|s|)
  {
    if |s| > 0 {
      ValueBound(s[..|s| - 1]);
    }
  }

  lemma {:induction false} ValueAppend(s: seq<byte>, b: byte)
    ensures Value(s + [b]) == 256 * Value(s) + b
  {
    assert (s + [b])[..|s|] == s;
  }

  lemma {:induction false} ValueConcat(a: seq<byte>, b: seq<byte>)
    ensures Value(a + b) == Shift(Value(a), |b|) + Value(b)
  {
    if |b| == 0 {
      assert a + b == a;
    } else {
      var front, last := b[..|b| - 1], b[|b| - 1];
      assert a + b == (a + front) + [last];
      ValueAppend(a + front, last);
      ValueConcat(a, front);
    }
  }

  lemma ValueCons(s: seq<byte>)
    requires |s| > 0
    ensures Value(s) == Shift(s[0], |s| - 1) + Value(s[1..])
  {
    var head, tail := [s[0]], s[1..];
    assert Value(head) == s[0] by {
      assert head == [] + [s[0]];
      ValueAppend([], s[0]);
    }
    assert Value(s) == Shift(Value(head), |tail|) + Value(tail) by {
      assert s == head + tail;
      ValueConcat(head, tail);
    }
  }

  /** Keeping n digits is reduction modulo 256^n. */
  lemma {:induction false} ValueOfDigits(v: nat, n: nat)
    ensures Value(Digits(v, n)) == v % Pow256(n)
  {
    if n > 0 {
      ValueAppend(Digits(v / 256, n - 1), v % 256);
      ValueOfDigits(v / 256, n - 1);
      ShiftMonotone(1, 1, n - 1);
      DivModStep(v, Pow256(n - 1));
    }
  }

  lemma DivModStep(v: nat, m: nat)
    requires m > 0
    ensures 256 * (v / 256 % m) + v % 256 == v % (256 * m)
  {
    var q := v / 256 / m;
    var r := v / 256 % m;
    assert v / 256 == q * m + r;
    assert v == (256 * m) * q + (256 * r + v % 256);
    DivModUnique(v, 256 * m, q, 256 * r + v % 256);
  }

  lemma DivModUnique(v: nat, d: nat, q: nat, r: nat)
    requires d > 0 && r < d && v == d * q + r
    ensures v / d == q && v % d == r
  {
    var k: int := v / d - q;
    assert d * k == r - v % d;
    assert k != 0 ==> d * k >= d || d * k + d <= 0;
  }

  lemma MulMonotone(k: nat, d: nat, q: nat)
    requires k <= d
    ensures k * q <= d * q && q * k <= q * d
  {
    assert (d - k) * q >= 0;
  }

  lemma {:induction false} DigitsOfValue(s: seq<byte>)
    ensures Digits(Value(s), |s|) == s
  {
    if |s| > 0 {
      DigitsOfValue(s[..|s| - 1]);
      assert s == s[..|s| - 1] + [s[|s| - 1]];
    }
  }

  lemma {:induction false} ByteLengthBound(v: nat, n: nat)
    ensures v < Pow256(n) <==> ByteLength(v) <= n
  {
    if v > 0 && n > 0 {
      ByteLengthBound(v / 256, n - 1);
    }
  }

  /** The compact form decodes to v and has no leading zero. */
  lemma {:induction false} CompactDecodes(v: nat)
    ensures Value(Compact(v)) == v
    ensures NoLeadingZero(Compact(v))
  {
    var n := ByteLength(v);
    ByteLengthBound(v, n);
    ValueOfDigits(v, n);
    DivModUnique(v, Pow256(n), 0, v);
    if v > 0 && Compact(v)[0] == 0 {
      var s := Compact(v);
      ValueCons(s);
      ValueBound(s[1..]);
      ShiftMonotone(0, 1, n - 1);
      ByteLengthBound(v, n - 1);
    }
  }

  lemma LeadingDigit(s: seq<byte>)
    requires |s| > 0 && s[0] != 0
    ensures Value(s) >= Pow256(|s| - 1)
  {
    ValueCons(s);
    ShiftMonotone(s[0], s[0], |s| - 1);
  }

  /** Any string that decodes to v is at least as long, and only the compact form has no leading zero. */
  lemma {:induction false} CompactShortest(s: seq<byte>)
    ensures |Compact(Value(s))| <= |s|
    ensures NoLeadingZero(s) <==> s == Compact(Value(s))
  {
    var v := Value(s);
    ValueBound(s);
    ByteLengthBound(v, |s|);
    CompactDecodes(v);
    if NoLeadingZero(s) && |s| > 0 {
      LeadingDigit(s);
      ByteLengthBound(v, |s| - 1);
    }
    if NoLeadingZero(s) {
      DigitsOfValue(s);
    }
  }

  // ----- the loops

  /** toBigEndian: fills the whole buffer from the back, so a short buffer keeps the low digits. */
  method ToBigEndian(val: nat, buffer: array<byte>)
    modifies buffer
    ensures buffer[..] == Digits(val, buffer.Length)
  {
    var v := val;
    var i: nat := buffer.Length;
    while i != 0
      invariant 0 <= i <= buffer.Length
      invariant Digits(v, i) + buffer[i..] == Digits(val, buffer.Length)
    {
      ghost var tail := buffer[i..];
      buffer[i - 1] := v % 256;
      assert buffer[i - 1..] == [v % 256] + tail;
      assert Digits(v, i) + tail == Digits(v / 256, i - 1) + buffer[i - 1..];
      v := v / 256;
      i := i - 1;
    }
    assert buffer[0..] == buffer[..];
  }

  /** fromBigEndian for a target type of the given width in bytes: each shift drops what overflows. */
  method FromBigEndian(bytes: seq<byte>, width: nat) returns (ret: nat)
    ensures ret == Value(bytes) % Pow256(width)
  {
    ret := 0;
    DivModUnique(0, Pow256(width), 0, 0);
    for i := 0 to |bytes|
      invariant ret == Value(bytes[..i]) % Pow256(width)
    {
      ShiftIn(Value(bytes[..i]), bytes[i], Pow256(width));
      assert bytes[..i + 1][..i] == bytes[..i];
      ret := (ret * 256 + bytes[i]) % Pow256(width);
    }
    assert bytes[..|bytes|] == bytes;
  }

  lemma AddMultiple(x: nat, m: nat, k: nat)
    requires m > 0
    ensures (m * k + x) % m == x % m
  {
    assert m * k + x == m * (k + x / m) + x % m;
    DivModUnique(m * k + x, m, k + x / m, x % m);
  }

  lemma ShiftIn(v: nat, b: nat, m: nat)
    requires m > 0
    ensures (v % m * 256 + b) % m == (v * 256 + b) % m
  {
    var q := v / m;
    var low := v % m * 256 + b;
    assert v * 256 + b == m * (256 * q) + low by {
      assert v == m * q + v % m;
    }
    AddMultiple(low, m, 256 * q);
  }

  /** bytesRequired counts the shifts until nothing is left. */
  method BytesRequired(val: nat) returns (i: nat)
    ensures i == ByteLength(val)
  {
    i := 0;
    var v := val;
    while v != 0
      invariant i + ByteLength(v) == ByteLength(val)
    {
      i := i + 1;
      v := v / 256;
    }
  }

  /** toCompactBigEndian: the shortest form, widened to at least min bytes. */
  method ToCompactBigEndian(val: nat, min: nat) returns (ret: array<byte>)
    ensures fresh(ret)
    ensures ret.Length == if ByteLength(val) < min then min else ByteLength(val)
    ensures Value(ret[..]) == val
    ensures min == 0 ==> ret[..] == Compact(val)
  {
    var i := BytesRequired(val);
    var size := if i < min then min else i;
    ret := new byte[size](_ => 0);
    ToBigEndian(val, ret);
    ValueOfDigits(val, size);
    ByteLengthBound(val, size);
    DivModUnique(val, Pow256(size), 0, val);
  }
}
