/** Numbers and hashes read back from RLP items (toInt and toHash of libdevcore/RLP.h). */
module RlpScalars {
  import opened CommonData
  import opened RlpFormat
  import opened RlpReader

  /** What the constructor with VeryStrict lets through. */
  predicate Accepted(d: seq<byte>) {
    d != [] && ActualSize(d) == Ok(|d|)
  }

  lemma AcceptedIsConstructed(d: seq<byte>)
    ensures Accepted(d) <==> d != [] && Construct(d, VERY_STRICT).Ok?
    ensures Accepted(d) ==> Construct(d, VERY_STRICT) == Ok(d)
  {
  }

  lemma AcceptedIsGood(d: seq<byte>)
    requires Accepted(d)
    ensures RequireGood(d).Ok?
  {
  }

  /** isInt on an accepted item: a string without a leading zero. */
  lemma IsIntMeaning(d: seq<byte>)
    requires Accepted(d)
    ensures Payload(d).Ok?
    ensures IsInt(d) == Ok(IsData(d) && NoLeadingZero(Payload(d).value))
  {
    AcceptedIsCanonical(d);
    if IsData(d) && !IsSingleByte(d) {
      var p, k := Payload(d).value, PayloadOffset(d);
      var n := Length(d).value;
      assert k + n == |d| && p == d[k..k + n];
      if n > 0 {
        assert p[0] == d[k];
      }
    }
  }

  /** A strict conversion to a number yields v exactly from the encoding of the shortest form of v,
      and only if v fits the target type. */
  lemma ToIntIff(d: seq<byte>, width: nat, v: nat)
    requires Accepted(d) && width < READ_LIMIT
    ensures ToInt(d, width, STRICT) == Ok(v) <==> d == EncodeBytes(Compact(v)) && v < Pow256(width)
  {
    hide ActualSize, Payload, IsInt, EncodeBytes, RequireGood, Pow256;
    AcceptedIsGood(d);
    IsIntMeaning(d);
    AcceptedIsCanonical(d);
    ByteLengthBound(v, width);
    CompactDecodes(v);
    var p := Payload(d).value;
    CompactShortest(p);
    if ToInt(d, width, STRICT) == Ok(v) {
      ValueBound(p);
      ByteLengthBound(Value(p), |p|);
      ByteLengthBound(Value(p), width);
      DivModUnique(Value(p), Pow256(width), 0, Value(p));
    }
    if d == EncodeBytes(Compact(v)) && v < Pow256(width) {
      DataPayload(Compact(v));
      DivModUnique(v, Pow256(width), 0, v);
    }
  }

  lemma DataPayload(b: seq<byte>)
    requires |b| < READ_LIMIT
    ensures var d := EncodeBytes(b);
            Accepted(d) && IsData(d) && Payload(d) == Ok(b)
  {
    var t := Data(b);
    ReadFront(t, []);
    ReadPayload(t);
    assert Encode(t) + [] == Encode(t);
  }

  /** A VeryStrict conversion to n bytes yields h exactly from the encoding of the n bytes h. */
  lemma ToHashIff(d: seq<byte>, n: nat, h: seq<byte>)
    requires Accepted(d) && n < READ_LIMIT
    ensures ToHash(d, n, VERY_STRICT) == Ok(h) <==> d == EncodeBytes(h) && |h| == n
  {
    AcceptedIsGood(d);
    AcceptedIsCanonical(d);
    var p := Payload(d).value;
    if |p| == n {
      assert Zeros(0) + p[..n] == p;
    }
    if d == EncodeBytes(h) && |h| == n {
      DataPayload(h);
    }
  }

  /** Conversions that do not throw: what is no integer is zero, and a short string is taken as the last
      bytes of the hash, so that it denotes the same number. */
  lemma LenientToInt(d: seq<byte>, width: nat, flags: Strictness)
    requires Accepted(d) && !flags.throwOnFail
    requires IsList(d) || (!flags.allowNonCanon && IsInt(d) == Ok(false))
    ensures ToInt(d, width, flags) == Ok(0)
  {
    hide ActualSize, Payload;
    AcceptedIsGood(d);
    IsIntMeaning(d);
  }

  lemma LenientToHash(d: seq<byte>, n: nat, flags: Strictness)
    requires Accepted(d) && !flags.throwOnFail && !flags.failIfTooSmall
    requires IsData(d) ==> |Payload(d).value| <= n
    ensures IsData(d) ==> ToHash(d, n, flags).Ok? && Value(ToHash(d, n, flags).value) == Value(Payload(d).value)
    ensures IsList(d) ==> ToHash(d, n, flags).Ok? && Value(ToHash(d, n, flags).value) == 0
  {
    hide ActualSize, Payload;
    AcceptedIsGood(d);
    AcceptedIsCanonical(d);
    if IsData(d) {
      var p := Payload(d).value;
      ZerosInFront(n - |p|, p);
      assert p[..|p|] == p;
    } else {
      ZerosInFront(n, []);
      assert Zeros(n) + [] == Zeros(n);
    }
  }

  lemma {:induction false} ZerosInFront(n: nat, p: seq<byte>)
    ensures Value(Zeros(n) + p) == Value(p)
    decreases |p|, n
  {
    if p == [] {
      if n == 0 {
        assert Zeros(0) + p == [];
      } else {
        assert Zeros(n) + p == (Zeros(n - 1) + p) + [0];
        ZerosInFront(n - 1, p);
        ValueAppend(Zeros(n - 1) + p, 0);
      }
    } else {
      var front, last := p[..|p| - 1], p[|p| - 1];
      assert Zeros(n) + p == (Zeros(n) + front) + [last] && p == front + [last];
      ZerosInFront(n, front);
      ValueAppend(Zeros(n) + front, last);
      ValueAppend(front, last);
    }
  }

  /** toBytes of the encoding of any byte string the reader can hold. */
  lemma ToBytesOfEncoded(b: seq<byte>)
    requires |b| < READ_LIMIT
    ensures ToBytes(EncodeBytes(b)) == Ok(b)
  {
    DataPayload(b);
  }
}
