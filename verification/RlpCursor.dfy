/** The items of an RLP payload, and the loops of class RLP that measure and count them.

    Split is the plain left-to-right scan, to which the iterator (RlpIterator) and the indexing cache
    (RlpIndex) are compared. */
module RlpCursor {
  import opened CommonData
  import opened RlpFormat
  import opened RlpReader
  import opened RlpScalars

  function Flatten(xs: seq<seq<byte>>): seq<byte> {
    if xs == [] then [] else xs[0] + Flatten(xs[1..])
  }

  /** The items of a payload, each as the bytes it occupies. */
  function Split(p: seq<byte>): Result<seq<seq<byte>>>
    decreases |p|
  {
    if p == [] then Ok([])
    else
      var n :- SizeAsEncoded(p);
      var rest :- Split(p[n..]);
      Ok([p[..n]] + rest)
  }

  predicate AllAccepted(xs: seq<seq<byte>>) {
    forall x :: x in xs ==> Accepted(x)
  }

  /** An accepted item keeps its size whatever follows it. */
  lemma AcceptedFront(x: seq<byte>, rest: seq<byte>)
    requires Accepted(x)
    ensures SizeAsEncoded(x + rest) == Ok(|x|)
  {
    AcceptedIsCanonical(x);
    if IsSingleByte(x) {
      assert (x + rest)[0] == x[0];
    } else {
      var p := Payload(x).value;
      if IsData(x) {
        HeaderIsCanonical(x);
        ReadWrapped(p, DATA_START, rest);
      } else {
        ReadWrapped(p, LIST_START, rest);
      }
    }
  }

  lemma WholeItemIsAccepted(x: seq<byte>, payload: seq<byte>, start: byte)
    requires |payload| < READ_LIMIT && (start == DATA_START || start == LIST_START)
    requires start == DATA_START && |payload| == 1 ==> payload[0] >= DATA_START
    requires x == Wrap(payload, start)
    ensures Accepted(x)
  {
    hide ActualSize, SizeAsEncoded;
    ReadWrapped(payload, start, []);
    assert x + [] == x;
  }

  /** The item that sizeAsEncoded measures is itself accepted by the VeryStrict constructor. */
  lemma FrontIsAccepted(d: seq<byte>)
    requires d != [] && SizeAsEncoded(d).Ok?
    ensures Accepted(d[..SizeAsEncoded(d).value])
  {
    if IsSingleByte(d) {
    } else {
      hide ActualSize, SizeAsEncoded, Wrap, Length;
      var start := if IsList(d) then LIST_START else DATA_START;
      FrontIsWrapped(d, start);
      var len, k := Length(d).value, PayloadOffset(d);
      WholeItemIsAccepted(d[..SizeAsEncoded(d).value], d[k..k + len], start);
    }
  }

  lemma SizeMeans(d: seq<byte>)
    requires d != [] && SizeAsEncoded(d).Ok? && !IsSingleByte(d)
    ensures Length(d).Ok? && SizeAsEncoded(d).value == PayloadOffset(d) + Length(d).value <= |d|
  {
    hide Length;
  }

  /** The front of the bytes is a payload behind the canonical header. */
  lemma FrontIsWrapped(d: seq<byte>, start: byte)
    requires d != [] && SizeAsEncoded(d).Ok? && !IsSingleByte(d)
    requires start == if IsList(d) then LIST_START else DATA_START
    ensures Length(d).Ok? && PayloadOffset(d) + Length(d).value <= |d|
    ensures var payload := d[PayloadOffset(d)..PayloadOffset(d) + Length(d).value];
            && |payload| < READ_LIMIT && d[..SizeAsEncoded(d).value] == Wrap(payload, start)
            && (start == DATA_START && |payload| == 1 ==> payload[0] >= DATA_START)
  {
    hide SizeAsEncoded, Length, Header;
    SizeMeans(d);
    HeaderIsCanonical(d);
    var len, k := Length(d).value, PayloadOffset(d);
    assert d[..k + len] == d[..k] + d[k..k + len];
    if start == DATA_START && len == 1 {
      DataOffset(d);
    }
  }

  lemma DataOffset(d: seq<byte>)
    requires IsData(d) && !IsSingleByte(d) && Length(d) == Ok(1)
    ensures PayloadOffset(d) == 1
  {
  }

  /** Splitting succeeds exactly on the concatenations of accepted items, and returns them. */
  lemma {:induction false} SplitIff(p: seq<byte>, xs: seq<seq<byte>>)
    ensures Split(p) == Ok(xs) <==> p == Flatten(xs) && AllAccepted(xs)
    decreases |xs|
  {
    hide SizeAsEncoded, ActualSize;
    if xs != [] {
      if Split(p) == Ok(xs) {
        var n := SizeAsEncoded(p).value;
        SplitIff(p[n..], xs[1..]);
        FrontIsAccepted(p);
        assert xs[0] == p[..n] && xs == [xs[0]] + xs[1..];
        assert p == p[..n] + p[n..];
      }
      if p == Flatten(xs) && AllAccepted(xs) {
        AcceptedFront(xs[0], Flatten(xs[1..]));
        assert p[|xs[0]|..] == Flatten(xs[1..]);
        SplitIff(Flatten(xs[1..]), xs[1..]);
        assert xs == [xs[0]] + xs[1..];
      }
    }
  }

  function EncodeEach(ts: seq<Tree>): (xs: seq<seq<byte>>)
    ensures |xs| == |ts| && forall i :: 0 <= i < |ts| ==> xs[i] == Encode(ts[i])
  {
    if ts == [] then [] else [Encode(ts[0])] + EncodeEach(ts[1..])
  }

  /** The encodings of the items of a list are what its payload splits into. */
  lemma {:induction false} SplitEncodings(ts: seq<Tree>)
    requires AllWithin(ts, READ_LIMIT)
    ensures Split(EncodeAll(ts)) == Ok(EncodeEach(ts))
  {
    if ts != [] {
      var front, rest := Encode(ts[0]), EncodeAll(ts[1..]);
      var p := front + rest;
      ReadFront(ts[0], rest);
      assert p[..|front|] == front && p[|front|..] == rest;
      SplitEncodings(ts[1..]);
      assert SizeAsEncoded(p) == Ok(|front|) && p != [];
    }
  }

  lemma {:induction false} FlattenConcat(xs: seq<seq<byte>>, ys: seq<seq<byte>>)
    ensures Flatten(xs + ys) == Flatten(xs) + Flatten(ys)
  {
    if xs == [] {
      assert xs + ys == ys;
    } else {
      assert (xs + ys)[1..] == xs[1..] + ys;
      FlattenConcat(xs[1..], ys);
    }
  }

  /** Where item k of a split payload begins, the rest of the payload splits into the later items. */
  lemma SplitFrom(p: seq<byte>, xs: seq<seq<byte>>, k: nat)
    requires Split(p) == Ok(xs) && k <= |xs|
    ensures |Flatten(xs[..k])| <= |p|
    ensures p[|Flatten(xs[..k])|..] == Flatten(xs[k..])
    ensures Split(Flatten(xs[k..])) == Ok(xs[k..])
  {
    SplitIff(p, xs);
    FlattenSplit(xs, k);
    SplitIff(Flatten(xs[k..]), xs[k..]);
  }

  lemma FlattenSplit(xs: seq<seq<byte>>, k: nat)
    requires k <= |xs|
    ensures Flatten(xs) == Flatten(xs[..k]) + Flatten(xs[k..])
  {
    assert xs == xs[..k] + xs[k..];
    FlattenConcat(xs[..k], xs[k..]);
  }

  lemma FlattenPrefixStep(xs: seq<seq<byte>>, k: nat)
    requires k < |xs|
    ensures Flatten(xs[..k + 1]) == Flatten(xs[..k]) + xs[k]
  {
    assert xs[..k + 1] == xs[..k] + [xs[k]];
    FlattenConcat(xs[..k], [xs[k]]);
    assert Flatten([xs[k]]) == xs[k] + Flatten([]);
  }

  // ----- loops

  /** The shifting loop of length(), together with the tests around it. */
  method ReadLength(d: seq<byte>) returns (r: Result<nat>)
    ensures r == Length(d)
  {
    if d == [] {
      return Ok(0);
    }
    var good := RequireGood(d);
    if good.Err? {
      return Err(good.error);
    }
    var n := d[0];
    if n < DATA_START {
      return Ok(1);
    } else if n <= 0xb7 {
      return Ok(n - DATA_START);
    } else if LIST_START <= n <= 0xf7 {
      return Ok(n - LIST_START);
    }
    var lengthSize := if n < LIST_START then n - 0xb7 else n - 0xf7;
    if |d| <= lengthSize || d[1] == 0 {
      return Err(BadRlp);
    }
    var ret := 0;
    for i := 0 to lengthSize
      invariant ret == Value(d[1..1 + i])
    {
      assert d[1..1 + (i + 1)] == d[1..1 + i] + [d[i + 1]];
      ValueAppend(d[1..1 + i], d[i + 1]);
      ret := ret * 256 + d[i + 1];
    }
    if ret < IMMEDIATE_COUNT {
      return Err(BadRlp);
    } else if ret >= READ_LIMIT {
      return Err(UndersizeRlp);
    }
    return Ok(ret);
  }

  /** items(): counts by cropping one item after another until the payload is used up. */
  method Items(data: seq<byte>) returns (r: Result<nat>)
    ensures !IsList(data) ==> r == Ok(0)
    ensures IsList(data) && Payload(data).Ok? && Split(Payload(data).value).Ok?
            ==> r == Ok(|Split(Payload(data).value).value|)
    ensures IsList(data) && (Payload(data).Err? || Split(Payload(data).value).Err?) ==> r.Err?
  {
    if !IsList(data) {
      return Ok(0);
    }
    var payload := Payload(data);
    if payload.Err? {
      return Err(payload.error);
    }
    var d := payload.value;
    var i := 0;
    while d != []
      invariant Split(d).Ok? <==> Split(payload.value).Ok?
      invariant Split(d).Ok? ==> i + |Split(d).value| == |Split(payload.value).value|
      decreases |d|
    {
      var n := SizeAsEncoded(d);
      if n.Err? {
        return Err(n.error);
      }
      d := d[n.value..];
      i := i + 1;
    }
    return Ok(i);
  }
}
