/** operator[] of class RLP and its cache.

    Scan is the answer of a walk from the front of the payload. The cursor of the cache is proved to
    agree with it for any earlier calls, on any bytes, with one exception: a failed call leaves the
    cursor half moved. */
module RlpIndex {
  import opened CommonData
  import opened RlpCursor
  import opened RlpFormat
  import opened RlpReader
  import opened RlpScalars

  function ItemAt(xs: seq<seq<byte>>, i: nat): seq<byte> {
    if i < |xs| then xs[i] else []
  }

  function CropFrom(d: seq<byte>, begin: nat): seq<byte> {
    if begin <= |d| then d[begin..] else []
  }

  /** Where item k of a payload begins, or the end of the payload if it has no more items. */
  function Start(p: seq<byte>, k: nat): (r: Result<nat>)
    ensures r.Ok? ==> r.value <= |p|
  {
    if k == 0 then Ok(0)
    else
      var s :- Start(p, k - 1);
      var n :- SizeAsEncoded(p[s..]);
      Ok(s + n)
  }

  /** Item i of a payload by a walk from the front, null past the last. */
  function Scan(p: seq<byte>, i: nat): Result<seq<byte>> {
    var s :- Start(p, i);
    var n :- SizeAsEncoded(p[s..]);
    Ok(p[s..s + n])
  }

  /** What a new object over the bytes answers for item i. */
  function Answer(d: seq<byte>, i: nat): Result<seq<byte>> {
    var p :- Payload(d);
    Scan(p, i)
  }

  // ----- the walk and the scan of the whole payload

  lemma StartNext(p: seq<byte>, k: nat)
    ensures Start(p, 0) == Ok(0)
    ensures Start(p, k).Err? ==> Start(p, k + 1) == Start(p, k)
    ensures Start(p, k).Ok? ==>
      var s := Start(p, k).value;
      var r := SizeAsEncoded(p[s..]);
      Start(p, k + 1) == if r.Ok? then Ok(s + r.value) else Err(r.error)
  {
    hide SizeAsEncoded;
  }

  lemma {:induction false} StartShift(p: seq<byte>, k: nat)
    requires SizeAsEncoded(p).Ok?
    ensures var n := SizeAsEncoded(p).value;
            var r := Start(p[n..], k);
            Start(p, k + 1) == if r.Ok? then Ok(n + r.value) else Err(r.error)
  {
    hide SizeAsEncoded, Start;
    var n := SizeAsEncoded(p).value;
    StartNext(p, k);
    if k == 0 {
      assert p[0..] == p;
      StartNext(p[n..], 0);
    } else {
      StartShift(p, k - 1);
      StartNext(p[n..], k - 1);
      if Start(p[n..], k - 1).Ok? {
        var s := Start(p[n..], k - 1).value;
        assert p[n..][s..] == p[n + s..];
      }
    }
  }

  lemma ScanShift(p: seq<byte>, i: nat)
    requires SizeAsEncoded(p).Ok?
    ensures Scan(p, i + 1) == Scan(p[SizeAsEncoded(p).value..], i)
  {
    hide SizeAsEncoded, Start;
    var n := SizeAsEncoded(p).value;
    StartShift(p, i);
    if Start(p[n..], i).Ok? {
      var s := Start(p[n..], i).value;
      assert p[n..][s..] == p[n + s..];
      if SizeAsEncoded(p[n + s..]).Ok? {
        var m := SizeAsEncoded(p[n + s..]).value;
        assert p[n..][s..s + m] == p[n + s..n + s + m];
      }
    }
  }

  lemma ScanFirst(p: seq<byte>)
    ensures var r := SizeAsEncoded(p);
            Scan(p, 0) == if r.Ok? then Ok(p[..r.value]) else Err(r.error)
  {
    hide SizeAsEncoded, Start;
    StartNext(p, 0);
    assert p[0..] == p;
  }

  lemma {:induction false} ScanNothing(i: nat)
    ensures Start([], i) == Ok(0) && Scan([], i) == Ok([])
  {
    assert SizeAsEncoded([]) == Ok(0);
    hide SizeAsEncoded;
    if i > 0 {
      ScanNothing(i - 1);
    }
  }

  /** On a payload that splits, the walks find the items it splits into. */
  lemma {:induction false} ScanOfSplit(p: seq<byte>, i: nat)
    requires Split(p).Ok?
    ensures Scan(p, i) == Ok(ItemAt(Split(p).value, i))
    decreases i
  {
    hide SizeAsEncoded, Scan;
    if p == [] {
      ScanNothing(i);
    } else {
      ScanFirst(p);
      if i > 0 {
        ScanShift(p, i - 1);
        ScanOfSplit(p[SizeAsEncoded(p).value..], i - 1);
      }
    }
  }

  /** An answer is null or an accepted item. */
  lemma AnswerIsAccepted(d: seq<byte>, i: nat)
    requires Answer(d, i).Ok? && Answer(d, i).value != []
    ensures Accepted(Answer(d, i).value)
  {
    hide SizeAsEncoded, Payload, ActualSize;
    var p := Payload(d).value;
    var s := Start(p, i).value;
    var n := SizeAsEncoded(p[s..]).value;
    assert p[s..][..n] == p[s..s + n];
    FrontIsAccepted(p[s..]);
  }

  /** A walk that has failed fails for all later items too. */
  lemma {:induction false} FailsFrom(p: seq<byte>, k: nat, i: nat)
    requires Start(p, k).Ok? && Scan(p, k).Err? && k <= i
    ensures Scan(p, i) == Err(Scan(p, k).error)
    ensures k < i ==> Start(p, i) == Err(Scan(p, k).error)
  {
    hide SizeAsEncoded;
    if k < i {
      FailsFrom(p, k, i - 1);
    }
  }

  /** A walk that finds nothing has reached the end of the payload and finds nothing more. */
  lemma {:induction false} NothingFrom(p: seq<byte>, k: nat, i: nat)
    requires Scan(p, k) == Ok([]) && k <= i
    ensures Scan(p, i) == Ok([]) && Start(p, i) == Ok(|p|)
  {
    hide SizeAsEncoded, Start;
    if k == i {
      var s := Start(p, k).value;
      var n := SizeAsEncoded(p[s..]).value;
      assert |p[s..s + n]| == n;
    } else {
      NothingFrom(p, k, i - 1);
      StartNext(p, i - 1);
      assert p[|p|..] == [];
    }
  }

  /** What a walk finds is accepted by the constructor, and what stops it is not. */
  lemma ScannedIsConstructed(d: seq<byte>)
    ensures SizeAsEncoded(d).Ok? ==> ConstructItem(d[..SizeAsEncoded(d).value]) == Ok(d[..SizeAsEncoded(d).value])
    ensures SizeAsEncoded(d).Err? ==> ConstructItem(d) == Err(SizeAsEncoded(d).error)
  {
    if d != [] && SizeAsEncoded(d).Ok? {
      FrontIsAccepted(d);
    }
  }

  /** Strings are indexed too, byte string by byte string: only an empty one has no item. */
  lemma StringsAreIndexed(d: seq<byte>)
    requires IsData(d) && Payload(d).Ok?
    ensures Scan(Payload(d).value, 0) == Ok([]) <==> Payload(d).value == []
  {
    hide SizeAsEncoded, Payload;
    ScanFirst(Payload(d).value);
  }

  // ----- the cache

  /** RLP(item, ThrowOnFail | FailIfTooSmall). */
  function ConstructItem(d: seq<byte>): Result<seq<byte>> {
    Construct(d, Strictness(false, true, false, true))
  }

  /** An RLP object with its indexing cache. */
  class Rlp {
    const data: seq<byte>
    var lastIndex: nat
    var lastEnd: nat
    var lastItem: seq<byte>

    /** Nothing has been indexed yet. */
    ghost predicate Fresh()
      reads this
    {
      lastIndex == SIZE_LIMIT - 1 && lastItem == []
    }

    /** The cursor holds an item, or null past the last, and where it ends. */
    ghost predicate Settled()
      reads this
    {
      Payload(data).Ok?
      && var p := Payload(data).value;
         Scan(p, lastIndex) == Ok(lastItem) && Start(p, lastIndex + 1) == Ok(lastEnd)
    }

    /** Measuring the item after lastIndex has failed, and the unmeasured rest is in its place. */
    ghost predicate Stuck()
      reads this
    {
      Payload(data).Ok?
      && var p := Payload(data).value;
         && Start(p, lastIndex + 1) == Ok(lastEnd) && lastItem == p[lastEnd..]
         && Scan(p, lastIndex + 1).Err?
    }

    /** Item i is the one before the failure. */
    ghost predicate Loses(i: nat)
      reads this
    {
      Stuck() && lastIndex == i
    }

    ghost predicate Valid()
      reads this
    {
      Fresh() || Settled() || Stuck()
    }

    constructor (data: seq<byte>)
      ensures Valid() && Fresh() && this.data == data
    {
      this.data := data;
      lastIndex, lastEnd, lastItem := SIZE_LIMIT - 1, 0, [];
    }

    /** A settled cursor holds an item that the constructor takes, a stuck one bytes that it refuses. */
    lemma ItemOfState()
      ensures Settled() ==> ConstructItem(lastItem) == Ok(lastItem) && !Stuck()
      ensures Stuck() ==> lastItem != [] && ConstructItem(lastItem) == Answer(data, lastIndex + 1)
      ensures Stuck() ==> Answer(data, lastIndex).Ok?
    {
      hide ConstructItem, SizeAsEncoded, Payload;
      if Payload(data).Ok? {
        var p := Payload(data).value;
        if Start(p, lastIndex + 1).Ok? {
          var s, end := Start(p, lastIndex).value, Start(p, lastIndex + 1).value;
          ScannedIsConstructed(p[s..]);
          ScannedIsConstructed(p[end..]);
          assert p[s..][..end - s] == p[s..end];
        }
      }
    }

    /** operator[]: for any earlier calls the answer of a new object, except that after the failure of
        a later index the item before it is lost, and that the largest index asked first is null. */
    method Index(i: nat) returns (r: Result<seq<byte>>)
      requires Valid() && i < SIZE_LIMIT
      modifies this
      ensures Valid()
      ensures old(Loses(i)) ==> r.Err? && r == Answer(data, i + 1) && Answer(data, i).Ok?
      ensures old(Fresh()) && i == SIZE_LIMIT - 1 ==> r == Ok([])
      ensures !old(Loses(i)) && !(old(Fresh()) && i == SIZE_LIMIT - 1) ==> r == Answer(data, i)
      ensures r.Ok? ==> !Stuck()
      ensures r.Err? && Answer(data, 0).Ok? ==> Stuck()
    {
      hide ConstructItem, SizeAsEncoded, Payload, Start, Scan;
      ItemOfState();
      var payload := Payload(data);
      if i < lastIndex {
        if payload.Err? {
          return Err(payload.error);
        }
        var end := SizeAsEncoded(payload.value);
        AtFirst(payload.value, i);
        if end.Err? {
          return Err(end.error);
        }
        lastEnd := end.value;
        lastItem := Crop(payload.value, 0, lastEnd);
        lastIndex := 0;
        ItemOfState();
      }
      while lastIndex < i && lastItem != []
        invariant lastIndex <= i && Valid()
        invariant Fresh() && !Settled() ==> i == SIZE_LIMIT - 1 && old(Fresh())
        invariant Stuck() ==> old(Stuck()) && lastIndex == old(lastIndex)
        invariant old(Loses(i)) ==> Stuck()
        invariant old(Fresh()) && i == SIZE_LIMIT - 1 ==> lastItem == []
        decreases i - lastIndex
      {
        AtNext(payload.value, lastIndex, i);
        ItemOfState();
        lastItem := CropFrom(payload.value, lastEnd);
        var n := SizeAsEncoded(lastItem);
        if n.Err? {
          return Err(n.error);
        }
        assert lastItem[0..n.value] == payload.value[lastEnd..lastEnd + n.value];
        lastItem := Crop(lastItem, 0, n.value);
        lastEnd := lastEnd + |lastItem|;
        lastIndex := lastIndex + 1;
        ItemOfState();
      }
      ItemOfState();
      NullIsConstructed();
      if Settled() && lastItem == [] {
        NothingFrom(payload.value, lastIndex, i);
      }
      r := ConstructItem(lastItem);
    }
  }

  lemma NullIsConstructed()
    ensures ConstructItem([]) == Ok([])
  {
  }

  /** The first item, where a walk starts. */
  lemma AtFirst(p: seq<byte>, i: nat)
    ensures var r := SizeAsEncoded(p);
            && (r.Ok? ==> Scan(p, 0) == Ok(p[..r.value]) && Start(p, 1) == Ok(r.value))
            && (r.Err? ==> Scan(p, 0) == Scan(p, i) == Err(r.error))
  {
    hide SizeAsEncoded;
    ScanFirst(p);
    assert p[0..] == p && Start(p, 0) == Ok(0);
    if SizeAsEncoded(p).Err? {
      FailsFrom(p, 0, i);
    }
  }

  /** One move of the cursor, from item k to the next. */
  lemma AtNext(p: seq<byte>, k: nat, i: nat)
    requires Start(p, k + 1).Ok? && k < i
    ensures var end := Start(p, k + 1).value;
            var r := SizeAsEncoded(p[end..]);
            && (r.Ok? ==> Scan(p, k + 1) == Ok(p[end..end + r.value]) && Start(p, k + 2) == Ok(end + r.value))
            && (r.Err? ==> Scan(p, k + 1) == Err(r.error) && Scan(p, i) == Err(r.error))
  {
    hide SizeAsEncoded;
    if Scan(p, k + 1).Err? {
      FailsFrom(p, k + 1, i);
    }
  }

  /** A list of the item 01 and half an item: asking for the second makes the first unreadable. */
  method FailedCallLosesItem(data: seq<byte>)
    returns (before: Result<seq<byte>>, failed: Result<seq<byte>>, after: Result<seq<byte>>)
    requires data == [0xc2, 0x01, 0x82]
    ensures before == Ok([0x01]) && failed.Err? && after.Err?
  {
    hide Payload, Start, Scan;
    ghost var p := data[1..];
    OneItemAndHalf(data, p);
    var list := new Rlp(data);
    before := list.Index(0);
    failed := list.Index(1);
    if list.lastIndex > 0 {
      FailsFrom(p, 1, list.lastIndex + 1);
    }
    after := list.Index(0);
  }

  lemma OneItemAndHalf(d: seq<byte>, p: seq<byte>)
    requires d == [0xc2, 0x01, 0x82] && p == [0x01, 0x82]
    ensures Payload(d) == Ok(p) && Scan(p, 0) == Ok([0x01]) && Start(p, 1).Ok? && Scan(p, 1).Err?
  {
    hide Start;
    assert d[1..3] == p;
    assert SizeAsEncoded(p) == Ok(1);
    assert p[1..] == [0x82];
    assert SizeAsEncoded(p[1..]).Err?;
    hide SizeAsEncoded;
    ScanFirst(p);
    StartNext(p, 0);
    assert p[0..] == p && p[..1] == [0x01];
  }
}
