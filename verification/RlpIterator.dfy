/** The iterator of class RLP and toList(), which runs it from begin() to end().

    An iterator is compared with end() by the address and the size of its item, so a loop over a list
    whose payload does not end where its bytes end can miss end(). First and Following are one turn
    of it as functions; After is any number of turns of the loop in toList(). */
module RlpIterator {
  import opened CommonData
  import opened RlpCursor
  import opened RlpReader
  import opened RlpScalars
  import opened Wrappers

  /** Where the payload of a list ends, which need not be where its bytes end. */
  function PayloadEnd(data: seq<byte>): nat
    requires Length(data).Ok?
  {
    PayloadOffset(data) + Length(data).value
  }

  /** What an iterator over the bytes of a list holds: its item as a position and a size, without a
      position if cropping has made it null, and the number of payload bytes after it. */
  datatype Place = Place(pos: Option<nat>, count: nat, remaining: nat) {
    /** Comparison with end(), which lies at the end of the bytes and is not null. */
    predicate AtEnd(data: seq<byte>) {
      pos == Some(|data|) && count == 0
    }

    /** A null item stays null; otherwise item and remaining bytes fill the payload from pos on. */
    ghost predicate In(data: seq<byte>) {
      && Length(data).Ok?
      && match pos
         case None => PayloadEnd(data) > |data| && count == remaining == 0
         case Some(p) =>
           && PayloadEnd(data) <= |data| && p + count + remaining == PayloadEnd(data)
           && (count == 0 ==> remaining == 0)
    }

    /** The bytes of the item. */
    function Item(data: seq<byte>): seq<byte>
      requires In(data)
    {
      if pos.None? then [] else data[pos.value..pos.value + count]
    }

    /** The bytes from the item to the end of the payload. */
    function Rest(data: seq<byte>): seq<byte>
      requires In(data)
    {
      if pos.None? then [] else data[pos.value..PayloadEnd(data)]
    }
  }

  /** begin(): the first item of the payload, which is null if the announced payload leaves the bytes. */
  function First(data: seq<byte>): Result<Place>
    requires IsList(data)
  {
    var payload :- Payload(data);
    var n :- SizeAsEncoded(payload);
    Ok(Place(if PayloadEnd(data) <= |data| then Some(PayloadOffset(data)) else None, n, |payload| - n))
  }

  /** operator++: the next item takes its size from the bytes that remain; with none it has no bytes. */
  function Following(data: seq<byte>, s: Place): Result<Place>
    requires s.In(data)
  {
    match s.pos
    case None => Ok(s)
    case Some(p) =>
      var next := p + s.count;
      if s.remaining == 0 then Ok(Place(Some(next), 0, 0))
      else
        var n :- SizeAsEncoded(data[next..next + s.remaining]);
        Ok(Place(Some(next), n, s.remaining - n))
  }

  /** At begin() everything is still to come, and the item is the front of it. */
  lemma FirstMeans(data: seq<byte>)
    requires IsList(data)
    ensures First(data).Ok? <==> Payload(data).Ok? && SizeAsEncoded(Payload(data).value).Ok?
    ensures First(data).Ok? ==>
      var s := First(data).value;
      s.In(data) && s.Rest(data) == Payload(data).value && SizeAsEncoded(s.Rest(data)) == Ok(s.count)
    ensures First(data).Err? ==>
      Payload(data) == Err(First(data).error)
      || (Payload(data).Ok? && SizeAsEncoded(Payload(data).value) == Err(First(data).error))
  {
    hide SizeAsEncoded, Length;
  }

  /** A step drops the item from what is still to come. */
  lemma FollowingMeans(data: seq<byte>, s: Place)
    requires s.In(data) && s.count <= |s.Rest(data)|
    ensures s.Item(data) == s.Rest(data)[..s.count]
    ensures var rest, r := s.Rest(data)[s.count..], Following(data, s);
            && (r.Ok? <==> SizeAsEncoded(rest).Ok?)
            && (r.Err? ==> SizeAsEncoded(rest) == Err(r.error))
            && (r.Ok? ==> r.value.In(data) && r.value.Rest(data) == rest && SizeAsEncoded(rest) == Ok(r.value.count))
  {
    hide SizeAsEncoded, Length;
    SizeOfNothing();
  }

  lemma SizeOfNothing()
    ensures SizeAsEncoded([]) == Ok(0)
  {
  }

  // ----- how long the loop runs

  /** One turn of the loop in toList(): the item goes through the VeryStrict constructor, then ++. */
  function Turn(data: seq<byte>, s: Place): Result<Place>
    requires s.In(data)
  {
    var _ :- Construct(s.Item(data), VERY_STRICT);
    Following(data, s)
  }

  /** Where the loop is after n turns, or earlier if an exception or end() has stopped it before. */
  ghost function After(data: seq<byte>, n: nat): (r: Result<Place>)
    requires IsList(data)
    ensures r.Ok? ==> r.value.In(data) && SizeAsEncoded(r.value.Rest(data)) == Ok(r.value.count)
  {
    hide SizeAsEncoded, Length, Construct;
    if n == 0 then
      FirstMeans(data);
      First(data)
    else
      var s :- After(data, n - 1);
      FollowingMeans(data, s);
      if s.AtEnd(data) then Ok(s) else Turn(data, s)
  }

  ghost predicate Stopped(data: seq<byte>, n: nat)
    requires IsList(data)
  {
    After(data, n).Err? || After(data, n).value.AtEnd(data)
  }

  /** toList() comes to an end, with a result or an exception. */
  ghost predicate Returns(data: seq<byte>) {
    IsList(data) ==> exists n :: Stopped(data, n)
  }

  /** Each item of a payload that splits passes, and what follows it splits. */
  lemma TurnOfItem(data: seq<byte>, s: Place)
    requires s.In(data) && SizeAsEncoded(s.Rest(data)) == Ok(s.count)
    ensures Turn(data, s).Ok? <==> SizeAsEncoded(s.Rest(data)[s.count..]).Ok?
    ensures Turn(data, s).Ok? ==> Turn(data, s) == Following(data, s)
  {
    hide SizeAsEncoded, Length, Construct, ActualSize;
    FollowingMeans(data, s);
    var here := s.Rest(data);
    if here == [] {
      SizeOfNothing();
      ConstructNothing();
    } else {
      FrontIsAccepted(here);
      AcceptedIsConstructed(s.Item(data));
    }
  }

  lemma ConstructNothing()
    ensures Construct([], VERY_STRICT) == Ok([])
  {
  }

  /** From an object whose payload of whole items does not end with its bytes, no turn stops. */
  lemma {:induction false} NeverThere(data: seq<byte>, n: nat)
    requires IsList(data) && Payload(data).Ok? && Split(Payload(data).value).Ok? && !Accepted(data)
    ensures !Stopped(data, n) && Split(After(data, n).value.Rest(data)).Ok?
  {
    hide SizeAsEncoded, Payload, Construct, Turn, Following, First;
    PayloadOfOther(data);
    if n == 0 {
      FirstMeans(data);
      SplitNeedsSize(Payload(data).value);
    } else {
      NeverThere(data, n - 1);
      var s := After(data, n - 1).value;
      var here := s.Rest(data);
      SplitRest(here);
      SplitNeedsSize(here[s.count..]);
      TurnOfItem(data, s);
      FollowingMeans(data, s);
    }
  }

  lemma SplitNeedsSize(p: seq<byte>)
    ensures SizeAsEncoded(p).Err? ==> Split(p) == Err(SizeAsEncoded(p).error)
  {
  }

  lemma SplitRest(p: seq<byte>)
    requires SizeAsEncoded(p).Ok?
    ensures Split(p).Ok? <==> Split(p[SizeAsEncoded(p).value..]).Ok?
  {
    hide SizeAsEncoded;
    SizeOfNothing();
  }

  lemma PayloadOfOther(data: seq<byte>)
    requires IsList(data) && Payload(data).Ok?
    ensures Length(data).Ok? && (Accepted(data) <==> PayloadEnd(data) == |data|)
  {
  }

  /** From any place, either an item fails or the end of the payload is reached. */
  lemma {:induction false} GetsThere(data: seq<byte>, n: nat)
    requires IsList(data) && After(data, n).Ok?
    requires Split(After(data, n).value.Rest(data)).Ok? ==> PayloadEnd(data) == |data|
    ensures exists m :: Stopped(data, m)
    decreases |After(data, n).value.Rest(data)|
  {
    hide SizeAsEncoded, Construct, Turn, Following, First, Length, Split;
    var s := After(data, n).value;
    var here := s.Rest(data);
    SplitNothing();
    if s.AtEnd(data) {
      assert Stopped(data, n);
    } else {
      assert here != [];
      TurnOfItem(data, s);
      FollowingMeans(data, s);
      SplitRest(here);
      assert After(data, n + 1) == Turn(data, s);
      if Turn(data, s).Err? {
        assert Stopped(data, n + 1);
      } else {
        GetsThere(data, n + 1);
      }
    }
  }

  lemma SplitNothing()
    ensures Split([]) == Ok([])
  {
  }

  /** toList() returns exactly from objects that are no list, whose payload fails or does not split
      into whole items, or whose bytes are what the VeryStrict constructor accepts. */
  lemma ReturnsIff(data: seq<byte>)
    ensures Returns(data) <==>
            || !IsList(data) || Payload(data).Err? || Split(Payload(data).value).Err? || Accepted(data)
  {
    hide SizeAsEncoded, Payload, Split, First, Following, Construct, Length;
    if IsList(data) {
      FirstMeans(data);
      if First(data).Err? {
        assert Stopped(data, 0);
        if Payload(data).Ok? {
          SplitNeedsSize(Payload(data).value);
        }
      } else if Split(Payload(data).value).Ok? && !Accepted(data) {
        forall n ensures !Stopped(data, n) {
          NeverThere(data, n);
        }
      } else {
        PayloadOfOther(data);
        GetsThere(data, 0);
      }
    }
  }

  /** Two lists on which a lenient object loops for ever: one byte too many, and one byte missing. */
  lemma LoopsForEver(s: Strictness)
    ensures !s.failIfTooBig ==> Construct([0xc0, 0x01], s) == Ok([0xc0, 0x01]) && !Returns([0xc0, 0x01])
    ensures !s.failIfTooSmall ==> Construct([0xc2, 0x01], s) == Ok([0xc2, 0x01]) && !Returns([0xc2, 0x01])
  {
    ReturnsIff([0xc0, 0x01]);
    ReturnsIff([0xc2, 0x01]);
  }

  // ----- the class

  class Iterator {
    const data: seq<byte>
    var pos: Option<nat>
    var count: nat
    var remaining: nat

    ghost function Here(): Place
      reads this
    {
      Place(pos, count, remaining)
    }

    ghost predicate Valid()
      reads this
    {
      Here().In(data) && SizeAsEncoded(Rest()) == Ok(count)
    }

    /** The bytes from the current item to the end of the payload. */
    ghost function Rest(): seq<byte>
      requires Here().In(data)
      reads this
    {
      Here().Rest(data)
    }

    function Current(): seq<byte>
      requires Here().In(data)
      reads this
    {
      if pos.None? then [] else data[pos.value..pos.value + count]
    }

    predicate AtEnd()
      reads this
      ensures AtEnd() == Here().AtEnd(data)
    {
      pos == Some(|data|) && count == 0
    }

    constructor (data: seq<byte>)
      ensures this.data == data && pos == None && count == remaining == 0
    {
      this.data := data;
      pos, count, remaining := None, 0, 0;
    }

    /** begin(): the whole payload is still to come; the item is null if the payload leaves the bytes. */
    method Begin() returns (r: Result<()>)
      requires IsList(data)
      modifies this
      ensures First(data) == if r.Ok? then Ok(Here()) else Err(r.error)
      ensures r.Ok? <==> Payload(data).Ok? && SizeAsEncoded(Payload(data).value).Ok?
      ensures r.Ok? ==> Valid() && Rest() == Payload(data).value && (pos == None <==> PayloadEnd(data) > |data|)
    {
      hide SizeAsEncoded, Length;
      FirstMeans(data);
      var payload := Payload(data);
      if payload.Err? {
        return Err(payload.error);
      }
      var n := SizeAsEncoded(payload.value);
      if n.Err? {
        return Err(n.error);
      }
      pos := if PayloadEnd(data) <= |data| then Some(PayloadOffset(data)) else None;
      count := n.value;
      remaining := |payload.value| - count;
      return Ok(());
    }

    /** operator++: the next item takes its size from the bytes that remain. When none do, the
        iterator stands still, be that the end or not. */
    method Next() returns (r: Result<()>)
      requires Valid()
      modifies this
      ensures Following(data, old(Here())) == if r.Ok? then Ok(Here()) else Err(r.error)
      ensures r.Ok? <==> SizeAsEncoded(old(Rest())[old(count)..]).Ok?
      ensures r.Ok? ==> Valid() && Rest() == old(Rest())[old(count)..]
      ensures old(count) == 0 ==> r.Ok? && Here() == old(Here())
      ensures r.Err? ==> r.error == SizeAsEncoded(old(Rest())[old(count)..]).error
    {
      hide SizeAsEncoded, Length;
      SizeOfNothing();
      FollowingMeans(data, Here());
      if remaining > 0 {
        var next := pos.value + count;
        var n := SizeAsEncoded(data[next..next + remaining]);
        if n.Err? {
          return Err(n.error);
        }
        pos, count := Some(next), n.value;
        remaining := remaining - if remaining < count then remaining else count;
      } else {
        pos, count := if pos.None? then None else Some(pos.value + count), 0;
      }
      return Ok(());
    }
  }

  function Prepend(xs: seq<seq<byte>>, r: Result<seq<seq<byte>>>): Result<seq<seq<byte>>> {
    match r
    case Ok(ys) => Ok(xs + ys)
    case Err(e) => Err(e)
  }

  lemma PrependStep(xs: seq<seq<byte>>, d: seq<byte>)
    requires d != [] && SizeAsEncoded(d).Ok?
    ensures var n := SizeAsEncoded(d).value;
            Prepend(xs, Split(d)) == Prepend(xs + [d[..n]], Split(d[n..]))
    ensures Accepted(d[..SizeAsEncoded(d).value])
  {
    hide SizeAsEncoded, ActualSize;
    FrontIsAccepted(d);
    var n := SizeAsEncoded(d).value;
    if Split(d[n..]).Ok? {
      var ys := Split(d[n..]).value;
      assert xs + ([d[..n]] + ys) == (xs + [d[..n]]) + ys;
    }
  }

  /** The range-for loop: collects items up to end(), each through the VeryStrict constructor. It
      gets there only if the payload ends where the bytes end; otherwise an item must fail first. */
  method Collect(it: Iterator) returns (r: Result<seq<seq<byte>>>)
    requires it.Valid()
    requires Split(it.Rest()).Ok? ==> PayloadEnd(it.data) == |it.data|
    modifies it
    ensures r == Split(old(it.Rest()))
  {
    hide Construct, SizeAsEncoded, ActualSize, Length;
    SizeOfNothing();
    ghost var whole := Split(it.Rest());
    var ret := [];
    assert whole.Ok? ==> [] + whole.value == whole.value;
    while !it.AtEnd()
      invariant it.Valid()
      invariant whole == Prepend(ret, Split(it.Rest()))
      decreases |it.Rest()|
    {
      ghost var here := it.Rest();
      StillItems(it, whole, ret);
      PrependStep(ret, here);
      assert it.Current() == here[..it.count];
      AcceptedIsConstructed(it.Current());
      var item := Construct(it.Current(), VERY_STRICT).value;
      ret := ret + [item];
      var moved := it.Next();
      if moved.Err? {
        return Err(moved.error);
      }
    }
    assert it.Rest() == [] && ret + [] == ret;
    return Ok(ret);
  }

  /** Short of end() there is an item to look at. */
  lemma StillItems(it: Iterator, whole: Result<seq<seq<byte>>>, ret: seq<seq<byte>>)
    requires it.Valid() && !it.AtEnd()
    requires whole == Prepend(ret, Split(it.Rest()))
    requires whole.Ok? ==> PayloadEnd(it.data) == |it.data|
    ensures it.Rest() != [] && it.count > 0
  {
    hide Length;
  }

  /** toList(): the items from begin() to end(), from every object that it returns from. */
  method ToList(data: seq<byte>) returns (r: Result<seq<seq<byte>>>)
    requires Returns(data)
    ensures !IsList(data) ==> r == Ok([])
    ensures IsList(data) && Payload(data).Ok? ==> r == Split(Payload(data).value)
    ensures IsList(data) && Payload(data).Err? ==> r == Err(Payload(data).error)
  {
    hide Length, Split, SizeAsEncoded, ActualSize, Returns;
    if !IsList(data) {
      return Ok([]);
    }
    ReturnsIff(data);
    if Payload(data).Ok? {
      SplitNeedsSize(Payload(data).value);
      PayloadOfOther(data);
    }
    var it := new Iterator(data);
    var begun := it.Begin();
    if begun.Err? {
      return Err(begun.error);
    }
    r := Collect(it);
  }
}
