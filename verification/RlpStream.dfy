/** The streaming RLP encoder (class RLPStream of libdevcore/RLP.h and RLP.cpp).

    Every operation is proved equal to RlpBuilder.Apply on the abstract state; what the state
    means is proved there. */
module RlpStream {
  import opened CommonData
  import opened RlpFormat
  import opened RlpBuilder
  import opened Wrappers

  lemma LowDigit(v: nat, tail: seq<byte>)
    requires v > 0
    ensures ByteLength(v) == 1 + ByteLength(v / 256)
    ensures Compact(v) + tail == Compact(v / 256) + ([v % 256] + tail)
  {
    var front := Compact(v / 256);
    assert Compact(v) == front + [v % 256];
    assert (front + [v % 256]) + tail == front + ([v % 256] + tail);
  }

  lemma StoreByte(buffer: seq<byte>, b: nat, x: byte, tail: seq<byte>)
    requires b < |buffer|
    ensures (buffer[..b + 1] + tail)[b := x] == buffer[..b] + ([x] + tail)
  {
  }

  lemma NothingToStore()
    ensures ByteLength(0) == 0 && Compact(0) == []
  {
  }

  /** Storing a number low byte first, moving left from index last, until nothing is left. */
  method WriteBackwards(buffer: seq<byte>, last: int, value: nat) returns (r: seq<byte>)
    requires ByteLength(value) - 1 <= last < |buffer|
    ensures r == buffer[..last + 1 - ByteLength(value)] + Compact(value) + buffer[last + 1..]
  {
    hide Compact, ByteLength;
    NothingToStore();
    r := buffer;
    var b, v := last, value;
    ghost var tail: seq<byte> := buffer[last + 1..];
    while v != 0
      invariant 0 <= ByteLength(v) <= b + 1 <= last + 1
      invariant b + 1 - ByteLength(v) == last + 1 - ByteLength(value)
      invariant r == buffer[..b + 1] + tail
      invariant Compact(v) + tail == Compact(value) + buffer[last + 1..]
      decreases v
    {
      var digit: byte := v % 256;
      LowDigit(v, tail);
      StoreByte(buffer, b, digit, tail);
      r := r[b := digit];
      tail := [digit] + tail;
      b, v := b - 1, v / 256;
    }
    assert [] + tail == tail;
  }

  class RlpStream {
    var out: seq<byte>
    var listStack: seq<Pending>

    function State(): Stream
      reads this
    {
      Stream(out, listStack)
    }

    ghost predicate Valid()
      reads this
    {
      State().Valid()
    }

    /** The outcome reported agrees with the expected one and, on success, so does the state. */
    ghost predicate Matches(o: Outcome<()>, expected: Outcome<Stream>)
      reads this
    {
      match expected
      case Done(s) => o.Done? && State() == s
      case ItemCountTooLarge => o.ItemCountTooLarge?
      case TooLargeForRlp => o.TooLargeForRlp?
    }

    constructor Empty()
      ensures Valid() && State() == EMPTY_STREAM
    {
      out, listStack := [], [];
    }

    /** A stream that begins as a list of the given number of items. */
    constructor OfList(items: nat)
      ensures Valid() && Done(State()) == Apply(EMPTY_STREAM, RlpBuilder.AppendList(items))
    {
      out, listStack := [], [];
      new;
      var o := AppendList(items);
    }

    /** Resizing and moving the bytes from p on to the right by n. */
    method MakeRoom(p: nat, n: nat)
      requires p <= |out|
      modifies this`out
      ensures exists gap :: |gap| == n && out == old(out)[..p] + gap + old(out)[p..]
    {
      var os := |out|;
      out := out + seq(n, _ => 0);
      ghost var gap := out[p..p + n];
      out := out[..p + n] + out[p..os];
      assert out == old(out)[..p] + gap + old(out)[p..];
    }

    /** The header byte of a long list and, behind it, the digits of its size, low digit first. */
    method StoreLongHeader(p: nat, s: nat, ghost before: seq<byte>, ghost gap: seq<byte>, ghost payload: seq<byte>)
      requires p == |before| && 0 < ByteLength(s) <= 8 && |gap| == 1 + ByteLength(s)
      requires out == before + gap + payload
      modifies this`out
      ensures out == before + ([0xf7 + ByteLength(s)] + Compact(s)) + payload
    {
      hide Compact, ByteLength;
      var brs := BytesRequired(s);
      ghost var first: byte := 0xf7 + brs;
      out := out[p := 0xf7 + brs];
      assert out == before + ([first] + gap[1..]) + payload;
      assert out[..p + 1] == before + [first] && out[p + brs + 1..] == payload;
      out := WriteBackwards(out, p + brs, s);
    }

    /** Puts a list header in front of the bytes from p on. */
    method InsertListHeader(p: nat) returns (o: Outcome<()>)
      requires p <= |out|
      modifies this`out
      ensures o == if |old(out)| - p < SIZE_LIMIT then Done(()) else TooLargeForRlp
      ensures o.Done? ==> out == InsertHeader(old(out), p)
      ensures |out| > |old(out)|
    {
      hide Header, ByteLength, Compact;
      var s := |out| - p;
      var brs := BytesRequired(s);
      SizeLimitBytes(s);
      if s < SIZE_LIMIT {
        HeaderBytes(s, LIST_START);
      }
      ghost var before, payload := out[..p], out[p..];
      MakeRoom(p, if s < IMMEDIATE_COUNT then 1 else 1 + brs);
      ghost var gap: seq<byte> :|
        |gap| == (if s < IMMEDIATE_COUNT then 1 else 1 + brs) && out == before + gap + payload;
      if s < IMMEDIATE_COUNT {
        out := out[p := LIST_START + s];
        assert out == before + [LIST_START + s] + payload;
      } else if 0xf7 + brs <= 0xff {
        StoreLongHeader(p, s, before, gap, payload);
      } else {
        return TooLargeForRlp;
      }
      return Done(());
    }

    method NoteAppended(itemCount: nat) returns (o: Outcome<()>)
      requires Valid()
      modifies this
      ensures Valid() && Matches(o, RlpBuilder.NoteAppended(old(State()), itemCount))
      ensures o.ItemCountTooLarge? ==> State() == old(State())
    {
      hide InsertHeader, RlpBuilder.NoteAppended, Stream.Valid;
      NothingNoted(old(State()));
      if itemCount == 0 {
        return Done(());
      }
      var count := itemCount;
      while |listStack| != 0
        invariant Valid() && count > 0
        invariant RlpBuilder.NoteAppended(State(), count) == RlpBuilder.NoteAppended(old(State()), itemCount)
        invariant (State() == old(State()) && count == itemCount) || count == 1
        decreases |listStack|
      {
        ghost var here := State();
        NoteStep(here, count);
        var last := |listStack| - 1;
        var top := listStack[last];
        if top.remaining < count {
          return ItemCountTooLarge;
        }
        listStack := listStack[last := top.(remaining := top.remaining - count)];
        if listStack[last].remaining != 0 {
          assert listStack == here.stack[..last] + [top.(remaining := top.remaining - count)];
          break;
        }
        listStack := listStack[..last];
        var inserted := InsertListHeader(top.start);
        if inserted.TooLargeForRlp? {
          return inserted;
        }
        count := 1;
      }
      if |listStack| == 0 {
        NoteClosed(State(), count);
      }
      return Done(());
    }

    /** appendRaw: bytes that the caller vouches to be the given number of items. */
    method AppendRaw(raw: seq<byte>, itemCount: nat) returns (o: Outcome<()>)
      requires Valid()
      modifies this
      ensures Valid() && Matches(o, Apply(old(State()), RlpBuilder.AppendRaw(raw, itemCount)))
      ensures o.ItemCountTooLarge? ==> State() == Stream(old(out) + raw, old(listStack))
    {
      out := out + raw;
      o := NoteAppended(itemCount);
    }

    method PushInt(value: nat, br: nat)
      requires br == ByteLength(value)
      modifies this`out
      ensures out == old(out) + Compact(value)
    {
      ghost var before := out;
      out := out + seq(br, _ => 0);
      out := WriteBackwards(out, |out| - 1, value);
      assert out == before + Compact(value);
    }

    /** pushCount: the header byte and the length of a payload that is not short. */
    method PushCount(count: nat, base: byte) returns (o: Outcome<()>)
      modifies this`out
      ensures o == if ByteLength(count) + base > 0xff then TooLargeForRlp else Done(())
      ensures o.Done? ==> out == old(out) + [base + ByteLength(count)] + Compact(count)
      ensures o.TooLargeForRlp? ==> out == old(out)
    {
      var br := BytesRequired(count);
      if br + base > 0xff {
        return TooLargeForRlp;
      }
      out := out + [br + base];
      PushInt(count, br);
      return Done(());
    }

    /** The header of a payload: a short one in one byte, else the length behind pushCount's byte. */
    method PushHeader(n: nat, start: byte)
      requires n < SIZE_LIMIT && (start == DATA_START || start == LIST_START)
      modifies this`out
      ensures out == old(out) + Header(n, start)
    {
      hide Header, ByteLength, Compact;
      HeaderBytes(n, start);
      if n < IMMEDIATE_COUNT {
        out := out + [start + n];
      } else {
        var pushed := PushCount(n, start + 55);
      }
    }

    /** A byte string behind its header, or alone when it is its own encoding. */
    method PushData(bytes: seq<byte>)
      requires |bytes| < SIZE_LIMIT
      modifies this`out
      ensures out == old(out) + EncodeBytes(bytes)
    {
      hide Header;
      if |bytes| == 1 && bytes[0] < DATA_START {
        out := out + [bytes[0]];
      } else {
        PushHeader(|bytes|, DATA_START);
        out := out + bytes;
      }
    }

    /** append(bytes): leading zeros are dropped first when compact is set. */
    method AppendBytes(bytes: seq<byte>, compact: bool) returns (o: Outcome<()>)
      requires Valid() && RlpBuilder.AppendBytes(bytes, compact).Fits()
      modifies this
      ensures Valid() && Matches(o, Apply(old(State()), RlpBuilder.AppendBytes(bytes, compact)))
    {
      var d := 0;
      if compact {
        while d < |bytes| && bytes[d] == 0
          invariant d <= |bytes|
          invariant StripZeros(bytes[d..]) == StripZeros(bytes)
        {
          assert bytes[d..][1..] == bytes[d + 1..];
          d := d + 1;
        }
      }
      assert bytes[d..] == if compact then StripZeros(bytes) else bytes;
      hide EncodeBytes;
      PushData(bytes[d..]);
      o := NoteAppended(1);
    }

    /** The header of a number of br bytes, whose own length may need a length. */
    method PushNumberHeader(br: nat)
      requires br < 0x1_0000_0000
      modifies this`out
      ensures out == old(out) + Header(br, DATA_START)
    {
      hide Header, Compact, ByteLength;
      HeaderBytes(br, DATA_START);
      if br < IMMEDIATE_COUNT {
        out := out + [DATA_START + br];
      } else {
        var brbr := BytesRequired(br);
        out := out + [0xb7 + brbr];
        PushInt(br, brbr);
      }
    }

    /** The bytes that append(bigint) writes. */
    method PushNumber(value: nat)
      requires ByteLength(value) < 0x1_0000_0000
      modifies this`out
      ensures out == old(out) + EncodeBytes(Compact(value))
    {
      hide EncodeBytes, Header, Compact, ByteLength;
      NumberEncoding(value);
      if value == 0 {
        out := out + [DATA_START];
      } else if value < DATA_START {
        out := out + [value];
      } else {
        var br := BytesRequired(value);
        PushNumberHeader(br);
        PushInt(value, br);
      }
    }

    /** append(bigint): the shortest big-endian form of a number. */
    method AppendInt(value: nat) returns (o: Outcome<()>)
      requires Valid() && RlpBuilder.AppendInt(value).Fits()
      modifies this
      ensures Valid() && Matches(o, Apply(old(State()), RlpBuilder.AppendInt(value)))
    {
      hide EncodeBytes;
      PushNumber(value);
      o := NoteAppended(1);
    }

    method AppendList(items: nat) returns (o: Outcome<()>)
      requires Valid()
      modifies this
      ensures Valid() && Matches(o, Apply(old(State()), RlpBuilder.AppendList(items)))
    {
      if items != 0 {
        listStack := listStack + [Pending(items, |out|)];
        return Done(());
      } else {
        assert Wrap([], LIST_START) == [LIST_START];
        o := AppendListPayload([]);
      }
    }

    /** appendList(bytes): a whole list whose payload is already serialised. */
    method AppendListPayload(payload: seq<byte>) returns (o: Outcome<()>)
      requires Valid() && RlpBuilder.AppendListPayload(payload).Fits()
      modifies this
      ensures Valid() && Matches(o, Apply(old(State()), RlpBuilder.AppendListPayload(payload)))
    {
      hide Header;
      ghost var before := out;
      PushHeader(|payload|, LIST_START);
      assert out + payload == before + Wrap(payload, LIST_START);
      hide Wrap, RlpBuilder.NoteAppended;
      o := AppendRaw(payload, 1);
    }

    /** out: the bytes, unless a list is still open. */
    method Out() returns (o: Option<seq<byte>>)
      ensures o == if listStack == [] then Some(out) else None
    {
      return if listStack != [] then None else Some(out);
    }
  }

  lemma NothingNoted(s: Stream)
    requires s.Valid()
    ensures RlpBuilder.NoteAppended(s, 0) == Done(s)
  {
  }

  lemma NoteClosed(s: Stream, count: nat)
    requires s.Valid() && s.stack == []
    ensures RlpBuilder.NoteAppended(s, count) == Done(s)
  {
  }

  /** One turn of the closing loop. */
  lemma NoteStep(s: Stream, count: nat)
    requires s.Valid() && count > 0 && s.stack != []
    ensures var top, below := s.stack[|s.stack| - 1], s.stack[..|s.stack| - 1];
            var noted := RlpBuilder.NoteAppended(s, count);
            && top.start <= |s.out| && top.remaining > 0 && (top.remaining < count ==> noted == ItemCountTooLarge)
            && (top.remaining > count ==>
                  var left := s.(stack := below + [top.(remaining := top.remaining - count)]);
                  noted == Done(left) && left.Valid())
            && (top.remaining == count && |s.out| - top.start >= SIZE_LIMIT ==>
                  noted == TooLargeForRlp && forall out :: |out| >= |s.out| ==> Stream(out, below).Valid())
            && (top.remaining == count && |s.out| - top.start < SIZE_LIMIT ==>
                  var closed := Stream(InsertHeader(s.out, top.start), below);
                  closed.Valid() && noted == RlpBuilder.NoteAppended(closed, 1))
  {
    hide Header;
  }

  lemma OneDigit(value: nat)
    ensures 0 < value < 256 <==> ByteLength(value) == 1
    ensures 0 < value < 256 ==> Compact(value) == [value]
  {
    assert ByteLength(value / 256) == 0 <==> value / 256 == 0;
    if 0 < value < 256 {
      assert Digits(value, 1) == Digits(value / 256, 0) + [value % 256];
    }
  }

  lemma HeaderBytes(n: nat, start: byte)
    requires n < SIZE_LIMIT && (start == DATA_START || start == LIST_START)
    ensures ByteLength(n) <= 8 && (n > 0 ==> ByteLength(n) > 0)
    ensures Header(n, start) ==
            if n < IMMEDIATE_COUNT then [start + n] else [start + 55 + ByteLength(n)] + Compact(n)
  {
    SizeLimitBytes(n);
  }

  /** Zero is an empty string, a number below 128 its own encoding, any other gets a header. */
  lemma NumberEncoding(value: nat)
    requires ByteLength(value) < 0x1_0000_0000
    ensures EncodeBytes(Compact(value)) ==
            if value == 0 then [DATA_START]
            else if value < DATA_START then [value]
            else Header(ByteLength(value), DATA_START) + Compact(value)
  {
    OneDigit(value);
  }
}
