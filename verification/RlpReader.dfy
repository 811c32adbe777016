/** The strict RLP reader (class RLP of libdevcore/RLP.h and RLP.cpp), as functions of the bytes an
    object refers to. Exceptions are Err results; a null object refers to no bytes. */
module RlpReader {
  import opened CommonData
  import opened RlpFormat

  datatype Error = BadRlp | UndersizeRlp | OversizeRlp | BadCast

  datatype Result<+T> = Ok(value: T) | Err(error: Error) {
    predicate IsFailure() {
      Err?
    }

    function PropagateFailure<U>(): Result<U>
      requires Err?
    {
      Err(error)
    }

    function Extract(): T
      requires Ok?
    {
      value
    }
  }

  /** Conversion flags. */
  datatype Strictness = Strictness(allowNonCanon: bool, throwOnFail: bool, failIfTooBig: bool, failIfTooSmall: bool)

  const STRICT := Strictness(false, true, true, false)
  const VERY_STRICT := Strictness(false, true, true, true)

  predicate IsSingleByte(d: seq<byte>) {
    d != [] && d[0] < DATA_START
  }

  predicate IsData(d: seq<byte>) {
    d != [] && d[0] < LIST_START
  }

  predicate IsList(d: seq<byte>) {
    d != [] && d[0] >= LIST_START
  }

  /** Refuses a byte below 0x80 that is written behind a header. */
  function RequireGood(d: seq<byte>): Result<()> {
    if d == [] then Err(BadRlp)
    else if d[0] != DATA_START + 1 then Ok(())
    else if |d| < 2 then Err(BadRlp)
    else if d[1] < DATA_START then Err(BadRlp)
    else Ok(())
  }

  function LengthSize(d: seq<byte>): nat {
    if IsData(d) && d[0] > 0xb7 then d[0] - 0xb7
    else if IsList(d) && d[0] > 0xf7 then d[0] - 0xf7
    else 0
  }

  function PayloadOffset(d: seq<byte>): nat {
    if IsSingleByte(d) then 0 else 1 + LengthSize(d)
  }

  /** The payload length announced by the header. */
  function Length(d: seq<byte>): Result<nat> {
    if d == [] then Ok(0)
    else
      var _ :- RequireGood(d);
      var n := d[0];
      if n < DATA_START then Ok(1)
      else if n <= 0xb7 then Ok(n - DATA_START)
      else if n < LIST_START then LongLength(d, n - 0xb7)
      else if n <= 0xf7 then Ok(n - LIST_START)
      else LongLength(d, n - 0xf7)
  }

  function LongLength(d: seq<byte>, lengthSize: nat): Result<nat>
    requires 0 < lengthSize
  {
    if |d| <= lengthSize then Err(BadRlp)
    else if d[1] == 0 then Err(BadRlp)
    else if lengthSize > 8 then Err(UndersizeRlp)
    else
      var ret := Value(d[1..1 + lengthSize]);
      if ret < IMMEDIATE_COUNT then Err(BadRlp)
      else if ret >= READ_LIMIT then Err(UndersizeRlp)
      else Ok(ret)
  }

  function ActualSize(d: seq<byte>): (r: Result<nat>)
    ensures d != [] && r.Ok? ==> r.value > 0
  {
    if d == [] then Ok(0)
    else if IsSingleByte(d) then Ok(1)
    else
      var n :- Length(d);
      Ok(PayloadOffset(d) + n)
  }

  /** The constructor: the bytes the object refers to, none if it was reset. */
  function Construct(d: seq<byte>, s: Strictness): Result<seq<byte>> {
    var tooBig :- if s.failIfTooBig then TooBig(d, d) else Ok(false);
    if tooBig && s.throwOnFail then Err(OversizeRlp)
    else
      var kept := if tooBig then [] else d;
      var tooSmall :- if s.failIfTooSmall then TooSmall(kept, d) else Ok(false);
      if tooSmall && s.throwOnFail then Err(UndersizeRlp)
      else Ok(if tooSmall then [] else kept)
  }

  function TooBig(kept: seq<byte>, d: seq<byte>): Result<bool> {
    var n :- ActualSize(kept);
    Ok(n < |d|)
  }

  function TooSmall(kept: seq<byte>, d: seq<byte>): Result<bool> {
    var n :- ActualSize(kept);
    Ok(n > |d|)
  }

  /** sizeAsEncoded: the size of the item at the front of d, which must be complete. */
  function SizeAsEncoded(d: seq<byte>): (r: Result<nat>)
    ensures r.Ok? ==> r.value <= |d| && (d != [] ==> r.value > 0)
    ensures d == [] ==> r == Ok(0)
  {
    var kept :- Construct(d, Strictness(false, true, false, true));
    ActualSize(kept)
  }

  function Crop(d: seq<byte>, begin: nat, count: nat): seq<byte> {
    if begin + count <= |d| then d[begin..begin + count] else []
  }

  function Payload(d: seq<byte>): (r: Result<seq<byte>>)
    ensures r.Ok? && d != [] && !IsSingleByte(d) ==> |r.value| < |d|
  {
    var n :- Length(d);
    if n > |d| then Err(BadRlp) else Ok(Crop(d, PayloadOffset(d), n))
  }

  function ToBytes(d: seq<byte>): Result<seq<byte>> {
    if !IsData(d) then Ok([]) else Payload(d)
  }

  function IsInt(d: seq<byte>): Result<bool> {
    if d == [] then Ok(false)
    else
      var _ :- RequireGood(d);
      var n := d[0];
      if n < DATA_START then Ok(n != 0)
      else if n == DATA_START then Ok(true)
      else if n <= 0xb7 then
        if |d| <= 1 then Err(BadRlp) else Ok(d[1] != 0)
      else if n < LIST_START then
        if |d| <= 1 + n - 0xb7 then Err(BadRlp) else Ok(d[1 + n - 0xb7] != 0)
      else Ok(false)
  }

  /** toInt for a target type of the given width in bytes. */
  function ToInt(d: seq<byte>, width: nat, flags: Strictness): Result<nat> {
    var _ :- RequireGood(d);
    var isInt :- IsInt(d);
    if (!isInt && !flags.allowNonCanon) || IsList(d) then CastFailure(0, flags)
    else
      var p :- Payload(d);
      if |p| > width && flags.failIfTooBig then CastFailure(0, flags)
      else Ok(Value(p) % Pow256(width))
  }

  function CastFailure<T>(default: T, flags: Strictness): Result<T> {
    if flags.throwOnFail then Err(BadCast) else Ok(default)
  }

  function Zeros(n: nat): seq<byte> {
    seq(n, _ => 0)
  }

  /** toHash: the payload right-aligned in n bytes; a longer one is cut at n bytes unless refused. */
  function ToHash(d: seq<byte>, n: nat, flags: Strictness): (r: Result<seq<byte>>)
    ensures r.Ok? ==> |r.value| == n
  {
    var _ :- RequireGood(d);
    var p :- Payload(d);
    if !IsData(d) || (|p| > n && flags.failIfTooBig) || (|p| < n && flags.failIfTooSmall) then
      CastFailure(Zeros(n), flags)
    else
      var s := if |p| < n then |p| else n;
      Ok(Zeros(n - s) + p[..s])
  }

  // ----- headers read back

  /** The reader finds the length a header was written for. */
  lemma ReadHeader(n: nat, start: byte, rest: seq<byte>)
    requires n < READ_LIMIT && (start == DATA_START || start == LIST_START)
    requires start == DATA_START && n == 1 ==> rest != [] && rest[0] >= DATA_START
    ensures var d := Header(n, start) + rest;
            && Length(d) == Ok(n) && PayloadOffset(d) == |Header(n, start)|
            && !IsSingleByte(d) && (IsList(d) <==> start == LIST_START)
  {
    var d := Header(n, start) + rest;
    SizeLimitBytes(n);
    if n >= IMMEDIATE_COUNT {
      var k := ByteLength(n);
      assert d[0] == start + 55 + k;
      CompactDecodes(n);
      assert d[1..1 + k] == Compact(n);
      assert d[1] == Compact(n)[0];
      assert LongLength(d, k) == Ok(n);
    }
  }

  /** In numbers: a length that the encoder writes is read exactly if 257 can be added to it in 64 bits. */
  lemma LengthIsReadIff(n: nat, start: byte, rest: seq<byte>)
    requires n < SIZE_LIMIT && (start == DATA_START || start == LIST_START)
    requires start == DATA_START && n == 1 ==> rest != [] && rest[0] >= DATA_START
    ensures Length(Header(n, start) + rest) ==
            if n + 257 < 0x1_0000_0000_0000_0000 then Ok(n) else Err(UndersizeRlp)
  {
    if n + 257 < 0x1_0000_0000_0000_0000 {
      ReadHeader(n, start, rest);
    } else {
      LongIsRefused(n, start, rest);
    }
  }

  lemma LongIsRefused(n: nat, start: byte, rest: seq<byte>)
    requires READ_LIMIT <= n < SIZE_LIMIT && (start == DATA_START || start == LIST_START)
    ensures Length(Header(n, start) + rest) == Err(UndersizeRlp)
  {
    var d, k := Header(n, start) + rest, ByteLength(n);
    SizeLimitBytes(n);
    CompactDecodes(n);
    assert d[0] == start + 55 + k;
    assert d[1..1 + k] == Compact(n);
    assert d[1] == Compact(n)[0];
    assert LongLength(d, k) == Err(UndersizeRlp);
  }

  /** A long length that is accepted has its shortest form. */
  lemma LongLengthIsCanonical(d: seq<byte>, k: nat)
    requires 0 < k && LongLength(d, k).Ok?
    ensures var n := LongLength(d, k).value;
            && k <= 8 && k < |d| && IMMEDIATE_COUNT <= n < READ_LIMIT
            && ByteLength(n) == k && d[..1 + k] == [d[0]] + Compact(n)
  {
    var digits := d[1..1 + k];
    assert digits[0] == d[1];
    CompactShortest(digits);
    assert d[..1 + k] == [d[0]] + digits;
  }

  /** Whatever header the reader accepts is the one the encoder writes. */
  lemma HeaderIsCanonical(d: seq<byte>)
    requires d != [] && !IsSingleByte(d) && Length(d).Ok?
    ensures var n := Length(d).value;
            && n < READ_LIMIT && PayloadOffset(d) <= |d|
            && d[..PayloadOffset(d)] == Header(n, if IsList(d) then LIST_START else DATA_START)
            && (IsData(d) && n == 1 ==> |d| > 1 && d[1] >= DATA_START)
  {
    hide LongLength, Compact, ByteLength;
    var n := Length(d).value;
    var k := LengthSize(d);
    if k > 0 {
      LongLengthIsCanonical(d, k);
      assert LongLength(d, k) == Ok(n);
    } else {
      assert d[..1] == [d[0]];
    }
  }

  // ----- one item at the front of a byte string

  /** A payload behind its header, followed by anything, is read as exactly that item. */
  lemma ReadWrapped(payload: seq<byte>, start: byte, rest: seq<byte>)
    requires |payload| < READ_LIMIT && (start == DATA_START || start == LIST_START)
    requires start == DATA_START && |payload| == 1 ==> payload[0] >= DATA_START
    ensures var d := Wrap(payload, start) + rest;
            && ActualSize(d) == Ok(|Wrap(payload, start)|) && SizeAsEncoded(d) == Ok(|Wrap(payload, start)|)
            && (IsData(d) <==> start == DATA_START)
  {
    assert Wrap(payload, start) + rest == Header(|payload|, start) + (payload + rest);
    ReadHeader(|payload|, start, payload + rest);
  }

  /** An encoded tree followed by anything is read as exactly that item. */
  lemma ReadFront(t: Tree, rest: seq<byte>)
    requires Within(t, READ_LIMIT)
    ensures Encode(t) != []
    ensures ActualSize(Encode(t) + rest) == Ok(|Encode(t)|)
    ensures SizeAsEncoded(Encode(t) + rest) == Ok(|Encode(t)|)
    ensures IsData(Encode(t) + rest) <==> t.Data?
  {
    if t.Data? && |t.bytes| == 1 && t.bytes[0] < DATA_START {
      assert (Encode(t) + rest)[0] == t.bytes[0];
    } else if t.Data? {
      ReadWrapped(t.bytes, DATA_START, rest);
    } else {
      ReadWrapped(EncodeAll(t.items), LIST_START, rest);
    }
  }

  lemma ReadPayload(t: Tree)
    requires Within(t, READ_LIMIT)
    ensures Payload(Encode(t)) == Ok(if t.Data? then t.bytes else EncodeAll(t.items))
  {
    var d := Encode(t);
    if t.Data? && |t.bytes| == 1 && t.bytes[0] < DATA_START {
      assert Crop(d, 0, 1) == t.bytes;
    } else {
      var payload := if t.Data? then t.bytes else EncodeAll(t.items);
      var start := if t.Data? then DATA_START else LIST_START;
      assert d == Header(|payload|, start) + payload;
      ReadHeader(|payload|, start, payload);
      assert Crop(d, PayloadOffset(d), |payload|) == payload;
    }
  }

  /** An accepted string of bytes is its payload behind the canonical header. */
  lemma AcceptedIsCanonical(d: seq<byte>)
    requires d != [] && ActualSize(d) == Ok(|d|)
    ensures Payload(d).Ok? && |Payload(d).value| < READ_LIMIT
    ensures IsData(d) ==> d == EncodeBytes(Payload(d).value)
    ensures IsList(d) ==> d == Wrap(Payload(d).value, LIST_START) && |Payload(d).value| < |d|
  {
    if IsSingleByte(d) {
      assert Crop(d, 0, 1) == [d[0]] == d;
    } else {
      HeaderIsCanonical(d);
      var k := PayloadOffset(d);
      assert Crop(d, k, |d| - k) == d[k..];
      assert d == d[..k] + d[k..];
    }
  }

  // ----- whole trees

  /** Reading a tree with the VeryStrict constructor at every level. */
  function Parse(d: seq<byte>): Result<Tree>
    decreases |d|, 1
  {
    var kept :- Construct(d, VERY_STRICT);
    if kept == [] then Err(BadCast)
    else if IsData(d) then
      var b :- ToBytes(d);
      Ok(Data(b))
    else
      var p :- Payload(d);
      var items :- ParseItems(p);
      Ok(List(items))
  }

  function ParseItems(p: seq<byte>): Result<seq<Tree>>
    decreases |p|, 2
  {
    if p == [] then Ok([])
    else
      var n :- SizeAsEncoded(p);
      var first :- Parse(p[..n]);
      var rest :- ParseItems(p[n..]);
      Ok([first] + rest)
  }

  lemma {:induction false} ParseEncoded(t: Tree)
    requires Within(t, READ_LIMIT)
    ensures Parse(Encode(t)) == Ok(t)
    decreases t, 1
  {
    var d := Encode(t);
    assert d + [] == d;
    ReadFront(t, []);
    ReadPayload(t);
    if t.List? {
      ParseEncodedAll(t.items);
    }
  }

  lemma {:induction false} ParseEncodedAll(ts: seq<Tree>)
    requires AllWithin(ts, READ_LIMIT)
    ensures ParseItems(EncodeAll(ts)) == Ok(ts)
    decreases ts, 0
  {
    if ts != [] {
      var front, rest := Encode(ts[0]), EncodeAll(ts[1..]);
      var p := front + rest;
      assert EncodeAll(ts) == p;
      ReadFront(ts[0], rest);
      assert SizeAsEncoded(p) == Ok(|front|) && p != [];
      assert p[..|front|] == front && p[|front|..] == rest;
      ParseEncoded(ts[0]);
      ParseEncodedAll(ts[1..]);
      assert [ts[0]] + ts[1..] == ts;
    }
  }

  lemma {:induction false} ParsedIsCanonical(d: seq<byte>)
    requires Parse(d).Ok?
    ensures Encode(Parse(d).value) == d && Within(Parse(d).value, READ_LIMIT)
    decreases |d|, 1
  {
    AcceptedIsCanonical(d);
    if IsList(d) {
      ParsedItemsAreCanonical(Payload(d).value);
    }
  }

  lemma {:induction false} ParsedItemsAreCanonical(p: seq<byte>)
    requires ParseItems(p).Ok?
    ensures EncodeAll(ParseItems(p).value) == p && AllWithin(ParseItems(p).value, READ_LIMIT)
    decreases |p|, 2
  {
    hide SizeAsEncoded, Parse, ParseItems, Encode;
    if p == [] {
      NothingParsed();
    } else {
      ItemsUnfold(p);
      var n := SizeAsEncoded(p).value;
      ParsedIsCanonical(p[..n]);
      ParsedItemsAreCanonical(p[n..]);
      var first, rest := Parse(p[..n]).value, ParseItems(p[n..]).value;
      assert ([first] + rest)[1..] == rest;
      assert p == p[..n] + p[n..];
    }
  }

  lemma NothingParsed()
    ensures ParseItems([]) == Ok([])
  {
  }

  lemma ItemsUnfold(p: seq<byte>)
    requires p != [] && ParseItems(p).Ok?
    ensures SizeAsEncoded(p).Ok?
    ensures var n := SizeAsEncoded(p).value;
            && Parse(p[..n]).Ok? && ParseItems(p[n..]).Ok?
            && ParseItems(p) == Ok([Parse(p[..n]).value] + ParseItems(p[n..]).value)
  {
    hide SizeAsEncoded, Parse;
  }

  /** The strict reader and the encoder are mutual inverses: a string reads as a tree exactly when
      it is that tree's encoding, for every tree whose payloads the reader can hold. */
  lemma ParseIff(d: seq<byte>, t: Tree)
    ensures Parse(d) == Ok(t) <==> d == Encode(t) && Within(t, READ_LIMIT)
  {
    if Parse(d) == Ok(t) {
      ParsedIsCanonical(d);
    }
    if d == Encode(t) && Within(t, READ_LIMIT) {
      ParseEncoded(t);
    }
  }

  /** A tree that has an encoding of fewer than 2^63 bytes is within the limit at every level. */
  lemma {:induction false} ShortIsWithin(t: Tree)
    requires Encodable(t) && |Encode(t)| < 0x8000_0000_0000_0000
    ensures Within(t, READ_LIMIT)
    decreases t, 1
  {
    if t.List? {
      ShortAreWithin(t.items);
    }
  }

  lemma {:induction false} ShortAreWithin(ts: seq<Tree>)
    requires AllWithin(ts, SIZE_LIMIT) && |EncodeAll(ts)| < 0x8000_0000_0000_0000
    ensures AllWithin(ts, READ_LIMIT)
    decreases ts, 0
  {
    if ts != [] {
      ShortIsWithin(ts[0]);
      ShortAreWithin(ts[1..]);
    }
  }

  /** So every encoding of fewer than 2^63 bytes is read back. */
  lemma ShortIsRead(t: Tree)
    requires Encodable(t) && |Encode(t)| < 0x8000_0000_0000_0000
    ensures Parse(Encode(t)) == Ok(t)
  {
    ShortIsWithin(t);
    ParseEncoded(t);
  }

  /** No two accepted strings denote the same tree. */
  lemma Unambiguous(d: seq<byte>, e: seq<byte>)
    requires Parse(d).Ok? && Parse(d) == Parse(e)
    ensures d == e
  {
    ParsedIsCanonical(d);
    ParsedIsCanonical(e);
  }
}
