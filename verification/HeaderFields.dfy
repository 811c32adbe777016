/** The fields of a block header, the list they are written as, and what reading a list back yields
    (libethcore/BlockHeader.h and BlockHeader.cpp), as functions. */
module HeaderFields {
  import opened CommonData
  import opened RlpCursor
  import opened RlpFormat
  import opened RlpIndex
  import opened RlpReader
  import opened RlpScalars

  const BASIC_FIELDS: nat := 13

  /** Numbers that fit an unsigned. */
  const NUMBER_LIMIT: nat := 0x1_0000_0000

  datatype Fields = Fields(
    parentHash: seq<byte>,
    sha3Uncles: seq<byte>,
    coinbaseAddress: seq<byte>,
    stateRoot: seq<byte>,
    transactionsRoot: seq<byte>,
    receiptsRoot: seq<byte>,
    logBloom: seq<byte>,
    difficulty: nat,
    number: nat,
    gasLimit: nat,
    gasUsed: nat,
    timestamp: nat,
    extraData: seq<byte>)
  {
    /** The widths of the field types: h256, Address, LogBloom and u256. */
    ghost predicate Valid() {
      && |parentHash| == |sha3Uncles| == 32 && |coinbaseAddress| == 20
      && |stateRoot| == |transactionsRoot| == |receiptsRoot| == 32 && |logBloom| == 256
      && difficulty < Pow256(32) && number < Pow256(32)
      && gasLimit < Pow256(32) && gasUsed < Pow256(32) && timestamp < Pow256(32)
    }

    /** The byte string of each field in the order written. */
    function Strings(): (ss: seq<seq<byte>>)
      ensures |ss| == BASIC_FIELDS
    {
      [parentHash, sha3Uncles, coinbaseAddress, stateRoot, transactionsRoot, receiptsRoot, logBloom,
       Compact(difficulty), Compact(number), Compact(gasLimit), Compact(gasUsed), Compact(timestamp), extraData]
    }

    function Hashes(): (seq<byte>, seq<byte>, seq<byte>, seq<byte>, seq<byte>, seq<byte>, seq<byte>) {
      (parentHash, sha3Uncles, coinbaseAddress, stateRoot, transactionsRoot, receiptsRoot, logBloom)
    }

    function Tree(): Tree {
      List(Leaves(Strings()))
    }
  }

  function Leaves(ss: seq<seq<byte>>): (ts: seq<Tree>)
    ensures |ts| == |ss|
  {
    if ss == [] then [] else [Data(ss[0])] + Leaves(ss[1..])
  }

  function EncodeStrings(ss: seq<seq<byte>>): (xs: seq<seq<byte>>)
    ensures |xs| == |ss| && forall i :: 0 <= i < |ss| ==> xs[i] == EncodeBytes(ss[i])
  {
    hide EncodeBytes;
    if ss == [] then [] else [EncodeBytes(ss[0])] + EncodeStrings(ss[1..])
  }

  // ----- reading

  datatype Outcome = Read(fields: Fields) | BadField(error: Error) | InvalidNumber | TooMuchGasUsed

  function HashAt(d: seq<byte>, i: nat, n: nat): Result<seq<byte>> {
    var item :- Answer(d, i);
    ToHash(item, n, VERY_STRICT)
  }

  function NumberAt(d: seq<byte>, i: nat): Result<nat> {
    var item :- Answer(d, i);
    ToInt(item, 32, STRICT)
  }

  function StringAt(d: seq<byte>, i: nat): Result<seq<byte>> {
    var item :- Answer(d, i);
    ToBytes(item)
  }

  function HashesOf(d: seq<byte>)
    : Result<(seq<byte>, seq<byte>, seq<byte>, seq<byte>, seq<byte>, seq<byte>, seq<byte>)>
  {
    var parentHash :- HashAt(d, 0, 32);
    var sha3Uncles :- HashAt(d, 1, 32);
    var coinbaseAddress :- HashAt(d, 2, 20);
    var stateRoot :- HashAt(d, 3, 32);
    var transactionsRoot :- HashAt(d, 4, 32);
    var receiptsRoot :- HashAt(d, 5, 32);
    var logBloom :- HashAt(d, 6, 256);
    Ok((parentHash, sha3Uncles, coinbaseAddress, stateRoot, transactionsRoot, receiptsRoot, logBloom))
  }

  function NumbersOf(d: seq<byte>): Result<(nat, nat, nat, nat, nat)> {
    var difficulty :- NumberAt(d, 7);
    var number :- NumberAt(d, 8);
    var gasLimit :- NumberAt(d, 9);
    var gasUsed :- NumberAt(d, 10);
    var timestamp :- NumberAt(d, 11);
    Ok((difficulty, number, gasLimit, gasUsed, timestamp))
  }

  /** The thirteen conversions, in the order made. */
  function ReadFields(d: seq<byte>): Result<Fields> {
    var h :- HashesOf(d);
    var n :- NumbersOf(d);
    var extraData :- StringAt(d, 12);
    Ok(Fields(h.0, h.1, h.2, h.3, h.4, h.5, h.6, n.0, n.1, n.2, n.3, n.4, extraData))
  }

  /** What the bytes of any object read as, each item being the answer of a new object. */
  function ReadBytes(d: seq<byte>): Outcome {
    match ReadFields(d)
    case Err(e) => BadField(e)
    case Ok(h) =>
      if h.number >= NUMBER_LIMIT then InvalidNumber
      else if h.gasUsed > h.gasLimit then TooMuchGasUsed
      else Read(h)
  }

  lemma HashItem(d: seq<byte>, i: nat, n: nat, h: seq<byte>)
    requires n <= 256
    ensures HashAt(d, i, n) == Ok(h) <==> Answer(d, i) == Ok(EncodeBytes(h)) && |h| == n
  {
    hide ToHash, Answer, EncodeBytes, ActualSize;
    NullIsNoValue(n);
    if |h| == n {
      DataPayload(h);
    }
    if Answer(d, i).Ok? && Answer(d, i).value != [] {
      AnswerIsAccepted(d, i);
      ToHashIff(Answer(d, i).value, n, h);
    }
  }

  lemma NullIsNoValue(n: nat)
    ensures ToHash([], n, VERY_STRICT).Err? && ToInt([], n, STRICT).Err? && ToBytes([]) == Ok([])
  {
  }

  lemma CompactFits(v: nat)
    ensures v < Pow256(32) ==> |Compact(v)| <= 32
  {
    hide Pow256;
    ByteLengthBound(v, 32);
  }

  lemma NumberItem(d: seq<byte>, i: nat, v: nat)
    ensures NumberAt(d, i) == Ok(v) <==> Answer(d, i) == Ok(EncodeBytes(Compact(v))) && v < Pow256(32)
  {
    hide ToInt, Answer, Pow256, Compact, EncodeBytes, ActualSize;
    NullIsNoValue(32);
    CompactFits(v);
    if v < Pow256(32) {
      DataPayload(Compact(v));
    }
    if Answer(d, i).Ok? && Answer(d, i).value != [] {
      AnswerIsAccepted(d, i);
      ToIntIff(Answer(d, i).value, 32, v);
    }
  }

  /** The first twelve items are the encodings of the first twelve fields, which have their widths. */
  ghost predicate HoldsHashes(d: seq<byte>, h: Fields) {
    && Answer(d, 0) == Ok(EncodeBytes(h.parentHash)) && |h.parentHash| == 32
    && Answer(d, 1) == Ok(EncodeBytes(h.sha3Uncles)) && |h.sha3Uncles| == 32
    && Answer(d, 2) == Ok(EncodeBytes(h.coinbaseAddress)) && |h.coinbaseAddress| == 20
    && Answer(d, 3) == Ok(EncodeBytes(h.stateRoot)) && |h.stateRoot| == 32
    && Answer(d, 4) == Ok(EncodeBytes(h.transactionsRoot)) && |h.transactionsRoot| == 32
    && Answer(d, 5) == Ok(EncodeBytes(h.receiptsRoot)) && |h.receiptsRoot| == 32
    && Answer(d, 6) == Ok(EncodeBytes(h.logBloom)) && |h.logBloom| == 256
  }

  ghost predicate HoldsNumbers(d: seq<byte>, h: Fields) {
    && Answer(d, 7) == Ok(EncodeBytes(Compact(h.difficulty))) && h.difficulty < Pow256(32)
    && Answer(d, 8) == Ok(EncodeBytes(Compact(h.number))) && h.number < Pow256(32)
    && Answer(d, 9) == Ok(EncodeBytes(Compact(h.gasLimit))) && h.gasLimit < Pow256(32)
    && Answer(d, 10) == Ok(EncodeBytes(Compact(h.gasUsed))) && h.gasUsed < Pow256(32)
    && Answer(d, 11) == Ok(EncodeBytes(Compact(h.timestamp))) && h.timestamp < Pow256(32)
  }

  lemma HashesIff(d: seq<byte>, h: Fields)
    ensures HashesOf(d) == Ok(h.Hashes()) <==> HoldsHashes(d, h)
  {
    hide HashAt, Answer, EncodeBytes;
    HashItem(d, 0, 32, h.parentHash);
    HashItem(d, 1, 32, h.sha3Uncles);
    HashItem(d, 2, 20, h.coinbaseAddress);
    HashItem(d, 3, 32, h.stateRoot);
    HashItem(d, 4, 32, h.transactionsRoot);
    HashItem(d, 5, 32, h.receiptsRoot);
    HashItem(d, 6, 256, h.logBloom);
  }

  lemma NumbersIff(d: seq<byte>, h: Fields)
    ensures NumbersOf(d) == Ok((h.difficulty, h.number, h.gasLimit, h.gasUsed, h.timestamp)) <==> HoldsNumbers(d, h)
  {
    hide NumberAt, Answer, EncodeBytes, Compact, Pow256;
    NumberItem(d, 7, h.difficulty);
    NumberItem(d, 8, h.number);
    NumberItem(d, 9, h.gasLimit);
    NumberItem(d, 10, h.gasUsed);
    NumberItem(d, 11, h.timestamp);
  }

  /** Item i is the encoding of field i, for the first n fields. */
  ghost predicate HoldsFields(d: seq<byte>, h: Fields, n: nat)
    requires n <= BASIC_FIELDS
  {
    forall i :: 0 <= i < n ==> Answer(d, i) == Ok(EncodeStrings(h.Strings())[i])
  }

  lemma FirstTwelve(d: seq<byte>, h: Fields)
    ensures HoldsHashes(d, h) && HoldsNumbers(d, h) <==> h.Valid() && HoldsFields(d, h, 12)
  {
    hide EncodeBytes, Compact, Pow256, EncodeStrings, Answer;
  }

  /** A header is read from any bytes exactly when their first twelve items are the encodings of the
      first twelve fields and the two checks hold; the thirteenth item, or none, gives the extra data. */
  lemma ReadIff(d: seq<byte>, h: Fields)
    ensures ReadBytes(d) == Read(h) <==>
            && h.Valid() && h.number < NUMBER_LIMIT && h.gasUsed <= h.gasLimit
            && HoldsFields(d, h, 12) && StringAt(d, 12) == Ok(h.extraData)
  {
    hide HashesOf, NumbersOf, HoldsHashes, HoldsNumbers, HoldsFields, StringAt, Fields.Valid, Fields.Strings;
    HashesIff(d, h);
    NumbersIff(d, h);
    FirstTwelve(d, h);
  }

  // ----- round trips

  lemma {:induction false} EncodeLeaves(ss: seq<seq<byte>>)
    ensures EncodeEach(Leaves(ss)) == EncodeStrings(ss)
    ensures EncodeAll(Leaves(ss)) == Flatten(EncodeStrings(ss))
  {
    if ss != [] {
      EncodeLeaves(ss[1..]);
      assert Leaves(ss)[1..] == Leaves(ss[1..]);
      assert EncodeStrings(ss)[1..] == EncodeStrings(ss[1..]);
    }
  }

  lemma EncodeStringsPrefix(ss: seq<seq<byte>>, k: nat)
    requires k <= |ss|
    ensures EncodeStrings(ss[..k]) == EncodeStrings(ss)[..k]
  {
    hide EncodeStrings, EncodeBytes;
    var a, b := EncodeStrings(ss[..k]), EncodeStrings(ss)[..k];
    assert forall i :: 0 <= i < k ==> a[i] == EncodeBytes(ss[..k][i]) == b[i];
  }

  /** The items of an encoded header are its encoded fields. */
  lemma ItemsOfEncoded(h: Fields)
    requires Within(h.Tree(), READ_LIMIT)
    ensures var d, xs := Encode(h.Tree()), EncodeStrings(h.Strings());
            && Accepted(d) && IsList(d) && Payload(d) == Ok(Flatten(xs)) && Split(Flatten(xs)) == Ok(xs)
            && AllAccepted(xs)
  {
    hide ActualSize, Payload, Split, EncodeBytes, Compact, Fields.Strings;
    var ts := Leaves(h.Strings());
    EncodeLeaves(h.Strings());
    assert Encode(h.Tree()) + [] == Encode(h.Tree());
    RlpReader.ReadFront(h.Tree(), []);
    ReadPayload(h.Tree());
    SplitEncodings(ts);
    SplitIff(EncodeAll(ts), EncodeEach(ts));
  }

  lemma AnswersOfEncoded(h: Fields, i: nat)
    requires Within(h.Tree(), READ_LIMIT) && i < BASIC_FIELDS
    ensures Answer(Encode(h.Tree()), i) == Ok(EncodeStrings(h.Strings())[i])
  {
    hide Encode, Payload, Split, Scan, EncodeStrings, Within, Fields.Strings, Fields.Tree;
    ItemsOfEncoded(h);
    ScanOfSplit(Flatten(EncodeStrings(h.Strings())), i);
  }

  lemma EncodedSize(b: seq<byte>)
    requires |b| < SIZE_LIMIT
    ensures |EncodeBytes(b)| <= |b| + 9
  {
    SizeLimitBytes(|b|);
  }

  /** The sum of the lengths, with nine bytes for each header. */
  function Bound(ss: seq<seq<byte>>): nat {
    if ss == [] then 0 else |ss[0]| + 9 + Bound(ss[1..])
  }

  lemma {:induction false} EncodedWithin(ss: seq<seq<byte>>)
    requires Bound(ss) < READ_LIMIT
    ensures |EncodeAll(Leaves(ss))| <= Bound(ss) && AllWithin(Leaves(ss), READ_LIMIT)
  {
    hide EncodeBytes;
    if ss != [] {
      EncodedWithin(ss[1..]);
      EncodedSize(ss[0]);
      assert Leaves(ss)[0] == Data(ss[0]) && Leaves(ss)[1..] == Leaves(ss[1..]);
    }
  }

  lemma {:induction false} BoundOfShort(ss: seq<seq<byte>>)
    requires forall i :: 0 <= i < |ss| ==> |ss[i]| <= 256
    ensures Bound(ss) <= 265 * |ss|
  {
    if ss != [] {
      BoundOfShort(ss[1..]);
    }
  }

  lemma {:induction false} BoundConcat(ss: seq<seq<byte>>, last: seq<byte>)
    ensures Bound(ss + [last]) == Bound(ss) + |last| + 9
  {
    if ss == [] {
      assert ss + [last] == [last];
      assert Bound([last]) == |last| + 9 + Bound([]);
    } else {
      assert (ss + [last])[0] == ss[0] && (ss + [last])[1..] == ss[1..] + [last];
      BoundConcat(ss[1..], last);
    }
  }

  /** Every header that fits in memory is short enough to be read. */
  lemma HeaderIsReadable(h: Fields)
    requires h.Valid() && |h.extraData| < 0x8000_0000_0000_0000
    ensures Within(h.Tree(), READ_LIMIT)
  {
    hide Fields.Strings, Leaves, EncodeAll, AllWithin, Bound, Compact, Pow256;
    var ss := h.Strings();
    ShortFields(h);
    BoundOfShort(ss[..12]);
    BoundConcat(ss[..12], ss[12]);
    StringsInOrder(h);
    assert ss == ss[..12] + [ss[12]];
    EncodedWithin(ss);
  }

  lemma ShortFields(h: Fields)
    requires h.Valid()
    ensures forall i :: 0 <= i < 12 ==> |h.Strings()[i]| <= 256
  {
    hide Compact, Pow256;
    CompactFits(h.difficulty);
    CompactFits(h.number);
    CompactFits(h.gasLimit);
    CompactFits(h.gasUsed);
    CompactFits(h.timestamp);
  }

  /** Writing a header and reading the bytes back gives the same header exactly when its number
      fits 32 bits and it does not use more gas than its limit. */
  lemma RoundTripIff(h: Fields)
    requires h.Valid() && |h.extraData| < 0x8000_0000_0000_0000
    ensures ReadBytes(Encode(h.Tree())) == Read(h) <==> h.number < 0x1_0000_0000 && h.gasUsed <= h.gasLimit
  {
    hide Encode, ReadBytes, Within, Fields.Valid, Fields.Tree;
    HeaderIsReadable(h);
    RoundTripWithin(h);
  }

  lemma RoundTripWithin(h: Fields)
    requires h.Valid() && Within(h.Tree(), READ_LIMIT)
    ensures ReadBytes(Encode(h.Tree())) == Read(h) <==> h.number < 0x1_0000_0000 && h.gasUsed <= h.gasLimit
  {
    hide Encode, Answer, ReadBytes, EncodeStrings, ToBytes, Within, Fields.Valid, Fields.Strings, Fields.Tree,
         EncodeBytes, Compact;
    var d := Encode(h.Tree());
    ReadIff(d, h);
    forall i | 0 <= i < BASIC_FIELDS ensures Answer(d, i) == Ok(EncodeStrings(h.Strings())[i]) {
      AnswersOfEncoded(h, i);
    }
    StringsInOrder(h);
    assert EncodeStrings(h.Strings())[12] == EncodeBytes(h.Strings()[12]);
    ExtraDataFits(h);
    ToBytesOfEncoded(h.extraData);
  }

  lemma {:induction false} LeavesWithin(ss: seq<seq<byte>>, k: nat)
    requires AllWithin(Leaves(ss), READ_LIMIT) && k < |ss|
    ensures |ss[k]| < READ_LIMIT
  {
    assert Leaves(ss)[0] == Data(ss[0]) && Leaves(ss)[1..] == Leaves(ss[1..]);
    if k > 0 {
      LeavesWithin(ss[1..], k - 1);
    }
  }

  lemma ExtraDataFits(h: Fields)
    requires Within(h.Tree(), READ_LIMIT)
    ensures |h.extraData| < READ_LIMIT
  {
    hide Fields.Strings, Compact;
    StringsInOrder(h);
    LeavesWithin(h.Strings(), 12);
  }

  lemma StringsInOrder(h: Fields)
    ensures var ss := h.Strings();
            && ss[0] == h.parentHash && ss[1] == h.sha3Uncles && ss[2] == h.coinbaseAddress && ss[3] == h.stateRoot
            && ss[4] == h.transactionsRoot && ss[5] == h.receiptsRoot && ss[6] == h.logBloom
            && ss[7] == Compact(h.difficulty) && ss[8] == Compact(h.number) && ss[9] == Compact(h.gasLimit)
            && ss[10] == Compact(h.gasUsed) && ss[11] == Compact(h.timestamp) && ss[12] == h.extraData
  {
    hide Compact;
  }

  /** What the last item, present or not, says about the extra data read from it. */
  lemma ExtraDataItem(d: seq<byte>, b: seq<byte>)
    requires StringAt(d, 12) == Ok(b)
    ensures |b| < READ_LIMIT && Accepted(EncodeBytes(b)) && IsData(EncodeBytes(b))
    ensures IsData(Answer(d, 12).value) <==> Answer(d, 12) == Ok(EncodeBytes(b))
  {
    hide ActualSize, EncodeBytes, Payload, Answer;
    if Answer(d, 12).value != [] {
      AnswerIsAccepted(d, 12);
      AcceptedIsCanonical(Answer(d, 12).value);
    }
    DataPayload(b);
  }

  /** The encoded fields of a header that was read are accepted items. */
  lemma FieldItemsAccepted(d: seq<byte>, h: Fields)
    requires ReadBytes(d) == Read(h)
    ensures AllAccepted(EncodeStrings(h.Strings()))
  {
    hide EncodeBytes, Accepted, Fields.Strings, Fields.Valid, EncodeStrings, Answer, ReadBytes, Compact, ToBytes;
    var es := EncodeStrings(h.Strings());
    ReadIff(d, h);
    ExtraDataItem(d, h.extraData);
    StringsInOrder(h);
    forall x | x in es ensures Accepted(x) {
      var i :| 0 <= i < |es| && es[i] == x;
      if i < 12 {
        FieldIsNotNull(h, i);
        AnswerIsAccepted(d, i);
      }
    }
  }

  lemma FieldIsNotNull(h: Fields, i: nat)
    requires h.Valid() && i < 12
    ensures EncodeStrings(h.Strings())[i] != []
  {
    hide EncodeBytes, Compact, ActualSize, EncodeStrings, Pow256;
    CompactFits(h.difficulty);
    CompactFits(h.number);
    CompactFits(h.gasLimit);
    CompactFits(h.gasUsed);
    CompactFits(h.timestamp);
    DataPayload(h.Strings()[i]);
  }

  /** The items of a payload from which a header was read are its encoded fields exactly if there are
      thirteen and the last is a string. */
  lemma FieldItems(d: seq<byte>, xs: seq<seq<byte>>, h: Fields)
    requires ReadBytes(d) == Read(h) && Payload(d).Ok? && Split(Payload(d).value) == Ok(xs)
    ensures xs == EncodeStrings(h.Strings()) <==> |xs| == BASIC_FIELDS && IsData(xs[12])
  {
    hide EncodeBytes, Fields.Strings, Fields.Valid, ToBytes, EncodeStrings, ReadBytes, Payload, Split, Scan, Compact,
         IsData, Accepted;
    var es := EncodeStrings(h.Strings());
    ReadIff(d, h);
    ExtraDataItem(d, h.extraData);
    StringsInOrder(h);
    assert es[12] == EncodeBytes(h.Strings()[12]);
    forall i | 0 <= i < BASIC_FIELDS ensures Answer(d, i) == Ok(ItemAt(xs, i)) {
      ScanOfSplit(Payload(d).value, i);
    }
    if |xs| == BASIC_FIELDS && IsData(xs[12]) {
      forall i | 0 <= i < BASIC_FIELDS ensures xs[i] == es[i] {
        assert Answer(d, i) == Ok(xs[i]);
      }
    }
  }

  /** Bytes that read as a header are that header's own encoding exactly when they are a list of
      thirteen items, nothing behind them, and the last is a string: the reader itself checks neither. */
  lemma ReadIsCanonicalIff(d: seq<byte>, h: Fields)
    requires Accepted(d) && IsList(d) && ReadBytes(d) == Read(h)
    ensures Payload(d).Ok?
    ensures d == Encode(h.Tree()) <==>
            var r := Split(Payload(d).value);
            r.Ok? && |r.value| == BASIC_FIELDS && IsData(r.value[12])
  {
    hide EncodeAll, Payload, Split, ReadBytes, EncodeStrings, ActualSize, EncodeBytes, Wrap, Fields.Strings, Flatten,
         Leaves, IsData;
    AcceptedIsCanonical(d);
    var p, es := Payload(d).value, EncodeStrings(h.Strings());
    EncodeLeaves(h.Strings());
    FieldItemsAccepted(d, h);
    assert Encode(h.Tree()) == Wrap(Flatten(es), LIST_START);
    SplitIff(p, es);
    if d == Encode(h.Tree()) {
      WrapInjective(p, Flatten(es));
      FieldItems(d, es, h);
    } else if Split(p).Ok? {
      FieldItems(d, Split(p).value, h);
    }
  }

  /** The conversions look at nothing but the first thirteen items, present or not. */
  lemma SameItemsReadTheSame(d: seq<byte>, e: seq<byte>)
    requires forall i :: 0 <= i < 12 ==> Answer(d, i) == Answer(e, i)
    requires StringAt(d, 12) == StringAt(e, 12)
    ensures ReadBytes(d) == ReadBytes(e)
  {
    hide HashAt, NumberAt, StringAt, Answer;
    forall i, n | 0 <= i < 12 ensures HashAt(d, i, n) == HashAt(e, i, n) {
      SameItem(d, e, i, n);
    }
    forall i | 0 <= i < 12 ensures NumberAt(d, i) == NumberAt(e, i) {
      SameItem(d, e, i, 0);
    }
  }

  lemma SameItem(d: seq<byte>, e: seq<byte>, i: nat, n: nat)
    requires Answer(d, i) == Answer(e, i)
    ensures HashAt(d, i, n) == HashAt(e, i, n) && NumberAt(d, i) == NumberAt(e, i)
  {
    hide ToHash, ToInt, Answer;
  }

  /** Two different lists can be read as one header: leaving out an empty last field changes nothing. */
  lemma MissingExtraDataIsEmpty(h: Fields)
    requires Within(h.Tree(), READ_LIMIT) && h.extraData == []
    ensures var short := Wrap(Flatten(EncodeStrings(h.Strings())[..12]), LIST_START);
            short != Encode(h.Tree()) && ReadBytes(short) == ReadBytes(Encode(h.Tree()))
  {
    hide ToBytes, EncodeBytes, Compact, ReadBytes, EncodeStrings, Fields.Strings, Fields.Tree, Encode, Payload, Split,
         Scan, Wrap, Flatten, Accepted, StringAt, Within;
    var es := EncodeStrings(h.Strings());
    var short, d := Wrap(Flatten(es[..12]), LIST_START), Encode(h.Tree());
    ShorterList(h);
    forall i | 0 <= i < BASIC_FIELDS ensures Answer(short, i) == Ok(ItemAt(es[..12], i)) && Answer(d, i) == Ok(es[i]) {
      ScanOfSplit(Flatten(es[..12]), i);
      AnswersOfEncoded(h, i);
    }
    LastItemIsEmpty(h, short);
    SameItemsReadTheSame(short, d);
  }

  lemma LastItemIsEmpty(h: Fields, short: seq<byte>)
    requires h.extraData == [] && Answer(short, 12) == Ok([])
    requires Answer(Encode(h.Tree()), 12) == Ok(EncodeStrings(h.Strings())[12])
    ensures StringAt(short, 12) == StringAt(Encode(h.Tree()), 12)
  {
    hide Answer, EncodeBytes, Compact, ToBytes, Fields.Strings, EncodeStrings, Encode;
    StringsInOrder(h);
    assert EncodeStrings(h.Strings())[12] == EncodeBytes(h.Strings()[12]);
    ToBytesOfEncoded([]);
    NullIsNoValue(0);
  }

  /** The list of the first twelve fields alone. */
  lemma ShorterList(h: Fields)
    requires Within(h.Tree(), READ_LIMIT)
    ensures var xs := EncodeStrings(h.Strings())[..12];
            var short := Wrap(Flatten(xs), LIST_START);
            Payload(short) == Ok(Flatten(xs)) && Split(Flatten(xs)) == Ok(xs) && short != Encode(h.Tree())
  {
    hide Fields.Strings, EncodeStrings, Payload, Split, Wrap, Flatten, Accepted, Compact, Leaves, EncodeAll, AllWithin;
    var es := EncodeStrings(h.Strings());
    var xs := es[..12];
    ItemsOfEncoded(h);
    EncodeLeaves(h.Strings());
    FlattenSplit(es, 12);
    assert AllAccepted(xs) by {
      assert forall x :: x in xs ==> x in es;
    }
    SplitIff(Flatten(xs), xs);
    PayloadOfWrapped(Flatten(xs));
    if Wrap(Flatten(xs), LIST_START) == Encode(h.Tree()) {
      WrapInjective(Flatten(xs), Flatten(es));
    }
  }

  lemma PayloadOfWrapped(p: seq<byte>)
    requires |p| < READ_LIMIT
    ensures Payload(Wrap(p, LIST_START)) == Ok(p)
  {
    hide Length, Header;
    var d := Wrap(p, LIST_START);
    ReadHeader(|p|, LIST_START, p);
    assert Crop(d, PayloadOffset(d), |p|) == p;
  }
}
