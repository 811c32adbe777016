/** The RLP serialisation function of Appendix B of the Ethereum Yellow Paper, over trees.

    The Yellow Paper writes the encoding of an oversized payload as the empty set; here that is
    the empty string, which encodes nothing, and Within tells which trees have an encoding. */
module RlpFormat {
  import opened CommonData

  datatype Tree = Data(bytes: seq<byte>) | List(items: seq<Tree>)

  /** First byte of string headers and of list headers (libdevcore/RLP.h). */
  const DATA_START: byte := 0x80
  const LIST_START: byte := 0xc0

  /** Payloads shorter than this have their length inside the first byte. */
  const IMMEDIATE_COUNT: nat := 56

  /** Headers hold at most eight length bytes. */
  const SIZE_LIMIT: nat := 0x1_0000_0000_0000_0000

  /** The reader refuses lengths from here on, so that adding an offset cannot wrap a size_t. */
  const READ_LIMIT: nat := SIZE_LIMIT - 1 - 0x100

  lemma SizeLimitBytes(n: nat)
    ensures n < SIZE_LIMIT <==> ByteLength(n) <= 8
  {
    ByteLengthBound(n, 8);
    assert Shift(1, 8) == 256 * Shift(1, 7) == 256 * 256 * Shift(1, 6) == 0x1_00_00_00 * Shift(1, 5);
    assert Shift(1, 5) == 256 * Shift(1, 4) == 256 * 256 * Shift(1, 3) == 0x1_00_00_00 * Shift(1, 2);
    assert Shift(1, 2) == 256 * Shift(1, 1) == 256 * 256 * Shift(1, 0);
  }

  /** The header of a payload of n bytes. */
  function Header(n: nat, start: byte): (h: seq<byte>)
    requires n < SIZE_LIMIT && (start == DATA_START || start == LIST_START)
    ensures |h| == 1 + if n < IMMEDIATE_COUNT then 0 else ByteLength(n)
  {
    SizeLimitBytes(n);
    if n < IMMEDIATE_COUNT then [start + n]
    else [start + 55 + ByteLength(n)] + Compact(n)
  }

  /** A payload behind its header, or the empty string when it is too long. */
  function Wrap(payload: seq<byte>, start: byte): seq<byte>
    requires start == DATA_START || start == LIST_START
  {
    if |payload| < SIZE_LIMIT then Header(|payload|, start) + payload else []
  }

  /** A list determines its payload. */
  lemma WrapInjective(p: seq<byte>, q: seq<byte>)
    requires |p| < SIZE_LIMIT && Wrap(p, LIST_START) == Wrap(q, LIST_START)
    ensures p == q
  {
    hide Compact, ByteLength;
    var a, b := Wrap(p, LIST_START), Wrap(q, LIST_START);
    assert a[0] == b[0];
    SizeLimitBytes(|p|);
    SizeLimitBytes(|q|);
    assert |Header(|p|, LIST_START)| == |Header(|q|, LIST_START)|;
    assert p == a[|Header(|p|, LIST_START)|..];
    assert q == b[|Header(|q|, LIST_START)|..];
  }

  function EncodeBytes(b: seq<byte>): seq<byte> {
    if |b| == 1 && b[0] < DATA_START then b else Wrap(b, DATA_START)
  }

  function Encode(t: Tree): seq<byte> {
    match t
    case Data(b) => EncodeBytes(b)
    case List(items) => Wrap(EncodeAll(items), LIST_START)
  }

  /** The encodings of the trees one after another. */
  function EncodeAll(ts: seq<Tree>): seq<byte> {
    if ts == [] then [] else Encode(ts[0]) + EncodeAll(ts[1..])
  }

  /** Every payload in the tree is shorter than the limit. */
  predicate Within(t: Tree, limit: nat) {
    match t
    case Data(b) => |b| < limit
    case List(items) => |EncodeAll(items)| < limit && AllWithin(items, limit)
  }

  predicate AllWithin(ts: seq<Tree>, limit: nat) {
    ts != [] ==> Within(ts[0], limit) && AllWithin(ts[1..], limit)
  }

  predicate Encodable(t: Tree) {
    Within(t, SIZE_LIMIT)
  }

  lemma {:induction false} EncodeAllConcat(a: seq<Tree>, b: seq<Tree>)
    ensures EncodeAll(a + b) == EncodeAll(a) + EncodeAll(b)
  {
    if a == [] {
      assert a + b == b;
    } else {
      assert (a + b)[1..] == a[1..] + b;
      EncodeAllConcat(a[1..], b);
    }
  }

  lemma EncodeAllOne(t: Tree)
    ensures EncodeAll([t]) == Encode(t)
  {
    assert EncodeAll([t]) == Encode(t) + EncodeAll([]);
  }
}
