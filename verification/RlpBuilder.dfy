/** What a sequence of appends to an RLP stream means: a forest of trees under construction.

    Stream is the state of the encoder: bytes written and open lists. Builder is the meaning of
    such a state: the finished trees and, for each open list, the items it has so far. Render maps
    the meaning to the state, and every operation of the encoder commutes with it. */
module RlpBuilder {
  import opened CommonData
  import opened RlpFormat

  /** An open list: how many items it still waits for and where its payload starts. */
  datatype Pending = Pending(remaining: nat, start: nat)

  datatype Stream = Stream(out: seq<byte>, stack: seq<Pending>) {
    /** Open lists wait for at least one item, and each starts inside the bytes written. */
    ghost predicate Valid() {
      && (forall i :: 0 <= i < |stack| ==> stack[i].remaining > 0 && stack[i].start <= |out|)
      && (forall i, j :: 0 <= i < j < |stack| ==> stack[i].start <= stack[j].start)
    }
  }

  /** The two exceptions of the encoder are ItemCountTooLarge and TooLargeForRlp. */
  datatype Outcome<S> = Done(state: S) | ItemCountTooLarge | TooLargeForRlp

  const EMPTY_STREAM := Stream([], [])


  /** A list header written in front of the bytes from start on. */
  function InsertHeader(out: seq<byte>, start: nat): seq<byte>
    requires start <= |out| && |out| - start < SIZE_LIMIT
  {
    out[..start] + Header(|out| - start, LIST_START) + out[start..]
  }

  /** Counting items off the innermost open list closes it, and then perhaps the lists around it. */
  function NoteAppended(s: Stream, count: nat): (o: Outcome<Stream>)
    requires s.Valid()
    ensures o.Done? ==> o.state.Valid()
    ensures o.ItemCountTooLarge? <==> s.stack != [] && s.stack[|s.stack| - 1].remaining < count
    decreases |s.stack|
  {
    if count == 0 || s.stack == [] then Done(s)
    else
      var top := s.stack[|s.stack| - 1];
      var below := s.stack[..|s.stack| - 1];
      if top.remaining < count then ItemCountTooLarge
      else if top.remaining > count then Done(s.(stack := below + [top.(remaining := top.remaining - count)]))
      else if |s.out| - top.start >= SIZE_LIMIT then TooLargeForRlp
      else NoteAppended(Stream(InsertHeader(s.out, top.start), below), 1)
  }

  // ----- the operations of the encoder

  datatype Op =
    | AppendBytes(bytes: seq<byte>, compact: bool)
    | AppendInt(value: nat)
    | AppendList(items: nat)
    | AppendListPayload(payload: seq<byte>)
    | AppendRaw(raw: seq<byte>, itemCount: nat)
  {
    /** Sizes fit the size_t, and the digit count of a number the unsigned, that hold them. */
    predicate Fits() {
      match this
      case AppendBytes(b, _) => |b| < SIZE_LIMIT
      case AppendInt(v) => ByteLength(v) < 0x1_0000_0000
      case AppendList(n) => n < SIZE_LIMIT
      case AppendListPayload(p) => |p| < SIZE_LIMIT
      case AppendRaw(r, n) => |r| < SIZE_LIMIT && n < SIZE_LIMIT
    }
  }

  function StripZeros(b: seq<byte>): seq<byte> {
    if b != [] && b[0] == 0 then StripZeros(b[1..]) else b
  }

  function Apply(s: Stream, op: Op): (o: Outcome<Stream>)
    requires s.Valid()
    ensures o.Done? ==> o.state.Valid()
  {
    match op
    case AppendBytes(b, compact) =>
      NoteAppended(s.(out := s.out + EncodeBytes(if compact then StripZeros(b) else b)), 1)
    case AppendInt(v) => NoteAppended(s.(out := s.out + EncodeBytes(Compact(v))), 1)
    case AppendList(n) =>
      if n == 0 then NoteAppended(s.(out := s.out + [LIST_START]), 1)
      else Done(s.(stack := s.stack + [Pending(n, |s.out|)]))
    case AppendListPayload(p) => NoteAppended(s.(out := s.out + Wrap(p, LIST_START)), 1)
    case AppendRaw(r, n) => NoteAppended(s.(out := s.out + r), n)
  }

  // ----- the meaning of a stream

  /** A forest of finished trees, or a list opened inside an outer builder that still waits for items. */
  datatype Builder =
    | Forest(trees: seq<Tree>)
    | Open(outer: Builder, remaining: nat, items: seq<Tree>)
  {
    ghost predicate Valid() {
      Open? ==> remaining > 0 && outer.Valid()
    }
  }

  /** Adds finished trees to the innermost open list, or to the forest when none is open. */
  function Add(b: Builder, ts: seq<Tree>): (o: Outcome<Builder>)
    requires b.Valid()
    ensures o.Done? ==> o.state.Valid()
    decreases b
  {
    if ts == [] then Done(b)
    else
      match b
      case Forest(trees) => Done(Forest(trees + ts))
      case Open(outer, remaining, items) =>
        if remaining < |ts| then ItemCountTooLarge
        else if remaining > |ts| then Done(Open(outer, remaining - |ts|, items + ts))
        else if |EncodeAll(items + ts)| >= SIZE_LIMIT then TooLargeForRlp
        else Add(outer, [List(items + ts)])
  }

  function RenderOut(b: Builder): seq<byte> {
    match b
    case Forest(trees) => EncodeAll(trees)
    case Open(outer, _, items) => RenderOut(outer) + EncodeAll(items)
  }

  function RenderStack(b: Builder): seq<Pending> {
    match b
    case Forest(_) => []
    case Open(outer, remaining, _) => RenderStack(outer) + [Pending(remaining, |RenderOut(outer)|)]
  }

  function Render(b: Builder): Stream {
    Stream(RenderOut(b), RenderStack(b))
  }

  function RenderOutcome(o: Outcome<Builder>): Outcome<Stream> {
    match o
    case Done(b) => Done(Render(b))
    case ItemCountTooLarge => ItemCountTooLarge
    case TooLargeForRlp => TooLargeForRlp
  }

  lemma {:induction false} RenderValid(b: Builder)
    requires b.Valid()
    ensures Render(b).Valid()
  {
    if b.Open? {
      RenderValid(b.outer);
    }
  }

  lemma AppendKeepsValid(s: Stream, more: seq<byte>)
    requires s.Valid()
    ensures s.(out := s.out + more).Valid()
  {
  }

  /** One pass of the loop on an open list whose payload so far is the end of the output. */
  lemma OnePass(before: seq<byte>, payload: seq<byte>, below: seq<Pending>, remaining: nat, count: nat)
    requires count > 0
    requires Stream(before + payload, below + [Pending(remaining, |before|)]).Valid()
    ensures Stream(before + Wrap(payload, LIST_START), below).Valid()
    ensures NoteAppended(Stream(before + payload, below + [Pending(remaining, |before|)]), count) ==
            if remaining < count then ItemCountTooLarge
            else if remaining > count then
              Done(Stream(before + payload, below + [Pending(remaining - count, |before|)]))
            else if |payload| >= SIZE_LIMIT then TooLargeForRlp
            else NoteAppended(Stream(before + Wrap(payload, LIST_START), below), 1)
  {
    var out, stack := before + payload, below + [Pending(remaining, |before|)];
    assert stack[..|stack| - 1] == below;
    assert out[..|before|] == before && out[|before|..] == payload;
    forall i | 0 <= i < |below| ensures below[i].remaining > 0 && below[i].start <= |before| {
      assert below[i] == stack[i] && stack[|below|].start == |before|;
    }
    if |payload| < SIZE_LIMIT {
      assert InsertHeader(out, |before|) == before + Wrap(payload, LIST_START);
    }
  }

  /** In-place header insertion is tree construction: whatever lists the new items close, the bytes
      and the stack afterwards are those of the builder after adding the items, errors included. */
  lemma {:induction false} NoteAppendedCommutes(b: Builder, ts: seq<Tree>)
    requires b.Valid() && ts != []
    ensures Stream(RenderOut(b) + EncodeAll(ts), RenderStack(b)).Valid()
    ensures NoteAppended(Stream(RenderOut(b) + EncodeAll(ts), RenderStack(b)), |ts|) == RenderOutcome(Add(b, ts))
    decreases b, 1
  {
    RenderValid(b);
    AppendKeepsValid(Render(b), EncodeAll(ts));
    match b
    case Forest(trees) => EncodeAllConcat(trees, ts);
    case Open(_, _, _) => OpenListCommutes(b, ts);
  }

  lemma EncodeList(items: seq<Tree>)
    ensures EncodeAll([List(items)]) == Wrap(EncodeAll(items), LIST_START)
  {
    EncodeAllOne(List(items));
  }

  lemma {:induction false} OpenListCommutes(b: Builder, ts: seq<Tree>)
    requires b.Valid() && b.Open? && ts != []
    requires Stream(RenderOut(b) + EncodeAll(ts), RenderStack(b)).Valid()
    ensures NoteAppended(Stream(RenderOut(b) + EncodeAll(ts), RenderStack(b)), |ts|) == RenderOutcome(Add(b, ts))
    decreases b, 0
  {
    hide Encode, Wrap, Header;
    var Open(outer, remaining, items) := b;
    var payload := EncodeAll(items + ts);
    assert RenderOut(b) + EncodeAll(ts) == RenderOut(outer) + payload by {
      EncodeAllConcat(items, ts);
    }
    OnePass(RenderOut(outer), payload, RenderStack(outer), remaining, |ts|);
    if remaining == |ts| && |payload| < SIZE_LIMIT {
      EncodeList(items + ts);
      NoteAppendedCommutes(outer, [List(items + ts)]);
    }
  }

  const EMPTY_BUILDER := Forest([])

  // ----- every history of appends

  /** An append whose raw bytes are known to be whole items. */
  datatype Event =
    | PutBytes(bytes: seq<byte>, compact: bool)
    | PutInt(value: nat)
    | OpenList(items: nat)
    | PutList(trees: seq<Tree>)
    | PutRaw(trees: seq<Tree>)
  {
    function Concrete(): Op {
      match this
      case PutBytes(b, compact) => AppendBytes(b, compact)
      case PutInt(v) => AppendInt(v)
      case OpenList(n) => AppendList(n)
      case PutList(ts) => AppendListPayload(EncodeAll(ts))
      case PutRaw(ts) => AppendRaw(EncodeAll(ts), |ts|)
    }
  }

  function Step(b: Builder, e: Event): (o: Outcome<Builder>)
    requires b.Valid()
    ensures o.Done? ==> o.state.Valid()
  {
    match e
    case PutBytes(bytes, compact) => Add(b, [Data(if compact then StripZeros(bytes) else bytes)])
    case PutInt(v) => Add(b, [Data(Compact(v))])
    case OpenList(n) =>
      if n == 0 then Add(b, [List([])]) else Done(Open(b, n, []))
    case PutList(ts) => Add(b, [List(ts)])
    case PutRaw(ts) => Add(b, ts)
  }

  lemma StepCommutes(b: Builder, e: Event)
    requires b.Valid()
    ensures Render(b).Valid()
    ensures Apply(Render(b), e.Concrete()) == RenderOutcome(Step(b, e))
  {
    RenderValid(b);
    match e
    case PutBytes(bytes, compact) => AddOneCommutes(b, Data(if compact then StripZeros(bytes) else bytes));
    case PutInt(v) => AddOneCommutes(b, Data(Compact(v)));
    case OpenList(n) => OpenCommutes(b, n);
    case PutList(ts) => AddOneCommutes(b, List(ts));
    case PutRaw(ts) => RawCommutes(b, ts);
  }

  lemma OpenCommutes(b: Builder, n: nat)
    requires b.Valid() && Render(b).Valid()
    ensures Apply(Render(b), AppendList(n)) == RenderOutcome(Step(b, OpenList(n)))
  {
    if n == 0 {
      assert Encode(List([])) == [LIST_START];
      AddOneCommutes(b, List([]));
    } else {
      assert RenderOut(b) + EncodeAll([]) == RenderOut(b);
    }
  }

  lemma RawCommutes(b: Builder, ts: seq<Tree>)
    requires b.Valid() && Render(b).Valid()
    ensures Apply(Render(b), AppendRaw(EncodeAll(ts), |ts|)) == RenderOutcome(Add(b, ts))
  {
    if ts == [] {
      assert RenderOut(b) + [] == RenderOut(b);
    } else {
      NoteAppendedCommutes(b, ts);
    }
  }

  lemma AddOneCommutes(b: Builder, t: Tree)
    requires b.Valid()
    ensures Stream(RenderOut(b) + Encode(t), RenderStack(b)).Valid()
    ensures NoteAppended(Stream(RenderOut(b) + Encode(t), RenderStack(b)), 1) == RenderOutcome(Add(b, [t]))
  {
    EncodeAllOne(t);
    NoteAppendedCommutes(b, [t]);
  }

  function ApplyAll(s: Stream, es: seq<Event>): (o: Outcome<Stream>)
    requires s.Valid()
    ensures o.Done? ==> o.state.Valid()
    decreases |es|
  {
    if es == [] then Done(s)
    else
      match Apply(s, es[0].Concrete())
      case Done(s') => ApplyAll(s', es[1..])
      case err => err
  }

  function StepAll(b: Builder, es: seq<Event>): (o: Outcome<Builder>)
    requires b.Valid()
    ensures o.Done? ==> o.state.Valid()
    decreases |es|
  {
    if es == [] then Done(b)
    else
      match Step(b, es[0])
      case Done(b') => StepAll(b', es[1..])
      case err => err
  }

  /** For every history of appends, legal or not, the encoder is the rendering of the builder. */
  lemma {:induction false} HistoryCommutes(b: Builder, es: seq<Event>)
    requires b.Valid()
    ensures Render(b).Valid()
    ensures ApplyAll(Render(b), es) == RenderOutcome(StepAll(b, es))
    decreases |es|
  {
    RenderValid(b);
    if es != [] {
      StepCommutes(b, es[0]);
      if Step(b, es[0]).Done? {
        HistoryCommutes(Step(b, es[0]).state, es[1..]);
      }
    }
  }

  /** When a history that began on an empty stream has closed all its lists, the bytes are the
      encodings of the trees it described, and nothing else. */
  lemma ClosedHistoryIsForest(es: seq<Event>)
    requires ApplyAll(EMPTY_STREAM, es).Done?
    requires ApplyAll(EMPTY_STREAM, es).state.stack == []
    ensures StepAll(EMPTY_BUILDER, es).Done? && StepAll(EMPTY_BUILDER, es).state.Forest?
    ensures ApplyAll(EMPTY_STREAM, es).state.out == EncodeAll(StepAll(EMPTY_BUILDER, es).state.trees)
  {
    assert Render(EMPTY_BUILDER) == EMPTY_STREAM;
    HistoryCommutes(EMPTY_BUILDER, es);
  }

  // ----- trees in preorder

  function Preorder(t: Tree): (es: seq<Event>) {
    match t
    case Data(b) => [PutBytes(b, false)]
    case List(items) => [OpenList(|items|)] + PreorderAll(items)
  }

  function PreorderAll(ts: seq<Tree>): (es: seq<Event>) {
    if ts == [] then [] else Preorder(ts[0]) + PreorderAll(ts[1..])
  }

  lemma {:induction false} StepAllConcat(b: Builder, es: seq<Event>, fs: seq<Event>)
    requires b.Valid()
    ensures StepAll(b, es + fs) ==
            match StepAll(b, es) { case Done(b') => StepAll(b', fs) case err => err }
    decreases |es|
  {
    if es == [] {
      assert es + fs == fs;
    } else {
      assert (es + fs)[1..] == es[1..] + fs;
      if Step(b, es[0]).Done? {
        StepAllConcat(Step(b, es[0]).state, es[1..], fs);
      }
    }
  }

  /** Announcing the lists of a tree and appending its leaves adds exactly that tree. */
  lemma {:induction false} PreorderAddsTree(b: Builder, t: Tree)
    requires b.Valid() && Encodable(t)
    ensures StepAll(b, Preorder(t)) == Add(b, [t])
    decreases t, 1
  {
    match t
    case Data(bytes) =>
      assert Preorder(t)[1..] == [];
    case List(items) =>
      if items == [] {
        assert Preorder(t)[1..] == [];
      } else {
        assert Preorder(t)[1..] == PreorderAll(items);
        PreorderFillsList(Open(b, |items|, []), t, 0);
      }
  }

  lemma {:induction false} PreorderFillsList(b: Builder, l: Tree, k: nat)
    requires b.Valid() && l.List? && k < |l.items|
    requires b.Open? && b.remaining == |l.items| - k && b.items == l.items[..k]
    requires AllWithin(l.items[k..], SIZE_LIMIT) && |EncodeAll(l.items)| < SIZE_LIMIT
    ensures StepAll(b, PreorderAll(l.items[k..])) == Add(b.outer, [l])
    decreases l, 0, |l.items| - k
  {
    hide Encode, EncodeAll;
    var t, items := l.items[k], l.items[..k + 1];
    PreorderUncons(l.items, k);
    PreorderAddsTree(b, t);
    StepAllConcat(b, Preorder(t), PreorderAll(l.items[k + 1..]));
    assert b.items + [t] == items;
    if k + 1 < |l.items| {
      PreorderFillsList(Open(b.outer, |l.items| - k - 1, items), l, k + 1);
    } else {
      assert items == l.items;
    }
  }

  lemma PreorderUncons(ts: seq<Tree>, k: nat)
    requires k < |ts| && AllWithin(ts[k..], SIZE_LIMIT)
    ensures PreorderAll(ts[k..]) == Preorder(ts[k]) + PreorderAll(ts[k + 1..])
    ensures Encodable(ts[k]) && AllWithin(ts[k + 1..], SIZE_LIMIT)
  {
    assert ts[k..][1..] == ts[k + 1..];
  }

  /** Feeding a tree in preorder to an empty stream leaves no open list and exactly its encoding. */
  lemma PreorderEncodes(t: Tree)
    requires Encodable(t)
    ensures ApplyAll(EMPTY_STREAM, Preorder(t)) == Done(Stream(Encode(t), []))
  {
    PreorderAddsTree(EMPTY_BUILDER, t);
    assert Render(EMPTY_BUILDER) == EMPTY_STREAM;
    HistoryCommutes(EMPTY_BUILDER, Preorder(t));
    EncodeAllOne(t);
    assert [] + [t] == [t];
  }
}
