/** Block headers (libethcore/BlockHeader.cpp): writing to a stream, reading from a list, and the
    two values computed on demand and kept until a setter clears them. */
module BlockHeader {
  import opened CommonData
  import opened HeaderFields
  import opened RlpFormat
  import opened RlpReader
  import RlpBuilder
  import RlpIndex
  import RlpStream
  import Sponge

  const TWO_256: nat := Pow256(32)

  /** 2^256 in hexadecimal digits. */
  lemma TwoTo256()
    ensures TWO_256 == 0x1_0000000000000000_0000000000000000_0000000000000000_0000000000000000
  {
    assert Pow256(8) == 0x1_0000000000000000;
    assert Pow256(16) == 0x1_0000000000000000 * Pow256(8);
    assert Pow256(24) == 0x1_0000000000000000 * Pow256(16);
    assert Pow256(32) == 0x1_0000000000000000 * Pow256(24);
  }

  /** floor(2^256 / difficulty) as it is stored: a quotient of 2^256 itself does not fit. */
  function Boundary(difficulty: nat): nat {
    if difficulty == 0 then 0 else TWO_256 / difficulty % TWO_256
  }

  /** The stored boundary is the true quotient for every difficulty but one, for which it is zero. */
  lemma BoundaryIff(difficulty: nat)
    requires 0 < difficulty < TWO_256
    ensures Boundary(difficulty) == TWO_256 / difficulty <==> difficulty != 1
    ensures Boundary(difficulty) == 0 <==> difficulty == 1
    ensures difficulty != 1 ==>
      difficulty * Boundary(difficulty) <= TWO_256 < difficulty * Boundary(difficulty) + difficulty
  {
    hide Pow256;
    var q, n := TWO_256 / difficulty, TWO_256;
    QuotientBounds(n, difficulty);
    if difficulty == 1 {
      DivModUnique(n, n, 1, 0);
    } else {
      assert q < n;
      DivModUnique(q, n, 0, q);
    }
  }

  lemma QuotientBounds(n: nat, d: nat)
    requires 0 < d <= n
    ensures n / d <= n && d * (n / d) <= n < d * (n / d) + d
    ensures d > 1 ==> n / d < n
    ensures n / d >= 1
  {
    var q := n / d;
    assert n == d * q + n % d;
    MulMonotone(if d > 1 then 2 else 1, d, q);
    assert q == 0 ==> d * q == 0;
  }

  /** The bytes as the hash function takes them. */
  function Octets(s: seq<byte>): (r: seq<bv8>)
    ensures |r| == |s|
  {
    seq(|s|, i requires 0 <= i < |s| => s[i] as bv8)
  }

  const NO_HASH: seq<bv8> := seq(32, _ => 0)

  function Sha3(d: seq<byte>): seq<bv8> {
    Sponge.SpongeOf(Octets(d), 32, 136, 0x01)
  }

  /** sha3 of libdevcore/SHA3.cpp, into a fresh hash. */
  method Digest(d: seq<byte>) returns (r: seq<bv8>)
    ensures r == Sha3(d)
  {
    hide Sponge.SpongeOf;
    var input := new bv8[|d|](i requires 0 <= i < |d| => d[i] as bv8);
    assert input[..] == Octets(d);
    var out := new bv8[32](_ => 0);
    var code := Sponge.Sha3(256, out, 32, input, input.Length);
    assert out[32..] == [] && input[..input.Length] == input[..];
    r := out[..];
  }

  // ----- writing

  /** Appending strings one after another, up to the first failure. */
  function AppendStrings(s: RlpBuilder.Stream, ss: seq<seq<byte>>): (o: RlpBuilder.Outcome<RlpBuilder.Stream>)
    requires s.Valid()
    ensures o.Done? ==> o.state.Valid()
    decreases |ss|
  {
    if ss == [] then RlpBuilder.Done(s)
    else
      match RlpBuilder.Apply(s, RlpBuilder.AppendBytes(ss[0], false))
      case Done(s') => AppendStrings(s', ss[1..])
      case err => err
  }

  lemma {:induction false} AppendStringsIsPreorder(s: RlpBuilder.Stream, ss: seq<seq<byte>>)
    requires s.Valid()
    ensures AppendStrings(s, ss) == RlpBuilder.ApplyAll(s, RlpBuilder.PreorderAll(Leaves(ss)))
    decreases |ss|
  {
    hide RlpBuilder.NoteAppended;
    if ss != [] {
      var ts := Leaves(ss);
      assert ts[0] == Data(ss[0]) && ts[1..] == Leaves(ss[1..]);
      var es := RlpBuilder.PreorderAll(ts);
      assert RlpBuilder.Preorder(ts[0]) == [RlpBuilder.PutBytes(ss[0], false)];
      assert es == RlpBuilder.Preorder(ts[0]) + RlpBuilder.PreorderAll(ts[1..]);
      assert es[1..] == RlpBuilder.PreorderAll(Leaves(ss[1..]));
      var first := RlpBuilder.Apply(s, RlpBuilder.AppendBytes(ss[0], false));
      if first.Done? {
        AppendStringsIsPreorder(first.state, ss[1..]);
      }
    }
  }

  /** A stream opened for thirteen items is closed by the fields and holds exactly their list. */
  lemma FieldsFillList(h: Fields)
    requires Encodable(h.Tree())
    ensures var start := RlpBuilder.Apply(RlpBuilder.EMPTY_STREAM, RlpBuilder.AppendList(BASIC_FIELDS));
            start.Done? && AppendStrings(start.state, h.Strings()) ==
                            RlpBuilder.Done(RlpBuilder.Stream(Encode(h.Tree()), []))
  {
    hide Encode, Compact, RlpBuilder.PreorderAll;
    var start := RlpBuilder.Apply(RlpBuilder.EMPTY_STREAM, RlpBuilder.AppendList(BASIC_FIELDS));
    RlpBuilder.PreorderEncodes(h.Tree());
    AppendStringsIsPreorder(start.state, h.Strings());
    var es := RlpBuilder.Preorder(h.Tree());
    assert es[0] == RlpBuilder.OpenList(BASIC_FIELDS);
    assert es[1..] == RlpBuilder.PreorderAll(Leaves(h.Strings()));
  }

  class BlockHeader {
    var parentHash: seq<byte>
    var sha3Uncles: seq<byte>
    var coinbaseAddress: seq<byte>
    var stateRoot: seq<byte>
    var transactionsRoot: seq<byte>
    var receiptsRoot: seq<byte>
    var logBloom: seq<byte>
    var difficulty: nat
    var number: nat
    var gasLimit: nat
    var gasUsed: nat
    var timestamp: nat
    var extraData: seq<byte>
    var hashWithout: seq<bv8>
    var boundary: nat

    function State(): Fields
      reads this
    {
      Fields(parentHash, sha3Uncles, coinbaseAddress, stateRoot, transactionsRoot, receiptsRoot, logBloom,
             difficulty, number, gasLimit, gasUsed, timestamp, extraData)
    }

    /** The fields have their widths, and each kept value is either unset or that of the fields. */
    ghost predicate Valid()
      reads this
    {
      && State().Valid()
      && (boundary != 0 ==> boundary == Boundary(difficulty))
      && (hashWithout != NO_HASH ==> hashWithout == Sha3(Encode(State().Tree())))
    }

    /** A default header: zero hashes and numbers and the greatest timestamp. */
    constructor Default()
      ensures Valid()
      ensures State() == Fields(Zeros(32), Zeros(32), Zeros(20), Zeros(32), Zeros(32), Zeros(32), Zeros(256),
                                0, 0, 0, 0, TWO_256 - 1, [])
    {
      hide Shift, Sha3, Encode;
      parentHash, sha3Uncles, coinbaseAddress, stateRoot := Zeros(32), Zeros(32), Zeros(20), Zeros(32);
      transactionsRoot, receiptsRoot, logBloom := Zeros(32), Zeros(32), Zeros(256);
      difficulty, number, gasLimit, gasUsed, timestamp := 0, 0, 0, 0, TWO_256 - 1;
      extraData := [];
      hashWithout, boundary := NO_HASH, 0;
    }

    method SetNumber(v: nat)
      requires Valid() && v < TWO_256
      modifies this
      ensures Valid() && State() == old(State()).(number := v)
    {
      hide Pow256, Sha3, Encode;
      number := v;
      hashWithout, boundary := NO_HASH, 0;
    }

    method SetDifficulty(v: nat)
      requires Valid() && v < TWO_256
      modifies this
      ensures Valid() && State() == old(State()).(difficulty := v)
    {
      hide Pow256, Sha3, Encode;
      difficulty := v;
      hashWithout, boundary := NO_HASH, 0;
    }

    /** boundary(): whatever was called before, the value for the present difficulty. */
    method GetBoundary() returns (r: nat)
      requires Valid()
      modifies this`boundary
      ensures Valid() && r == Boundary(difficulty)
    {
      hide Pow256, Sha3, Encode;
      if boundary == 0 && difficulty != 0 {
        boundary := TWO_256 / difficulty % TWO_256;
      }
      r := boundary;
    }

    /** One append of a string, the one at k of all those to be written. */
    method PutBytes(s: RlpStream.RlpStream, b: seq<byte>, ghost ss: seq<seq<byte>>, ghost k: nat)
      returns (o: RlpBuilder.Outcome<()>)
      requires s.Valid() && |b| < SIZE_LIMIT && k < |ss| && ss[k] == b
      modifies s
      ensures s.Valid()
      ensures o.Done? ==> AppendStrings(s.State(), ss[k + 1..]) == AppendStrings(old(s.State()), ss[k..])
      ensures !o.Done? ==> s.Matches(o, AppendStrings(old(s.State()), ss[k..]))
    {
      hide RlpBuilder.Apply;
      o := s.AppendBytes(b, false);
    }

    /** One append of a number. */
    method PutNumber(s: RlpStream.RlpStream, v: nat, ghost ss: seq<seq<byte>>, ghost k: nat)
      returns (o: RlpBuilder.Outcome<()>)
      requires s.Valid() && v < TWO_256 && k < |ss| && ss[k] == Compact(v)
      modifies s
      ensures s.Valid()
      ensures o.Done? ==> AppendStrings(s.State(), ss[k + 1..]) == AppendStrings(old(s.State()), ss[k..])
      ensures !o.Done? ==> s.Matches(o, AppendStrings(old(s.State()), ss[k..]))
    {
      hide RlpBuilder.NoteAppended, EncodeBytes, Compact, Pow256;
      ByteLengthBound(v, 32);
      o := s.AppendInt(v);
    }

    /** The seven hashes. */
    method StreamHashes(s: RlpStream.RlpStream, ghost ss: seq<seq<byte>>) returns (o: RlpBuilder.Outcome<()>)
      requires Valid() && s.Valid() && ss == State().Strings()
      modifies s
      ensures s.Valid()
      ensures o.Done? ==> AppendStrings(s.State(), ss[7..]) == AppendStrings(old(s.State()), ss[0..])
      ensures !o.Done? ==> s.Matches(o, AppendStrings(old(s.State()), ss[0..]))
    {
      hide AppendStrings, Compact, Pow256, Encode, Sha3, RlpStream.RlpStream.Valid, RlpStream.RlpStream.Matches,
           Fields.Strings;
      StringsInOrder(State());
      o := PutBytes(s, parentHash, ss, 0);
      if !o.Done? {
        return;
      }
      o := PutBytes(s, sha3Uncles, ss, 1);
      if !o.Done? {
        return;
      }
      o := PutBytes(s, coinbaseAddress, ss, 2);
      if !o.Done? {
        return;
      }
      o := PutBytes(s, stateRoot, ss, 3);
      if !o.Done? {
        return;
      }
      o := PutBytes(s, transactionsRoot, ss, 4);
      if !o.Done? {
        return;
      }
      o := PutBytes(s, receiptsRoot, ss, 5);
      if !o.Done? {
        return;
      }
      o := PutBytes(s, logBloom, ss, 6);
      if !o.Done? {
        return;
      }
    }

    /** The five numbers. */
    method StreamNumbers(s: RlpStream.RlpStream, ghost ss: seq<seq<byte>>) returns (o: RlpBuilder.Outcome<()>)
      requires Valid() && s.Valid() && ss == State().Strings()
      modifies s
      ensures s.Valid()
      ensures o.Done? ==> AppendStrings(s.State(), ss[12..]) == AppendStrings(old(s.State()), ss[7..])
      ensures !o.Done? ==> s.Matches(o, AppendStrings(old(s.State()), ss[7..]))
    {
      hide AppendStrings, Compact, Pow256, Encode, Sha3, RlpStream.RlpStream.Valid, RlpStream.RlpStream.Matches,
           Fields.Strings;
      StringsInOrder(State());
      o := PutNumber(s, difficulty, ss, 7);
      if !o.Done? {
        return;
      }
      o := PutNumber(s, number, ss, 8);
      if !o.Done? {
        return;
      }
      o := PutNumber(s, gasLimit, ss, 9);
      if !o.Done? {
        return;
      }
      o := PutNumber(s, gasUsed, ss, 10);
      if !o.Done? {
        return;
      }
      o := PutNumber(s, timestamp, ss, 11);
      if !o.Done? {
        return;
      }
    }

    /** streamRLPFields: one append after another until one of them fails. */
    method StreamFields(s: RlpStream.RlpStream) returns (o: RlpBuilder.Outcome<()>)
      requires Valid() && s.Valid() && |extraData| < SIZE_LIMIT
      modifies s
      ensures s.Valid() && s.Matches(o, AppendStrings(old(s.State()), State().Strings()))
    {
      hide AppendStrings, Compact, Pow256, Encode, Sha3, RlpStream.RlpStream.Valid, RlpStream.RlpStream.Matches,
           Fields.Strings;
      StringsInOrder(State());
      ghost var ss := State().Strings();
      assert ss[0..] == ss && ss[13..] == [];
      o := StreamHashes(s, ss);
      if o.Done? {
        o := StreamNumbers(s, ss);
      }
      if o.Done? {
        o := PutBytes(s, extraData, ss, 12);
      }
      if o.Done? {
        NothingLeft(s, o);
      }
    }

    /** hashWithout(): whatever was called before, the hash of the encoding of the present fields. */
    method HashWithout() returns (r: seq<bv8>)
      requires Valid() && Encodable(State().Tree()) && |extraData| < SIZE_LIMIT
      modifies this`hashWithout
      ensures Valid() && r == Sha3(Encode(State().Tree()))
    {
      hide AppendStrings, Encode, Octets, Pow256, Sponge.SpongeOf, Encodable, RlpBuilder.Apply, Fields.Strings;
      if hashWithout == NO_HASH {
        var s := new RlpStream.RlpStream.OfList(BASIC_FIELDS);
        FieldsFillList(State());
        var o := StreamFields(s);
        var out := s.Out();
        hashWithout := Digest(out.value);
      }
      r := hashWithout;
    }

    /** The next field as a hash of n bytes, unless an earlier call has lost its item. */
    method FetchHash(header: RlpIndex.Rlp, i: nat, n: nat) returns (h: Result<seq<byte>>)
      requires header.Valid() && i < BASIC_FIELDS
      modifies header
      ensures header.Valid() && (h.Ok? ==> !header.Stuck())
      ensures if old(header.Loses(i)) then h.Err? else h == HashAt(header.data, i, n)
    {
      hide RlpIndex.Rlp.Valid, RlpIndex.Rlp.Stuck, RlpIndex.Answer, ToHash;
      var item := header.Index(i);
      if item.Err? {
        return item;
      }
      h := ToHash(item.value, n, VERY_STRICT);
    }

    /** The next field as a number. */
    method FetchNumber(header: RlpIndex.Rlp, i: nat) returns (v: Result<nat>)
      requires header.Valid() && i < BASIC_FIELDS && !header.Loses(i)
      modifies header
      ensures header.Valid() && (v.Ok? ==> !header.Stuck())
      ensures v == NumberAt(header.data, i)
    {
      hide RlpIndex.Rlp.Valid, RlpIndex.Rlp.Stuck, RlpIndex.Answer, ToInt;
      var item := header.Index(i);
      if item.Err? {
        return Err(item.error);
      }
      v := ToInt(item.value, 32, STRICT);
    }

    /** The seven hashes. */
    method PopulateHashes(header: RlpIndex.Rlp) returns (r: Result<()>)
      requires header.Valid()
      modifies this`parentHash, this`sha3Uncles, this`coinbaseAddress, this`stateRoot, this`transactionsRoot,
               this`receiptsRoot, this`logBloom, header
      ensures header.Valid() && (r.Ok? ==> !header.Stuck())
      ensures old(header.Loses(0)) ==> r.Err?
      ensures r.Err? && !old(header.Loses(0)) ==> HashesOf(header.data) == Err(r.error)
      ensures r.Ok? ==>
        HashesOf(header.data)
        == Ok((parentHash, sha3Uncles, coinbaseAddress, stateRoot, transactionsRoot, receiptsRoot, logBloom))
    {
      hide RlpIndex.Rlp.Valid, RlpIndex.Rlp.Stuck, HashAt;
      var h := FetchHash(header, 0, 32);
      if h.Err? {
        return Err(h.error);
      }
      parentHash := h.value;
      h := FetchHash(header, 1, 32);
      if h.Err? {
        return Err(h.error);
      }
      sha3Uncles := h.value;
      h := FetchHash(header, 2, 20);
      if h.Err? {
        return Err(h.error);
      }
      coinbaseAddress := h.value;
      h := FetchHash(header, 3, 32);
      if h.Err? {
        return Err(h.error);
      }
      stateRoot := h.value;
      h := FetchHash(header, 4, 32);
      if h.Err? {
        return Err(h.error);
      }
      transactionsRoot := h.value;
      h := FetchHash(header, 5, 32);
      if h.Err? {
        return Err(h.error);
      }
      receiptsRoot := h.value;
      h := FetchHash(header, 6, 256);
      if h.Err? {
        return Err(h.error);
      }
      logBloom := h.value;
      return Ok(());
    }

    /** The five numbers. */
    method PopulateNumbers(header: RlpIndex.Rlp) returns (r: Result<()>)
      requires header.Valid() && !header.Stuck()
      modifies this`difficulty, this`number, this`gasLimit, this`gasUsed, this`timestamp, header
      ensures header.Valid() && (r.Ok? ==> !header.Stuck())
      ensures r.Err? ==> NumbersOf(header.data) == Err(r.error)
      ensures r.Ok? ==> NumbersOf(header.data) == Ok((difficulty, number, gasLimit, gasUsed, timestamp))
    {
      hide RlpIndex.Rlp.Valid, RlpIndex.Rlp.Stuck, NumberAt;
      var v := FetchNumber(header, 7);
      if v.Err? {
        return Err(v.error);
      }
      difficulty := v.value;
      v := FetchNumber(header, 8);
      if v.Err? {
        return Err(v.error);
      }
      number := v.value;
      v := FetchNumber(header, 9);
      if v.Err? {
        return Err(v.error);
      }
      gasLimit := v.value;
      v := FetchNumber(header, 10);
      if v.Err? {
        return Err(v.error);
      }
      gasUsed := v.value;
      v := FetchNumber(header, 11);
      if v.Err? {
        return Err(v.error);
      }
      timestamp := v.value;
      return Ok(());
    }

    /** populateFromHeader, for a new header object and any bytes. The list object may have been
        indexed before; if that has lost its first item, reading fails. */
    method PopulateFromHeader(header: RlpIndex.Rlp) returns (o: Outcome)
      requires header.Valid() && hashWithout == NO_HASH && boundary == 0
      modifies this, header
      ensures header.Valid()
      ensures if old(header.Loses(0)) then o.BadField? else o == ReadBytes(header.data)
      ensures o.Read? ==> Valid() && State() == o.fields
    {
      hide RlpIndex.Rlp.Valid, RlpIndex.Rlp.Stuck, RlpIndex.Answer, ToBytes, Fields.Valid, Fields.Tree, Fields.Strings,
           Pow256, Sha3, HashesOf, NumbersOf;
      var r := PopulateHashes(header);
      if r.Ok? {
        r := PopulateNumbers(header);
      }
      if r.Err? {
        return BadField(r.error);
      }
      var item := header.Index(12);
      if item.Err? {
        return BadField(item.error);
      }
      var b := ToBytes(item.value);
      if b.Err? {
        return BadField(b.error);
      }
      extraData := b.value;
      if number >= NUMBER_LIMIT {
        return InvalidNumber;
      }
      if gasUsed > gasLimit {
        return TooMuchGasUsed;
      }
      o := Read(State());
      WidthsRead(header.data, State());
    }
  }

  /** What any bytes read as has the widths of the field types. */
  lemma WidthsRead(d: seq<byte>, h: Fields)
    requires ReadBytes(d) == Read(h)
    ensures h.Valid()
  {
    hide ReadBytes, Fields.Valid;
    ReadIff(d, h);
  }

  lemma NothingLeft(s: RlpStream.RlpStream, o: RlpBuilder.Outcome<()>)
    requires s.Valid() && o.Done?
    ensures s.Matches(o, AppendStrings(s.State(), []))
  {
  }
}
