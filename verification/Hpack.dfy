/**
 HPACK as RFC 7541 defines it, and the soundness of restarting the encoder for every
 header block, which is what h2ClientConn.headerBlock does.

 The encoder's indexing strategy is arbitrary: any choice of representation that refers
 to matching table entries is allowed. Huffman coding and the integer byte format are
 below this level.
 */
module Hpack {
  import opened Prelude

  datatype Field = Field(name: string, value: string)

  /** A pseudo-header field (section 8.1.2.1 of RFC 7540). */
  predicate IsPseudo(f: Field) {
    f.name != "" && f.name[0] == ':'
  }

  /** A dynamic table, newest entry first (section 2.3.2). */
  type Table = seq<Field>

  /** Section 4.1: 32 octets of overhead for every entry. */
  function EntrySize(f: Field): nat {
    |f.name| + |f.value| + 32
  }

  function TableSize(t: Table): nat {
    if t == [] then 0 else TableSize(t[..|t| - 1]) + EntrySize(t[|t| - 1])
  }

  /** Drops the oldest entries until the table fits (section 4.3). */
  function Evict(t: Table, cap: nat): Table {
    if TableSize(t) <= cap then t else Evict(t[..|t| - 1], cap)
  }

  /** Section 4.4: make room first; an entry that can never fit empties the table. */
  function Insert(t: Table, f: Field, cap: nat): Table {
    if EntrySize(f) > cap then [] else [f] + Evict(t, cap - EntrySize(f))
  }

  // ---- Eviction keeps the longest newest-first prefix that fits ----

  lemma {:induction false} EvictIsLongestFit(t: Table, cap: nat)
    ensures Evict(t, cap) <= t
    ensures TableSize(Evict(t, cap)) <= cap
    ensures forall p: Table :: p <= t && TableSize(p) <= cap ==> p <= Evict(t, cap)
  {
    if TableSize(t) > cap {
      var shorter := t[..|t| - 1];
      EvictIsLongestFit(shorter, cap);
      forall p: Table | p <= t && TableSize(p) <= cap ensures p <= Evict(t, cap) {
        assert p != t;
        assert p <= shorter;
      }
    }
  }

  /** Insertion keeps a smaller table a newest-first prefix of a larger one. */
  lemma InsertKeepsPrefix(e: Table, d: Table, f: Field, capE: nat, capD: nat)
    requires e <= d
    requires capE <= capD || capE < 32
    ensures Insert(e, f, capE) <= Insert(d, f, capD)
  {
    if EntrySize(f) <= capE {
      var roomE, roomD := capE - EntrySize(f), capD - EntrySize(f);
      EvictIsLongestFit(e, roomE);
      EvictIsLongestFit(d, roomD);
      assert Evict(e, roomE) <= d;
      assert Evict(e, roomE) <= Evict(d, roomD);
    }
  }

  // ---- Representations (section 6) ----

  datatype NameRef = ByIndex(i: nat) | Verbatim(s: string)

  datatype Rep =
    | Indexed(i: nat)
    | Incremental(nameRef: NameRef, text: string)
    | NotIndexed(nameRef: NameRef, text: string, never: bool)

  /** The single address space of section 2.3.3: the static table, then the dynamic one. */
  function Lookup(fixed: Table, t: Table, i: nat): Option<Field> {
    if 1 <= i <= |fixed| then Some(fixed[i - 1])
    else if |fixed| < i <= |fixed| + |t| then Some(t[i - |fixed| - 1])
    else None
  }

  function ResolveName(fixed: Table, t: Table, n: NameRef): Option<string> {
    match n
    case Verbatim(s) => Some(s)
    case ByIndex(i) =>
      match Lookup(fixed, t, i)
      case Some(f) => Some(f.name)
      case None => None
  }

  // ---- The peer's decoder ----

  function DecodeRep(fixed: Table, t: Table, cap: nat, rep: Rep): Option<(Field, Table)> {
    match rep
    case Indexed(i) => (
      match Lookup(fixed, t, i)
      case Some(f) => Some((f, t))
      case None => None
    )
    case Incremental(n, text) => (
      match ResolveName(fixed, t, n)
      case Some(name) => Some((Field(name, text), Insert(t, Field(name, text), cap)))
      case None => None
    )
    case NotIndexed(n, text, _) => (
      match ResolveName(fixed, t, n)
      case Some(name) => Some((Field(name, text), t))
      case None => None
    )
  }

  function DecodeBlock(fixed: Table, t: Table, cap: nat, block: seq<Rep>): Option<(seq<Field>, Table)>
    decreases |block|
  {
    if block == [] then Some(([], t))
    else
      match DecodeRep(fixed, t, cap, block[0])
      case None => None
      case Some((f, t1)) =>
        match DecodeBlock(fixed, t1, cap, block[1..])
        case None => None
        case Some((fs, t2)) => Some(([f] + fs, t2))
  }

  /** The peer keeps one table for the whole connection: each block starts where the last one ended. */
  function DecodeAll(fixed: Table, t: Table, cap: nat, blocks: seq<seq<Rep>>): Option<seq<seq<Field>>>
    decreases |blocks|
  {
    if blocks == [] then Some([])
    else
      match DecodeBlock(fixed, t, cap, blocks[0])
      case None => None
      case Some((fs, t1)) =>
        match DecodeAll(fixed, t1, cap, blocks[1..])
        case None => None
        case Some(rest) => Some([fs] + rest)
  }

  // ---- The encoder, for any indexing strategy ----

  /** rep is a representation of f that an encoder whose table is t may choose. */
  predicate Legit(fixed: Table, t: Table, f: Field, rep: Rep) {
    match rep
    case Indexed(i) => Lookup(fixed, t, i) == Some(f)
    case Incremental(n, text) => ResolveName(fixed, t, n) == Some(f.name) && text == f.value
    case NotIndexed(n, text, _) => ResolveName(fixed, t, n) == Some(f.name) && text == f.value
  }

  function After(t: Table, cap: nat, f: Field, rep: Rep): Table {
    if rep.Incremental? then Insert(t, f, cap) else t
  }

  /** block is an encoding of fields by an encoder that starts with table t. */
  predicate Encodes(fixed: Table, cap: nat, t: Table, fields: seq<Field>, block: seq<Rep>)
    decreases |fields|
  {
    && |block| == |fields|
    && (fields != [] ==>
          && Legit(fixed, t, fields[0], block[0])
          && Encodes(fixed, cap, After(t, cap, fields[0], block[0]), fields[1..], block[1..]))
  }

  /** The encoder's table after it has written block for fields. */
  function TableAfter(cap: nat, t: Table, fields: seq<Field>, block: seq<Rep>): Table
    requires |block| == |fields|
    decreases |fields|
  {
    if fields == [] then t else TableAfter(cap, After(t, cap, fields[0], block[0]), fields[1..], block[1..])
  }

  /** Writing one more field extends an encoding. */
  lemma {:induction false} EncodesOneMore(fixed: Table, cap: nat, t: Table, fields: seq<Field>, block: seq<Rep>,
                                          f: Field, rep: Rep)
    requires Encodes(fixed, cap, t, fields, block)
    requires Legit(fixed, TableAfter(cap, t, fields, block), f, rep)
    ensures Encodes(fixed, cap, t, fields + [f], block + [rep])
    ensures TableAfter(cap, t, fields + [f], block + [rep]) == After(TableAfter(cap, t, fields, block), cap, f, rep)
    decreases |fields|
  {
    var fs, reps := fields + [f], block + [rep];
    if fields == [] {
      assert fs[1..] == [] && reps[1..] == [];
    } else {
      assert fs[1..] == fields[1..] + [f] && reps[1..] == block[1..] + [rep];
      EncodesOneMore(fixed, cap, After(t, cap, fields[0], block[0]), fields[1..], block[1..], f, rep);
    }
  }

  /** Only a literal with incremental indexing changes a table, on either side (section 6.2.1). */
  lemma OnlyIncrementalInserts(fixed: Table, t: Table, cap: nat, f: Field, rep: Rep)
    requires Legit(fixed, t, f, rep)
    ensures DecodeRep(fixed, t, cap, rep).Some? && DecodeRep(fixed, t, cap, rep).value.0 == f
    ensures !rep.Incremental? ==> After(t, cap, f, rep) == DecodeRep(fixed, t, cap, rep).value.1 == t
    ensures rep.Incremental? && EntrySize(f) <= cap ==>
              var d := After(t, cap, f, rep);
              d == DecodeRep(fixed, t, cap, rep).value.1 && d != [] && d[0] == f && d[1..] <= t
  {
    EvictIsLongestFit(t, if EntrySize(f) <= cap then cap - EntrySize(f) else 0);
  }

  /** Every block was produced by its own fresh encoder. */
  predicate EncodesEach(fixed: Table, cap: nat, requests: seq<seq<Field>>, blocks: seq<seq<Rep>>) {
    && |blocks| == |requests|
    && forall k :: 0 <= k < |blocks| ==> Encodes(fixed, cap, [], requests[k], blocks[k])
  }

  // ---- Soundness of restarting ----

  lemma LookupInPrefix(fixed: Table, e: Table, d: Table, i: nat)
    requires e <= d && Lookup(fixed, e, i).Some?
    ensures Lookup(fixed, d, i) == Lookup(fixed, e, i)
  {
  }

  /** One representation decodes to its field, and keeps the encoder's table a prefix of the decoder's. */
  lemma RepDecodes(fixed: Table, capE: nat, capD: nat, e: Table, d: Table, f: Field, rep: Rep)
    requires e <= d
    requires capE <= capD || capE < 32
    requires Legit(fixed, e, f, rep)
    ensures DecodeRep(fixed, d, capD, rep) == Some((f, After(d, capD, f, rep)))
    ensures After(e, capE, f, rep) <= After(d, capD, f, rep)
  {
    match rep
    case Indexed(i) => LookupInPrefix(fixed, e, d, i);
    case Incremental(n, _) =>
      if n.ByIndex? { LookupInPrefix(fixed, e, d, n.i); }
      InsertKeepsPrefix(e, d, f, capE, capD);
    case NotIndexed(n, _, _) =>
      if n.ByIndex? { LookupInPrefix(fixed, e, d, n.i); }
  }

  /**
   One block decodes to its fields from every decoder table of which the encoder's table
   is a newest-first prefix; the prefix relation survives the block.
   */
  lemma {:induction false} BlockDecodes(fixed: Table, capE: nat, capD: nat, e: Table, d: Table,
                                        fields: seq<Field>, block: seq<Rep>)
    requires e <= d
    requires capE <= capD || capE < 32
    requires Encodes(fixed, capE, e, fields, block)
    ensures DecodeBlock(fixed, d, capD, block).Some?
    ensures DecodeBlock(fixed, d, capD, block).value.0 == fields
    ensures TableAfter(capE, e, fields, block) <= DecodeBlock(fixed, d, capD, block).value.1
    decreases |fields|
  {
    if fields != [] {
      var f, rep := fields[0], block[0];
      RepDecodes(fixed, capE, capD, e, d, f, rep);
      BlockDecodes(fixed, capE, capD, After(e, capE, f, rep), After(d, capD, f, rep), fields[1..], block[1..]);
      assert fields == [f] + fields[1..];
    }
  }

  /**
   The whole connection: whatever table the peer starts from (blocks that were encoded but
   never sent do not touch it), the blocks it receives decode to exactly their requests.
   */
  lemma {:induction false} RestartedBlocksDecode(fixed: Table, capE: nat, capD: nat, d: Table,
                                                 requests: seq<seq<Field>>, blocks: seq<seq<Rep>>)
    requires capE <= capD || capE < 32
    requires EncodesEach(fixed, capE, requests, blocks)
    ensures DecodeAll(fixed, d, capD, blocks) == Some(requests)
    decreases |blocks|
  {
    if blocks != [] {
      assert Encodes(fixed, capE, [], requests[0], blocks[0]);
      BlockDecodes(fixed, capE, capD, [], d, requests[0], blocks[0]);
      var d1 := DecodeBlock(fixed, d, capD, blocks[0]).value.1;
      assert EncodesEach(fixed, capE, requests[1..], blocks[1..]) by {
        forall k | 0 <= k < |blocks[1..]| ensures Encodes(fixed, capE, [], requests[1..][k], blocks[1..][k]) {
          assert Encodes(fixed, capE, [], requests[k + 1], blocks[k + 1]);
        }
      }
      RestartedBlocksDecode(fixed, capE, capD, d1, requests[1..], blocks[1..]);
      assert requests == [requests[0]] + requests[1..];
    }
  }

  ghost predicate RestartSound(fixed: Table, capE: nat, capD: nat) {
    forall requests: seq<seq<Field>>, blocks: seq<seq<Rep>> ::
      EncodesEach(fixed, capE, requests, blocks) ==> DecodeAll(fixed, [], capD, blocks) == Some(requests)
  }

  /** The longest field an encoder of capacity cap can still index. */
  function FillingField(cap: nat): (f: Field)
    requires cap >= 32
    ensures EntrySize(f) == cap
  {
    Field(seq(cap - 32, i => 'a'), "")
  }

  /** With a smaller decoder one field, inserted and then referred to, already breaks the block. */
  lemma BrokenBlock(fixed: Table, capE: nat, capD: nat) returns (lists: seq<seq<Field>>, blocks: seq<seq<Rep>>)
    requires capD < capE && 32 <= capE
    ensures |lists| == |blocks| == 1 && Encodes(fixed, capE, [], lists[0], blocks[0])
    ensures DecodeAll(fixed, [], capD, blocks) == None
  {
    var f := FillingField(capE);
    var fields := [f, f];
    var block := [Incremental(Verbatim(f.name), f.value), Indexed(|fixed| + 1)];
    lists, blocks := [fields], [block];
    assert Evict([], 0) == [];
    assert Insert([], f, capE) == [f];
    assert Encodes(fixed, capE, [f], fields[1..], block[1..]) by {
      assert fields[1..][1..] == [] && block[1..][1..] == [];
    }
    assert Encodes(fixed, capE, [], fields, block);
    assert DecodeBlock(fixed, [], capD, block[1..]) == None;
    assert DecodeBlock(fixed, [], capD, block) == None;
  }

  lemma SmallDecoderFails(fixed: Table, capE: nat, capD: nat)
    requires capD < capE && 32 <= capE
    ensures !RestartSound(fixed, capE, capD)
  {
    var lists, blocks := BrokenBlock(fixed, capE, capD);
    assert EncodesEach(fixed, capE, lists, blocks);
  }

  /**
   Exactly when restarting the encoder for every block is safe: the peer's table must hold at
   least as much as the encoder's, unless the encoder's is too small to index anything.
   */
  lemma RestartSoundIffCapacity(fixed: Table, capE: nat, capD: nat)
    ensures RestartSound(fixed, capE, capD) <==> capE <= capD || capE < 32
  {
    if capE <= capD || capE < 32 {
      forall requests: seq<seq<Field>>, blocks: seq<seq<Rep>> | EncodesEach(fixed, capE, requests, blocks)
        ensures DecodeAll(fixed, [], capD, blocks) == Some(requests)
      {
        RestartedBlocksDecode(fixed, capE, capD, [], requests, blocks);
      }
    } else {
      SmallDecoderFails(fixed, capE, capD);
    }
  }

  // ---- Responses: the peer's encoder keeps its table ----

  /** Every block was produced by one encoder, which starts each with the table the last one left. */
  predicate EncodesInTurn(fixed: Table, cap: nat, t: Table, lists: seq<seq<Field>>, blocks: seq<seq<Rep>>)
    decreases |lists|
  {
    && |blocks| == |lists|
    && (lists != [] ==>
          && Encodes(fixed, cap, t, lists[0], blocks[0])
          && EncodesInTurn(fixed, cap, TableAfter(cap, t, lists[0], blocks[0]), lists[1..], blocks[1..]))
  }

  /** A decoder that sees every block keeps up with such an encoder. */
  lemma {:induction false} BlocksInTurnDecode(fixed: Table, capE: nat, capD: nat, e: Table, d: Table,
                                              lists: seq<seq<Field>>, blocks: seq<seq<Rep>>)
    requires e <= d
    requires capE <= capD || capE < 32
    requires EncodesInTurn(fixed, capE, e, lists, blocks)
    ensures DecodeAll(fixed, d, capD, blocks) == Some(lists)
    decreases |blocks|
  {
    if blocks != [] {
      BlockDecodes(fixed, capE, capD, e, d, lists[0], blocks[0]);
      var e1 := TableAfter(capE, e, lists[0], blocks[0]);
      var d1 := DecodeBlock(fixed, d, capD, blocks[0]).value.1;
      BlocksInTurnDecode(fixed, capE, capD, e1, d1, lists[1..], blocks[1..]);
      assert lists == [lists[0]] + lists[1..];
    }
  }

  ghost predicate KeepingSound(fixed: Table, capE: nat, capD: nat) {
    forall lists: seq<seq<Field>>, blocks: seq<seq<Rep>> ::
      EncodesInTurn(fixed, capE, [], lists, blocks) ==> DecodeAll(fixed, [], capD, blocks) == Some(lists)
  }

  /** The capacity of the client's decoder for response headers. */
  const RESPONSE_TABLE: nat := 0x10_0000

  lemma SmallDecoderLosesTrack(fixed: Table, capE: nat, capD: nat)
    requires capD < capE && 32 <= capE
    ensures !KeepingSound(fixed, capE, capD)
  {
    var lists, blocks := BrokenBlock(fixed, capE, capD);
    assert EncodesInTurn(fixed, capE, [], lists, blocks) by {
      assert lists[1..] == [] && blocks[1..] == [];
    }
  }

  /**
   Exactly which peers the client can read, whatever their indexing strategy: those whose encoder
   table holds at most 2^20 octets.
   */
  lemma ResponsesReadableIff(fixed: Table, capE: nat)
    ensures KeepingSound(fixed, capE, RESPONSE_TABLE) <==> capE <= 1048576
  {
    if capE <= RESPONSE_TABLE {
      forall lists: seq<seq<Field>>, blocks: seq<seq<Rep>> | EncodesInTurn(fixed, capE, [], lists, blocks)
        ensures DecodeAll(fixed, [], RESPONSE_TABLE, blocks) == Some(lists)
      {
        BlocksInTurnDecode(fixed, capE, RESPONSE_TABLE, [], [], lists, blocks);
      }
    } else {
      SmallDecoderLosesTrack(fixed, capE, RESPONSE_TABLE);
    }
  }

  /**
   Why the restart matters: an encoder that keeps its table refers, after a block that was
   encoded but not sent, to an entry the peer never saw.
   */
  lemma KeptEncoderFailsAfterUnsentBlock(fixed: Table, f: Field, cap: nat)
    requires EntrySize(f) <= cap
    ensures Encodes(fixed, cap, [], [f], [Incremental(Verbatim(f.name), f.value)])
    ensures Encodes(fixed, cap, Insert([], f, cap), [f], [Indexed(|fixed| + 1)])
    ensures DecodeBlock(fixed, [], cap, [Indexed(|fixed| + 1)]) == None
  {
    assert Evict([], cap - EntrySize(f)) == [];
  }
}
