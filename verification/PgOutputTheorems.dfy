/** Decoding inverts encoding, and splitting a stream between messages is invisible. */
module PgOutputTheorems {
  import opened Wrappers
  import opened Bytes
  import opened PgOutput
  import opened PgOutputCodec

  // ----- One message -----

  lemma ReadBeginOrCommit(m: Msg, rels: Relations, rest: seq<byte>)
    requires (m.Begin? || m.Commit?) && WellFormed(m, rels)
    ensures DecodeMessage(Encode(m) + rest, rels) == Consumed(|Encode(m)|, rels, [], LsnOf(m))
  {
    hide Value, Big, Span;
    if m.Commit? {
      assert (Encode(m) + rest)[2..10] == Big(m.lsn, 8);
      ValueOfBig(m.lsn, 8);
    }
  }

  /** The relation id that follows the type byte. */
  lemma ReadId(kind: byte, id: nat, tail: seq<byte>)
    requires id < Span(4)
    ensures var data := [kind] + Big(id, 4) + tail;
            data[0] == kind && data[1..5] == Big(id, 4) && Value(data[1..5]) == id && data[5..] == tail
  {
    hide Value, Big, Span;
    assert ([kind] + Big(id, 4) + tail)[1..5] == Big(id, 4);
    ValueOfBig(id, 4);
  }

  lemma ReadEncodedInsert(m: Msg, rels: Relations, rest: seq<byte>)
    requires m.Insert? && WellFormed(m, rels)
    ensures DecodeMessage(Encode(m) + rest, rels) == Consumed(|Encode(m)|, rels, ChangesOf(m, rels), 0)
  {
    hide Value, Big, Span, DecodeTuple, EncodeTuple, RowOf;
    var tail := [NEW] + (EncodeTuple(m.after) + rest);
    var data := Encode(m) + rest;
    assert data == [INSERT] + Big(m.id, 4) + tail;
    ReadId(INSERT, m.id, tail);
    assert data[5] == data[5..][0] && data[6..] == data[5..][1..];
    ReadEncodedTuple(m.after, rels[m.id].columns, rest);
  }

  /** A marked tuple at pos is read as its row. */
  lemma ReadOptional(data: seq<byte>, pos: nat, marker: byte, markers: set<byte>, t: Tuple,
                     cols: seq<ColMeta>, rest: seq<byte>)
    requires pos <= |data| && marker in markers && |t| <= |cols| && WellFormedTuple(t)
    requires data[pos..] == [marker] + EncodeTuple(t) + rest
    ensures OptionalTuple(data, pos, markers, cols) == Ok(Some(RowOf(cols, t)), pos + 1 + |EncodeTuple(t)|)
    ensures data[pos + 1 + |EncodeTuple(t)|..] == rest
  {
    hide Span, DecodeTuple, EncodeTuple, RowOf;
    Split(data, pos, [marker] + EncodeTuple(t), rest);
    assert data[pos] == data[pos..][0];
    assert data[pos + 1..] == data[pos..][1..] == EncodeTuple(t) + rest;
    ReadEncodedTuple(t, cols, rest);
  }

  lemma ReadNoTuple(data: seq<byte>, pos: nat, markers: set<byte>, cols: seq<ColMeta>)
    requires pos < |data| && data[pos] !in markers
    ensures OptionalTuple(data, pos, markers, cols) == Ok(None, pos)
  {
  }

  lemma ReadEncodedDelete(m: Msg, rels: Relations, rest: seq<byte>)
    requires m.Delete? && WellFormed(m, rels)
    ensures DecodeMessage(Encode(m) + rest, rels) == Consumed(|Encode(m)|, rels, ChangesOf(m, rels), 0)
  {
    hide Value, Big, Span, DecodeTuple, EncodeTuple, RowOf, OptionalTuple;
    var tail := EncodeOld(m.gone) + rest;
    var data := Encode(m) + rest;
    assert data == [DELETE] + Big(m.id, 4) + tail;
    ReadId(DELETE, m.id, tail);
    ReadOptional(data, 5, if m.gone.isKey then KEY else OLD, {KEY, OLD}, m.gone.tuple, rels[m.id].columns, rest);
  }

  function EncodePrior(m: Msg): seq<byte>
    requires m.Update?
  {
    if m.before.Some? then EncodeOld(m.before.value) else []
  }

  /** The old tuple of an update, if there is one. */
  lemma ReadPrior(data: seq<byte>, m: Msg, cols: seq<ColMeta>, last: seq<byte>)
    requires m.Update? && |data| >= 5 && data[5..] == EncodePrior(m) + last && last != [] && last[0] == NEW
    requires m.before.Some? ==> |m.before.value.tuple| <= |cols| && WellFormedTuple(m.before.value.tuple)
    ensures OptionalTuple(data, 5, {KEY, OLD}, cols) ==
            Ok(if m.before.Some? then Some(RowOf(cols, m.before.value.tuple)) else None, 5 + |EncodePrior(m)|)
    ensures data[5 + |EncodePrior(m)|..] == last
  {
    hide EncodeTuple, RowOf, OptionalTuple, WellFormedTuple;
    if m.before.Some? {
      var b := m.before.value;
      ReadOptional(data, 5, if b.isKey then KEY else OLD, {KEY, OLD}, b.tuple, cols, last);
    } else {
      assert data[5..] == last && data[5] == data[5..][0];
      ReadNoTuple(data, 5, {KEY, OLD}, cols);
    }
  }

  lemma ReadEncodedUpdate(m: Msg, rels: Relations, rest: seq<byte>)
    requires m.Update? && WellFormed(m, rels)
    ensures DecodeMessage(Encode(m) + rest, rels) == Consumed(|Encode(m)|, rels, ChangesOf(m, rels), 0)
  {
    hide Value, Big, Span, DecodeTuple, EncodeTuple, RowOf, OptionalTuple, WellFormedTuple;
    var cols := rels[m.id].columns;
    var last := [NEW] + EncodeTuple(m.after) + rest;
    var data := Encode(m) + rest;
    assert data == [UPDATE] + Big(m.id, 4) + (EncodePrior(m) + last);
    ReadId(UPDATE, m.id, EncodePrior(m) + last);
    ReadPrior(data, m, cols, last);
    ReadOptional(data, 5 + |EncodePrior(m)|, NEW, {NEW}, m.after, cols, rest);
    assert |Encode(m)| == 5 + |EncodePrior(m)| + 1 + |EncodeTuple(m.after)|;
    hide EncodePrior, Encode;
  }

  lemma ReadMessage(m: Msg, rels: Relations, rest: seq<byte>)
    requires WellFormed(m, rels)
    ensures |Encode(m)| > 0
    ensures DecodeMessage(Encode(m) + rest, rels) ==
            Consumed(|Encode(m)|, RelationsAfter(m, rels), ChangesOf(m, rels), LsnOf(m))
  {
    hide Value, Big, Span;
    match m {
      case Begin(_, _, _) => ReadBeginOrCommit(m, rels, rest);
      case Commit(_, _, _, _) => ReadBeginOrCommit(m, rels, rest);
      case Relation(_, _, _, _, _) => ReadEncodedRelation(m, rest);
      case Insert(_, _) => ReadEncodedInsert(m, rels, rest);
      case Update(_, _, _) => ReadEncodedUpdate(m, rels, rest);
      case Delete(_, _) => ReadEncodedDelete(m, rels, rest);
    }
  }

  // ----- Batches -----

  /** Every message is well formed given the relations known by then. */
  predicate WellFormedBatch(msgs: seq<Msg>, rels: Relations)
    decreases |msgs|
  {
    msgs == [] || (WellFormed(msgs[0], rels) && WellFormedBatch(msgs[1..], RelationsAfter(msgs[0], rels)))
  }

  function EncodeBatch(msgs: seq<Msg>): seq<byte> {
    if msgs == [] then [] else Encode(msgs[0]) + EncodeBatch(msgs[1..])
  }

  function BatchRelations(msgs: seq<Msg>, rels: Relations): Relations
    decreases |msgs|
  {
    if msgs == [] then rels else BatchRelations(msgs[1..], RelationsAfter(msgs[0], rels))
  }

  function BatchChanges(msgs: seq<Msg>, rels: Relations): seq<Change>
    requires WellFormedBatch(msgs, rels)
    decreases |msgs|
  {
    if msgs == [] then []
    else ChangesOf(msgs[0], rels) + BatchChanges(msgs[1..], RelationsAfter(msgs[0], rels))
  }

  /** The highest commit LSN, or 0. */
  function BatchLsn(msgs: seq<Msg>): (r: nat)
    ensures forall m | m in msgs && m.Commit? :: m.lsn <= r
    ensures r == 0 || exists m :: m in msgs && m.Commit? && m.lsn == r
  {
    if msgs == [] then 0
    else
      assert forall m | m in msgs :: m == msgs[0] || m in msgs[1..];
      assert forall m | m in msgs[1..] :: m in msgs;
      Max(LsnOf(msgs[0]), BatchLsn(msgs[1..]))
  }

  /** One well-formed message leaves exactly the rest to be decoded. */
  lemma DecodeFirst(m: Msg, rels: Relations, tail: seq<byte>, changes: seq<Change>, lsn: nat)
    requires WellFormed(m, rels)
    ensures DecodeAll(Encode(m) + tail, rels, changes, lsn) ==
            DecodeAll(tail, RelationsAfter(m, rels), changes + ChangesOf(m, rels), Max(lsn, LsnOf(m)))
  {
    ReadMessage(m, rels, tail);
    hide DecodeMessage, Encode, WellFormed, ChangesOf, RelationsAfter, LsnOf;
    assert Drop(Encode(m) + tail, |Encode(m)|) == tail;
  }

  /** A well-formed prefix leaves exactly the rest to be decoded. */
  lemma {:induction false} DecodePrefix(msgs: seq<Msg>, rels: Relations, rest: seq<byte>, changes: seq<Change>, lsn: nat)
    requires WellFormedBatch(msgs, rels)
    ensures DecodeAll(EncodeBatch(msgs) + rest, rels, changes, lsn) ==
            DecodeAll(rest, BatchRelations(msgs, rels), changes + BatchChanges(msgs, rels), Max(lsn, BatchLsn(msgs)))
    decreases |msgs|
  {
    hide DecodeAll, Encode, WellFormed, ChangesOf, RelationsAfter, LsnOf;
    if msgs == [] {
      assert EncodeBatch(msgs) + rest == rest && changes + BatchChanges(msgs, rels) == changes;
    } else {
      var m, tail := msgs[0], EncodeBatch(msgs[1..]) + rest;
      assert EncodeBatch(msgs) + rest == Encode(m) + tail;
      DecodeFirst(m, rels, tail, changes, lsn);
      var changes' := changes + ChangesOf(m, rels);
      DecodePrefix(msgs[1..], RelationsAfter(m, rels), rest, changes', Max(lsn, LsnOf(m)));
      assert changes' + BatchChanges(msgs[1..], RelationsAfter(m, rels)) == changes + BatchChanges(msgs, rels);
    }
  }

  /** A well-formed batch on its own. */
  lemma DecodeBatch(msgs: seq<Msg>, rels: Relations)
    requires WellFormedBatch(msgs, rels)
    ensures DecodeAll(EncodeBatch(msgs), rels, [], 0) ==
            Batch(BatchRelations(msgs, rels), BatchChanges(msgs, rels), BatchLsn(msgs), Complete)
  {
    hide EncodeBatch, BatchChanges, BatchRelations, BatchLsn, WellFormedBatch;
    DecodePrefix(msgs, rels, [], [], 0);
    assert EncodeBatch(msgs) + [] == EncodeBatch(msgs) && [] + BatchChanges(msgs, rels) == BatchChanges(msgs, rels);
  }

  /** What was decoded before only adds to what a batch decodes to. */
  lemma {:induction false} DecodeAccumulates(data: seq<byte>, rels: Relations, changes: seq<Change>, lsn: nat)
    ensures var b := DecodeAll(data, rels, [], 0);
            DecodeAll(data, rels, changes, lsn) == b.(changes := changes + b.changes, lsn := Max(lsn, b.lsn))
    decreases |data|
  {
    hide DecodeMessage;
    if data != [] && DecodeMessage(data, rels).Consumed? {
      var Consumed(n, rels', more, seen) := DecodeMessage(data, rels);
      DecodeAccumulates(Drop(data, n), rels', changes + more, Max(lsn, seen));
      DecodeAccumulates(Drop(data, n), rels', [] + more, Max(0, seen));
      var b := DecodeAll(Drop(data, n), rels', [], 0);
      assert changes + more + b.changes == changes + ([] + more + b.changes);
    }
  }

  /** An XLogData frame (section 55.4 of the PostgreSQL 16 documentation). */
  function Frame(start: nat, end: nat, timestamp: nat, wal: seq<byte>): seq<byte> {
    [XLOG] + Big(start, 8) + Big(end, 8) + Big(timestamp, 8) + wal
  }

  /** Decoding inverts encoding, with the highest commit LSN, or the frame's
      start if no commit is above zero. */
  lemma DecodeInvertsEncode(start: nat, end: nat, timestamp: nat, msgs: seq<Msg>, rels: Relations)
    requires start < Span(8) && WellFormedBatch(msgs, rels)
    ensures Decode(Frame(start, end, timestamp, EncodeBatch(msgs)), rels) ==
            Batch(BatchRelations(msgs, rels), BatchChanges(msgs, rels),
                  if BatchLsn(msgs) == 0 then start else BatchLsn(msgs), Complete)
  {
    hide Value, Big, Span, DecodeAll, EncodeBatch, BatchChanges, BatchRelations, BatchLsn, WellFormedBatch;
    var wal := EncodeBatch(msgs);
    var data := Frame(start, end, timestamp, wal);
    assert data[1..9] == Big(start, 8) && data[25..] == wal;
    ValueOfBig(start, 8);
    DecodeBatch(msgs, rels);
  }

  /** No message begins like a frame. */
  lemma NotAFrame(msgs: seq<Msg>)
    requires msgs != []
    ensures EncodeBatch(msgs) != [] && EncodeBatch(msgs)[0] != XLOG
  {
    hide Big;
  }

  /** A batch without a frame is decoded the same way, with no start LSN to fall
      back on; one of fewer than 25 bytes is refused, well formed or not. */
  lemma DecodeUnframed(msgs: seq<Msg>, rels: Relations)
    requires WellFormedBatch(msgs, rels)
    ensures Decode(EncodeBatch(msgs), rels) ==
            if |EncodeBatch(msgs)| < 25 then Batch(rels, [], 0, Failure(TooShort))
            else Batch(BatchRelations(msgs, rels), BatchChanges(msgs, rels), BatchLsn(msgs), Complete)
  {
    assert msgs == [] ==> EncodeBatch(msgs) == [];
    if msgs != [] { NotAFrame(msgs); }
    hide DecodeAll, EncodeBatch, BatchChanges, BatchRelations, BatchLsn, WellFormedBatch;
    DecodeBatch(msgs, rels);
  }

  /** Decoding a stream whole, or up to any message boundary and then the rest
      with the relations carried over, gives the same changes, relations,
      ending and highest LSN, whatever the rest is. */
  lemma SplitIsInvisible(msgs: seq<Msg>, rels: Relations, rest: seq<byte>, base: nat)
    requires WellFormedBatch(msgs, rels)
    ensures var wal := EncodeBatch(msgs);
            var whole := DecodeWAL(wal + rest, rels, base);
            var first := DecodeWAL(wal, rels, base);
            var second := DecodeWAL(rest, first.rels, base);
            && whole.rels == second.rels && whole.end == second.end
            && whole.changes == first.changes + second.changes
            && DecodeWAL(wal + rest, rels, 0).lsn ==
               Max(DecodeWAL(wal, rels, 0).lsn, DecodeWAL(rest, first.rels, 0).lsn)
  {
    hide DecodeAll, EncodeBatch, BatchChanges, BatchRelations, BatchLsn, WellFormedBatch;
    DecodePrefix(msgs, rels, rest, [], 0);
    DecodeBatch(msgs, rels);
    assert [] + BatchChanges(msgs, rels) == BatchChanges(msgs, rels);
    DecodeAccumulates(rest, BatchRelations(msgs, rels), BatchChanges(msgs, rels), BatchLsn(msgs));
  }

  // ----- Rows -----

  predicate DistinctNames(cols: seq<ColMeta>) {
    forall i, j | 0 <= i < j < |cols| :: cols[i].name != cols[j].name
  }

  /** With distinct column names, a row holds each field under its column, and nothing else. */
  lemma {:induction false} RowIsFaithful(cols: seq<ColMeta>, t: Tuple)
    requires |t| <= |cols| && DistinctNames(cols)
    ensures forall i | 0 <= i < |t| :: cols[i].name in RowOf(cols, t) && RowOf(cols, t)[cols[i].name] == CellOf(t[i])
    ensures forall name | name in RowOf(cols, t) :: exists i :: 0 <= i < |t| && cols[i].name == name
  {
    if t != [] {
      RowIsFaithful(cols, t[..|t| - 1]);
      forall name | name in RowOf(cols, t) ensures exists i :: 0 <= i < |t| && cols[i].name == name {
        if name == cols[|t| - 1].name {
          assert cols[|t| - 1].name == name;
        } else {
          var i :| 0 <= i < |t| - 1 && cols[i].name == name;
        }
      }
    }
  }

  // ----- Origin and type messages -----

  /** An origin message, and a type message, each as section 55.9 lays it out. */
  function EncodeOrigin(lsn: nat, name: seq<byte>): seq<byte> {
    [ORIGIN] + Big(lsn, 8) + (name + [0])
  }

  function EncodeType(oid: nat, namespace: seq<byte>, name: seq<byte>): seq<byte> {
    [TYPE] + Big(oid, 4) + (namespace + [0] + (name + [0]))
  }

  lemma ReadOrigin(lsn: nat, name: seq<byte>, rels: Relations, rest: seq<byte>)
    requires Name(name)
    ensures DecodeMessage(EncodeOrigin(lsn, name) + rest, rels) ==
            Consumed(|EncodeOrigin(lsn, name)| + 1, rels, [], 0)
  {
    hide Value, Big, Span, NulFrom;
    var data := EncodeOrigin(lsn, name) + rest;
    assert data[9..] == name + [0] + rest;
    NulAt(data, 9, name, rest);
  }

  lemma ReadType(oid: nat, namespace: seq<byte>, name: seq<byte>, rels: Relations, rest: seq<byte>)
    requires Name(namespace) && Name(name)
    ensures DecodeMessage(EncodeType(oid, namespace, name) + rest, rels) ==
            Consumed(|EncodeType(oid, namespace, name)| + 1, rels, [], 0)
  {
    hide Value, Big, Span, NulFrom;
    var data := EncodeType(oid, namespace, name) + rest;
    assert data[5..] == namespace + [0] + (name + [0] + rest);
    NulAt(data, 5, namespace, name + [0] + rest);
    NulAt(data, 5 + |namespace| + 1, name, rest);
  }

  /** The decoder steps one byte past an origin or a type message, so the byte
      after it is lost: what follows is decoded from its second byte. */
  lemma OriginAndTypeLoseAByte(lsn: nat, oid: nat, namespace: seq<byte>, name: seq<byte>,
                               rels: Relations, rest: seq<byte>)
    requires Name(namespace) && Name(name)
    ensures DecodeAll(EncodeOrigin(lsn, name) + rest, rels, [], 0) == DecodeAll(Drop(rest, 1), rels, [], 0)
    ensures DecodeAll(EncodeType(oid, namespace, name) + rest, rels, [], 0) == DecodeAll(Drop(rest, 1), rels, [], 0)
  {
    hide DecodeMessage;
    var none: seq<Change> := [];
    assert none + none == none;
    ReadOrigin(lsn, name, rels, rest);
    assert Drop(EncodeOrigin(lsn, name) + rest, |EncodeOrigin(lsn, name)| + 1) == Drop(rest, 1);
    ReadType(oid, namespace, name, rels, rest);
    assert Drop(EncodeType(oid, namespace, name) + rest, |EncodeType(oid, namespace, name)| + 1) == Drop(rest, 1);
  }

  const KNOWN := {BEGIN, COMMIT, RELATION, INSERT, UPDATE, DELETE, ORIGIN, TYPE}

  lemma UnknownTypeSkips(data: seq<byte>, rels: Relations)
    requires data != [] && data[0] !in KNOWN
    ensures DecodeMessage(data, rels) == Consumed(|data|, rels, [], 0)
  {
  }

  lemma UnknownTypeEnds(data: seq<byte>, rels: Relations)
    requires data != [] && data[0] !in KNOWN
    ensures DecodeAll(data, rels, [], 0) == Batch(rels, [], 0, Complete)
  {
    UnknownTypeSkips(data, rels);
    hide DecodeMessage;
    var none: seq<Change> := [];
    assert none + none == none && Drop(data, |data|) == [];
  }

  lemma EncodedLength(m: Msg)
    ensures |Encode(m)| >= 2
  {
    hide Big;
  }

  lemma BatchLength(msgs: seq<Msg>)
    requires msgs != []
    ensures |EncodeBatch(msgs)| >= 2 && EncodeBatch(msgs)[1] == Encode(msgs[0])[1]
  {
    EncodedLength(msgs[0]);
    hide Encode;
  }

  /** The batch changes nothing: no rows, no relations, no position. */
  predicate Silent(msgs: seq<Msg>, rels: Relations)
    requires WellFormedBatch(msgs, rels)
  {
    BatchChanges(msgs, rels) == [] && BatchRelations(msgs, rels) == rels && BatchLsn(msgs) == 0
  }

  /** Behind an origin or type message a batch is decoded as on its own exactly
      when it changes nothing, if its second byte, taken for a message type, is not one. */
  lemma SeenBehindIff(lsn: nat, oid: nat, namespace: seq<byte>, name: seq<byte>, msgs: seq<Msg>, rels: Relations)
    requires Name(namespace) && Name(name) && WellFormedBatch(msgs, rels)
    requires msgs != [] && Encode(msgs[0])[1] !in KNOWN
    ensures var alone := DecodeAll(EncodeBatch(msgs), rels, [], 0);
            && (DecodeAll(EncodeOrigin(lsn, name) + EncodeBatch(msgs), rels, [], 0) == alone <==> Silent(msgs, rels))
            && (DecodeAll(EncodeType(oid, namespace, name) + EncodeBatch(msgs), rels, [], 0) == alone <==>
                Silent(msgs, rels))
  {
    BatchLength(msgs);
    var tail := Drop(EncodeBatch(msgs), 1);
    assert tail != [] && tail[0] == Encode(msgs[0])[1];
    hide DecodeAll, EncodeBatch, Encode, EncodeOrigin, EncodeType, BatchChanges, BatchRelations, BatchLsn, WellFormedBatch, Drop;
    OriginAndTypeLoseAByte(lsn, oid, namespace, name, rels, EncodeBatch(msgs));
    UnknownTypeEnds(tail, rels);
    DecodeBatch(msgs, rels);
  }

  /** So a commit with a position, right behind an origin message, is not seen,
      although it is seen when decoded on its own. */
  lemma OriginHidesCommit(origin: seq<byte>, m: Msg, rels: Relations)
    requires Name(origin) && m.Commit? && WellFormed(m, rels) && m.flags !in KNOWN && m.lsn > 0
    ensures DecodeWAL(EncodeOrigin(0, origin) + Encode(m), rels, 0).lsn == 0
    ensures DecodeWAL(Encode(m), rels, 0).lsn == m.lsn
  {
    CommitAlone(m, rels);
    CommitTail(m);
    hide Encode, EncodeOrigin, DecodeAll, WellFormed, Drop;
    OriginAndTypeLoseAByte(0, 0, [], origin, rels, Encode(m));
    UnknownTypeEnds(Drop(Encode(m), 1), rels);
  }

  /** A commit on its own is seen. */
  lemma CommitAlone(m: Msg, rels: Relations)
    requires m.Commit? && WellFormed(m, rels)
    ensures DecodeAll(Encode(m), rels, [], 0).lsn == m.lsn
  {
    hide Encode, DecodeAll, WellFormed;
    assert [m][1..] == [];
    assert WellFormedBatch([m], rels) && BatchLsn([m]) == m.lsn;
    assert EncodeBatch([m]) == Encode(m) by { assert EncodeBatch([m]) == Encode(m) + []; }
    hide EncodeBatch, WellFormedBatch, BatchLsn, BatchChanges, BatchRelations;
    DecodeBatch([m], rels);
  }

  /** Without its type byte a commit begins with its flags. */
  lemma CommitTail(m: Msg)
    requires m.Commit?
    ensures Drop(Encode(m), 1) != [] && Drop(Encode(m), 1)[0] == m.flags
  {
    hide Big;
  }
}
