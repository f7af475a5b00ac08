/** Streams that are not well formed: where decoding ends, with what error, and
    what it has reported by then. */
module PgOutputErrors {
  import opened Wrappers
  import opened Bytes
  import opened PgOutput
  import opened PgOutputCodec
  import opened PgOutputTheorems

  // ----- Ending at a message -----

  /** A message that fails ends the batch with what came before it: those changes
      and relations, and the highest commit LSN so far, never the frame's start. */
  lemma FailsThere(start: nat, end: nat, timestamp: nat, msgs: seq<Msg>, bad: seq<byte>, rels: Relations, e: Error)
    requires WellFormedBatch(msgs, rels)
    requires bad != [] && DecodeMessage(bad, BatchRelations(msgs, rels)) == Failed(e)
    ensures Decode(Frame(start, end, timestamp, EncodeBatch(msgs) + bad), rels) ==
            Batch(BatchRelations(msgs, rels), BatchChanges(msgs, rels), BatchLsn(msgs), Failure(e))
  {
    StopsThere(start, end, timestamp, msgs, bad, rels, Failure(e));
  }

  /** The same for any message that does not let decoding go on. */
  lemma StopsThere(start: nat, end: nat, timestamp: nat, msgs: seq<Msg>, bad: seq<byte>, rels: Relations, how: End)
    requires WellFormedBatch(msgs, rels) && bad != []
    requires match how {
               case Complete => false
               case Cutoff => DecodeMessage(bad, BatchRelations(msgs, rels)) == Truncated
               case Failure(e) => DecodeMessage(bad, BatchRelations(msgs, rels)) == Failed(e)
             }
    ensures Decode(Frame(start, end, timestamp, EncodeBatch(msgs) + bad), rels) ==
            Batch(BatchRelations(msgs, rels), BatchChanges(msgs, rels), BatchLsn(msgs), how)
  {
    hide Value, Big, Span, DecodeMessage, EncodeBatch, BatchChanges, BatchRelations, BatchLsn, WellFormedBatch;
    var wal := EncodeBatch(msgs) + bad;
    assert Frame(start, end, timestamp, wal)[25..] == wal;
    DecodePrefix(msgs, rels, bad, [], 0);
    assert [] + BatchChanges(msgs, rels) == BatchChanges(msgs, rels);
  }

  predicate IsRowChange(m: Msg) {
    m.Insert? || m.Update? || m.Delete?
  }

  lemma ReadUnknownId(kind: byte, id: nat, tail: seq<byte>, rels: Relations)
    requires id < Span(4) && id !in rels && tail != []
    requires (kind == INSERT && tail[0] == NEW) || kind == UPDATE || kind == DELETE
    ensures DecodeMessage([kind] + Big(id, 4) + tail, rels) == Failed(UnknownRelation)
  {
    hide Value, Big, Span, DecodeTuple, OptionalTuple;
    var data := [kind] + Big(id, 4) + tail;
    ReadId(kind, id, tail);
    assert data[5] == data[5..][0];
  }

  function Kind(m: Msg): byte
    requires IsRowChange(m)
  {
    if m.Insert? then INSERT else if m.Update? then UPDATE else DELETE
  }

  /** A row change after its relation id. */
  function Body(m: Msg): seq<byte>
    requires IsRowChange(m)
  {
    match m
    case Insert(_, after) => [NEW] + EncodeTuple(after)
    case Update(_, _, after) => EncodePrior(m) + [NEW] + EncodeTuple(after)
    case Delete(_, gone) => EncodeOld(gone)
  }

  lemma RowLayout(m: Msg)
    requires IsRowChange(m)
    ensures Encode(m) == [Kind(m)] + Big(m.id, 4) + Body(m)
    ensures Body(m) != [] && (m.Insert? ==> Body(m)[0] == NEW)
  {
    hide Big, EncodeTuple;
    var head := [Kind(m)] + Big(m.id, 4);
    match m {
      case Insert(_, after) => Assoc(head, [NEW], EncodeTuple(after));
      case Update(_, _, after) =>
        Assoc(head, EncodePrior(m), [NEW]);
        Assoc(head, EncodePrior(m) + [NEW], EncodeTuple(after));
      case Delete(_, _) =>
    }
  }

  lemma ReadUnknown(m: Msg, rels: Relations, rest: seq<byte>)
    requires IsRowChange(m) && m.id < Span(4) && m.id !in rels
    ensures DecodeMessage(Encode(m) + rest, rels) == Failed(UnknownRelation)
  {
    RowLayout(m);
    hide Big, Span, Encode, Body, DecodeMessage;
    Assoc([Kind(m)] + Big(m.id, 4), Body(m), rest);
    ReadUnknownId(Kind(m), m.id, Body(m) + rest, rels);
  }

  /** A row change for a relation that no earlier message has announced. */
  lemma UnknownRelationFails(start: nat, end: nat, timestamp: nat, msgs: seq<Msg>, m: Msg, rest: seq<byte>, rels: Relations)
    requires WellFormedBatch(msgs, rels)
    requires IsRowChange(m) && m.id < Span(4) && m.id !in BatchRelations(msgs, rels)
    ensures Decode(Frame(start, end, timestamp, EncodeBatch(msgs) + (Encode(m) + rest)), rels) ==
            Batch(BatchRelations(msgs, rels), BatchChanges(msgs, rels), BatchLsn(msgs), Failure(UnknownRelation))
  {
    EncodedLength(m);
    ReadUnknown(m, BatchRelations(msgs, rels), rest);
    hide Encode, Decode, DecodeMessage, EncodeBatch, BatchChanges, BatchRelations, BatchLsn, WellFormedBatch;
    FailsThere(start, end, timestamp, msgs, Encode(m) + rest, rels, UnknownRelation);
  }

  /** An insert that does not go on with its new row, its relation known or not. */
  lemma InsertNeedsNew(start: nat, end: nat, timestamp: nat, msgs: seq<Msg>, id: nat, marker: byte, rest: seq<byte>,
                       rels: Relations)
    requires WellFormedBatch(msgs, rels) && marker != NEW
    ensures Decode(Frame(start, end, timestamp, EncodeBatch(msgs) + ([INSERT] + Big(id, 4) + [marker] + rest)), rels) ==
            Batch(BatchRelations(msgs, rels), BatchChanges(msgs, rels), BatchLsn(msgs), Failure(NoNewTuple))
  {
    var bad := [INSERT] + Big(id, 4) + [marker] + rest;
    assert DecodeMessage(bad, BatchRelations(msgs, rels)) == Failed(NoNewTuple) by { hide Big, Value, DecodeTuple; }
    hide Decode, DecodeMessage, EncodeBatch, BatchChanges, BatchRelations, BatchLsn, WellFormedBatch;
    FailsThere(start, end, timestamp, msgs, bad, rels, NoNewTuple);
  }

  // ----- Field markers -----

  /** Where a tuple stands in a row change. */
  datatype Spot = NewOfInsert | OldOfUpdate(isKey: bool) | NewOfUpdate(before: Option<OldTuple>) | OldOfDelete(isKey: bool)

  function OldMarker(isKey: bool): byte {
    if isKey then KEY else OLD
  }

  function SpotKind(spot: Spot): byte {
    if spot.NewOfInsert? then INSERT else if spot.OldOfDelete? then DELETE else UPDATE
  }

  /** What stands between the relation id and that tuple. */
  function Lead(spot: Spot): seq<byte> {
    match spot
    case NewOfInsert => [NEW]
    case OldOfUpdate(isKey) => [OldMarker(isKey)]
    case NewOfUpdate(before) => (if before.Some? then EncodeOld(before.value) else []) + [NEW]
    case OldOfDelete(isKey) => [OldMarker(isKey)]
  }

  /** The message up to that tuple. */
  function Head(spot: Spot, id: nat): seq<byte> {
    [SpotKind(spot)] + Big(id, 4) + Lead(spot)
  }

  /** A tuple with more fields to come after those of t, the next with this marker. */
  function TupleUpTo(count: nat, t: Tuple, marker: byte, rest: seq<byte>): seq<byte> {
    Big(count, 2) + (EncodeFields(t) + ([marker] + rest))
  }

  lemma ReadBadTuple(count: nat, t: Tuple, marker: byte, rest: seq<byte>, cols: seq<ColMeta>)
    requires |t| < count < Span(2) && |t| < |cols| && WellFormedTuple(t)
    requires marker != NULL && marker != UNCHANGED && marker != TEXT
    ensures DecodeTuple(TupleUpTo(count, t, marker, rest), cols) == Err(BadTupleMarker)
  {
    hide Value, Big, Span, EncodeFields, WellFormedTuple;
    var data, fields := TupleUpTo(count, t, marker, rest), EncodeFields(t);
    assert data[0..2] == Big(count, 2) && data[2..] == fields + ([marker] + rest);
    ValueOfBig(count, 2);
    ReadFieldsFrom(data, cols, count, t, 2, [marker] + rest);
    assert data[2 + |fields|] == data[2 + |fields|..][0] == marker;
  }

  lemma OptionalFails(data: seq<byte>, pos: nat, marker: byte, markers: set<byte>, bad: seq<byte>, cols: seq<ColMeta>,
                      e: Error)
    requires pos <= |data| && marker in markers && data[pos..] == [marker] + bad && DecodeTuple(bad, cols) == Err(e)
    ensures OptionalTuple(data, pos, markers, cols) == Err(e)
  {
    assert data[pos] == data[pos..][0] && data[pos + 1..] == data[pos..][1..] == bad;
  }

  lemma ReadBadInsert(id: nat, bad: seq<byte>, rels: Relations, e: Error)
    requires id < Span(4) && id in rels && DecodeTuple(bad, rels[id].columns) == Err(e)
    ensures DecodeMessage([INSERT] + Big(id, 4) + ([NEW] + bad), rels) == Failed(e)
  {
    hide Value, Big, Span, DecodeTuple;
    var data := [INSERT] + Big(id, 4) + ([NEW] + bad);
    ReadId(INSERT, id, [NEW] + bad);
    assert data[5] == data[5..][0] && data[6..] == data[5..][1..];
  }

  lemma ReadBadOld(kind: byte, isKey: bool, id: nat, bad: seq<byte>, rels: Relations, e: Error)
    requires kind == UPDATE || kind == DELETE
    requires id < Span(4) && id in rels && DecodeTuple(bad, rels[id].columns) == Err(e)
    ensures DecodeMessage([kind] + Big(id, 4) + ([OldMarker(isKey)] + bad), rels) == Failed(e)
  {
    hide Value, Big, Span, DecodeTuple, OptionalTuple;
    var tail := [OldMarker(isKey)] + bad;
    ReadId(kind, id, tail);
    OptionalFails([kind] + Big(id, 4) + tail, 5, OldMarker(isKey), {KEY, OLD}, bad, rels[id].columns, e);
  }

  lemma ReadBadUpdate(m: Msg, bad: seq<byte>, rels: Relations, e: Error)
    requires m.Update? && m.id < Span(4) && m.id in rels && DecodeTuple(bad, rels[m.id].columns) == Err(e)
    requires m.before.Some? ==> Fits(m.id, m.before.value.tuple, rels)
    ensures DecodeMessage([UPDATE] + Big(m.id, 4) + (EncodePrior(m) + ([NEW] + bad)), rels) == Failed(e)
  {
    hide Value, Big, Span, DecodeTuple, OptionalTuple, EncodePrior, RowOf, WellFormedTuple;
    var last, cols := [NEW] + bad, rels[m.id].columns;
    var data := [UPDATE] + Big(m.id, 4) + (EncodePrior(m) + last);
    ReadId(UPDATE, m.id, EncodePrior(m) + last);
    ReadPrior(data, m, cols, last);
    OptionalFails(data, 5 + |EncodePrior(m)|, NEW, {NEW}, bad, cols, e);
  }

  lemma ReadBadSpot(spot: Spot, id: nat, bad: seq<byte>, rels: Relations, e: Error)
    requires id < Span(4) && id in rels && DecodeTuple(bad, rels[id].columns) == Err(e)
    requires spot.NewOfUpdate? && spot.before.Some? ==> Fits(id, spot.before.value.tuple, rels)
    ensures DecodeMessage(Head(spot, id) + bad, rels) == Failed(e)
  {
    hide Big, Span, DecodeTuple, DecodeMessage, EncodeOld, Fits;
    Assoc([SpotKind(spot)] + Big(id, 4), Lead(spot), bad);
    match spot {
      case NewOfInsert => ReadBadInsert(id, bad, rels, e);
      case OldOfUpdate(isKey) => ReadBadOld(UPDATE, isKey, id, bad, rels, e);
      case NewOfUpdate(before) =>
        var m := Update(id, before, []);
        Assoc(EncodePrior(m), [NEW], bad);
        ReadBadUpdate(m, bad, rels, e);
      case OldOfDelete(isKey) => ReadBadOld(DELETE, isKey, id, bad, rels, e);
    }
  }

  /** A field whose marker is none of the three, in any tuple of any row change. */
  lemma BadMarkerFails(start: nat, end: nat, timestamp: nat, msgs: seq<Msg>, spot: Spot, id: nat,
                       count: nat, t: Tuple, marker: byte, rest: seq<byte>, rels: Relations)
    requires WellFormedBatch(msgs, rels) && id < Span(4) && id in BatchRelations(msgs, rels)
    requires spot.NewOfUpdate? && spot.before.Some? ==> Fits(id, spot.before.value.tuple, BatchRelations(msgs, rels))
    requires |t| < count < Span(2) && |t| < |BatchRelations(msgs, rels)[id].columns| && WellFormedTuple(t)
    requires marker !in {NULL, UNCHANGED, TEXT}
    ensures Decode(Frame(start, end, timestamp,
                         EncodeBatch(msgs) + (Head(spot, id) + TupleUpTo(count, t, marker, rest))), rels) ==
            Batch(BatchRelations(msgs, rels), BatchChanges(msgs, rels), BatchLsn(msgs), Failure(BadTupleMarker))
  {
    hide Encode, Decode, DecodeMessage, EncodeBatch, BatchChanges, BatchRelations, BatchLsn, WellFormedBatch, Fits;
    hide WellFormedTuple, Span, TupleUpTo, DecodeTuple;
    var known, bad := BatchRelations(msgs, rels), TupleUpTo(count, t, marker, rest);
    ReadBadTuple(count, t, marker, rest, known[id].columns);
    ReadBadSpot(spot, id, bad, known, BadTupleMarker);
    assert Head(spot, id) != [];
    FailsThere(start, end, timestamp, msgs, Head(spot, id) + bad, rels, BadTupleMarker);
  }

  // ----- Rows that are not there, and fields that are too many -----

  /** An update or delete of a known relation that goes on with no tuple is a change
      without rows, and the byte in its place is taken for the next message. */
  lemma ReadRowless(kind: byte, id: nat, next: byte, rest: seq<byte>, rels: Relations)
    requires id < Span(4) && id in rels
    requires (kind == UPDATE && next !in {KEY, OLD, NEW}) || (kind == DELETE && next !in {KEY, OLD})
    ensures DecodeMessage([kind] + Big(id, 4) + ([next] + rest), rels) ==
            Consumed(5, rels, [Change(rels[id].namespace, rels[id].name, if kind == UPDATE then OpUpdate else OpDelete,
                                      None, None)], 0)
  {
    hide Value, Big, Span, DecodeTuple, OptionalTuple;
    var data := [kind] + Big(id, 4) + ([next] + rest);
    ReadId(kind, id, [next] + rest);
    assert data[5] == data[5..][0];
    ReadNoTuple(data, 5, {KEY, OLD}, rels[id].columns);
    if kind == UPDATE { ReadNoTuple(data, 5, {NEW}, rels[id].columns); }
  }

  /** Fields beyond the relation's columns are not read. */
  lemma ReadExtraFields(t: Tuple, cols: seq<ColMeta>, rest: seq<byte>)
    requires |cols| < |t| && WellFormedTuple(t)
    ensures var read := t[..|cols|];
            DecodeTuple(EncodeTuple(t) + rest, cols) == Ok(RowOf(cols, read), 2 + |EncodeFields(read)|)
  {
    hide Value, Big, Span, EncodeTuple, EncodeFields, WellFormedTuple, RowOf, TupleFrom;
    TupleLayout(t, rest);
    var read, data := t[..|cols|], EncodeTuple(t) + rest;
    FieldsSplit(t, |cols|);
    var tail := EncodeFields(t[|cols|..]) + rest;
    Assoc(EncodeFields(read), EncodeFields(t[|cols|..]), rest);
    ReadFieldsFrom(data, cols, |t|, read, 2, tail);
    TupleStops(data, cols, |t|, |cols|, 2 + |EncodeFields(read)|, RowOf(cols, read));
  }

  lemma {:induction false} FieldsSplit(t: Tuple, k: nat)
    requires k <= |t|
    ensures EncodeFields(t) == EncodeFields(t[..k]) + EncodeFields(t[k..])
    ensures WellFormedTuple(t) ==> WellFormedTuple(t[..k])
  {
    hide EncodeField, Span;
    if k == 0 {
      assert t[..0] == [] && t[0..] == t;
    } else {
      FieldsSplit(t[1..], k - 1);
      assert t[1..][..k - 1] == t[..k][1..] && t[1..][k - 1..] == t[k..];
    }
  }

  // ----- When decoding completes -----

  /** The relations known after a batch are those known before and those announced. */
  lemma {:induction false} RelationsKnown(msgs: seq<Msg>, rels: Relations, id: nat)
    ensures id in BatchRelations(msgs, rels) <==>
            id in rels || exists j :: 0 <= j < |msgs| && msgs[j].Relation? && msgs[j].id == id
    decreases |msgs|
  {
    if msgs != [] {
      var rels' := RelationsAfter(msgs[0], rels);
      RelationsKnown(msgs[1..], rels', id);
      assert forall j | 0 <= j < |msgs| - 1 :: msgs[1..][j] == msgs[j + 1];
      assert forall j | 0 < j < |msgs| :: msgs[j] == msgs[1..][j - 1];
    }
  }

  /** Well formed, or a row change that would be if its relation were known. */
  predicate Fair(m: Msg, rels: Relations) {
    WellFormed(m, rels) || (IsRowChange(m) && m.id < Span(4) && m.id !in rels)
  }

  predicate FairBatch(msgs: seq<Msg>, rels: Relations)
    decreases |msgs|
  {
    msgs == [] || (Fair(msgs[0], rels) && FairBatch(msgs[1..], RelationsAfter(msgs[0], rels)))
  }

  /** The relation of the k-th message is known from before, or an earlier message announces it. */
  predicate Announced(msgs: seq<Msg>, rels: Relations, k: nat)
    requires k < |msgs| && IsRowChange(msgs[k])
  {
    msgs[k].id in rels || exists j :: 0 <= j < k && msgs[j].Relation? && msgs[j].id == msgs[k].id
  }

  lemma {:induction false} EncodeBatchAt(msgs: seq<Msg>, k: nat)
    requires k < |msgs|
    ensures EncodeBatch(msgs) == EncodeBatch(msgs[..k]) + (Encode(msgs[k]) + EncodeBatch(msgs[k + 1..]))
  {
    hide Encode;
    if k == 0 {
      assert msgs[..0] == [];
    } else {
      EncodeBatchAt(msgs[1..], k - 1);
      assert msgs[1..][..k - 1] == msgs[..k][1..] && msgs[1..][k..] == msgs[k + 1..];
    }
  }

  /** A fair batch is well formed, or it is up to a row change whose relation is unknown. */
  lemma {:induction false} FirstUnknown(msgs: seq<Msg>, rels: Relations) returns (k: nat)
    requires FairBatch(msgs, rels)
    ensures k <= |msgs| && WellFormedBatch(msgs[..k], rels)
    ensures k == |msgs| ==> WellFormedBatch(msgs, rels)
    ensures k < |msgs| ==> IsRowChange(msgs[k]) && msgs[k].id < Span(4) && msgs[k].id !in BatchRelations(msgs[..k], rels)
    decreases |msgs|
  {
    hide WellFormed, Span, RelationsAfter;
    k := 0;
    if msgs != [] && WellFormed(msgs[0], rels) {
      var i := FirstUnknown(msgs[1..], RelationsAfter(msgs[0], rels));
      k := i + 1;
      assert msgs[..k][1..] == msgs[1..][..i];
    }
  }

  /** In a well-formed batch the relation of every row change is known. */
  lemma {:induction false} WellFormedAt(msgs: seq<Msg>, rels: Relations, k: nat)
    requires WellFormedBatch(msgs, rels) && k < |msgs| && IsRowChange(msgs[k])
    ensures msgs[k].id in BatchRelations(msgs[..k], rels)
    decreases |msgs|
  {
    hide Span, RelationsAfter;
    if k > 0 {
      WellFormedAt(msgs[1..], RelationsAfter(msgs[0], rels), k - 1);
      assert msgs[..k][1..] == msgs[1..][..k - 1];
    }
  }

  /** Decoding a frame of such messages completes exactly when the relation of
      every row change is known by then; otherwise it fails for that reason. */
  lemma CompleteIff(start: nat, end: nat, timestamp: nat, msgs: seq<Msg>, rels: Relations)
    requires start < Span(8) && FairBatch(msgs, rels)
    ensures var b := Decode(Frame(start, end, timestamp, EncodeBatch(msgs)), rels);
            && (b.end.Complete? <==> forall k | 0 <= k < |msgs| && IsRowChange(msgs[k]) :: Announced(msgs, rels, k))
            && (b.end.Complete? || b.end == Failure(UnknownRelation))
  {
    hide Encode, Decode, EncodeBatch, BatchChanges, BatchRelations, BatchLsn, WellFormedBatch, FairBatch, Span, Frame;
    var k := FirstUnknown(msgs, rels);
    if k < |msgs| {
      RelationsKnown(msgs[..k], rels, msgs[k].id);
      EncodeBatchAt(msgs, k);
      UnknownRelationFails(start, end, timestamp, msgs[..k], msgs[k], EncodeBatch(msgs[k + 1..]), rels);
      assert !Announced(msgs, rels, k);
    } else {
      DecodeInvertsEncode(start, end, timestamp, msgs, rels);
      forall i | 0 <= i < |msgs| && IsRowChange(msgs[i]) ensures Announced(msgs, rels, i) {
        WellFormedAt(msgs, rels, i);
        RelationsKnown(msgs[..i], rels, msgs[i].id);
      }
    }
  }
}
