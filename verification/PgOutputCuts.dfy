/** Streams that end in the middle of a message: which cuts are noticed, and what
    is reported for the others. */
module PgOutputCuts {
  import opened Wrappers
  import opened Bytes
  import opened PgOutput
  import opened PgOutputCodec
  import opened PgOutputTheorems
  import opened PgOutputErrors

  /** A begin or commit cut short ends the batch quietly: nothing of it is seen,
      and neither is the frame's start reported. */
  lemma CutHeaderStops(start: nat, end: nat, timestamp: nat, msgs: seq<Msg>, m: Msg, n: nat, rels: Relations)
    requires WellFormedBatch(msgs, rels) && (m.Begin? || m.Commit?) && 0 < n < |Encode(m)|
    ensures Decode(Frame(start, end, timestamp, EncodeBatch(msgs) + Encode(m)[..n]), rels) ==
            Batch(BatchRelations(msgs, rels), BatchChanges(msgs, rels), BatchLsn(msgs), Cutoff)
  {
    assert DecodeMessage(Encode(m)[..n], BatchRelations(msgs, rels)) == Truncated by { hide Big; }
    hide Encode, Decode, DecodeMessage, EncodeBatch, BatchChanges, BatchRelations, BatchLsn, WellFormedBatch;
    StopsThere(start, end, timestamp, msgs, Encode(m)[..n], rels, Cutoff);
  }

  // ----- Relations -----

  /** A column cut short is dropped, and where reading goes on depends on the part that is there. */
  lemma ReadCutColumn(data: seq<byte>, pos: nat, c: ColDef, n: nat)
    requires pos <= |data| && WellFormedCol(c) && n < |EncodeCol(c)| && data[pos..] == EncodeCol(c)[..n]
    ensures ReadColumn(data, pos) ==
            Cut(if |c.name| < n < |c.name| + 9 then pos + |c.name| + 1 else pos + n)
  {
    hide Value, Big, Span, NulFrom;
    assert forall k | pos <= k < |data| :: data[k] == data[pos..][k - pos] == EncodeCol(c)[k - pos];
    assert forall k | 0 <= k < |c.name| :: EncodeCol(c)[k] == c.name[k];
    assert EncodeCol(c)[|c.name|] == 0;
  }

  /** The columns before a cut are read, the one that is cut and those after it are not. */
  lemma {:induction false} ReadCutColumns(data: seq<byte>, pos: nat, cols: seq<ColDef>, k: nat, n: nat, acc: seq<ColMeta>)
    requires k < |cols| && (forall c | c in cols :: WellFormedCol(c)) && n < |EncodeCol(cols[k])|
    requires pos <= |data| && data[pos..] == EncodeCols(cols[..k]) + EncodeCol(cols[k])[..n]
    ensures Columns(data, pos, |cols|, acc).0 == acc + MetasOf(cols[..k])
    decreases |cols|
  {
    hide ReadColumn, EncodeCol, WellFormedCol;
    if k == 0 {
      assert EncodeCols(cols[..0]) + EncodeCol(cols[0])[..n] == EncodeCol(cols[0])[..n];
      assert acc + MetasOf(cols[..0]) == acc;
      ReadCutColumn(data, pos, cols[0], n);
    } else {
      var c, tail := cols[0], EncodeCols(cols[1..k]) + EncodeCol(cols[k])[..n];
      assert cols[..k][1..] == cols[1..k] == cols[1..][..k - 1];
      assert EncodeCols(cols[..k]) + EncodeCol(cols[k])[..n] == EncodeCol(c) + tail;
      ReadEncodedColumn(data, pos, c, tail);
      ReadCutColumns(data, pos + |EncodeCol(c)|, cols[1..], k - 1, n, acc + [MetaOf(c)]);
      assert acc + [MetaOf(c)] + MetasOf(cols[1..][..k - 1]) == acc + MetasOf(cols[..k]);
    }
  }

  /** A relation cut before its columns is an error, one for each part that is missing. */
  lemma ReadCutRelation(m: Msg, n: nat)
    requires m.Relation? && WellFormed(m, map[])
    requires n < 7 + |m.namespace| + |m.name| + 3 && n <= |Encode(m)|
    ensures var named := 7 + |m.namespace| + |m.name|;
            DecodeRelation(Encode(m)[..n]) ==
            Err(if n < 10 then TooShort else if n < named then Unterminated
                else if n == named then MissingReplicaIdentity else MissingColumnCount)
  {
    hide Value, Big, Span, NulFrom, Columns, EncodeCols, Encode, EncodeShape;
    var whole := Encode(m);
    NamesEnd(m);
    if n >= 10 {
      var nsEnd := 5 + |m.namespace|;
      NulCut(whole, n, 5);
      if nsEnd < n { NulCut(whole, n, nsEnd + 1); }
    }
  }

  /** So a stream that ends there fails, with what came before it. */
  lemma CutRelationFails(start: nat, end: nat, timestamp: nat, msgs: seq<Msg>, m: Msg, n: nat, rels: Relations)
    requires WellFormedBatch(msgs, rels) && m.Relation? && WellFormed(m, map[])
    requires 0 < n < 7 + |m.namespace| + |m.name| + 3 && n <= |Encode(m)|
    ensures var b := Decode(Frame(start, end, timestamp, EncodeBatch(msgs) + Encode(m)[..n]), rels);
            && b.end.Failure? && b == Batch(BatchRelations(msgs, rels), BatchChanges(msgs, rels), BatchLsn(msgs), b.end)
            && b.end.error in {TooShort, Unterminated, MissingReplicaIdentity, MissingColumnCount}
  {
    ReadCutRelation(m, n);
    var bad := Encode(m)[..n];
    assert bad[0] == RELATION by { hide Big, EncodeCols; }
    assert DecodeMessage(bad, BatchRelations(msgs, rels)) == Failed(DecodeRelation(bad).error) by { hide DecodeRelation; }
    hide Encode, Decode, DecodeMessage, DecodeRelation, EncodeBatch, BatchChanges, BatchRelations, BatchLsn, WellFormedBatch;
    FailsThere(start, end, timestamp, msgs, bad, rels, DecodeRelation(bad).error);
  }

  /** In data cut at n a NUL is found where it was, or not at all. */
  lemma NulCut(data: seq<byte>, n: nat, pos: nat)
    requires pos <= n <= |data|
    ensures NulFrom(data[..n], pos) == if NulFrom(data, pos) < n then NulFrom(data, pos) else n
  {
    hide NulFrom;
    var cut := NulFrom(data[..n], pos);
    assert forall k | pos <= k < n :: data[..n][k] == data[k];
  }

  lemma {:induction false} ColsAt(cols: seq<ColDef>, k: nat)
    requires k < |cols|
    ensures EncodeCols(cols) == EncodeCols(cols[..k]) + (EncodeCol(cols[k]) + EncodeCols(cols[k + 1..]))
  {
    hide EncodeCol;
    if k == 0 {
      assert cols[..0] == [];
    } else {
      ColsAt(cols[1..], k - 1);
      assert cols[1..][..k - 1] == cols[..k][1..] && cols[1..][k..] == cols[k + 1..];
    }
  }

  /** The first bytes of a sequence, taken from its parts. */
  lemma TakeParts(a: seq<byte>, b: seq<byte>, c: seq<byte>, n: nat)
    requires n <= |b|
    ensures (a + (b + c))[..|a| + n] == a + b[..n]
  {
  }

  lemma CutShape(m: Msg, k: nat, n: nat)
    requires m.Relation? && k < |m.columns| < Span(2) && n <= |EncodeCol(m.columns[k])|
    ensures var size := 3 + |EncodeCols(m.columns[..k])| + n;
            && size <= |EncodeShape(m)| && Value(EncodeShape(m)[..size][1..3]) == |m.columns|
            && EncodeShape(m)[..size][3..] == EncodeCols(m.columns[..k]) + EncodeCol(m.columns[k])[..n]
  {
    hide Value, Big, Span, EncodeCols, EncodeCol;
    var before, col, after := EncodeCols(m.columns[..k]), EncodeCol(m.columns[k]), EncodeCols(m.columns[k + 1..]);
    ColsAt(m.columns, k);
    TakeParts(before, col, after, n);
    var head := [m.replicaIdentity] + Big(|m.columns|, 2);
    assert EncodeShape(m) == head + (before + (col + after));
    assert EncodeShape(m)[..3 + |before| + n] == head + (before + col[..n]);
    ValueOfBig(|m.columns|, 2);
    assert (head + (before + col[..n]))[1..3] == Big(|m.columns|, 2);
  }

  /** Where the names of a relation end, and what follows them. */
  lemma NamesEnd(m: Msg)
    requires m.Relation? && WellFormed(m, map[])
    ensures var data, nsEnd, named := Encode(m), 5 + |m.namespace|, 7 + |m.namespace| + |m.name|;
            && named <= |data| && NulFrom(data, 5) == nsEnd && NulFrom(data, nsEnd + 1) == named - 1
            && data[1..5] == Big(m.id, 4) && data[5..nsEnd] == m.namespace && data[nsEnd + 1..named - 1] == m.name
            && data[named..] == EncodeShape(m)
  {
    hide Value, Big, Span, NulFrom, EncodeCols, Encode, EncodeShape;
    var data, nsEnd := Encode(m), 5 + |m.namespace|;
    RelationLayout(m, []);
    assert Encode(m) + [] == Encode(m) && EncodeShape(m) + [] == EncodeShape(m);
    NulAt(data, 5, m.namespace, m.name + [0] + (EncodeShape(m) + []));
    NulAt(data, nsEnd + 1, m.name, EncodeShape(m) + []);
  }

  lemma SliceCut(data: seq<byte>, n: nat, i: nat, j: nat)
    requires i <= j <= n <= |data|
    ensures data[..n][i..j] == data[i..j]
  {
  }

  /** A relation with its names, cut anywhere after them. */
  lemma CutNames(m: Msg, size: nat)
    requires m.Relation? && WellFormed(m, map[]) && 7 + |m.namespace| + |m.name| <= size <= |Encode(m)|
    ensures var data, nsEnd, named := Encode(m)[..size], 5 + |m.namespace|, 7 + |m.namespace| + |m.name|;
            && NulFrom(data, 5) == nsEnd && NulFrom(data, nsEnd + 1) == named - 1
            && Value(data[1..5]) == m.id && data[5..nsEnd] == m.namespace && data[nsEnd + 1..named - 1] == m.name
            && size - named <= |EncodeShape(m)| && data[named..] == EncodeShape(m)[..size - named]
  {
    hide Value, Big, Span, NulFrom, EncodeCols, Encode, EncodeShape;
    var whole, nsEnd, named := Encode(m), 5 + |m.namespace|, 7 + |m.namespace| + |m.name|;
    NamesEnd(m);
    NulCut(whole, size, 5);
    NulCut(whole, size, nsEnd + 1);
    SliceCut(whole, size, 1, 5);
    SliceCut(whole, size, 5, nsEnd);
    SliceCut(whole, size, nsEnd + 1, named - 1);
    ValueOfBig(m.id, 4);
    assert whole[..size][named..] == whole[named..][..size - named];
  }

  /** A relation cut in its columns is accepted and stored with the columns before the cut. */
  lemma CutRelationIsStored(m: Msg, k: nat, n: nat)
    requires m.Relation? && WellFormed(m, map[]) && k < |m.columns| && n < |EncodeCol(m.columns[k])|
    ensures var size := 10 + |m.namespace| + |m.name| + |EncodeCols(m.columns[..k])| + n;
            && size <= |Encode(m)| && DecodeRelation(Encode(m)[..size]).Ok?
            && DecodeRelation(Encode(m)[..size]).value ==
               RelMeta(m.id, m.namespace, m.name, MetasOf(m.columns[..k]))
  {
    hide Value, Big, Span, NulFrom, Columns, EncodeCols, EncodeCol, Encode, EncodeShape;
    var named := 7 + |m.namespace| + |m.name|;
    var size := named + 3 + |EncodeCols(m.columns[..k])| + n;
    CutShape(m, k, n);
    RelationLayout(m, []);
    CutNames(m, size);
    var data, shape := Encode(m)[..size], EncodeShape(m)[..size - named];
    assert data[named + 1..named + 3] == shape[1..3] && data[named + 3..] == shape[3..];
    ReadCutColumns(data, named + 3, m.columns, k, n, []);
    assert [] + MetasOf(m.columns[..k]) == MetasOf(m.columns[..k]);
  }

  // ----- Rows -----

  /** A row change cut in its relation id, or right behind it, is an error. */
  lemma CutRowHeadFails(m: Msg, n: nat, rels: Relations)
    requires IsRowChange(m) && 0 < n < 6
    ensures n <= |Encode(m)| && DecodeMessage(Encode(m)[..n], rels) == Failed(TooShort)
  {
    hide Big, EncodeTuple;
  }

  lemma FieldsAt(t: Tuple, k: nat)
    requires k < |t|
    ensures EncodeFields(t) == EncodeFields(t[..k]) + (EncodeField(t[k]) + EncodeFields(t[k + 1..]))
  {
    FieldsSplit(t, k);
    assert t[k..][0] == t[k] && t[k..][1..] == t[k + 1..];
  }

  /** How much of a cut field is skipped before messages are expected again. */
  function Skipped(n: nat): nat {
    if n == 0 then 0 else if n < 5 then 1 else 5
  }

  lemma ReadCutField(data: seq<byte>, cols: seq<ColMeta>, count: nat, i: nat, pos: nat, row: Row, f: Field, n: nat)
    requires i < count && i < |cols| && (f.TextField? ==> |f.value| < Span(4))
    requires pos <= |data| && n < |EncodeField(f)| && data[pos..] == EncodeField(f)[..n]
    ensures TupleFrom(data, cols, count, i, pos, row) == Ok(row, pos + Skipped(n))
  {
    hide Value, Big, Span;
    if n > 0 {
      assert data[pos] == data[pos..][0] == TEXT;
      if n >= 5 {
        var enc := EncodeField(f);
        assert enc[..n][1..5] == enc[1..5] == Big(|f.value|, 4);
        assert data[pos..][1..5] == data[pos + 1..pos + 5];
        ValueOfBig(|f.value|, 4);
      }
    }
  }

  lemma CutTuple(t: Tuple, k: nat, n: nat)
    requires k < |t| && WellFormedTuple(t) && n <= |EncodeField(t[k])|
    ensures var size := 2 + |EncodeFields(t[..k])| + n;
            && size <= |EncodeTuple(t)| && Value(EncodeTuple(t)[..size][0..2]) == |t|
            && EncodeTuple(t)[..size][2..] == EncodeFields(t[..k]) + EncodeField(t[k])[..n]
  {
    hide Value, Big, Span, EncodeFields, EncodeField;
    var before, field, after := EncodeFields(t[..k]), EncodeField(t[k]), EncodeFields(t[k + 1..]);
    FieldsAt(t, k);
    TakeParts(before, field, after, n);
    assert EncodeTuple(t)[..2 + |before| + n] == Big(|t|, 2) + (before + field[..n]);
    assert (Big(|t|, 2) + (before + field[..n]))[0..2] == Big(|t|, 2);
    ValueOfBig(|t|, 2);
  }

  lemma ReadCutFields(data: seq<byte>, cols: seq<ColMeta>, t: Tuple, k: nat, n: nat, pos: nat)
    requires k < |t| <= |cols| && WellFormedTuple(t) && n < |EncodeField(t[k])|
    requires pos <= |data| && data[pos..] == EncodeFields(t[..k]) + EncodeField(t[k])[..n]
    ensures TupleFrom(data, cols, |t|, 0, pos, map[]) ==
            Ok(RowOf(cols, t[..k]), pos + |EncodeFields(t[..k])| + Skipped(n))
  {
    hide TupleFrom, Span, EncodeFields, EncodeField, Skipped, RowOf;
    ReadFieldsFrom(data, cols, |t|, t[..k], pos, EncodeField(t[k])[..n]);
    ReadCutField(data, cols, |t|, k, pos + |EncodeFields(t[..k])|, RowOf(cols, t[..k]), t[k], n);
  }

  /** A tuple cut short is accepted as the row of the fields before the cut. */
  lemma ReadCutTuple(t: Tuple, k: nat, n: nat, cols: seq<ColMeta>)
    requires k < |t| <= |cols| && WellFormedTuple(t) && n < |EncodeField(t[k])|
    ensures var size := 2 + |EncodeFields(t[..k])| + n;
            && size <= |EncodeTuple(t)|
            && DecodeTuple(EncodeTuple(t)[..size], cols) == Ok(RowOf(cols, t[..k]), size - n + Skipped(n))
  {
    hide Value, Span, EncodeFields, EncodeField, EncodeTuple, WellFormedTuple, TupleFrom, RowOf, Skipped;
    CutTuple(t, k, n);
    ReadCutFields(EncodeTuple(t)[..2 + |EncodeFields(t[..k])| + n], cols, t, k, n, 2);
  }

  /** An insert into a known relation of the first fields of a row. */
  function InsertOf(rel: RelMeta, t: Tuple): Change
    requires |t| <= |rel.columns|
  {
    Change(rel.namespace, rel.name, OpInsert, None, Some(RowOf(rel.columns, t)))
  }

  /** So an insert cut in its row is reported as an insert of the fields before the cut. */
  lemma CutInsertIsReported(m: Msg, k: nat, n: nat, rels: Relations)
    requires m.Insert? && WellFormed(m, rels) && k < |m.after| && n < |EncodeField(m.after[k])|
    ensures var size := 8 + |EncodeFields(m.after[..k])| + n;
            && size <= |Encode(m)|
            && DecodeMessage(Encode(m)[..size], rels) ==
               Consumed(size - n + Skipped(n), rels, [InsertOf(rels[m.id], m.after[..k])], 0)
  {
    hide Value, Big, Span, DecodeTuple, EncodeTuple, EncodeFields, EncodeField, RowOf, WellFormedTuple, Skipped;
    ReadCutTuple(m.after, k, n, rels[m.id].columns);
    var size := 8 + |EncodeFields(m.after[..k])| + n;
    var tuple := EncodeTuple(m.after)[..size - 6];
    var data := Encode(m)[..size];
    assert data == [INSERT] + Big(m.id, 4) + ([NEW] + tuple);
    ReadId(INSERT, m.id, [NEW] + tuple);
    assert data[5] == data[5..][0] && data[6..] == data[5..][1..] == tuple;
  }

  /** A last message that uses up the data completes the batch. */
  lemma LastMessage(start: nat, end: nat, timestamp: nat, msgs: seq<Msg>, last: seq<byte>, changes: seq<Change>,
                    rels: Relations)
    requires start < Span(8) && WellFormedBatch(msgs, rels) && last != []
    requires DecodeMessage(last, BatchRelations(msgs, rels)) ==
             Consumed(|last|, BatchRelations(msgs, rels), changes, 0)
    ensures Decode(Frame(start, end, timestamp, EncodeBatch(msgs) + last), rels) ==
            Batch(BatchRelations(msgs, rels), BatchChanges(msgs, rels) + changes,
                  if BatchLsn(msgs) == 0 then start else BatchLsn(msgs), Complete)
  {
    hide Value, Big, Span, DecodeMessage, EncodeBatch, BatchChanges, BatchRelations, BatchLsn, WellFormedBatch;
    DecodePrefix(msgs, rels, last, [], 0);
    assert [] + BatchChanges(msgs, rels) == BatchChanges(msgs, rels) && Drop(last, |last|) == [];
    var data := Frame(start, end, timestamp, EncodeBatch(msgs) + last);
    assert data[1..9] == Big(start, 8) && data[25..] == EncodeBatch(msgs) + last;
    ValueOfBig(start, 8);
  }

  lemma InsertLength(m: Msg, k: nat)
    requires m.Insert? && k < |m.after|
    ensures 0 < 8 + |EncodeFields(m.after[..k])| < |Encode(m)| && |EncodeField(m.after[k])| >= 1
  {
    hide Big, EncodeFields;
    FieldsAt(m.after, k);
  }

  lemma CutBetweenFields(m: Msg, k: nat, rels: Relations)
    requires m.Insert? && WellFormed(m, rels) && k < |m.after|
    ensures m.id in rels && |m.after| <= |rels[m.id].columns|
    ensures var size := 8 + |EncodeFields(m.after[..k])|;
            && 0 < size < |Encode(m)|
            && DecodeMessage(Encode(m)[..size], rels) == Consumed(size, rels, [InsertOf(rels[m.id], m.after[..k])], 0)
  {
    InsertLength(m, k);
    CutInsertIsReported(m, k, 0, rels);
    hide Encode, EncodeFields, EncodeField, DecodeMessage, InsertOf;
  }

  /** A frame that ends between two fields of an insert decodes without any error:
      the batch is complete, and its last row lacks the fields that are missing. */
  lemma MissingFieldsPass(start: nat, end: nat, timestamp: nat, msgs: seq<Msg>, m: Msg, k: nat, rels: Relations)
    requires start < Span(8) && WellFormedBatch(msgs, rels)
    requires m.Insert? && WellFormed(m, BatchRelations(msgs, rels)) && k < |m.after|
    ensures var known, size := BatchRelations(msgs, rels), 8 + |EncodeFields(m.after[..k])|;
            && size < |Encode(m)|
            && Decode(Frame(start, end, timestamp, EncodeBatch(msgs) + Encode(m)[..size]), rels) ==
               Batch(known, BatchChanges(msgs, rels) + [InsertOf(known[m.id], m.after[..k])],
                     if BatchLsn(msgs) == 0 then start else BatchLsn(msgs), Complete)
  {
    hide *;
    var known, size := BatchRelations(msgs, rels), 8 + |EncodeFields(m.after[..k])|;
    CutBetweenFields(m, k, known);
    LastMessage(start, end, timestamp, msgs, Encode(m)[..size], [InsertOf(known[m.id], m.after[..k])], rels);
  }
}
