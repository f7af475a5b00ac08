/** An encoder for the layout the decoder reads, and the proof that decoding
    inverts it, message by message and over whole batches. Column flags come
    after the name and type here, as in the decoder; section 55.9 of the
    PostgreSQL 16 documentation puts them first. */
module PgOutputCodec {
  import opened Wrappers
  import opened Bytes
  import opened PgOutput

  /** A column description with the parts the decoder skips. */
  datatype ColDef = ColDef(name: seq<byte>, typeOID: nat, modifier: nat, flags: byte)

  datatype Field = NullField | UnchangedField | TextField(value: seq<byte>)
  type Tuple = seq<Field>

  /** The old version of a row: its key columns, or all of them. */
  datatype OldTuple = OldTuple(isKey: bool, tuple: Tuple)

  datatype Msg =
    | Begin(finalLSN: nat, timestamp: nat, xid: nat)
    | Commit(flags: byte, lsn: nat, endLSN: nat, timestamp: nat)
    | Relation(id: nat, namespace: seq<byte>, name: seq<byte>, replicaIdentity: byte, columns: seq<ColDef>)
    | Insert(id: nat, after: Tuple)
    | Update(id: nat, before: Option<OldTuple>, after: Tuple)
    | Delete(id: nat, gone: OldTuple)

  // ----- Well-formed messages -----

  predicate Name(s: seq<byte>) {
    forall k | 0 <= k < |s| :: s[k] != 0
  }

  predicate WellFormedCol(c: ColDef) {
    Name(c.name) && c.typeOID < Span(4) && c.modifier < Span(4)
  }

  predicate WellFormedTuple(t: Tuple) {
    |t| < Span(2) && forall f | f in t :: f.TextField? ==> |f.value| < Span(4)
  }

  /** No more fields than the relation has columns. */
  predicate Fits(id: nat, t: Tuple, rels: Relations) {
    id in rels && |t| <= |rels[id].columns| && WellFormedTuple(t)
  }

  predicate WellFormed(m: Msg, rels: Relations) {
    match m
    case Begin(lsn, ts, xid) => lsn < Span(8) && ts < Span(8) && xid < Span(4)
    case Commit(_, lsn, end, ts) => lsn < Span(8) && end < Span(8) && ts < Span(8)
    case Relation(id, ns, name, _, cols) =>
      id < Span(4) && Name(ns) && Name(name) && |cols| < Span(2) && forall c | c in cols :: WellFormedCol(c)
    case Insert(id, after) => id < Span(4) && Fits(id, after, rels)
    case Update(id, before, after) =>
      id < Span(4) && Fits(id, after, rels) && (before.Some? ==> Fits(id, before.value.tuple, rels))
    case Delete(id, gone) => id < Span(4) && Fits(id, gone.tuple, rels)
  }

  // ----- Encoding -----

  function EncodeCol(c: ColDef): seq<byte> {
    c.name + [0] + Big(c.typeOID, 4) + Big(c.modifier, 4) + [c.flags]
  }

  function EncodeCols(cols: seq<ColDef>): seq<byte> {
    if cols == [] then [] else EncodeCol(cols[0]) + EncodeCols(cols[1..])
  }

  function EncodeField(f: Field): seq<byte> {
    match f
    case NullField => [NULL]
    case UnchangedField => [UNCHANGED]
    case TextField(v) => [TEXT] + Big(|v|, 4) + v
  }

  function EncodeFields(t: Tuple): seq<byte> {
    if t == [] then [] else EncodeField(t[0]) + EncodeFields(t[1..])
  }

  function EncodeTuple(t: Tuple): seq<byte> {
    Big(|t|, 2) + EncodeFields(t)
  }

  function EncodeOld(prior: OldTuple): seq<byte> {
    [if prior.isKey then KEY else OLD] + EncodeTuple(prior.tuple)
  }

  function Encode(m: Msg): seq<byte> {
    match m
    case Begin(lsn, ts, xid) => [BEGIN] + Big(lsn, 8) + Big(ts, 8) + Big(xid, 4)
    case Commit(flags, lsn, end, ts) => [COMMIT, flags] + Big(lsn, 8) + Big(end, 8) + Big(ts, 8)
    case Relation(id, ns, name, ri, cols) =>
      [RELATION] + Big(id, 4) + ns + [0] + name + [0] + [ri] + Big(|cols|, 2) + EncodeCols(cols)
    case Insert(id, after) => [INSERT] + Big(id, 4) + [NEW] + EncodeTuple(after)
    case Update(id, before, after) =>
      [UPDATE] + Big(id, 4) + (if before.Some? then EncodeOld(before.value) else []) + [NEW] + EncodeTuple(after)
    case Delete(id, gone) => [DELETE] + Big(id, 4) + EncodeOld(gone)
  }

  // ----- Meaning -----

  function MetaOf(c: ColDef): ColMeta {
    ColMeta(c.name, c.typeOID, c.flags % 2 == 1, c.flags / 2 % 2 == 1)
  }

  function MetasOf(cols: seq<ColDef>): seq<ColMeta> {
    seq(|cols|, i requires 0 <= i < |cols| => MetaOf(cols[i]))
  }

  /** Unchanged values arrive as nulls. */
  function CellOf(f: Field): Cell {
    if f.TextField? then Text(f.value) else Null
  }

  /** The row of a tuple; a repeated column name keeps its last value. */
  function RowOf(cols: seq<ColMeta>, t: Tuple): Row
    requires |t| <= |cols|
  {
    if t == [] then map[]
    else RowOf(cols, t[..|t| - 1])[cols[|t| - 1].name := CellOf(t[|t| - 1])]
  }

  function RelationsAfter(m: Msg, rels: Relations): Relations {
    if m.Relation? then rels[m.id := RelMeta(m.id, m.namespace, m.name, MetasOf(m.columns))] else rels
  }

  function ChangesOf(m: Msg, rels: Relations): seq<Change>
    requires WellFormed(m, rels)
  {
    match m
    case Insert(id, after) =>
      [Change(rels[id].namespace, rels[id].name, OpInsert, None, Some(RowOf(rels[id].columns, after)))]
    case Update(id, before, after) =>
      [Change(rels[id].namespace, rels[id].name, OpUpdate,
              if before.Some? then Some(RowOf(rels[id].columns, before.value.tuple)) else None,
              Some(RowOf(rels[id].columns, after)))]
    case Delete(id, gone) =>
      [Change(rels[id].namespace, rels[id].name, OpDelete, Some(RowOf(rels[id].columns, gone.tuple)), None)]
    case _ => []
  }

  function LsnOf(m: Msg): nat {
    if m.Commit? then m.lsn else 0
  }

  // ----- Reading what was written -----

  /** What follows a known piece of the data. */
  lemma Split(data: seq<byte>, pos: nat, piece: seq<byte>, rest: seq<byte>)
    requires pos <= |data| && data[pos..] == piece + rest
    ensures pos + |piece| <= |data|
    ensures data[pos..pos + |piece|] == piece && data[pos + |piece|..] == rest
  {
    assert data[pos..][..|piece|] == piece && data[pos..][|piece|..] == rest;
  }

  lemma {:induction false} NulAt(data: seq<byte>, pos: nat, name: seq<byte>, rest: seq<byte>)
    requires pos <= |data| && Name(name) && data[pos..] == name + [0] + rest
    ensures NulFrom(data, pos) == pos + |name| < |data|
    ensures data[pos..pos + |name|] == name && data[pos + |name| + 1..] == rest
  {
    Split(data, pos, name + [0], rest);
    assert data[pos..pos + |name|] == (name + [0])[..|name|] == name;
    assert data[pos + |name|] == (name + [0])[|name|];
    forall k | pos <= k < pos + |name| ensures data[k] != 0 {
      assert data[k] == data[pos..pos + |name|][k - pos] == name[k - pos];
    }
  }

  lemma ReadEncodedColumn(data: seq<byte>, pos: nat, c: ColDef, rest: seq<byte>)
    requires pos <= |data| && WellFormedCol(c) && data[pos..] == EncodeCol(c) + rest
    ensures ReadColumn(data, pos) == Column(MetaOf(c), pos + |EncodeCol(c)|)
    ensures data[pos + |EncodeCol(c)|..] == rest
  {
    hide Value, Big, Span, NulFrom;
    var tail := Big(c.typeOID, 4) + Big(c.modifier, 4) + [c.flags];
    assert EncodeCol(c) + rest == c.name + [0] + (tail + rest);
    NulAt(data, pos, c.name, tail + rest);
    var p := pos + |c.name| + 1;
    Split(data, p, tail, rest);
    assert data[p..p + 4] == tail[..4] == Big(c.typeOID, 4);
    ValueOfBig(c.typeOID, 4);
    assert data[p + 8] == data[p..p + 9][8] == tail[8];
  }

  lemma {:induction false} ReadEncodedColumns(data: seq<byte>, pos: nat, cols: seq<ColDef>, rest: seq<byte>, acc: seq<ColMeta>)
    requires pos <= |data| && (forall c | c in cols :: WellFormedCol(c)) && data[pos..] == EncodeCols(cols) + rest
    ensures Columns(data, pos, |cols|, acc) == (acc + MetasOf(cols), pos + |EncodeCols(cols)|)
    ensures data[pos + |EncodeCols(cols)|..] == rest
    decreases |cols|
  {
    hide ReadColumn, EncodeCol, WellFormedCol;
    if cols == [] {
      assert acc + MetasOf(cols) == acc && EncodeCols(cols) + rest == rest;
    } else {
      var c, tail := cols[0], EncodeCols(cols[1..]) + rest;
      assert EncodeCols(cols) + rest == EncodeCol(c) + tail;
      ReadEncodedColumn(data, pos, c, tail);
      ReadEncodedColumns(data, pos + |EncodeCol(c)|, cols[1..], rest, acc + [MetaOf(c)]);
      assert acc + [MetaOf(c)] + MetasOf(cols[1..]) == acc + MetasOf(cols);
    }
  }

  lemma Assoc(a: seq<byte>, b: seq<byte>, c: seq<byte>)
    ensures a + b + c == a + (b + c)
  {
  }

  /** The part of a relation message after its two names. */
  function EncodeShape(m: Msg): seq<byte>
    requires m.Relation?
  {
    [m.replicaIdentity] + (Big(|m.columns|, 2) + EncodeCols(m.columns))
  }

  lemma RelationLayout(m: Msg, rest: seq<byte>)
    requires m.Relation?
    ensures var data := Encode(m) + rest;
            && |data| >= 10
            && data[1..5] == Big(m.id, 4)
            && data[5..] == m.namespace + [0] + (m.name + [0] + (EncodeShape(m) + rest))
            && |Encode(m)| == 5 + |m.namespace| + 1 + |m.name| + 1 + |EncodeShape(m)|
  {
    hide Value, Big, Span, EncodeCols, EncodeShape;
    var head, ns, name, shape := [RELATION] + Big(m.id, 4), m.namespace + [0], m.name + [0], EncodeShape(m);
    assert Encode(m) == head + (ns + (name + shape)) && |shape| >= 3 by { RelationNesting(m); }
    Assoc(name, shape, rest);
    Assoc(ns, name + shape, rest);
    Assoc(head, ns + (name + shape), rest);
    var data := head + (ns + (name + (shape + rest)));
    assert data[1..5] == head[1..5];
    assert data[5..] == ns + (name + (shape + rest));
  }

  lemma RelationNesting(m: Msg)
    requires m.Relation?
    ensures Encode(m) == [RELATION] + Big(m.id, 4) + ((m.namespace + [0]) + ((m.name + [0]) + EncodeShape(m)))
    ensures |EncodeShape(m)| >= 3
  {
    hide Big, EncodeCols;
  }

  lemma ReadShape(data: seq<byte>, pos: nat, m: Msg, rest: seq<byte>)
    requires m.Relation? && WellFormed(m, map[])
    requires pos <= |data| && data[pos..] == EncodeShape(m) + rest
    ensures pos + 3 <= |data| && Value(data[pos + 1..pos + 3]) == |m.columns|
    ensures Columns(data, pos + 3, |m.columns|, []) == (MetasOf(m.columns), pos + |EncodeShape(m)|)
  {
    hide Value, Big, Span, Columns, EncodeCols;
    var count, cols := Big(|m.columns|, 2), EncodeCols(m.columns);
    Assoc([m.replicaIdentity], count + cols, rest);
    Assoc(count, cols, rest);
    Split(data, pos, [m.replicaIdentity], count + (cols + rest));
    Split(data, pos + 1, count, cols + rest);
    ValueOfBig(|m.columns|, 2);
    ReadEncodedColumns(data, pos + 3, m.columns, rest, []);
    assert [] + MetasOf(m.columns) == MetasOf(m.columns);
  }

  lemma ReadEncodedRelation(m: Msg, rest: seq<byte>)
    requires m.Relation? && WellFormed(m, map[])
    ensures DecodeRelation(Encode(m) + rest) ==
            Ok(RelMeta(m.id, m.namespace, m.name, MetasOf(m.columns)), |Encode(m)|)
  {
    hide Value, Big, Span, NulFrom, Columns, EncodeCols, Encode, EncodeShape;
    var data := Encode(m) + rest;
    RelationLayout(m, rest);
    ValueOfBig(m.id, 4);
    NulAt(data, 5, m.namespace, m.name + [0] + (EncodeShape(m) + rest));
    var nsEnd := 5 + |m.namespace|;
    NulAt(data, nsEnd + 1, m.name, EncodeShape(m) + rest);
    ReadShape(data, nsEnd + 1 + |m.name| + 1, m, rest);
  }

  /** One field is read as its cell. */
  lemma ReadEncodedField(data: seq<byte>, cols: seq<ColMeta>, count: nat, i: nat, pos: nat, row: Row, f: Field, tail: seq<byte>)
    requires i < count && i < |cols| && (f.TextField? ==> |f.value| < Span(4))
    requires pos <= |data| && data[pos..] == EncodeField(f) + tail
    ensures pos + |EncodeField(f)| <= |data| && data[pos + |EncodeField(f)|..] == tail
    ensures TupleFrom(data, cols, count, i, pos, row) ==
            TupleFrom(data, cols, count, i + 1, pos + |EncodeField(f)|, row[cols[i].name := CellOf(f)])
  {
    hide Value, Big, Span;
    var enc := EncodeField(f);
    Split(data, pos, enc, tail);
    assert data[pos] == data[pos..pos + |enc|][0] == enc[0];
    if f.TextField? { ReadTextField(data, pos, f, tail); }
  }

  lemma ReadTextField(data: seq<byte>, pos: nat, f: Field, tail: seq<byte>)
    requires f.TextField? && |f.value| < Span(4)
    requires pos <= |data| && data[pos..] == EncodeField(f) + tail
    ensures |EncodeField(f)| == 5 + |f.value| && pos + 5 + |f.value| <= |data|
    ensures Value(data[pos + 1..pos + 5]) == |f.value|
    ensures data[pos + 5..pos + 5 + |f.value|] == f.value
  {
    hide Value, Big, Span;
    var enc := EncodeField(f);
    Split(data, pos, enc, tail);
    assert data[pos + 1..pos + 5] == data[pos..pos + |enc|][1..5] == enc[1..5] == Big(|f.value|, 4);
    ValueOfBig(|f.value|, 4);
    assert data[pos + 5..pos + 5 + |f.value|] == data[pos..pos + |enc|][5..] == enc[5..] == f.value;
  }

  /** Fields are read as their cells, whether or not more are to come. */
  lemma {:induction false} ReadEncodedFields(data: seq<byte>, cols: seq<ColMeta>, count: nat, t: Tuple, i: nat, pos: nat,
                                             rest: seq<byte>)
    requires i <= |t| <= count && |t| <= |cols| && WellFormedTuple(t)
    requires pos <= |data| && data[pos..] == EncodeFields(t[i..]) + rest
    ensures pos + |EncodeFields(t[i..])| <= |data| && data[pos + |EncodeFields(t[i..])|..] == rest
    ensures TupleFrom(data, cols, count, i, pos, RowOf(cols, t[..i])) ==
            TupleFrom(data, cols, count, |t|, pos + |EncodeFields(t[i..])|, RowOf(cols, t))
    decreases |t| - i
  {
    hide EncodeField, Span, TupleFrom;
    if i == |t| {
      assert t[..i] == t && EncodeFields(t[i..]) + rest == rest;
    } else {
      var f, tail := t[i], EncodeFields(t[i + 1..]) + rest;
      assert t[i..][0] == f && t[i..][1..] == t[i + 1..];
      Assoc(EncodeField(f), EncodeFields(t[i + 1..]), rest);
      ReadEncodedField(data, cols, count, i, pos, RowOf(cols, t[..i]), f, tail);
      assert t[..i + 1][..i] == t[..i];
      ReadEncodedFields(data, cols, count, t, i + 1, pos + |EncodeField(f)|, rest);
    }
  }

  lemma RowOfNone(cols: seq<ColMeta>)
    ensures RowOf(cols, []) == map[]
  {
  }

  lemma ReadFieldsFrom(data: seq<byte>, cols: seq<ColMeta>, count: nat, t: Tuple, pos: nat, rest: seq<byte>)
    requires |t| <= count && |t| <= |cols| && WellFormedTuple(t)
    requires pos <= |data| && data[pos..] == EncodeFields(t) + rest
    ensures pos + |EncodeFields(t)| <= |data| && data[pos + |EncodeFields(t)|..] == rest
    ensures TupleFrom(data, cols, count, 0, pos, map[]) ==
            TupleFrom(data, cols, count, |t|, pos + |EncodeFields(t)|, RowOf(cols, t))
  {
    hide TupleFrom, EncodeFields, WellFormedTuple, RowOf;
    assert t[0..] == t && t[..0] == [];
    RowOfNone(cols);
    ReadEncodedFields(data, cols, count, t, 0, pos, rest);
  }

  /** Reading a tuple stops at its last field or column, or where the data ends. */
  lemma TupleStops(data: seq<byte>, cols: seq<ColMeta>, count: nat, i: nat, pos: nat, row: Row)
    requires pos <= |data| && (i >= count || i >= |cols| || pos == |data|)
    ensures TupleFrom(data, cols, count, i, pos, row) == Ok(row, pos)
  {
  }

  /** A tuple is its field count and then its fields. */
  lemma TupleLayout(t: Tuple, rest: seq<byte>)
    requires WellFormedTuple(t)
    ensures var data := EncodeTuple(t) + rest;
            |data| >= 2 && Value(data[0..2]) == |t| && data[2..] == EncodeFields(t) + rest
    ensures |EncodeTuple(t)| == 2 + |EncodeFields(t)|
  {
    hide Value, Big, Span, EncodeFields;
    var data := EncodeTuple(t) + rest;
    assert data == Big(|t|, 2) + (EncodeFields(t) + rest);
    assert data[0..2] == Big(|t|, 2);
    ValueOfBig(|t|, 2);
  }

  lemma ReadEncodedTuple(t: Tuple, cols: seq<ColMeta>, rest: seq<byte>)
    requires |t| <= |cols| && WellFormedTuple(t)
    ensures DecodeTuple(EncodeTuple(t) + rest, cols) == Ok(RowOf(cols, t), |EncodeTuple(t)|)
  {
    TupleLayout(t, rest);
    hide Value, Big, Span, EncodeTuple, EncodeFields, WellFormedTuple, RowOf, TupleFrom;
    ReadFieldsFrom(EncodeTuple(t) + rest, cols, |t|, t, 2, rest);
    TupleStops(EncodeTuple(t) + rest, cols, |t|, |t|, |EncodeTuple(t)|, RowOf(cols, t));
  }
}
