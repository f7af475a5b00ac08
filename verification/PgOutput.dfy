/** Decoding the pgoutput logical-replication stream: what each decoder
    returns, as functions of the bytes given and the known relations. */
module PgOutput {
  import opened Wrappers
  import opened Bytes

  datatype ColMeta = ColMeta(name: seq<byte>, typeOID: nat, isKey: bool, isNotNull: bool)
  datatype RelMeta = RelMeta(id: nat, namespace: seq<byte>, name: seq<byte>, columns: seq<ColMeta>)
  type Relations = map<nat, RelMeta>

  datatype Cell = Null | Text(value: seq<byte>)
  type Row = map<seq<byte>, Cell>

  datatype Op = OpInsert | OpUpdate | OpDelete
  datatype Change = Change(schema: seq<byte>, table: seq<byte>, op: Op, before: Option<Row>, after: Option<Row>)

  datatype Error = TooShort | Unterminated | MissingReplicaIdentity | MissingColumnCount
                 | NoNewTuple | UnknownRelation | BadTupleMarker

  /** A decoded value and the number of bytes consumed, or an error. */
  datatype Result<+T> = Ok(value: T, n: nat) | Err(error: Error)

  // Message and tuple markers.
  const BEGIN: byte := 66      // B
  const COMMIT: byte := 67     // C
  const RELATION: byte := 82   // R
  const INSERT: byte := 73     // I
  const UPDATE: byte := 85     // U
  const DELETE: byte := 68     // D
  const ORIGIN: byte := 79     // O
  const TYPE: byte := 89       // Y
  const XLOG: byte := 119      // w
  const KEY: byte := 75        // K
  const OLD: byte := 79        // O
  const NEW: byte := 78        // N
  const NULL: byte := 110      // n
  const UNCHANGED: byte := 117 // u
  const TEXT: byte := 116      // t

  /** The first NUL at or after pos, or the end of the data. */
  function NulFrom(data: seq<byte>, pos: nat): (r: nat)
    requires pos <= |data|
    ensures pos <= r <= |data|
    ensures r < |data| ==> data[r] == 0
    ensures forall k | pos <= k < r :: data[k] != 0
    decreases |data| - pos
  {
    if pos == |data| || data[pos] == 0 then pos else NulFrom(data, pos + 1)
  }

  // ----- Relations -----

  /** One column description, or the position at which the data ran out. */
  datatype ColRead = Column(col: ColMeta, next: nat) | Cut(next: nat)

  function ReadColumn(data: seq<byte>, pos: nat): (r: ColRead)
    requires pos <= |data|
    ensures pos <= r.next <= |data|
  {
    if pos == |data| then Cut(pos)
    else
      var nul := NulFrom(data, pos);
      if nul == |data| then Cut(nul)
      else if nul + 9 > |data| then Cut(nul + 1)
      else if nul + 9 == |data| then Cut(nul + 9)
      else
        var flags := data[nul + 9];
        Column(ColMeta(data[pos..nul], Value(data[nul + 1..nul + 5]), flags % 2 == 1, flags / 2 % 2 == 1), nul + 10)
  }

  function Columns(data: seq<byte>, pos: nat, count: nat, cols: seq<ColMeta>): (r: (seq<ColMeta>, nat))
    requires pos <= |data|
    ensures pos <= r.1 <= |data|
    decreases count
  {
    if count == 0 then (cols, pos)
    else match ReadColumn(data, pos)
      case Cut(next) => (cols, next)
      case Column(col, next) => Columns(data, next, count - 1, cols + [col])
  }

  function DecodeRelation(data: seq<byte>): (r: Result<RelMeta>)
    ensures r.Ok? ==> 10 <= r.n <= |data|
  {
    if |data| < 10 then Err(TooShort)
    else
      var nsEnd := NulFrom(data, 5);
      if nsEnd == |data| then Err(Unterminated)
      else
        var nameEnd := NulFrom(data, nsEnd + 1);
        if nameEnd == |data| then Err(Unterminated)
        else if nameEnd + 1 == |data| then Err(MissingReplicaIdentity)
        else if nameEnd + 4 > |data| then Err(MissingColumnCount)
        else
          var cols := Columns(data, nameEnd + 4, Value(data[nameEnd + 2..nameEnd + 4]), []);
          Ok(RelMeta(Value(data[1..5]), data[5..nsEnd], data[nsEnd + 1..nameEnd], cols.0), cols.1)
  }

  // ----- Tuples -----

  function TupleFrom(data: seq<byte>, cols: seq<ColMeta>, count: nat, i: nat, pos: nat, row: Row): (r: Result<Row>)
    requires pos <= |data|
    ensures r.Ok? ==> pos <= r.n <= |data|
    decreases |cols| - i
  {
    if i >= count || i >= |cols| || pos == |data| then Ok(row, pos)
    else if data[pos] == NULL || data[pos] == UNCHANGED then
      TupleFrom(data, cols, count, i + 1, pos + 1, row[cols[i].name := Null])
    else if data[pos] == TEXT then
      if pos + 5 > |data| then Ok(row, pos + 1)
      else
        var end := pos + 5 + Value(data[pos + 1..pos + 5]);
        if end > |data| then Ok(row, pos + 5)
        else TupleFrom(data, cols, count, i + 1, end, row[cols[i].name := Text(data[pos + 5..end])])
    else Err(BadTupleMarker)
  }

  function DecodeTuple(data: seq<byte>, cols: seq<ColMeta>): (r: Result<Row>)
    ensures r.Ok? ==> 2 <= r.n <= |data|
  {
    if |data| < 2 then Err(TooShort)
    else TupleFrom(data, cols, Value(data[0..2]), 0, 2, map[])
  }

  // ----- Row changes -----

  function DecodeInsert(data: seq<byte>, rels: Relations): (r: Result<Change>)
    ensures r.Ok? ==> 6 <= r.n <= |data|
  {
    if |data| < 6 then Err(TooShort)
    else if data[5] != NEW then Err(NoNewTuple)
    else if Value(data[1..5]) !in rels then Err(UnknownRelation)
    else
      var rel := rels[Value(data[1..5])];
      match DecodeTuple(data[6..], rel.columns)
      case Err(e) => Err(e)
      case Ok(after, n) => Ok(Change(rel.namespace, rel.name, OpInsert, None, Some(after)), 6 + n)
  }

  /** A tuple at pos if one of the given markers stands there, else nothing. */
  function OptionalTuple(data: seq<byte>, pos: nat, markers: set<byte>, cols: seq<ColMeta>): (r: Result<Option<Row>>)
    requires pos <= |data|
    ensures r.Ok? ==> pos <= r.n <= |data|
  {
    if pos < |data| && data[pos] in markers then
      match DecodeTuple(data[pos + 1..], cols)
      case Err(e) => Err(e)
      case Ok(row, n) => Ok(Some(row), pos + 1 + n)
    else Ok(None, pos)
  }

  function DecodeUpdate(data: seq<byte>, rels: Relations): (r: Result<Change>)
    ensures r.Ok? ==> 5 <= r.n <= |data|
  {
    if |data| < 6 then Err(TooShort)
    else if Value(data[1..5]) !in rels then Err(UnknownRelation)
    else
      var rel := rels[Value(data[1..5])];
      match OptionalTuple(data, 5, {KEY, OLD}, rel.columns)
      case Err(e) => Err(e)
      case Ok(before, pos) =>
        match OptionalTuple(data, pos, {NEW}, rel.columns)
        case Err(e) => Err(e)
        case Ok(after, n) => Ok(Change(rel.namespace, rel.name, OpUpdate, before, after), n)
  }

  function DecodeDelete(data: seq<byte>, rels: Relations): (r: Result<Change>)
    ensures r.Ok? ==> 5 <= r.n <= |data|
  {
    if |data| < 6 then Err(TooShort)
    else if Value(data[1..5]) !in rels then Err(UnknownRelation)
    else
      var rel := rels[Value(data[1..5])];
      match OptionalTuple(data, 5, {KEY, OLD}, rel.columns)
      case Err(e) => Err(e)
      case Ok(before, n) => Ok(Change(rel.namespace, rel.name, OpDelete, before, None), n)
  }

  // ----- The stream -----

  /** What one message does: consume bytes and perhaps learn a relation, emit a
      change or see a commit; or end the batch quietly; or fail. */
  datatype Message =
    | Consumed(n: nat, rels: Relations, changes: seq<Change>, lsn: nat)
    | Truncated
    | Failed(error: Error)

  function Emitted(r: Result<Change>, rels: Relations): Message {
    match r
    case Ok(change, n) => Consumed(n, rels, [change], 0)
    case Err(e) => Failed(e)
  }

  /** Where the scan over a NUL-terminated name that starts at pos stops. */
  function SkipName(data: seq<byte>, pos: nat): nat {
    if pos < |data| then NulFrom(data, pos) else pos
  }

  function TypeEnd(data: seq<byte>): nat {
    if 5 >= |data| then 5
    else
      var p := NulFrom(data, 5) + 1;
      if p >= |data| then p else NulFrom(data, p) + 1
  }

  /** One iteration on the non-empty rest of the batch. */
  function DecodeMessage(data: seq<byte>, rels: Relations): (r: Message)
    requires data != []
    ensures r.Consumed? ==> r.n > 0
  {
    if data[0] == BEGIN then
      if |data| < 21 then Truncated else Consumed(21, rels, [], 0)
    else if data[0] == COMMIT then
      if |data| < 26 then Truncated else Consumed(26, rels, [], Value(data[2..10]))
    else if data[0] == RELATION then
      (match DecodeRelation(data)
       case Err(e) => Failed(e)
       case Ok(rel, n) => Consumed(n, rels[rel.id := rel], [], 0))
    else if data[0] == INSERT then Emitted(DecodeInsert(data, rels), rels)
    else if data[0] == UPDATE then Emitted(DecodeUpdate(data, rels), rels)
    else if data[0] == DELETE then Emitted(DecodeDelete(data, rels), rels)
    else if data[0] == ORIGIN then Consumed(SkipName(data, 9) + 2, rels, [], 0)
    else if data[0] == TYPE then Consumed(TypeEnd(data) + 1, rels, [], 0)
    else Consumed(|data|, rels, [], 0)
  }

  datatype End = Complete | Cutoff | Failure(error: Error)

  /** The relations, changes and highest commit LSN after a batch, and how it ended. */
  datatype Batch = Batch(rels: Relations, changes: seq<Change>, lsn: nat, end: End)

  function Max(a: nat, b: nat): nat {
    if a < b then b else a
  }

  function Drop(data: seq<byte>, n: nat): seq<byte> {
    if n <= |data| then data[n..] else []
  }

  function DecodeAll(data: seq<byte>, rels: Relations, changes: seq<Change>, lsn: nat): Batch
    decreases |data|
  {
    if data == [] then Batch(rels, changes, lsn, Complete)
    else match DecodeMessage(data, rels)
      case Truncated => Batch(rels, changes, lsn, Cutoff)
      case Failed(e) => Batch(rels, changes, lsn, Failure(e))
      case Consumed(n, rels', more, seen) =>
        DecodeAll(Drop(data, n), rels', changes + more, Max(lsn, seen))
  }

  /** A batch that ran to its end without a commit reports its base LSN. */
  function DecodeWAL(data: seq<byte>, rels: Relations, base: nat): Batch {
    var b := DecodeAll(data, rels, [], 0);
    if b.end.Complete? && b.lsn == 0 then b.(lsn := base) else b
  }

  function Decode(data: seq<byte>, rels: Relations): Batch {
    if |data| < 25 then Batch(rels, [], 0, Failure(TooShort))
    else if data[0] != XLOG then DecodeWAL(data, rels, 0)
    else DecodeWAL(data[25..], rels, Value(data[1..9]))
  }
}
