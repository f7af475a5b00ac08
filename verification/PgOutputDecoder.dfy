/** The decoder as it runs: cursors advancing over the bytes, and a relation
    table that lives across batches. Each method returns what PgOutput
    specifies, reads only inside the data, and terminates on every input. */
module PgOutputDecoder {
  import opened Wrappers
  import opened Bytes
  import opened PgOutput

  /** Advances to the next NUL or to the end of the data. */
  method ScanNul(data: seq<byte>, start: nat) returns (pos: nat)
    requires start <= |data|
    ensures pos == NulFrom(data, start)
  {
    pos := start;
    while pos < |data| && data[pos] != 0
      invariant start <= pos <= |data| && NulFrom(data, pos) == NulFrom(data, start)
    {
      pos := pos + 1;
    }
  }

  class Decoder {
    var relations: Relations

    constructor ()
      ensures relations == map[]
    {
      relations := map[];
    }

    /** One column, or none where the data runs out. */
    method ReadOneColumn(data: seq<byte>, start: nat) returns (col: Option<ColMeta>, pos: nat)
      requires start <= |data|
      ensures match ReadColumn(data, start)
              case Cut(next) => col == None && pos == next
              case Column(c, next) => col == Some(c) && pos == next
    {
      hide Value, NulFrom;
      if start >= |data| { return None, start; }
      pos := ScanNul(data, start);
      if pos >= |data| { return None, pos; }
      var colName := data[start..pos];
      pos := pos + 1;
      if pos + 8 > |data| { return None, pos; }
      var typeOID := Value(data[pos..pos + 4]);
      pos := pos + 8;
      if pos >= |data| { return None, pos; }
      var flags := data[pos];
      return Some(ColMeta(colName, typeOID, flags % 2 == 1, flags / 2 % 2 == 1)), pos + 1;
    }

    method ReadColumns(data: seq<byte>, start: nat, colCount: nat) returns (cols: seq<ColMeta>, pos: nat)
      requires start <= |data|
      ensures (cols, pos) == Columns(data, start, colCount, [])
    {
      hide ReadColumn;
      cols, pos := [], start;
      for i := 0 to colCount
        invariant pos <= |data|
        invariant Columns(data, pos, colCount - i, cols) == Columns(data, start, colCount, [])
      {
        var col;
        col, pos := ReadOneColumn(data, pos);
        if col.None? { return; }
        cols := cols + [col.value];
      }
    }

    method ReadRelation(data: seq<byte>) returns (r: Result<RelMeta>)
      ensures r == PgOutput.DecodeRelation(data)
    {
      if |data| < 10 { return Err(TooShort); }
      var relID := Value(data[1..5]);
      var nsEnd := ScanNul(data, 5);
      if nsEnd >= |data| { return Err(Unterminated); }
      var nameStart := nsEnd + 1;
      var nameEnd := ScanNul(data, nameStart);
      if nameEnd >= |data| { return Err(Unterminated); }
      var pos := nameEnd + 1;
      if pos >= |data| { return Err(MissingReplicaIdentity); }
      pos := pos + 1;
      if pos + 2 > |data| { return Err(MissingColumnCount); }
      var colCount := Value(data[pos..pos + 2]);
      var cols;
      cols, pos := ReadColumns(data, pos + 2, colCount);
      return Ok(RelMeta(relID, data[5..nsEnd], data[nameStart..nameEnd], cols), pos);
    }

    method ReadTuple(data: seq<byte>, columns: seq<ColMeta>) returns (r: Result<Row>)
      ensures r == PgOutput.DecodeTuple(data, columns)
    {
      hide Value;
      if |data| < 2 { return Err(TooShort); }
      var colCount, pos, row, i := Value(data[0..2]), 2, map[], 0;
      while i < colCount && i < |columns|
        invariant 0 <= i && 0 <= pos <= |data|
        invariant TupleFrom(data, columns, colCount, i, pos, row) == PgOutput.DecodeTuple(data, columns)
        decreases |columns| - i
      {
        if pos >= |data| { break; }
        var name := columns[i].name;
        if data[pos] == NULL || data[pos] == UNCHANGED {
          row, pos := row[name := Null], pos + 1;
        } else if data[pos] == TEXT {
          pos := pos + 1;
          if pos + 4 > |data| { return Ok(row, pos); }
          var valLen := Value(data[pos..pos + 4]);
          pos := pos + 4;
          if pos + valLen > |data| { return Ok(row, pos); }
          row, pos := row[name := Text(data[pos..pos + valLen])], pos + valLen;
        } else {
          return Err(BadTupleMarker);
        }
        i := i + 1;
      }
      return Ok(row, pos);
    }

    method ReadInsert(data: seq<byte>) returns (r: Result<Change>)
      ensures r == PgOutput.DecodeInsert(data, relations)
    {
      if |data| < 6 { return Err(TooShort); }
      var relID := Value(data[1..5]);
      if data[5] != NEW { return Err(NoNewTuple); }
      if relID !in relations { return Err(UnknownRelation); }
      var rel := relations[relID];
      var after := ReadTuple(data[6..], rel.columns);
      if after.Err? { return Err(after.error); }
      return Ok(Change(rel.namespace, rel.name, OpInsert, None, Some(after.value)), 6 + after.n);
    }

    method ReadUpdate(data: seq<byte>) returns (r: Result<Change>)
      ensures r == PgOutput.DecodeUpdate(data, relations)
    {
      hide Value, DecodeTuple;
      if |data| < 6 { return Err(TooShort); }
      var relID := Value(data[1..5]);
      if relID !in relations { return Err(UnknownRelation); }
      var rel, pos, before, after := relations[relID], 5, None, None;
      if pos < |data| && (data[pos] == KEY || data[pos] == OLD) {
        var t := ReadTuple(data[pos + 1..], rel.columns);
        if t.Err? { return Err(t.error); }
        before, pos := Some(t.value), pos + 1 + t.n;
      }
      if pos < |data| && data[pos] == NEW {
        var t := ReadTuple(data[pos + 1..], rel.columns);
        if t.Err? { return Err(t.error); }
        after, pos := Some(t.value), pos + 1 + t.n;
      }
      return Ok(Change(rel.namespace, rel.name, OpUpdate, before, after), pos);
    }

    method ReadDelete(data: seq<byte>) returns (r: Result<Change>)
      ensures r == PgOutput.DecodeDelete(data, relations)
    {
      hide Value, DecodeTuple;
      if |data| < 6 { return Err(TooShort); }
      var relID := Value(data[1..5]);
      if relID !in relations { return Err(UnknownRelation); }
      var rel, pos, before := relations[relID], 5, None;
      if pos < |data| && (data[pos] == KEY || data[pos] == OLD) {
        var t := ReadTuple(data[pos + 1..], rel.columns);
        if t.Err? { return Err(t.error); }
        before, pos := Some(t.value), pos + 1 + t.n;
      }
      return Ok(Change(rel.namespace, rel.name, OpDelete, before, None), pos);
    }

    /** Skips a type message: two NUL-terminated names from offset 5. */
    method SkipType(data: seq<byte>) returns (pos: nat)
      ensures pos == TypeEnd(data)
    {
      pos := 5;
      if pos < |data| {
        pos := ScanNul(data, pos);
        pos := pos + 1;
        if pos < |data| {
          pos := ScanNul(data, pos);
          pos := pos + 1;
        }
      }
    }

    /** One iteration of the batch loop: the new relations are stored at once. */
    method ReadMessage(remaining: seq<byte>) returns (m: Message)
      requires remaining != []
      modifies this
      ensures m == PgOutput.DecodeMessage(remaining, old(relations))
      ensures relations == if m.Consumed? then m.rels else old(relations)
    {
      hide Value, DecodeRelation, DecodeInsert, DecodeUpdate, DecodeDelete, NulFrom, TypeEnd;
      var msgType := remaining[0];
      if msgType == BEGIN {
        if |remaining| < 21 { return Truncated; }
        m := Consumed(21, relations, [], 0);
      } else if msgType == COMMIT {
        if |remaining| < 26 { return Truncated; }
        m := Consumed(26, relations, [], Value(remaining[2..10]));
      } else if msgType == RELATION {
        var rel := ReadRelation(remaining);
        if rel.Err? { return Failed(rel.error); }
        relations := relations[rel.value.id := rel.value];
        m := Consumed(rel.n, relations, [], 0);
      } else if msgType == INSERT {
        var change := ReadInsert(remaining);
        m := Emitted(change, relations);
      } else if msgType == UPDATE {
        var change := ReadUpdate(remaining);
        m := Emitted(change, relations);
      } else if msgType == DELETE {
        var change := ReadDelete(remaining);
        m := Emitted(change, relations);
      } else if msgType == ORIGIN {
        var pos := 9;
        if pos < |remaining| { pos := ScanNul(remaining, pos); }
        m := Consumed(pos + 2, relations, [], 0);
      } else if msgType == TYPE {
        var pos := SkipType(remaining);
        m := Consumed(pos + 1, relations, [], 0);
      } else {
        m := Consumed(|remaining|, relations, [], 0);
      }
    }

    method DecodeWAL(walData: seq<byte>, baseLSN: nat) returns (changes: seq<Change>, maxLSN: nat, end: End)
      modifies this
      ensures Batch(relations, changes, maxLSN, end) == PgOutput.DecodeWAL(walData, old(relations), baseLSN)
    {
      hide DecodeMessage;
      changes, maxLSN := [], 0;
      var offset := 0;
      while offset < |walData|
        invariant 0 <= offset
        invariant DecodeAll(Drop(walData, offset), relations, changes, maxLSN)
               == DecodeAll(walData, old(relations), [], 0)
        decreases |walData| - offset
      {
        var remaining := walData[offset..];
        var m := ReadMessage(remaining);
        match m {
          case Truncated => return changes, maxLSN, Cutoff;
          case Failed(e) => return changes, maxLSN, Failure(e);
          case Consumed(n, _, more, seen) =>
            assert Drop(remaining, n) == Drop(walData, offset + n);
            changes, maxLSN, offset := changes + more, if seen > maxLSN then seen else maxLSN, offset + n;
        }
      }
      if maxLSN == 0 { maxLSN := baseLSN; }
      end := Complete;
    }

    method Decode(data: seq<byte>) returns (changes: seq<Change>, maxLSN: nat, end: End)
      modifies this
      ensures Batch(relations, changes, maxLSN, end) == PgOutput.Decode(data, old(relations))
    {
      if |data| < 25 { return [], 0, Failure(TooShort); }
      if data[0] != XLOG {
        changes, maxLSN, end := DecodeWAL(data, 0);
      } else {
        changes, maxLSN, end := DecodeWAL(data[25..], Value(data[1..9]));
      }
    }
  }
}
