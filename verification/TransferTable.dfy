/** The transfers table: a unique idempotency key, and a compare-and-swap write on `version`. */
module TransferTable {
  import opened Wrappers
  import opened Money
  import opened Events
  import opened TransferDomain

  type Rows = map<TransferId, TransferData>

  /** The amount is rounded to the NUMERIC(20, 8) column when the row is written. */
  function Store(t: TransferData): TransferData {
    t.(amount := Quantise(t.amount) as real)
  }

  ghost predicate KeyTaken(rows: Rows, key: Key) {
    exists id :: id in rows && rows[id].key == key
  }

  ghost predicate UniqueKeys(rows: Rows) {
    && (forall id :: id in rows ==> rows[id].id == id)
    && (forall a, b :: a in rows && b in rows && rows[a].key == rows[b].key ==> a == b)
  }

  /** INSERT; both the primary key and the idempotency key are unique. */
  ghost function Inserted(rows: Rows, t: TransferData, reply: Reply): Rows {
    if reply.Refused? || t.id in rows || KeyTaken(rows, t.key) then rows else rows[t.id := Store(t)]
  }

  ghost predicate InsertAcked(rows: Rows, t: TransferData, reply: Reply) {
    reply.Acked? && t.id !in rows && !KeyTaken(rows, t.key)
  }

  /** SELECT ... WHERE idempotency_key = ... */
  ghost function ByKey(rows: Rows, key: Key): (r: Option<TransferData>)
    ensures r.Some? <==> KeyTaken(rows, key)
    ensures r.Some? ==> exists id :: id in rows && rows[id] == r.value && r.value.key == key
  {
    if KeyTaken(rows, key) then
      var id :| id in rows && rows[id].key == key;
      Some(rows[id])
    else None
  }

  predicate Current(rows: Rows, t: TransferData) {
    t.id in rows && rows[t.id].version == t.version - 1
  }

  /** The conditional UPDATE of status, reason and version. */
  function Updated(rows: Rows, t: TransferData, reply: Reply): Rows {
    if reply.Refused? || !Current(rows, t) then rows
    else rows[t.id := rows[t.id].(status := t.status, reason := t.reason, version := t.version)]
  }

  predicate UpdateAcked(rows: Rows, t: TransferData, reply: Reply) {
    reply.Acked? && Current(rows, t)
  }

  class TransferRepository {
    var rows: Rows

    constructor ()
      ensures rows == map[]
    {
      rows := map[];
    }

    method Create(t: Transfer, reply: Reply) returns (ok: bool)
      modifies this
      ensures rows == Inserted(old(rows), t.Value(), reply)
      ensures ok <==> InsertAcked(old(rows), t.Value(), reply)
      ensures var taken := t.id in old(rows) || exists id :: id in old(rows) && old(rows)[id].key == t.key;
              && (ok <==> reply.Acked? && !taken)
              && rows == if reply.Refused? || taken then old(rows)
                         else old(rows)[t.id := TransferData(t.id, t.key, t.source, t.dest, Quantise(t.amount) as real,
                                                             t.currency, t.status, t.reason, t.version)]
    {
      var taken := exists id :: id in rows && rows[id].key == t.key;
      if reply.Refused? || t.id in rows || taken {
        return false;
      }
      rows := rows[t.id := Store(t.Value())];
      return reply.Acked?;
    }

    method GetByID(id: TransferId, reply: Reply) returns (r: Option<Transfer>)
      ensures r.Some? <==> reply.Acked? && id in rows
      ensures r.Some? ==> fresh(r.value) && r.value.Value() == rows[id]
    {
      if !reply.Acked? || id !in rows {
        return None;
      }
      var t := new Transfer.Of(rows[id]);
      return Some(t);
    }

    /** An error, or whether a row has the key. */
    method GetByIdempotencyKey(key: Key, reply: Reply) returns (r: Result<Option<Transfer>, ()>)
      requires UniqueKeys(rows)
      ensures r.Ok? <==> reply.Acked?
      ensures r.Ok? ==> (r.value.Some? <==> exists id :: id in rows && rows[id].key == key)
      ensures r.Ok? && r.value.Some? ==> r.value.value.key == key && r.value.value.id in rows
                                         && r.value.value.Value() == rows[r.value.value.id]
      ensures r.Ok? && r.value.Some? ==> fresh(r.value.value) && Some(r.value.value.Value()) == ByKey(rows, key)
    {
      if !reply.Acked? {
        return Err(());
      }
      if id :| id in rows && rows[id].key == key {
        var t := new Transfer.Of(rows[id]);
        return Ok(Some(t));
      }
      return Ok(None);
    }

    method UpdateWithVersion(t: Transfer, reply: Reply) returns (ok: bool)
      modifies this
      ensures rows == Updated(old(rows), t.Value(), reply)
      ensures ok <==> UpdateAcked(old(rows), t.Value(), reply)
      ensures var matches := t.id in old(rows) && old(rows)[t.id].version == t.version - 1;
              && (ok <==> reply.Acked? && matches)
              && rows == if reply.Refused? || !matches then old(rows)
                         else old(rows)[t.id := old(rows)[t.id].(status := t.status, reason := t.reason, version := t.version)]
    {
      if reply.Refused? {
        return false;
      }
      var affected := 0;
      if t.id in rows && rows[t.id].version == t.version - 1 {
        rows := rows[t.id := rows[t.id].(status := t.status, reason := t.reason, version := t.version)];
        affected := 1;
      }
      return reply.Acked? && affected != 0;
    }
  }
}
