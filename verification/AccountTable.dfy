/** The accounts table: snapshot reads and the compare-and-swap write on `version`. */
module AccountTable {
  import opened Wrappers
  import opened Money
  import opened Events
  import opened AccountDomain

  /** A row: the balance is a NUMERIC(20, 8), a whole number of units. */
  datatype Row = Row(balance: int, currency: Currency, status: Status, version: int)

  type Rows = map<AccountId, Row>

  datatype StoreError = NotFound | OptimisticLock | Database

  function Load(row: Row): Snapshot {
    Snapshot(row.balance as real, row.currency, row.status, row.version)
  }

  /** A balance is rounded when it is written. */
  function Store(a: Snapshot): Row {
    Row(Quantise(a.balance), a.currency, a.status, a.version)
  }

  /** INSERT; a second row with the same primary key is refused. */
  function Inserted(rows: Rows, id: AccountId, a: Snapshot, reply: Reply): Rows {
    if reply.Refused? || id in rows then rows else rows[id := Store(a)]
  }

  /** WHERE id = ... AND version = a.Version - 1 */
  predicate Current(rows: Rows, id: AccountId, a: Snapshot) {
    id in rows && rows[id].version == a.version - 1
  }

  /** The conditional UPDATE of balance and version. */
  function Updated(rows: Rows, id: AccountId, a: Snapshot, reply: Reply): Rows {
    if reply.Refused? || !Current(rows, id, a) then rows
    else rows[id := rows[id].(balance := Quantise(a.balance), version := a.version)]
  }

  /** The caller sees success only when a row matched and the database said so. */
  predicate UpdateAcked(rows: Rows, id: AccountId, a: Snapshot, reply: Reply) {
    reply.Acked? && Current(rows, id, a)
  }

  class AccountRepository {
    var rows: Rows

    constructor ()
      ensures rows == map[]
    {
      rows := map[];
    }

    method Create(a: Account, reply: Reply) returns (error: Option<StoreError>)
      modifies this
      ensures rows == Inserted(old(rows), a.id, a.Value(), reply)
      ensures rows == if reply.Refused? || a.id in old(rows) then old(rows)
                      else old(rows)[a.id := Row(Quantise(a.balance), a.currency, a.status, a.version)]
      ensures error.None? <==> reply.Acked? && a.id !in old(rows)
    {
      if reply.Refused? || a.id in rows {
        return Some(Database);
      }
      rows := rows[a.id := Row(Quantise(a.balance), a.currency, a.status, a.version)];
      return if reply.Acked? then None else Some(Database);
    }

    method GetByID(id: AccountId, reply: Reply) returns (r: Result<Account, StoreError>)
      ensures r.Ok? <==> reply.Acked? && id in rows
      ensures r.Ok? ==> fresh(r.value) && r.value.id == id && r.value.Value() == Load(rows[id])
      ensures r.Ok? ==> var row, a := rows[id], r.value;
                        && a.balance == row.balance as real && a.currency == row.currency
                        && a.status == row.status && a.version == row.version
      ensures reply.Acked? && id !in rows ==> r == Err(NotFound)
    {
      if !reply.Acked? {
        return Err(Database);
      }
      if id !in rows {
        return Err(NotFound);
      }
      var a := new Account.Of(id, Load(rows[id]));
      return Ok(a);
    }

    method UpdateWithVersion(a: Account, reply: Reply) returns (error: Option<StoreError>)
      modifies this
      ensures rows == Updated(old(rows), a.id, a.Value(), reply)
      ensures error.None? <==> UpdateAcked(old(rows), a.id, a.Value(), reply)
      ensures var matches := a.id in old(rows) && old(rows)[a.id].version == a.version - 1;
              && (error.None? <==> reply.Acked? && matches)
              && rows == if reply.Refused? || !matches then old(rows)
                         else old(rows)[a.id := Row(Quantise(a.balance), old(rows)[a.id].currency, old(rows)[a.id].status, a.version)]
      ensures reply.Acked? && !Current(old(rows), a.id, a.Value()) ==> error == Some(OptimisticLock)
    {
      if reply.Refused? {
        return Some(Database);
      }
      var affected := 0;
      if a.id in rows && rows[a.id].version == a.version - 1 {
        rows := rows[a.id := rows[a.id].(balance := Quantise(a.balance), version := a.version)];
        affected := 1;
      }
      if reply.Lost? {
        return Some(Database);
      }
      if affected == 0 {
        return Some(OptimisticLock);
      }
      return None;
    }
  }
}
