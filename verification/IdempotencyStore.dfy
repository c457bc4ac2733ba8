/** The Redis cache in front of the idempotency lookup: entries that live for 24 hours. */
module IdempotencyStore {
  import opened Wrappers
  import opened Events
  import opened TransferDomain
  import TS = TransferStore

  /** 24 hours, in seconds. */
  const TTL: nat := 86400

  datatype Entry = Entry(value: TransferData, expires: nat)

  /** What can be read at time `now`. */
  function Live(entries: map<Key, Entry>, now: nat): map<Key, TransferData> {
    map key | key in entries && now < entries[key].expires :: entries[key].value
  }

  class IdempotencyStore {
    var entries: map<Key, Entry>

    constructor ()
      ensures entries == map[]
    {
      entries := map[];
    }

    /** An error, or the live entry if there is one. */
    method Get(key: Key, now: nat, reply: Reply) returns (r: Result<Option<TransferData>, ()>)
      ensures r == if !reply.Acked? then Err(())
                   else Ok(if key in Live(entries, now) then Some(Live(entries, now)[key]) else None)
    {
      if !reply.Acked? {
        return Err(());
      }
      if key !in entries || entries[key].expires <= now {
        return Ok(None);
      }
      return Ok(Some(entries[key].value));
    }

    method Set(key: Key, value: TransferData, now: nat, reply: Reply) returns (ok: bool)
      modifies this
      ensures Live(entries, now) == if reply.Refused? then Live(old(entries), now) else Live(old(entries), now)[key := value]
      ensures forall later: nat :: now <= later ==>
                Live(entries, later)
                == if reply.Refused? then Live(old(entries), later)
                   else if later < now + 24 * 60 * 60 then Live(old(entries), later)[key := value]
                   else Live(old(entries), later) - {key}
      ensures ok <==> reply.Acked?
    {
      if reply.Refused? {
        return false;
      }
      entries := entries[key := Entry(value, now + TTL)];
      return reply.Acked?;
    }
  }

  /** Time only removes entries, so its passing is a series of Expire steps of the transfer store. */
  lemma {:induction false} TimeIsExpiry(s: TS.State, entries: map<Key, Entry>, now: nat, later: nat, keys: seq<Key>)
    requires now <= later && s.cache == Live(entries, now)
    requires forall key :: key in keys ==> key in entries && entries[key].expires <= later
    requires forall key :: key in entries && now < entries[key].expires <= later ==> key in keys
    ensures TS.Run(s, seq(|keys|, i requires 0 <= i < |keys| => TS.Expire(keys[i]))) == s.(cache := Live(entries, later))
  {
    ExpireAll(s, keys);
    assert Live(entries, later) == Live(entries, now) - set key | key in keys;
  }

  lemma {:induction false} ExpireAll(s: TS.State, keys: seq<Key>)
    ensures TS.Run(s, seq(|keys|, i requires 0 <= i < |keys| => TS.Expire(keys[i])))
            == s.(cache := s.cache - set key | key in keys)
  {
    var steps := seq(|keys|, i requires 0 <= i < |keys| => TS.Expire(keys[i]));
    if keys == [] {
      assert s.cache - (set key | key in keys) == s.cache;
    } else {
      var n := |keys| - 1;
      ExpireAll(s, keys[..n]);
      assert steps[..n] == seq(n, i requires 0 <= i < n => TS.Expire(keys[..n][i]));
      assert keys == keys[..n] + [keys[n]];
      assert s.cache - (set key | key in keys[..n]) - {keys[n]} == s.cache - set key | key in keys;
    }
  }
}
