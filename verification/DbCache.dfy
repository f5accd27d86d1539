/** zero/db/db_cache.h: MemoryDbCache, a map with a time to live. The clock is a parameter, in nanoseconds. */
module DbCache {
  import opened Options

  /** `expireAt` 0 means never. */
  datatype Item = Item(value: string, expireAt: int)

  type Store = map<string, Item>

  predicate Expired(item: Item, now: int) {
    item.expireAt > 0 && now > item.expireAt
  }

  function Lookup(data: Store, key: string, now: int): Option<string> {
    if key in data && !Expired(data[key], now) then Some(data[key].value) else None
  }

  function AfterGet(data: Store, key: string, now: int): Store {
    if key in data && Expired(data[key], now) then data - {key} else data
  }

  function ItemFor(value: string, ttl: int, now: int): Item {
    Item(value, if ttl > 0 then now + ttl * 1_000_000_000 else 0)
  }

  class MemoryDbCache {
    var data: Store

    constructor ()
      ensures data == map[]
    {
      data := map[];
    }

    method Get(key: string, now: int) returns (value: Option<string>)
      modifies this
      ensures value == Lookup(old(data), key, now)
      ensures data == AfterGet(old(data), key, now)
    {
      if key !in data {
        return None;
      }
      var item := data[key];
      if item.expireAt > 0 && now > item.expireAt {
        data := data - {key};
        return None;
      }
      value := Some(item.value);
    }

    method Set(key: string, value: string, ttl: int, now: int)
      modifies this
      ensures data == old(data)[key := ItemFor(value, ttl, now)]
    {
      var expireAt := 0;
      if ttl > 0 {
        expireAt := now + ttl * 1_000_000_000;
      }
      data := data[key := Item(value, expireAt)];
    }

    method Remove(key: string)
      modifies this
      ensures data == old(data) - {key}
    {
      data := data - {key};
    }
  }

  /** Any number of gets, at whatever times. */
  function AfterGets(data: Store, gets: seq<(string, int)>): Store
    decreases |gets|
  {
    if gets == [] then data else AfterGets(AfterGet(data, gets[0].0, gets[0].1), gets[1..])
  }

  lemma {:induction false} GetsOnlyDropExpired(data: Store, gets: seq<(string, int)>, key: string, now: int)
    requires forall i | 0 <= i < |gets| :: gets[i].1 <= now
    ensures Lookup(AfterGets(data, gets), key, now) == Lookup(data, key, now)
    decreases |gets|
  {
    if gets != [] {
      GetsOnlyDropExpired(AfterGet(data, gets[0].0, gets[0].1), gets[1..], key, now);
    }
  }

  /** After a set, and however many gets of whatever keys, the value is there exactly until its time to
      live is over; a time to live of 0 or less never ends. No other key is touched. */
  lemma SetThenGet(data: Store, key: string, value: string, ttl: int, at: nat, gets: seq<(string, int)>, now: int,
                   other: string)
    requires forall i | 0 <= i < |gets| :: gets[i].1 <= now
    ensures var after := AfterGets(data[key := ItemFor(value, ttl, at)], gets);
            && Lookup(after, key, now) == (if ttl <= 0 || now <= at + ttl * 1_000_000_000 then Some(value) else None)
            && (other != key ==> Lookup(after, other, now) == Lookup(data, other, now))
  {
    var stored := data[key := ItemFor(value, ttl, at)];
    GetsOnlyDropExpired(stored, gets, key, now);
    GetsOnlyDropExpired(stored, gets, other, now);
  }

  /** A get that finds nothing leaves nothing under its key, and one that finds something leaves it. */
  lemma GetErases(data: Store, key: string, now: int)
    ensures Lookup(data, key, now).None? ==> key !in AfterGet(data, key, now)
    ensures Lookup(data, key, now).Some? ==> AfterGet(data, key, now) == data
    ensures forall other <- data :: other != key ==> other in AfterGet(data, key, now) && AfterGet(data, key, now)[other] == data[other]
  {
  }
}
