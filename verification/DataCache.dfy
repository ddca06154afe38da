/**
 The in-process TTL and LRU cache. An ordered dictionary is the sequence of its entries, oldest first,
 with distinct keys.
 */
module DataCache {
  import opened Common

  datatype Entry<V> = Entry(key: string, data: V, stamp: real, ttl: real, hitCount: nat)

  datatype State<V> = State(items: seq<Entry<V>>, hits: nat, misses: nat)

  predicate Expired<V>(e: Entry<V>, now: real) {
    now - e.stamp > e.ttl
  }

  /** The place of a key, or the length when it is absent. */
  function Position<V>(items: seq<Entry<V>>, key: string): (p: nat)
    ensures p <= |items| && (p < |items| ==> items[p].key == key)
    ensures forall i :: 0 <= i < p ==> items[i].key != key
  {
    if items == [] then 0 else if items[0].key == key then 0 else 1 + Position(items[1..], key)
  }

  predicate Distinct<V>(items: seq<Entry<V>>) {
    forall i, j :: 0 <= i < j < |items| ==> items[i].key != items[j].key
  }

  function RemoveAt<V>(items: seq<Entry<V>>, i: nat): seq<Entry<V>>
    requires i < |items|
  {
    items[..i] + items[i + 1..]
  }

  // ---------------------------------------------------------------- the operations

  /** A cleanup reads the clock anew for each entry; `clock` says what it reads for the i-th. */
  datatype Op<V> =
    | Get(key: string) | Set(key: string, data: V, ttl: Option<real>) | Delete(key: string) | Clear
    | Cleanup(clock: nat -> real)

  datatype Config = Config(maxSize: int, defaultTtl: real)

  function AfterGet<V>(s: State<V>, key: string, now: real): State<V> {
    var p := Position(s.items, key);
    if p == |s.items| then s.(misses := s.misses + 1)
    else if Expired(s.items[p], now) then State(RemoveAt(s.items, p), s.hits, s.misses + 1)
    else State(RemoveAt(s.items, p) + [s.items[p].(hitCount := s.items[p].hitCount + 1)], s.hits + 1, s.misses)
  }

  function Lookup<V>(s: State<V>, key: string, now: real): Option<V> {
    var p := Position(s.items, key);
    if p == |s.items| || Expired(s.items[p], now) then None else Some(s.items[p].data)
  }

  /** What is left after evicting the oldest entries until there is room for one more. */
  function Evicted<V>(items: seq<Entry<V>>, maxSize: int): seq<Entry<V>> {
    if maxSize <= 0 then [] else if |items| >= maxSize then items[|items| - maxSize + 1..] else items
  }

  /** Overwriting keeps the place of a key; a new key goes to the end. */
  function Put<V>(items: seq<Entry<V>>, e: Entry<V>): seq<Entry<V>> {
    var p := Position(items, e.key);
    if p < |items| then items[p := e] else items + [e]
  }

  function NewEntry<V>(cfg: Config, key: string, data: V, ttl: Option<real>, now: real): Entry<V> {
    Entry(key, data, now, if ttl.Some? then ttl.value else cfg.defaultTtl, 0)
  }

  /** With a size limit below 1, evicting from the empty cache raises and nothing is stored. */
  function AfterSet<V>(cfg: Config, s: State<V>, key: string, data: V, ttl: Option<real>, now: real): State<V> {
    if cfg.maxSize <= 0 then s.(items := [])
    else s.(items := Put(Evicted(s.items, cfg.maxSize), NewEntry(cfg, key, data, ttl, now)))
  }

  function AfterDelete<V>(s: State<V>, key: string): State<V> {
    var p := Position(s.items, key);
    if p < |s.items| then s.(items := RemoveAt(s.items, p)) else s
  }

  function Unexpired<V>(items: seq<Entry<V>>, clock: nat -> real): seq<Entry<V>> {
    if items == [] then []
    else
      var front, e := items[..|items| - 1], items[|items| - 1];
      Unexpired(front, clock) + if Expired(e, clock(|front|)) then [] else [e]
  }

  function Apply<V>(cfg: Config, s: State<V>, op: Op<V>, now: real): State<V> {
    match op
    case Get(key) => AfterGet(s, key, now)
    case Set(key, data, ttl) => AfterSet(cfg, s, key, data, ttl, now)
    case Delete(key) => AfterDelete(s, key)
    case Clear => s.(items := [])
    case Cleanup(clock) => s.(items := Unexpired(s.items, clock))
  }

  class Cache<V> {
    const cfg: Config
    var items: seq<Entry<V>>
    var hits: nat
    var misses: nat

    function Contents(): State<V>
      reads this
    {
      State(items, hits, misses)
    }

    constructor (cfg: Config)
      ensures this.cfg == cfg && Contents() == State([], 0, 0)
    {
      this.cfg := cfg;
      items, hits, misses := [], 0, 0;
    }

    method Get(key: string, now: real) returns (data: Option<V>)
      modifies this
      ensures data == Lookup(old(Contents()), key, now)
      ensures Contents() == AfterGet(old(Contents()), key, now)
    {
      var p := Position(items, key);
      if p == |items| {
        misses := misses + 1;
        return None;
      }
      var entry := items[p];
      if Expired(entry, now) {
        items := RemoveAt(items, p);
        misses := misses + 1;
        return None;
      }
      items := RemoveAt(items, p) + [entry.(hitCount := entry.hitCount + 1)];
      hits := hits + 1;
      return Some(entry.data);
    }

    method Set(key: string, data: V, ttl: Option<real>, now: real) returns (raised: bool)
      modifies this
      ensures raised <==> cfg.maxSize <= 0
      ensures Contents() == AfterSet(cfg, old(Contents()), key, data, ttl, now)
    {
      while |items| >= cfg.maxSize
        invariant 0 <= |items| <= |old(items)| && items == old(items)[|old(items)| - |items|..]
        invariant cfg.maxSize >= 1 && |old(items)| >= cfg.maxSize ==> |items| >= cfg.maxSize - 1
        invariant cfg.maxSize >= 1 && |old(items)| < cfg.maxSize ==> |items| == |old(items)|
        invariant hits == old(hits) && misses == old(misses)
      {
        if items == [] {
          return true;
        }
        items := items[1..];
      }
      items := Put(items, NewEntry(cfg, key, data, ttl, now));
      return false;
    }

    method Delete(key: string) returns (found: bool)
      modifies this
      ensures found <==> exists i :: 0 <= i < |old(items)| && old(items)[i].key == key
      ensures Contents() == AfterDelete(old(Contents()), key)
    {
      var p := Position(items, key);
      found := p < |items|;
      if found {
        assert items[p].key == key;
        items := RemoveAt(items, p);
      }
    }

    method Clear() returns (count: nat)
      modifies this
      ensures count == |old(items)| && Contents() == old(Contents()).(items := [])
    {
      count := |items|;
      items := [];
    }

    method CleanupExpired(clock: nat -> real) returns (count: nat)
      modifies this
      ensures Contents() == old(Contents()).(items := Unexpired(old(items), clock))
      ensures count == |old(items)| - |items|
    {
      var kept: seq<Entry<V>> := [];
      var i := 0;
      while i < |items|
        invariant 0 <= i <= |items| && kept == Unexpired(items[..i], clock) && |kept| <= i
      {
        assert items[..i + 1][..i] == items[..i];
        if !Expired(items[i], clock(i)) {
          kept := kept + [items[i]];
        }
        i := i + 1;
      }
      assert items[..i] == items;
      count := |items| - |kept|;
      items := kept;
    }
  }
}
