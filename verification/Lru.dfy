/** The LRU cache with TTL: what it keeps of the plain map that never forgets, and what it may
    lose.  A ghost log of every operation says what was set and when each key was used. */
module Lru {
  import opened Text

  datatype Entry<V> = Entry(value: V, expiresAt: int)

  datatype Item<V> = Item(value: V, expiresAt: int, lastUsed: int)

  /** What happened, oldest first: values set, hits, keys deleted, the cache emptied. */
  datatype Op<V> =
    | Stored(key: string, entry: Entry<V>, at: int)
    | Hit(key: string, at: int)
    | Removed(key: string)
    | Emptied

  predicate IsUse<V>(op: Op<V>) {
    op.Stored? || op.Hit?
  }

  /** The map that only Set, Delete and Clear change. */
  function Plain<V>(log: seq<Op<V>>): map<string, Entry<V>> {
    if log == [] then map[]
    else
      var before := Plain(log[..|log| - 1]);
      match log[|log| - 1]
      case Stored(key, entry, _) => before[key := entry]
      case Hit(_, _) => before
      case Removed(key) => before - {key}
      case Emptied => map[]
  }

  /** When the key was last set or hit. */
  function LastUse<V>(log: seq<Op<V>>, key: string): Option<int> {
    if log == [] then None
    else
      var last := log[|log| - 1];
      if IsUse(last) && last.key == key then Some(last.at) else LastUse(log[..|log| - 1], key)
  }

  /** The keys set or hit at `t` or later. */
  function UsedSince<V>(log: seq<Op<V>>, t: int): set<string> {
    if log == [] then {}
    else
      var last := log[|log| - 1];
      if IsUse(last) && last.at >= t then UsedSince(log[..|log| - 1], t) + {last.key}
      else UsedSince(log[..|log| - 1], t)
  }

  predicate NeverUsed<V>(log: seq<Op<V>>, key: string) {
    forall i :: 0 <= i < |log| ==> IsUse(log[i]) ==> log[i].key != key
  }

  /** At least `n` other keys were set or hit no earlier than the last use of `key`. */
  ghost predicate Crowded<V>(log: seq<Op<V>>, key: string, n: nat) {
    var t := LastUse(log, key);
    t.Some? && |UsedSince(log, t.value) - {key}| >= n
  }

  lemma Grown<V>(log: seq<Op<V>>, op: Op<V>)
    ensures var log' := log + [op];
      log'[..|log'| - 1] == log && log'[|log'| - 1] == op
  {
  }

  lemma {:induction false} UsedSinceLastUse<V>(log: seq<Op<V>>, key: string, t: int)
    requires LastUse(log, key).Some? && LastUse(log, key).value >= t
    ensures key in UsedSince(log, t)
  {
    var last := log[|log| - 1];
    if !(IsUse(last) && last.key == key) {
      UsedSinceLastUse(log[..|log| - 1], key, t);
    }
  }

  lemma {:induction false} NeverUsedNotSet<V>(log: seq<Op<V>>, key: string)
    requires NeverUsed(log, key)
    ensures key !in Plain(log)
  {
    if log != [] {
      NeverUsedNotSet(log[..|log| - 1], key);
    }
  }

  /** Once crowded out, a key stays so until it is used again. */
  lemma StaysCrowded<V>(log: seq<Op<V>>, op: Op<V>, key: string, n: nat)
    requires Crowded(log, key, n) && !(IsUse(op) && op.key == key)
    ensures Crowded(log + [op], key, n)
  {
    Grown(log, op);
    var t := LastUse(log, key).value;
    SubsetSize(UsedSince(log, t) - {key}, UsedSince(log + [op], t) - {key});
  }

  /** Every remaining key was used no earlier than the victim, and so is the new one. */
  lemma VictimCrowded<V>(log: seq<Op<V>>, op: Op<V>, keys: set<string>, victim: string, n: nat)
    requires op.Stored? && op.key !in keys && victim in keys && |keys| >= n
    requires LastUse(log, victim).Some? && LastUse(log, victim).value <= op.at
    requires forall k :: k in keys ==> LastUse(log, k).Some? && LastUse(log, k).value >= LastUse(log, victim).value
    ensures Crowded(log + [op], victim, n)
  {
    Grown(log, op);
    var t := LastUse(log, victim).value;
    forall k | k in keys ensures k in UsedSince(log, t) {
      UsedSinceLastUse(log, k, t);
    }
    var others := keys - {victim} + {op.key};
    assert |keys - {victim}| == |keys| - 1;
    SubsetSize(others, UsedSince(log + [op], t) - {victim});
  }

  /** What a cached item says about the log. */
  ghost predicate Faithful<V>(log: seq<Op<V>>, key: string, item: Item<V>, clock: int) {
    && key in Plain(log) && Plain(log)[key] == Entry(item.value, item.expiresAt)
    && LastUse(log, key) == Some(item.lastUsed) && item.lastUsed <= clock
  }

  /** Why the plain map may have a key the cache does not: it has expired, or was crowded out. */
  ghost predicate Excused<V>(log: seq<Op<V>>, key: string, clock: int, n: nat)
    requires key in Plain(log)
  {
    Plain(log)[key].expiresAt < clock || Crowded(log, key, n)
  }

  ghost predicate Refines<V>(items: map<string, Item<V>>, log: seq<Op<V>>, clock: int, n: nat) {
    && (forall k :: k in items ==> Faithful(log, k, items[k], clock))
    && (forall k :: k in Plain(log) && k !in items ==> Excused(log, k, clock, n))
  }

  lemma RefinesLater<V>(items: map<string, Item<V>>, log: seq<Op<V>>, clock: int, now: int, n: nat)
    requires Refines(items, log, clock, n) && clock <= now
    ensures Refines(items, log, now, n)
  {
  }

  lemma RefinesDropped<V>(items: map<string, Item<V>>, log: seq<Op<V>>, now: int, n: nat, key: string)
    requires Refines(items, log, now, n) && key in items && items[key].expiresAt < now
    ensures Refines(items - {key}, log, now, n)
  {
  }

  lemma RefinesHit<V>(items: map<string, Item<V>>, log: seq<Op<V>>, now: int, n: nat, key: string)
    requires Refines(items, log, now, n) && key in items
    ensures Refines(items[key := items[key].(lastUsed := now)], log + [Hit(key, now)], now, n)
  {
    hide Crowded;
    var op := Hit(key, now);
    Grown(log, op);
    forall k | k in Plain(log) && k !in items && Crowded(log, k, n) ensures Crowded(log + [op], k, n) {
      StaysCrowded(log, op, k, n);
    }
  }

  lemma RefinesStored<V>(items: map<string, Item<V>>, log: seq<Op<V>>, now: int, n: nat, key: string, entry: Entry<V>)
    requires Refines(items, log, now, n)
    ensures Refines(items[key := Item(entry.value, entry.expiresAt, now)], log + [Stored(key, entry, now)], now, n)
  {
    hide Crowded;
    var op := Stored(key, entry, now);
    Grown(log, op);
    forall k | k in Plain(log) && k !in items && k != key && Crowded(log, k, n) ensures Crowded(log + [op], k, n) {
      StaysCrowded(log, op, k, n);
    }
  }

  /** A Set that evicts first. */
  lemma RefinesEvicting<V>(items: map<string, Item<V>>, log: seq<Op<V>>, now: int, n: nat, key: string,
      entry: Entry<V>, victim: string)
    requires Refines(items, log, now, n) && key !in items && LeastRecent(items, victim) && |items| >= n
    ensures Refines((items - {victim})[key := Item(entry.value, entry.expiresAt, now)],
      log + [Stored(key, entry, now)], now, n)
  {
    hide Crowded;
    var op := Stored(key, entry, now);
    Grown(log, op);
    assert |items.Keys| == |items|;
    VictimCrowded(log, op, items.Keys, victim, n);
    RefinesStored(items, log, now, n, key, entry);
  }

  lemma RefinesRemoved<V>(items: map<string, Item<V>>, log: seq<Op<V>>, now: int, n: nat, key: string)
    requires Refines(items, log, now, n)
    ensures Refines(items - {key}, log + [Removed(key)], now, n)
  {
    hide Crowded;
    var op := Removed(key);
    Grown(log, op);
    forall k | k in Plain(log) && k !in items && Crowded(log, k, n) ensures Crowded(log + [op], k, n) {
      StaysCrowded(log, op, k, n);
    }
  }

  /** What the last Set or Delete said is what a lookup may return: a hit is the plain map's
      live value, and a miss is excused. */
  ghost predicate Answers<V>(log: seq<Op<V>>, key: string, now: int, n: nat, answer: Option<V>) {
    if answer.Some? then key in Plain(log) && Plain(log)[key].value == answer.value && now <= Plain(log)[key].expiresAt
    else key in Plain(log) ==> Excused(log, key, now, n)
  }

  ghost predicate LeastRecent<V>(items: map<string, Item<V>>, victim: string) {
    victim in items && forall k :: k in items ==> items[k].lastUsed >= items[victim].lastUsed
  }

  /** Every other entry was used more recently. */
  ghost predicate OnlyOldest<V>(items: map<string, Item<V>>, victim: string) {
    victim in items && forall k :: k in items && k != victim ==> items[k].lastUsed > items[victim].lastUsed
  }

  /** Which entry goes is decided exactly when there is no tie. */
  lemma OneVictim<V>(items: map<string, Item<V>>, victim: string)
    requires LeastRecent(items, victim)
    ensures OnlyOldest(items, victim) <==> forall k :: LeastRecent(items, k) ==> k == victim
  {
    if !OnlyOldest(items, victim) {
      var k :| k in items && k != victim && items[k].lastUsed <= items[victim].lastUsed;
      assert LeastRecent(items, k);
    }
  }

  lemma VictimOf<V>(items: map<string, Item<V>>, victim: string)
    requires LeastRecent(items, victim)
    ensures OnlyOldest(items, "") ==> victim == ""
  {
  }

  class LRUCache<V(!new)> {
    const maxSize: nat
    const defaultTTL: nat
    var items: map<string, Item<V>>
    var hits: nat
    var misses: nat
    var evictions: nat
    ghost var log: seq<Op<V>>
    ghost var clock: int

    ghost predicate Valid()
      reads this
    {
      && maxSize > 0 && defaultTTL > 0
      && Refines(items, log, clock, maxSize)
      && (NeverUsed(log, "") ==> |items| <= maxSize)
    }

    constructor (maxSize: int, defaultTTL: int)
      ensures Valid() && items == map[] && log == [] && clock == 0
      ensures this.maxSize == (if maxSize <= 0 then 1000 else maxSize)
      ensures this.defaultTTL == (if defaultTTL <= 0 then 300_000_000_000 else defaultTTL)
    {
      this.maxSize := if maxSize <= 0 then 1000 else maxSize;
      this.defaultTTL := if defaultTTL <= 0 then 300_000_000_000 else defaultTTL;
      items, hits, misses, evictions := map[], 0, 0, 0;
      log, clock := [], 0;
    }

    method Get(key: string, now: int) returns (answer: Option<V>)
      requires Valid() && clock <= now
      modifies this
      ensures Valid() && clock == now
      ensures Answers(old(log), key, now, maxSize, answer)
      ensures log == if answer.Some? then old(log) + [Hit(key, now)] else old(log)
      ensures hits == old(hits) + (if answer.Some? then 1 else 0)
        && misses == old(misses) + (if answer.Some? then 0 else 1)
      ensures evictions == old(evictions)
    {
      hide Refines, NeverUsed, Plain, Excused;
      RefinesLater(items, log, clock, now, maxSize);
      clock := now;
      MissExcused(items, log, now, maxSize, key);
      if key !in items {
        misses := misses + 1;
        return None;
      }
      var item := items[key];
      if now > item.expiresAt {
        RefinesDropped(items, log, now, maxSize, key);
        MissExcused(items - {key}, log, now, maxSize, key);
        Smaller(items, key);
        items := items - {key};
        misses := misses + 1;
        return None;
      }
      RefinesHit(items, log, now, maxSize, key);
      NeverUsedGrows(log, Hit(key, now));
      Replaced(items, key, item.(lastUsed := now));
      items := items[key := item.(lastUsed := now)];
      hits := hits + 1;
      log := log + [Hit(key, now)];
      answer := Some(item.value);
    }

    /** The least recently used key; nothing is evicted when that is the empty key. */
    method EvictLRU() returns (victim: string)
      requires items != map[]
      modifies this`items, this`evictions
      ensures LeastRecent(old(items), victim)
      ensures items == if victim == "" then old(items) else old(items) - {victim}
      ensures evictions == if victim == "" then old(evictions) else old(evictions) + 1
    {
      var todo := items.Keys;
      var first := true;
      victim := "";
      var oldestTime := 0;
      assert exists k :: k in items by { assert items.Keys != {}; }
      while todo != {}
        invariant todo <= items.Keys
        invariant first ==> todo == items.Keys
        invariant !first ==> victim in items && oldestTime == items[victim].lastUsed
        invariant !first ==> forall k :: k in items && k !in todo ==> items[k].lastUsed >= oldestTime
        decreases |todo|
      {
        var key :| key in todo;
        if first || items[key].lastUsed < oldestTime {
          victim, oldestTime, first := key, items[key].lastUsed, false;
        }
        todo := todo - {key};
      }
      if victim != "" {
        items := items - {victim};
        evictions := evictions + 1;
      }
    }

    /** Set stores the value, after evicting the least recently used entry when the cache is
        full and the key is new.  `victim` names that entry. */
    method Set(key: string, value: V, ttl: int, now: int) returns (victim: Option<string>)
      requires Valid() && clock <= now
      modifies this
      ensures Valid() && clock == now && hits == old(hits) && misses == old(misses)
      ensures log == old(log) + [Stored(key, Entry(value, now + (if ttl <= 0 then defaultTTL else ttl)), now)]
      ensures victim.Some? <==> |old(items)| >= maxSize && key !in old(items)
      ensures victim.Some? ==> LeastRecent(old(items), victim.value)
      ensures var kept := if victim.Some? && victim.value != "" then old(items) - {victim.value} else old(items);
        items == kept[key := Item(value, now + (if ttl <= 0 then defaultTTL else ttl), now)]
      ensures |old(items)| <= maxSize ==> (|items| <= maxSize <==> victim != Some(""))
      ensures |old(items)| == maxSize && key !in old(items) && OnlyOldest(old(items), "") ==> |items| == maxSize + 1
      ensures |old(items)| < maxSize || (|old(items)| == maxSize && (key in old(items) || !LeastRecent(old(items), "")))
        ==> |items| <= maxSize
      ensures victim.Some? && victim.value != "" ==> Crowded(log, victim.value, maxSize)
    {
      hide Refines, NeverUsed, Crowded, LeastRecent, OnlyOldest;
      var expiresAt := now + (if ttl <= 0 then defaultTTL else ttl);
      ghost var entry := Entry(value, expiresAt);
      ghost var before := items;
      RefinesLater(items, log, clock, now, maxSize);
      clock := now;
      victim := None;
      NeverUsedGrows(log, Stored(key, entry, now));
      if |items| >= maxSize && key !in items {
        var evicted := EvictLRU();
        LeastRecentIsThere(before, evicted);
        VictimOf(before, evicted);
        victim := Some(evicted);
        if evicted != "" {
          RefinesEvicting(before, log, now, maxSize, key, entry, evicted);
          VictimOut(before, log, now, maxSize, key, entry, evicted);
          Smaller(before, evicted);
        } else {
          RefinesStored(items, log, now, maxSize, key, entry);
          EmptyKeyUsed(items, log, now, maxSize);
        }
      } else {
        RefinesStored(items, log, now, maxSize, key, entry);
      }
      Added(items, key, Item(value, expiresAt, now));
      items := items[key := Item(value, expiresAt, now)];
      log := log + [Stored(key, entry, now)];
    }

    method Delete(key: string)
      requires Valid()
      modifies this
      ensures Valid() && clock == old(clock) && items == old(items) - {key} && log == old(log) + [Removed(key)]
      ensures hits == old(hits) && misses == old(misses) && evictions == old(evictions)
    {
      RefinesRemoved(items, log, clock, maxSize, key);
      NeverUsedGrows(log, Removed(key));
      Smaller(items, key);
      items := items - {key};
      log := log + [Removed(key)];
    }

    method Clear()
      requires Valid()
      modifies this
      ensures Valid() && clock == old(clock) && items == map[] && log == old(log) + [Emptied]
      ensures hits == old(hits) && misses == old(misses) && evictions == old(evictions)
    {
      items := map[];
      Grown(log, Emptied);
      log := log + [Emptied];
    }

    /** Exactly the expired entries go. */
    method CleanExpired(now: int) returns (count: nat)
      requires Valid() && clock <= now
      modifies this
      ensures Valid() && clock == now && log == old(log)
      ensures items == map k | k in old(items) && old(items)[k].expiresAt >= now :: old(items)[k]
      ensures count == |old(items)| - |items|
      ensures hits == old(hits) && misses == old(misses) && evictions == old(evictions)
    {
      hide Refines, NeverUsed;
      RefinesLater(items, log, clock, now, maxSize);
      clock := now;
      ghost var before := items;
      var todo := items.Keys;
      count := 0;
      while todo != {}
        invariant Valid() && clock == now && log == old(log)
        invariant todo <= items.Keys <= before.Keys
        invariant forall k :: k in items ==> items[k] == before[k]
        invariant forall k :: k in before && k !in todo ==> (k in items <==> before[k].expiresAt >= now)
        invariant forall k :: k in todo ==> k in items
        invariant count == |before| - |items|
        invariant hits == old(hits) && misses == old(misses) && evictions == old(evictions)
        decreases |todo|
      {
        var key :| key in todo;
        todo := todo - {key};
        if now > items[key].expiresAt {
          RefinesDropped(items, log, now, maxSize, key);
          Smaller(items, key);
          items := items - {key};
          count := count + 1;
        }
      }
      var left := map k | k in before && before[k].expiresAt >= now :: before[k];
      assert items.Keys == left.Keys;
      assert items == left;
    }
  }

  /** What a lookup finds, or does not, read off the log. */
  lemma MissExcused<V>(items: map<string, Item<V>>, log: seq<Op<V>>, now: int, n: nat, key: string)
    requires Refines(items, log, now, n)
    ensures key in items ==> key in Plain(log) && Plain(log)[key] == Entry(items[key].value, items[key].expiresAt)
    ensures key !in items && key in Plain(log) ==> Excused(log, key, now, n)
  {
    if key in items {
      assert Faithful(log, key, items[key], now);
    }
  }

  lemma Smaller<T>(m: map<string, T>, key: string)
    ensures |m - {key}| == if key in m then |m| - 1 else |m|
  {
    assert (m - {key}).Keys == m.Keys - {key};
    assert |m.Keys| == |m| && |(m - {key}).Keys| == |m - {key}|;
  }

  lemma Added<T>(m: map<string, T>, key: string, t: T)
    ensures |m[key := t]| == if key in m then |m| else |m| + 1
  {
    assert m[key := t].Keys == m.Keys + {key};
    assert |m.Keys| == |m| && |m[key := t].Keys| == |m[key := t]|;
  }

  lemma Replaced<T>(m: map<string, T>, key: string, t: T)
    requires key in m
    ensures |m[key := t]| == |m|
  {
    Added(m, key, t);
  }

  lemma NeverUsedGrows<V>(log: seq<Op<V>>, op: Op<V>)
    ensures NeverUsed(log + [op], "") ==> NeverUsed(log, "") && (IsUse(op) ==> op.key != "")
  {
    Grown(log, op);
    if NeverUsed(log + [op], "") {
      forall i | 0 <= i < |log| && IsUse(log[i]) ensures log[i].key != "" {
        assert (log + [op])[i] == log[i];
      }
    }
  }

  lemma EmptyKeyUsed<V>(items: map<string, Item<V>>, log: seq<Op<V>>, now: int, n: nat)
    requires Refines(items, log, now, n) && "" in items
    ensures !NeverUsed(log, "")
  {
    if NeverUsed(log, "") {
      NeverUsedNotSet(log, "");
    }
    assert Faithful(log, "", items[""], now);
  }

  lemma LeastRecentIsThere<V>(items: map<string, Item<V>>, victim: string)
    requires LeastRecent(items, victim)
    ensures victim in items
  {
  }

  lemma VictimOut<V>(items: map<string, Item<V>>, log: seq<Op<V>>, now: int, n: nat, key: string,
      entry: Entry<V>, victim: string)
    requires Refines(items, log, now, n) && key !in items && LeastRecent(items, victim) && |items| >= n
    ensures Crowded(log + [Stored(key, entry, now)], victim, n)
  {
    hide Crowded;
    assert |items.Keys| == |items|;
    VictimCrowded(log, Stored(key, entry, now), items.Keys, victim, n);
  }

  /** One place, the empty key in it, and a second key: neither is evicted. */
  method EmptyKeyWitness() returns (c: LRUCache<int>)
    ensures c.Valid() && c.maxSize == 1 && |c.items| == 2
  {
    c := new LRUCache<int>(1, 1);
    var first := c.Set("", 0, 1, 0);
    Added(map[], "", Item(0, 1, 0));
    assert c.items == map["" := Item(0, 1, 0)];
    ghost var before := c.items;
    var second := c.Set("key", 0, 1, 0);
    assert second == Some("") by {
      assert second.Some? && second.value in before;
    }
    Added(before, "key", Item(0, 1, 0));
  }
}
