/** `LRUCache` of service/utils/cache.py (repeated in app.py): an ordered
    dictionary from key to (value, timestamp), least recently used first,
    bounded by `max_size` and with entries older than `ttl` seconds
    expiring. The clock is a parameter and times are whole ticks. */
module LruCache {

  import opened Options

  datatype Entry<V> = Entry(key: string, value: V, stamp: int)

  datatype Cache<V> = Cache(entries: seq<Entry<V>>, maxSize: int, ttl: int)

  function Keys<V>(es: seq<Entry<V>>): set<string> {
    set i | 0 <= i < |es| :: es[i].key
  }

  predicate UniqueKeys<V>(es: seq<Entry<V>>) {
    forall i, j :: 0 <= i < j < |es| ==> es[i].key != es[j].key
  }

  /** A cache as `__init__` makes it. */
  function Empty<V>(maxSize: int, ttl: int): (c: Cache<V>)
    ensures c.entries == [] && UniqueKeys(c.entries)
  {
    Cache([], maxSize, ttl)
  }

  /** `time.time() - timestamp > self.ttl`: an entry exactly `ttl` old is
      still valid. */
  predicate Expired<V>(e: Entry<V>, now: int, ttl: int) {
    now - e.stamp > ttl
  }

  /** The position of `key`. */
  function Find<V>(es: seq<Entry<V>>, key: string): (r: Option<nat>)
    ensures r.Some? ==> r.value < |es| && es[r.value].key == key
    ensures r.None? <==> key !in Keys(es)
  {
    if |es| == 0 then None
    else if es[|es| - 1].key == key then Some(|es| - 1)
    else
      var r := Find(es[..|es| - 1], key);
      assert forall i :: 0 <= i < |es| - 1 ==> es[..|es| - 1][i] == es[i];
      assert Keys(es) == Keys(es[..|es| - 1]) + {es[|es| - 1].key};
      r
  }

  /** The entries other than `key`'s, in order: the reference the
      operations are checked against. */
  function Without<V>(es: seq<Entry<V>>, key: string): (r: seq<Entry<V>>)
    ensures key !in Keys(r) && Keys(r) == Keys(es) - {key}
  {
    if |es| == 0 then []
    else
      var rest := Without(es[1..], key);
      assert Keys(es) == {es[0].key} + Keys(es[1..]);
      if es[0].key == key then rest
      else
        KeysCons(es[0], rest);
        [es[0]] + rest
  }

  lemma KeysCons<V>(e: Entry<V>, rest: seq<Entry<V>>)
    ensures Keys([e] + rest) == {e.key} + Keys(rest)
  {
    var s := [e] + rest;
    forall k | k in Keys(s) ensures k in {e.key} + Keys(rest) {
      var i :| 0 <= i < |s| && s[i].key == k;
      if i > 0 {
        assert s[i] == rest[i - 1];
      }
    }
    forall k | k in Keys(rest) ensures k in Keys(s) {
      var i :| 0 <= i < |rest| && rest[i].key == k;
      assert s[i + 1] == rest[i];
    }
    assert s[0] == e;
  }

  lemma {:induction false} WithoutAbsent<V>(es: seq<Entry<V>>, key: string)
    requires key !in Keys(es)
    ensures Without(es, key) == es
    decreases |es|
  {
    if |es| > 0 {
      assert Keys(es) == {es[0].key} + Keys(es[1..]);
      WithoutAbsent(es[1..], key);
    }
  }

  lemma {:induction false} WithoutAt<V>(es: seq<Entry<V>>, i: nat)
    requires UniqueKeys(es) && i < |es|
    ensures Without(es, es[i].key) == es[..i] + es[i + 1..]
    decreases |es|
  {
    var key := es[i].key;
    if i == 0 {
      assert key !in Keys(es[1..]);
      WithoutAbsent(es[1..], key);
    } else {
      assert es[1..][i - 1] == es[i];
      WithoutAt(es[1..], i - 1);
      assert es[1..][..i - 1] + es[1..][i..] == es[1..i] + es[i + 1..];
      assert es[..i] + es[i + 1..] == [es[0]] + (es[1..i] + es[i + 1..]);
    }
  }

  lemma UniqueRemove<V>(es: seq<Entry<V>>, i: nat)
    requires UniqueKeys(es) && i < |es|
    ensures UniqueKeys(es[..i] + es[i + 1..])
  {
    var r := es[..i] + es[i + 1..];
    forall a, b | 0 <= a < b < |r| ensures r[a].key != r[b].key {
      var a' := if a < i then a else a + 1;
      var b' := if b < i then b else b + 1;
      assert r[a] == es[a'] && r[b] == es[b'];
    }
  }

  lemma UniqueAppend<V>(es: seq<Entry<V>>, e: Entry<V>)
    requires UniqueKeys(es) && e.key !in Keys(es)
    ensures UniqueKeys(es + [e])
  {
    var r := es + [e];
    forall a, b | 0 <= a < b < |r| ensures r[a].key != r[b].key {
      if b == |es| {
        assert r[a].key in Keys(es);
      }
    }
  }

  lemma UniqueDropFirst<V>(es: seq<Entry<V>>)
    requires UniqueKeys(es) && |es| > 0
    ensures UniqueKeys(es[1..])
  {
    var r := es[1..];
    forall a, b | 0 <= a < b < |r| ensures r[a].key != r[b].key {
      assert r[a] == es[a + 1] && r[b] == es[b + 1];
    }
  }

  // ----------------------------------------------------------------- get

  /** `get(key)` at time `now`: the new cache and the value found. */
  function Get<V>(c: Cache<V>, key: string, now: int): (r: (Cache<V>, Option<V>))
    requires UniqueKeys(c.entries)
    ensures r.0.maxSize == c.maxSize && r.0.ttl == c.ttl && UniqueKeys(r.0.entries)
    ensures key !in Keys(c.entries) ==> r == (c, None)
  {
    match Find(c.entries, key)
    case None => (c, None)
    case Some(i) =>
      var e := c.entries[i];
      var rest := c.entries[..i] + c.entries[i + 1..];
      UniqueRemove(c.entries, i);
      WithoutAt(c.entries, i);
      if Expired(e, now, c.ttl) then (c.(entries := rest), None)
      else
        UniqueAppend(rest, e);
        (c.(entries := rest + [e]), Some(e.value))
  }

  /** A live entry is returned and becomes the most recently used; an
      expired one is deleted and reported missing. */
  lemma GetPresent<V>(c: Cache<V>, i: nat, now: int)
    requires UniqueKeys(c.entries) && i < |c.entries|
    ensures var e := c.entries[i];
            var r := Get(c, e.key, now);
            && (!Expired(e, now, c.ttl) ==> r.1 == Some(e.value) && r.0.entries == Without(c.entries, e.key) + [e])
            && (Expired(e, now, c.ttl) ==> r.1 == None && r.0.entries == Without(c.entries, e.key))
  {
    var key := c.entries[i].key;
    var j := Find(c.entries, key).value;
    assert j == i;
    WithoutAt(c.entries, i);
  }

  /** The TTL boundary: an entry exactly `ttl` old is still served. */
  lemma GetAtTtl<V>(c: Cache<V>, i: nat)
    requires UniqueKeys(c.entries) && i < |c.entries|
    ensures Get(c, c.entries[i].key, c.entries[i].stamp + c.ttl).1 == Some(c.entries[i].value)
  {
    GetPresent(c, i, c.entries[i].stamp + c.ttl);
  }

  // ----------------------------------------------------------------- set

  /** The entries with `key`'s taken out of its place. */
  function Unlink<V>(es: seq<Entry<V>>, key: string): (r: seq<Entry<V>>)
    requires UniqueKeys(es)
    ensures r == Without(es, key) && UniqueKeys(r)
  {
    match Find(es, key)
    case Some(i) =>
      UniqueRemove(es, i);
      WithoutAt(es, i);
      es[..i] + es[i + 1..]
    case None =>
      WithoutAbsent(es, key);
      es
  }

  /** `set(key, value)` at time `now`. */
  function Set<V>(c: Cache<V>, key: string, value: V, now: int): (r: Cache<V>)
    requires UniqueKeys(c.entries)
    ensures r.maxSize == c.maxSize && r.ttl == c.ttl && UniqueKeys(r.entries)
  {
    var e := Entry(key, value, now);
    var moved := Unlink(c.entries, key);
    UniqueAppend(moved, e);
    var grown := moved + [e];
    if |grown| > c.maxSize then
      UniqueDropFirst(grown);
      c.(entries := grown[1..])
    else c.(entries := grown)
  }

  /** Within the bound, setting a key makes it the most recent entry with
      the new value and time; every other entry stays, in order. */
  lemma SetWithin<V>(c: Cache<V>, key: string, value: V, now: int)
    requires UniqueKeys(c.entries)
    requires |Without(c.entries, key)| < c.maxSize
    ensures Set(c, key, value, now).entries == Without(c.entries, key) + [Entry(key, value, now)]
  {
  }

  /** A new key set into a full cache evicts the least recently used entry. */
  lemma SetEvicts<V>(c: Cache<V>, key: string, value: V, now: int)
    requires UniqueKeys(c.entries) && key !in Keys(c.entries)
    requires |c.entries| == c.maxSize >= 1
    ensures Set(c, key, value, now).entries == c.entries[1..] + [Entry(key, value, now)]
  {
    WithoutAbsent(c.entries, key);
  }

  /** Setting a key that is already present never changes the size of a
      cache within its bound. */
  lemma SetExistingKeepsSize<V>(c: Cache<V>, key: string, value: V, now: int)
    requires UniqueKeys(c.entries) && key in Keys(c.entries) && |c.entries| <= c.maxSize
    ensures |Set(c, key, value, now).entries| == |c.entries|
  {
    var i := Find(c.entries, key).value;
    WithoutAt(c.entries, i);
  }

  /** The bound holds after every `set` once it holds. */
  lemma SetBounded<V>(c: Cache<V>, key: string, value: V, now: int)
    requires UniqueKeys(c.entries) && |c.entries| <= c.maxSize
    ensures |Set(c, key, value, now).entries| <= c.maxSize
  {
    match Find(c.entries, key)
    case Some(i) => WithoutAt(c.entries, i);
    case None => WithoutAbsent(c.entries, key);
  }

  /** What was just set is read back until it expires. */
  lemma SetThenGet<V>(c: Cache<V>, key: string, value: V, now: int, later: int)
    requires UniqueKeys(c.entries) && c.maxSize >= 1 && later - now <= c.ttl
    ensures Get(Set(c, key, value, now), key, later).1 == Some(value)
  {
    var r := Set(c, key, value, now);
    var i := |r.entries| - 1;
    assert r.entries[i] == Entry(key, value, now);
    GetPresent(r, i, later);
  }

  // -------------------------------------------------------- clear_expired

  /** The entries that have not expired, in order. */
  function Live<V>(es: seq<Entry<V>>, now: int, ttl: int): (r: seq<Entry<V>>)
    ensures |r| <= |es|
    ensures forall i :: 0 <= i < |r| ==> !Expired(r[i], now, ttl)
  {
    if |es| == 0 then []
    else
      var rest := Live(es[1..], now, ttl);
      if Expired(es[0], now, ttl) then rest else [es[0]] + rest
  }

  function CountExpired<V>(es: seq<Entry<V>>, now: int, ttl: int): nat {
    if |es| == 0 then 0 else (if Expired(es[0], now, ttl) then 1 else 0) + CountExpired(es[1..], now, ttl)
  }

  /** `clear_expired()`: the cache without its expired entries, and how
      many went. */
  function ClearExpired<V>(c: Cache<V>, now: int): (r: (Cache<V>, nat))
    ensures r.0.maxSize == c.maxSize && r.0.ttl == c.ttl
    ensures |r.0.entries| + r.1 == |c.entries|
    ensures forall i :: 0 <= i < |r.0.entries| ==> !Expired(r.0.entries[i], now, c.ttl)
  {
    LiveCount(c.entries, now, c.ttl);
    (c.(entries := Live(c.entries, now, c.ttl)), CountExpired(c.entries, now, c.ttl))
  }

  lemma {:induction false} LiveCount<V>(es: seq<Entry<V>>, now: int, ttl: int)
    ensures |Live(es, now, ttl)| + CountExpired(es, now, ttl) == |es|
    decreases |es|
  {
    if |es| > 0 {
      LiveCount(es[1..], now, ttl);
    }
  }

  /** Every entry that has not expired survives. */
  lemma {:induction false} LiveKeeps<V>(es: seq<Entry<V>>, now: int, ttl: int, i: nat)
    requires i < |es| && !Expired(es[i], now, ttl)
    ensures es[i] in Live(es, now, ttl)
    decreases |es|
  {
    if i > 0 {
      assert es[1..][i - 1] == es[i];
      LiveKeeps(es[1..], now, ttl, i - 1);
    }
  }

  /** Survivors keep their relative order: the result is a subsequence. */
  predicate SubsequenceOf<T(==)>(a: seq<T>, b: seq<T>)
    decreases |b|
  {
    if |a| == 0 then true
    else if |b| == 0 then false
    else if a[0] == b[0] then SubsequenceOf(a[1..], b[1..])
    else SubsequenceOf(a, b[1..])
  }

  lemma {:induction false} LiveInOrder<V>(es: seq<Entry<V>>, now: int, ttl: int)
    ensures SubsequenceOf(Live(es, now, ttl), es)
    decreases |es|
  {
    if |es| > 0 {
      LiveInOrder(es[1..], now, ttl);
      var rest := Live(es[1..], now, ttl);
      if Expired(es[0], now, ttl) {
        SkipHead(rest, es);
      } else {
        assert ([es[0]] + rest)[1..] == rest;
      }
    }
  }

  lemma SkipHead<T>(a: seq<T>, b: seq<T>)
    requires |b| > 0 && SubsequenceOf(a, b[1..])
    ensures SubsequenceOf(a, b)
    decreases |a| + |b|, 1
  {
    if |a| > 0 && a[0] == b[0] {
      SubsequenceDropHead(a, b[1..]);
    }
  }

  lemma SubsequenceDropHead<T>(a: seq<T>, b: seq<T>)
    requires |a| > 0 && SubsequenceOf(a, b)
    ensures SubsequenceOf(a[1..], b)
    decreases |a| + |b|, 0
  {
    if |b| > 0 {
      if a[0] == b[0] {
        if |a[1..]| > 0 {
          SkipHead(a[1..], b);
        }
      } else {
        SubsequenceDropHead(a, b[1..]);
        if |a[1..]| > 0 {
          SkipHead(a[1..], b);
        }
      }
    }
  }

  /** `size()`. */
  function Size<V>(c: Cache<V>): (n: nat)
    ensures n == |Keys(c.entries)| || !UniqueKeys(c.entries)
  {
    UniqueKeysCount(c.entries);
    |c.entries|
  }

  lemma {:induction false} UniqueKeysCount<V>(es: seq<Entry<V>>)
    ensures UniqueKeys(es) ==> |Keys(es)| == |es|
    decreases |es|
  {
    if |es| > 0 && UniqueKeys(es) {
      var init := es[..|es| - 1];
      assert forall i :: 0 <= i < |init| ==> init[i] == es[i];
      UniqueKeysCount(init);
      assert Keys(es) == Keys(init) + {es[|es| - 1].key};
      assert es[|es| - 1].key !in Keys(init);
    }
  }
}
