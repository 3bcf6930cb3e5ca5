/** The local cache with lazy expiry (services/cache_service.py).  Redis is never reached, because the
    settings have no redis_url and connect ends in its except branch. */
module CacheService {
  datatype Option<T> = None | Some(value: T)

  const DEFAULT_TTL := 3600
  const PREFIX := "config_manager:"

  /** The two dictionaries. */
  datatype Cache<V> = Cache(values: map<string, V>, expiry: map<string, real>)

  datatype Op<V> =
    | Get(key: string)
    | Exists(key: string)
    | Set(key: string, value: V, ttl: Option<int>)
    | Delete(key: string)
    | Clear

  datatype Call<V> = Call(at: real, op: Op<V>)

  function FullKey(key: string): string {
    PREFIX + key
  }

  /** `ttl or self._default_ttl`: zero counts as missing, a negative ttl does not. */
  function Lifetime(ttl: Option<int>): int {
    if ttl == None || ttl == Some(0) then DEFAULT_TTL else ttl.value
  }

  function Remove<V>(c: Cache<V>, k: string): Cache<V> {
    Cache(c.values - {k}, c.expiry - {k})
  }

  /** get and exists look the key up and drop it when it has expired. */
  function Lookup<V>(c: Cache<V>, k: string, at: real): Option<V> {
    if k in c.values && k in c.expiry && c.expiry[k] > at then Some(c.values[k]) else None
  }

  function AfterLookup<V>(c: Cache<V>, k: string, at: real): Cache<V> {
    if k in c.values && Lookup(c, k, at) == None then Remove(c, k) else c
  }

  function Step<V>(c: Cache<V>, call: Call<V>): Cache<V> {
    match call.op
    case Get(key) => AfterLookup(c, FullKey(key), call.at)
    case Exists(key) => AfterLookup(c, FullKey(key), call.at)
    case Set(key, value, ttl) =>
      Cache(c.values[FullKey(key) := value], c.expiry[FullKey(key) := call.at + Lifetime(ttl) as real])
    case Delete(key) => if FullKey(key) in c.values then Remove(c, FullKey(key)) else c
    case Clear => Cache(map[], map[])
  }

  function Run<V>(calls: seq<Call<V>>): Cache<V> {
    if calls == [] then Cache(map[], map[]) else Step(Run(calls[..|calls| - 1]), calls[|calls| - 1])
  }

  // ---------------------------------------------------------------------------------------------
  // The service object
  // ---------------------------------------------------------------------------------------------

  class CacheService<V> {
    var localCache: map<string, V>
    var localCacheTtl: map<string, real>

    constructor ()
      ensures State() == Cache(map[], map[])
    {
      localCache, localCacheTtl := map[], map[];
    }

    function State(): Cache<V>
      reads this
    {
      Cache(localCache, localCacheTtl)
    }

    ghost predicate Valid()
      reads this
    {
      localCache.Keys == localCacheTtl.Keys
    }

    method Find(key: string, now: real) returns (found: Option<V>)
      requires Valid()
      modifies this
      ensures Valid() && found == Lookup(old(State()), FullKey(key), now)
      ensures State() == AfterLookup(old(State()), FullKey(key), now)
    {
      var k := FullKey(key);
      if k in localCache {
        if localCacheTtl[k] > now {
          return Some(localCache[k]);
        }
        localCache, localCacheTtl := localCache - {k}, localCacheTtl - {k};
      }
      found := None;
    }

    method Get(key: string, default: V, now: real) returns (value: V)
      requires Valid()
      modifies this
      ensures Valid() && State() == Step(old(State()), Call(now, Op.Get(key)))
      ensures value == match Lookup(old(State()), FullKey(key), now) case Some(v) => v case None => default
    {
      var found := Find(key, now);
      value := if found.Some? then found.value else default;
    }

    method Exists(key: string, now: real) returns (b: bool)
      requires Valid()
      modifies this
      ensures Valid() && State() == Step(old(State()), Call(now, Op.Exists(key)))
      ensures b <==> Lookup(old(State()), FullKey(key), now).Some?
    {
      var found := Find(key, now);
      b := found.Some?;
    }

    method Set(key: string, value: V, ttl: Option<int>, now: real)
      requires Valid()
      modifies this
      ensures Valid() && State() == Step(old(State()), Call(now, Op.Set(key, value, ttl)))
    {
      var k := FullKey(key);
      localCache := localCache[k := value];
      localCacheTtl := localCacheTtl[k := now + Lifetime(ttl) as real];
    }

    method Delete(key: string, now: real)
      requires Valid()
      modifies this
      ensures Valid() && State() == Step(old(State()), Call(now, Op.Delete(key)))
    {
      var k := FullKey(key);
      if k in localCache {
        localCache, localCacheTtl := localCache - {k}, localCacheTtl - {k};
      }
    }

    method Clear(now: real)
      modifies this
      ensures Valid() && State() == Step(old(State()), Call(now, Op.Clear))
    {
      localCache, localCacheTtl := map[], map[];
    }
  }

  // ---------------------------------------------------------------------------------------------
  // The timed history
  // ---------------------------------------------------------------------------------------------

  datatype Entry<V> = Entry(value: V, until: real)

  /** The last set of the key that no delete and no clear followed; reads do not matter. */
  function LastSet<V>(calls: seq<Call<V>>, key: string): Option<Entry<V>> {
    if calls == [] then None
    else
      var earlier := LastSet(calls[..|calls| - 1], key);
      var call := calls[|calls| - 1];
      match call.op
      case Get(_) => earlier
      case Exists(_) => earlier
      case Set(k, value, ttl) => if k == key then Some(Entry(value, call.at + Lifetime(ttl) as real)) else earlier
      case Delete(k) => if k == key then None else earlier
      case Clear => None
  }

  function Answer<V>(calls: seq<Call<V>>, key: string, at: real): Option<V> {
    match LastSet(calls, key)
    case None => None
    case Some(e) => if e.until > at then Some(e.value) else None
  }

  ghost predicate ClockForward<V>(calls: seq<Call<V>>) {
    forall i, j :: 0 <= i < j < |calls| ==> calls[i].at <= calls[j].at
  }

  lemma {:induction false} KeysAgree<V>(calls: seq<Call<V>>)
    ensures Run(calls).values.Keys == Run(calls).expiry.Keys
  {
    if calls != [] { KeysAgree(calls[..|calls| - 1]); }
  }

  lemma PrefixIsInjective(a: string, b: string)
    ensures FullKey(a) == FullKey(b) <==> a == b
  {
    assert FullKey(a)[|PREFIX|..] == a;
    assert FullKey(b)[|PREFIX|..] == b;
  }

  /** An entry that a lookup may have dropped has expired for good; all others are still there. */
  ghost predicate Mirrors<V>(c: Cache<V>, last: Option<Entry<V>>, k: string, now: real) {
    match last
    case None => k !in c.values
    case Some(e) =>
      || (k in c.values && k in c.expiry && c.values[k] == e.value && c.expiry[k] == e.until)
      || (k !in c.values && e.until <= now)
  }

  lemma {:induction false} HistoryIsMirrored<V>(calls: seq<Call<V>>, key: string, now: real)
    requires ClockForward(calls) && (calls == [] || calls[|calls| - 1].at <= now)
    ensures Mirrors(Run(calls), LastSet(calls, key), FullKey(key), now)
  {
    if calls != [] {
      var n := |calls| - 1;
      HistoryIsMirrored(calls[..n], key, calls[n].at);
      KeysAgree(calls[..n]);
      match calls[n].op {
        case Get(k) => PrefixIsInjective(k, key);
        case Exists(k) => PrefixIsInjective(k, key);
        case Set(k, _, _) => PrefixIsInjective(k, key);
        case Delete(k) => PrefixIsInjective(k, key);
        case Clear =>
      }
    }
  }

  /** The cache refines the timed history: at any later time a lookup answers with the last set that
      was not deleted, cleared or expired. */
  lemma LookupIsAnswer<V>(calls: seq<Call<V>>, key: string, now: real)
    requires ClockForward(calls) && (calls == [] || calls[|calls| - 1].at <= now)
    ensures Lookup(Run(calls), FullKey(key), now) == Answer(calls, key, now)
  {
    HistoryIsMirrored(calls, key, now);
  }

  predicate IsRead<V>(op: Op<V>) {
    op.Get? || op.Exists?
  }

  function Writes<V>(calls: seq<Call<V>>): seq<Call<V>> {
    if calls == [] then []
    else Writes(calls[..|calls| - 1]) + (if IsRead(calls[|calls| - 1].op) then [] else [calls[|calls| - 1]])
  }

  lemma {:induction false} WritesAnswer<V>(calls: seq<Call<V>>, key: string)
    ensures LastSet(Writes(calls), key) == LastSet(calls, key)
  {
    if calls != [] {
      var n := |calls| - 1;
      WritesAnswer(calls[..n], key);
      var before := Writes(calls[..n]);
      if IsRead(calls[n].op) {
        assert Writes(calls) == before;
      } else {
        assert Writes(calls) == before + [calls[n]];
        assert (before + [calls[n]])[..|before|] == before;
      }
    }
  }

  lemma {:induction false} WritesAreInOrder<V>(calls: seq<Call<V>>, now: real)
    requires ClockForward(calls) && (calls == [] || calls[|calls| - 1].at <= now)
    ensures ClockForward(Writes(calls))
    ensures forall i :: 0 <= i < |Writes(calls)| ==> Writes(calls)[i].at <= now
  {
    if calls != [] {
      var n := |calls| - 1;
      WritesAreInOrder(calls[..n], calls[n].at);
    }
  }

  /** Lazy deletion never shows: without all the reads, later lookups answer the same. */
  lemma ReadsLeaveNoTrace<V>(calls: seq<Call<V>>, key: string, now: real)
    requires ClockForward(calls) && (calls == [] || calls[|calls| - 1].at <= now)
    ensures Lookup(Run(calls), FullKey(key), now) == Lookup(Run(Writes(calls)), FullKey(key), now)
  {
    WritesAreInOrder(calls, now);
    WritesAnswer(calls, key);
    LookupIsAnswer(calls, key, now);
    LookupIsAnswer(Writes(calls), key, now);
  }
}
