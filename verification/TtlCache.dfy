/** The in-memory cache whose entries expire. Clock readings are integers; each operation reads the
    clock once. */
module TtlCache {
  import opened Wrappers

  datatype Entry<V> = Entry(value: V, expiresAt: int)

  predicate Expired<V>(e: Entry<V>, now: int) {
    now >= e.expiresAt
  }

  function Get<K, V>(entries: map<K, Entry<V>>, key: K, now: int): Option<V> {
    if key in entries && !Expired(entries[key], now) then Some(entries[key].value) else None
  }

  /** The entries that have not expired. */
  function Live<K, V>(entries: map<K, Entry<V>>, now: int): map<K, V> {
    map key | key in entries && !Expired(entries[key], now) :: entries[key].value
  }

  function CleanedUp<K, V>(entries: map<K, Entry<V>>, now: int): map<K, Entry<V>> {
    map key | key in entries && !Expired(entries[key], now) :: entries[key]
  }

  /** The visited pairs are the entries of a table, each once. */
  ghost predicate Visits<K(!new), V(!new)>(visited: seq<(K, V)>, m: map<K, V>) {
    && (forall i, j :: 0 <= i < j < |visited| ==> visited[i].0 != visited[j].0)
    && (forall i :: 0 <= i < |visited| ==> visited[i].0 in m && m[visited[i].0] == visited[i].1)
    && (forall k :: k in m ==> exists i :: 0 <= i < |visited| && visited[i].0 == k)
  }

  class Cache<K(==, !new), V(!new)> {
    const defaultTtl: int
    var entries: map<K, Entry<V>>

    constructor (ttl: int)
      ensures defaultTtl == ttl && entries == map[]
    {
      defaultTtl, entries := ttl, map[];
    }

    method PutFor(key: K, value: V, ttl: int, now: int)
      modifies this`entries
      ensures entries == old(entries)[key := Entry(value, now + ttl)]
    {
      entries := entries[key := Entry(value, now + ttl)];
    }

    method Put(key: K, value: V, now: int)
      modifies this`entries
      ensures entries == old(entries)[key := Entry(value, now + defaultTtl)]
    {
      PutFor(key, value, defaultTtl, now);
    }

    method Lookup(key: K, now: int) returns (value: Option<V>)
      ensures value == Get(entries, key, now)
    {
      if key !in entries {
        return None;
      }
      if now >= entries[key].expiresAt {
        return None;
      }
      return Some(entries[key].value);
    }

    method Contains(key: K, now: int) returns (found: bool)
      ensures found == Get(entries, key, now).Some?
    {
      found := key in entries && now < entries[key].expiresAt;
    }

    method Remove(key: K) returns (removed: bool)
      modifies this`entries
      ensures removed == (key in old(entries)) && entries == old(entries) - {key}
    {
      removed := key in entries;
      entries := entries - {key};
    }

    method Clear()
      modifies this`entries
      ensures entries == map[]
    {
      entries := map[];
    }

    method Cleanup(now: int) returns (removed: nat)
      modifies this`entries
      ensures entries == CleanedUp(old(entries), now)
      ensures removed == |old(entries)| - |entries|
    {
      removed := 0;
      ghost var before := entries;
      var left := entries.Keys;
      while left != {}
        invariant left <= entries.Keys <= before.Keys
        invariant forall k :: k in entries ==> entries[k] == before[k]
        invariant forall k :: k in before && k !in left ==> (k in entries <==> !Expired(before[k], now))
        invariant forall k :: k in left ==> k in entries
        invariant removed == |before| - |entries|
        decreases |left|
      {
        var key :| key in left;
        if now >= entries[key].expiresAt {
          entries := entries - {key};
          removed := removed + 1;
        }
        left := left - {key};
      }
    }

    /** The order of the visits is not determined. */
    method ForEach(now: int) returns (visited: seq<(K, V)>)
      ensures Visits(visited, Live(entries, now))
    {
      visited := [];
      var left := entries.Keys;
      ghost var live := Live(entries, now);
      while left != {}
        invariant left <= entries.Keys
        invariant forall i, j :: 0 <= i < j < |visited| ==> visited[i].0 != visited[j].0
        invariant forall i :: 0 <= i < |visited| ==>
                    visited[i].0 in live && live[visited[i].0] == visited[i].1 && visited[i].0 !in left
        invariant forall k :: k in live && k !in left ==> exists i :: 0 <= i < |visited| && visited[i].0 == k
        decreases |left|
      {
        var key :| key in left;
        ghost var before := visited;
        if now < entries[key].expiresAt {
          visited := visited + [(key, entries[key].value)];
          assert visited[|before|].0 == key;
        }
        assert forall i :: 0 <= i < |before| ==> visited[i] == before[i];
        left := left - {key};
      }
    }
  }

  // ----- runs -----

  datatype Step<K, V> =
    | Write(key: K, value: V, ttl: int, now: int)
    | Erase(key: K, now: int)
    | EraseAll(now: int)
    | Sweep(now: int)

  function After<K, V>(entries: map<K, Entry<V>>, step: Step<K, V>): map<K, Entry<V>> {
    match step
    case Write(key, value, ttl, now) => entries[key := Entry(value, now + ttl)]
    case Erase(key, _) => entries - {key}
    case EraseAll(_) => map[]
    case Sweep(now) => CleanedUp(entries, now)
  }

  function Run<K, V>(steps: seq<Step<K, V>>): map<K, Entry<V>> {
    if steps == [] then map[] else After(Run(steps[..|steps| - 1]), steps[|steps| - 1])
  }

  /** The clock never goes back, and reads at most `now` at the end. */
  predicate InOrder<K, V>(steps: seq<Step<K, V>>, now: int) {
    steps == [] || (steps[|steps| - 1].now <= now && InOrder(steps[..|steps| - 1], steps[|steps| - 1].now))
  }

  function Unswept<K, V>(steps: seq<Step<K, V>>): seq<Step<K, V>> {
    if steps == [] then []
    else
      var before, step := Unswept(steps[..|steps| - 1]), steps[|steps| - 1];
      if step.Sweep? then before else before + [step]
  }

  /** The last value written to a key and not erased since, with its time of expiry. */
  function LastWrite<K(==), V>(steps: seq<Step<K, V>>, key: K): Option<Entry<V>> {
    if steps == [] then None
    else
      var before := LastWrite(steps[..|steps| - 1], key);
      match steps[|steps| - 1]
      case Write(k, value, ttl, now) => if k == key then Some(Entry(value, now + ttl)) else before
      case Erase(k, _) => if k == key then None else before
      case EraseAll(_) => None
      case Sweep(_) => before
  }

  function Unexpired<V>(e: Option<Entry<V>>, now: int): Option<V> {
    if e.Some? && now < e.value.expiresAt then Some(e.value.value) else None
  }

  /** Over every run, swept or not, a key holds exactly its last write until that expires. */
  lemma {:induction false} GetIsLastWrite<K, V>(steps: seq<Step<K, V>>, key: K, now: int)
    requires InOrder(steps, now)
    ensures Get(Run(steps), key, now) == Unexpired(LastWrite(steps, key), now)
    ensures key in Run(steps) ==> LastWrite(steps, key) == Some(Run(steps)[key])
  {
    if steps != [] {
      var front, step := steps[..|steps| - 1], steps[|steps| - 1];
      GetIsLastWrite(front, key, step.now);
      hide InOrder;
    }
  }

  lemma {:induction false} LastWriteUnswept<K, V>(steps: seq<Step<K, V>>, key: K)
    ensures LastWrite(Unswept(steps), key) == LastWrite(steps, key)
  {
    if steps != [] {
      var front, step := steps[..|steps| - 1], steps[|steps| - 1];
      LastWriteUnswept(front, key);
      if !step.Sweep? {
        assert Unswept(steps)[..|Unswept(steps)| - 1] == Unswept(front);
      }
    }
  }

  lemma {:induction false} UnsweptInOrder<K, V>(steps: seq<Step<K, V>>, now: int)
    requires InOrder(steps, now)
    ensures InOrder(Unswept(steps), now)
  {
    if steps != [] {
      var front, step := steps[..|steps| - 1], steps[|steps| - 1];
      UnsweptInOrder(front, step.now);
      if step.Sweep? {
        InOrderLater(Unswept(front), step.now, now);
      } else {
        assert Unswept(steps)[..|Unswept(steps)| - 1] == Unswept(front);
      }
    }
  }

  lemma InOrderLater<K, V>(steps: seq<Step<K, V>>, now: int, later: int)
    requires InOrder(steps, now) && now <= later
    ensures InOrder(steps, later)
  {
  }

  /** Sweeping at any points of any run changes no answer: neither a lookup nor the entries visited. */
  lemma SweepsAreUnobservable<K(!new), V>(steps: seq<Step<K, V>>, now: int)
    requires InOrder(steps, now)
    ensures forall key :: Get(Run(steps), key, now) == Get(Run(Unswept(steps)), key, now)
    ensures Live(Run(steps), now) == Live(Run(Unswept(steps)), now)
  {
    hide Run, Unswept, InOrder, LastWrite;
    UnsweptInOrder(steps, now);
    forall key
      ensures Get(Run(steps), key, now) == Get(Run(Unswept(steps)), key, now)
    {
      GetIsLastWrite(steps, key, now);
      GetIsLastWrite(Unswept(steps), key, now);
      LastWriteUnswept(steps, key);
    }
    LiveIsGets(Run(steps), Run(Unswept(steps)), now);
  }

  lemma LiveIsGets<K(!new), V>(a: map<K, Entry<V>>, b: map<K, Entry<V>>, now: int)
    requires forall key :: Get(a, key, now) == Get(b, key, now)
    ensures Live(a, now) == Live(b, now)
  {
    forall key
      ensures key in Live(a, now) <==> key in Live(b, now)
      ensures key in Live(a, now) ==> Live(a, now)[key] == Live(b, now)[key]
    {
      assert Get(a, key, now) == Get(b, key, now);
    }
  }

  /** After a sweep exactly the keys whose last write has not expired are left. */
  lemma SweepLeavesLive<K, V>(steps: seq<Step<K, V>>, key: K, now: int)
    requires InOrder(steps, now)
    ensures var swept := Run(steps + [Sweep(now)]);
            && (key in swept <==> Unexpired(LastWrite(steps, key), now).Some?)
            && (key in swept ==> Some(swept[key]) == LastWrite(steps, key))
  {
    GetIsLastWrite(steps, key, now);
    hide Run, LastWrite, InOrder;
    assert Run(steps + [Sweep(now)]) == CleanedUp(Run(steps), now) by { SweepAppends(steps, now); }
  }

  lemma SweepAppends<K, V>(steps: seq<Step<K, V>>, now: int)
    ensures Run(steps + [Sweep(now)]) == CleanedUp(Run(steps), now)
  {
    assert (steps + [Sweep(now)])[..|steps|] == steps;
  }
}
