/** The state that context preparations share, under its lock. */
module ContextProvider {
  datatype Scope = Scope(project: string, session: string, document: string)

  /** The fingerprint of a request: it covers the scope, so equal keys have equal scopes. */
  datatype Key = Key(scope: Scope, request: string)

  /** One prepared context; `owner` is the admission number of the preparation that produced it. */
  datatype Entry = Entry(key: Key, owner: nat, size: nat)

  const MAX_IN_FLIGHT := 2
  const MAX_ENTRIES := 8
  const MAX_CACHE_BYTES := 8 * 1024 * 1024

  /** `cancelled` holds the admission numbers whose cancellation flag is set. */
  datatype Shared = Shared(
    active: map<Scope, nat>, inFlight: nat, cache: seq<Entry>, cancelled: set<nat>, epoch: nat, sequence: nat)

  datatype Outcome = Superseded | Cancelled | Published

  function Bytes(cache: seq<Entry>): nat {
    if cache == [] then 0 else cache[0].size + Bytes(cache[1..])
  }

  predicate Room(cache: seq<Entry>, size: nat) {
    |cache| < MAX_ENTRIES && Bytes(cache) + size <= MAX_CACHE_BYTES
  }

  /** Entries for other keys, in order. */
  function Retain(cache: seq<Entry>, key: Key): (kept: seq<Entry>)
    ensures forall e :: e in kept <==> e in cache && e.key != key
    ensures |kept| <= |cache| && Bytes(kept) <= Bytes(cache)
  {
    if cache == [] then []
    else if cache[0].key == key then Retain(cache[1..], key)
    else [cache[0]] + Retain(cache[1..], key)
  }

  /** The oldest entries go first, and no more than needed. */
  function Evict(cache: seq<Entry>, size: nat): (kept: seq<Entry>)
    requires size <= MAX_CACHE_BYTES
    ensures Room(kept, size)
  {
    if Room(cache, size) then cache else Evict(cache[1..], size)
  }

  function CancelScope(s: Shared, scope: Scope): Shared {
    if scope in s.active then s.(cancelled := s.cancelled + {s.active[scope]}) else s
  }

  function CancelActive(s: Shared): Shared {
    s.(cancelled := s.cancelled + s.active.Values)
  }

  function Enter(s: Shared, scope: Scope, id: nat): (Shared, bool) {
    var superseding := CancelScope(s, scope);
    if superseding.inFlight >= MAX_IN_FLIGHT then (superseding, false)
    else (superseding.(inFlight := superseding.inFlight + 1, active := superseding.active[scope := id]), true)
  }

  function Release(s: Shared, scope: Scope, id: nat): Shared {
    s.(inFlight := if s.inFlight > 0 then s.inFlight - 1 else 0,
       active := if scope in s.active && s.active[scope] == id then s.active - {scope} else s.active)
  }

  function Publish(s: Shared, id: nat, key: Key, size: nat): (Shared, Outcome) {
    if key.scope !in s.active || s.active[key.scope] != id then (s, Superseded)
    else if id in s.cancelled then (s, Cancelled)
    else (s.(cache := Store(s.cache, Entry(key, id, size))), Published)
  }

  function Store(cache: seq<Entry>, entry: Entry): seq<Entry> {
    var others := Retain(cache, entry.key);
    if entry.size <= MAX_CACHE_BYTES then Evict(others, entry.size) + [entry] else others
  }

  ghost predicate DistinctKeys(cache: seq<Entry>) {
    forall i, j | 0 <= i < j < |cache| :: cache[i].key != cache[j].key
  }

  ghost predicate CacheSound(cache: seq<Entry>) {
    |cache| <= MAX_ENTRIES && Bytes(cache) <= MAX_CACHE_BYTES && DistinctKeys(cache)
  }

  lemma {:induction false} BytesAppend(cache: seq<Entry>, entry: Entry)
    ensures Bytes(cache + [entry]) == Bytes(cache) + entry.size
  {
    if cache == [] {
      assert cache + [entry] == [entry];
    } else {
      BytesAppend(cache[1..], entry);
      assert (cache + [entry])[1..] == cache[1..] + [entry];
    }
  }

  lemma DistinctJoin(front: seq<Entry>, back: seq<Entry>)
    requires DistinctKeys(front) && DistinctKeys(back)
    requires forall e, f | e in front && f in back :: e.key != f.key
    ensures DistinctKeys(front + back)
  {
    var all := front + back;
    forall i, j | 0 <= i < j < |all| ensures all[i].key != all[j].key {
      if i < |front| <= j { assert front[i] in front && back[j - |front|] in back; }
    }
  }

  lemma {:induction false} RetainKeepsDistinct(cache: seq<Entry>, key: Key)
    requires DistinctKeys(cache)
    ensures DistinctKeys(Retain(cache, key))
  {
    if cache != [] {
      RetainKeepsDistinct(cache[1..], key);
      if cache[0].key != key { DistinctJoin([cache[0]], Retain(cache[1..], key)); }
    }
  }

  /** Eviction drops the fewest oldest entries that make room for `size` more bytes. */
  lemma {:induction false} EvictsFewest(cache: seq<Entry>, size: nat) returns (dropped: nat)
    requires size <= MAX_CACHE_BYTES
    ensures dropped <= |cache| && Evict(cache, size) == cache[dropped..]
    ensures Room(cache[dropped..], size)
    ensures forall fewer | 0 <= fewer < dropped :: !Room(cache[fewer..], size)
  {
    if Room(cache, size) {
      dropped := 0;
    } else {
      assert cache != [];
      var more := EvictsFewest(cache[1..], size);
      dropped := more + 1;
      forall fewer | 0 <= fewer < dropped ensures !Room(cache[fewer..], size) {
        if fewer == 0 {
          assert cache[0..] == cache;
        } else {
          assert cache[1..][fewer - 1..] == cache[fewer..];
        }
      }
    }
  }

  /** The cache stays within both bounds, keeps one entry for a key, and holds the new one last. */
  lemma StoreIsSound(cache: seq<Entry>, entry: Entry)
    requires CacheSound(cache)
    ensures CacheSound(Store(cache, entry))
    ensures forall e | e in Store(cache, entry) :: e == entry || (e in cache && e.key != entry.key)
    ensures entry.size <= MAX_CACHE_BYTES ==> entry in Store(cache, entry)
  {
    var others := Retain(cache, entry.key);
    RetainKeepsDistinct(cache, entry.key);
    if entry.size <= MAX_CACHE_BYTES {
      var dropped := EvictsFewest(others, entry.size);
      var kept := others[dropped..];
      BytesAppend(kept, entry);
      assert forall e | e in kept :: e in others;
      DistinctJoin(kept, [entry]);
    }
  }

  /** The provider itself; every method is one section that holds the lock, or one atomic access. */
  class Provider {
    var active: map<Scope, nat>
    var inFlight: nat
    var cache: seq<Entry>
    var cancelled: set<nat>
    var epoch: nat
    var sequence: nat

    function View(): Shared
      reads this
    {
      Shared(active, inFlight, cache, cancelled, epoch, sequence)
    }

    constructor ()
      ensures View() == Shared(map[], 0, [], {}, 0, 0)
    {
      active, inFlight, cache, cancelled, epoch, sequence := map[], 0, [], {}, 0, 0;
    }

    method SetFlag(id: nat)
      modifies this
      ensures View() == old(View()).(cancelled := old(cancelled) + {id})
    {
      cancelled := cancelled + {id};
    }

    method CancelLocked(scope: Scope)
      modifies this
      ensures View() == CancelScope(old(View()), scope)
    {
      if scope in active { SetFlag(active[scope]); }
    }

    method CancelActiveLocked()
      modifies this
      ensures View() == CancelActive(old(View()))
    {
      var left := active.Keys;
      while left != {}
        invariant left <= active.Keys
        invariant View() == old(View()).(cancelled := cancelled)
        invariant forall id :: id in cancelled <==> id in old(cancelled) || exists s :: s in active && s !in left && active[s] == id
      {
        var scope :| scope in left;
        left := left - {scope};
        SetFlag(active[scope]);
      }
      assert cancelled == old(cancelled) + active.Values;
    }

    method EnterLocked(scope: Scope, id: nat) returns (admitted: bool)
      modifies this
      ensures (View(), admitted) == Enter(old(View()), scope, id)
    {
      CancelLocked(scope);
      if inFlight >= MAX_IN_FLIGHT { return false; }
      inFlight := inFlight + 1;
      active := active[scope := id];
      return true;
    }

    method ReleaseLocked(scope: Scope, id: nat)
      modifies this
      ensures View() == Release(old(View()), scope, id)
    {
      inFlight := if inFlight > 0 then inFlight - 1 else 0;
      if scope in active && active[scope] == id { active := active - {scope}; }
    }

    method PublishLocked(id: nat, key: Key, size: nat) returns (outcome: Outcome)
      modifies this
      ensures (View(), outcome) == Publish(old(View()), id, key, size)
    {
      if key.scope !in active || active[key.scope] != id { return Superseded; }
      if id in cancelled { return Cancelled; }
      cache := Retain(cache, key);
      if size <= MAX_CACHE_BYTES {
        ghost var target := Evict(cache, size);
        while !Room(cache, size)
          invariant View() == old(View()).(cache := cache)
          invariant Evict(cache, size) == target
          decreases |cache|
        {
          cache := cache[1..];
        }
        cache := cache + [Entry(key, id, size)];
      }
      return Published;
    }
  }
}
