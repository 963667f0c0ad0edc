/** A bounded window over the unbounded log of joined workers. */
module WorkerLedger {
  /** The last `n` entries of a log, or all of it. */
  function Window<K>(log: seq<K>, n: nat): seq<K> {
    if |log| <= n then log else log[|log| - n..]
  }

  /** What a ledger that forgets nothing answers when a worker is about to start. */
  predicate UnboundedAccepts<K(==)>(outstanding: set<K>, log: seq<K>, identity: K) {
    identity !in log && identity !in outstanding
  }

  ghost predicate Distinct<K>(s: seq<K>) {
    forall i, j | 0 <= i < j < |s| :: s[i] != s[j]
  }

  ghost predicate Remembers<K(!new)>(joined: set<K>, order: seq<K>) {
    forall k :: k in joined <==> k in order
  }

  class Ledger<K(==, !new)> {
    var outstanding: set<K>
    var joined: set<K>
    var joinedOrder: seq<K>
    const historyCapacity: nat
    ghost var forgotten: seq<K>

    /** Every join so far, in order. */
    ghost function Log(): seq<K>
      reads this
    {
      forgotten + joinedOrder
    }

    ghost predicate Consistent()
      reads this
    {
      Remembers(joined, joinedOrder) && Distinct(joinedOrder) && outstanding !! joined
    }

    /** The kept history is the window of the log, without repetition. */
    ghost predicate Valid()
      reads this
    {
      Consistent() && |joinedOrder| <= historyCapacity && (forgotten != [] ==> |joinedOrder| == historyCapacity)
    }

    constructor (capacity: nat)
      ensures Valid() && outstanding == {} && Log() == [] && historyCapacity == capacity
    {
      outstanding, joined, joinedOrder, historyCapacity, forgotten := {}, {}, [], capacity, [];
    }

    lemma KeptIsWindow()
      requires Valid()
      ensures joinedOrder == Window(Log(), historyCapacity)
    {
    }

    /**
     A start is refused exactly for an outstanding identity or one still in the window, so the
     answer differs from the unbounded ledger's only for an identity the window has forgotten.
     */
    method NoteStarted(identity: K) returns (ok: bool)
      requires Valid()
      modifies this`outstanding
      ensures Valid() && Log() == old(Log())
      ensures ok <==> identity !in old(outstanding) && identity !in Window(Log(), historyCapacity)
      ensures ok != UnboundedAccepts(old(outstanding), Log(), identity) <==>
                ok && identity in Log() && identity !in Window(Log(), historyCapacity)
      ensures outstanding == if ok then old(outstanding) + {identity} else old(outstanding)
    {
      KeptIsWindow();
      ok := identity !in joined && identity !in outstanding;
      if ok { outstanding := outstanding + {identity}; }
    }

    method NoteJoined(identity: K) returns (ok: bool)
      requires Valid()
      modifies this
      ensures Valid()
      ensures ok <==> identity in old(outstanding)
      ensures outstanding == old(outstanding) - {identity}
      ensures Log() == if ok then old(Log()) + [identity] else old(Log())
      ensures joinedOrder == Window(Log(), historyCapacity)
    {
      KeptIsWindow();
      if identity !in outstanding { return false; }
      outstanding := outstanding - {identity};
      Remember(identity);
      KeptIsWindow();
      return true;
    }

    method Remember(identity: K)
      requires Valid() && identity !in joined && identity !in outstanding
      modifies this`joined, this`joinedOrder, this`forgotten
      ensures Valid() && Log() == old(Log()) + [identity]
    {
      assert (forgotten + joinedOrder) + [identity] == forgotten + (joinedOrder + [identity]);
      joined := joined + {identity};
      joinedOrder := joinedOrder + [identity];
      Evict();
    }

    /** Drops the oldest remembered identities until the capacity holds, and no more than that. */
    method Evict()
      requires Consistent() && (forgotten != [] ==> |joinedOrder| >= historyCapacity)
      modifies this`joined, this`joinedOrder, this`forgotten
      ensures Valid() && Log() == old(Log())
    {
      while |joinedOrder| > historyCapacity
        invariant Consistent() && (forgotten != [] ==> |joinedOrder| >= historyCapacity)
        invariant Log() == old(Log())
        decreases |joinedOrder|
      {
        var oldest := joinedOrder[0];
        PopForgetsExactly(joined, joinedOrder);
        assert (forgotten + [oldest]) + joinedOrder[1..] == forgotten + joinedOrder;
        forgotten := forgotten + [oldest];
        joinedOrder := joinedOrder[1..];
        joined := joined - {oldest};
      }
    }

    /** Every identity that is unfinished or still remembered; unfinished ones are never evicted. */
    function Expected(): (all: set<K>)
      reads this
      requires Valid()
      ensures forall k :: k in all <==> k in outstanding || k in joinedOrder
    {
      outstanding + joined
    }
  }

  lemma PopForgetsExactly<K(!new)>(joined: set<K>, s: seq<K>)
    requires s != [] && Distinct(s) && Remembers(joined, s)
    ensures Distinct(s[1..]) && Remembers(joined - {s[0]}, s[1..])
  {
    forall k | k in joined && k != s[0] ensures k in s[1..] {
      var i :| 0 <= i < |s| && s[i] == k;
      assert s[1..][i - 1] == k;
    }
  }
}
