/** entry_lock.go: a set of locked entries with all-or-nothing locking. */
module EntryLocks {
  import opened Common

  class EntryLock {
    var entryLocks: set<nat>

    constructor ()
      ensures entryLocks == {}
    {
      entryLocks := {};
    }

    /** Locks all the entries, or none of them when one is locked already. */
    method TryLock(locks: seq<nat>) returns (ok: bool)
      modifies this
      ensures ok <==> Elements(locks) !! old(entryLocks)
      ensures entryLocks == if ok then old(entryLocks) + Elements(locks) else old(entryLocks)
    {
      var i := 0;
      while i < |locks|
        invariant 0 <= i <= |locks| && entryLocks == old(entryLocks)
        invariant forall k :: 0 <= k < i ==> locks[k] !in entryLocks
      {
        if locks[i] in entryLocks {
          assert locks[i] in Elements(locks);
          return false;
        }
        i := i + 1;
      }
      i := 0;
      while i < |locks|
        invariant 0 <= i <= |locks| && entryLocks == old(entryLocks) + Elements(locks[..i])
      {
        assert locks[..i + 1] == locks[..i] + [locks[i]];
        entryLocks := entryLocks + {locks[i]};
        i := i + 1;
      }
      assert locks[..i] == locks;
      return true;
    }

    /** Unlocks all the entries; panics, before it unlocks any, when one is not locked. */
    method UnLock(locks: seq<nat>) returns (panicked: bool)
      modifies this
      ensures panicked <==> !(Elements(locks) <= old(entryLocks))
      ensures entryLocks == if panicked then old(entryLocks) else old(entryLocks) - Elements(locks)
    {
      var i := 0;
      while i < |locks|
        invariant 0 <= i <= |locks| && entryLocks == old(entryLocks)
        invariant forall k :: 0 <= k < i ==> locks[k] in entryLocks
      {
        if locks[i] !in entryLocks {
          assert locks[i] in Elements(locks);
          return true;
        }
        i := i + 1;
      }
      i := 0;
      while i < |locks|
        invariant 0 <= i <= |locks| && entryLocks == old(entryLocks) - Elements(locks[..i])
      {
        assert locks[..i + 1] == locks[..i] + [locks[i]];
        entryLocks := entryLocks - {locks[i]};
        i := i + 1;
      }
      assert locks[..i] == locks;
      return false;
    }
  }
}
