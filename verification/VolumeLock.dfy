/** The set of keys with an ongoing operation (pkg/smb/volume_lock.go). The mutex makes each
    method one atomic action, which is how `StageProtocol` uses them. */
module VolumeLock {

  type Key = string

  class VolumeLocks {
    var locks: set<Key>

    constructor ()
      ensures locks == {}
    {
      locks := {};
    }

    /** Takes `key` exactly when nobody has it; a failed attempt changes nothing. */
    method TryAcquire(key: Key) returns (acquired: bool)
      modifies this
      ensures acquired <==> key !in old(locks)
      ensures locks == old(locks) + {key}
      ensures !acquired ==> locks == old(locks)
    {
      if key in locks {
        return false;
      }
      locks := locks + {key};
      return true;
    }

    /** Gives `key` back; releasing a key nobody has is a no-op. */
    method Release(key: Key)
      modifies this
      ensures locks == old(locks) - {key}
    {
      locks := locks - {key};
    }
  }
}
