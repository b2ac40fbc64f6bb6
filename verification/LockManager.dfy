/**
 The file locks of one process. `foreign` is the set of resources that other
 processes hold while a call runs; a lock file that cannot be opened counts too.
 */
module LockManager {

  predicate Refused(resource: string, handles: set<string>, foreign: set<string>) {
    resource !in handles && resource in foreign
  }

  /** How many leading paths can be acquired. */
  function Acquirable(paths: seq<string>, handles: set<string>, foreign: set<string>): (k: nat)
    ensures k <= |paths|
    ensures forall i | 0 <= i < k :: !Refused(paths[i], handles, foreign)
    ensures k < |paths| ==> Refused(paths[k], handles, foreign)
  {
    if paths == [] || Refused(paths[0], handles, foreign) then 0 else 1 + Acquirable(paths[1..], handles, foreign)
  }

  function SetOf(paths: seq<string>): set<string> {
    set p <- paths
  }

  class SimpleLockManager {
    var fileHandles: set<string>

    constructor ()
      ensures fileHandles == {}
    {
      fileHandles := {};
    }

    method AcquireLock(resource: string, foreign: set<string>) returns (ok: bool)
      modifies this
      ensures ok == !Refused(resource, old(fileHandles), foreign)
      ensures fileHandles == if ok then old(fileHandles) + {resource} else old(fileHandles)
    {
      if resource in fileHandles {
        return true;
      }
      if resource in foreign {
        return false;
      }
      fileHandles := fileHandles + {resource};
      return true;
    }

    method ReleaseLock(resource: string)
      modifies this
      ensures fileHandles == old(fileHandles) - {resource}
    {
      if resource !in fileHandles {
        return;
      }
      fileHandles := fileHandles - {resource};
    }

    /** Whether the resource is locked, by this process or another. */
    method CheckLocked(resource: string, foreign: set<string>) returns (locked: bool)
      ensures locked == (resource in fileHandles + foreign)
    {
      if resource in fileHandles {
        return true;
      }
      return resource in foreign;
    }

    /**
     All paths or none. On a refusal every path before it is released, also one
     this process held before the call; when none was held, nothing changes.
     */
    method AcquireOperationLocks(paths: seq<string>, foreign: set<string>) returns (acquired: seq<string>)
      modifies this
      ensures var k := Acquirable(paths, old(fileHandles), foreign);
              && acquired == (if k == |paths| then paths else [])
              && fileHandles
                   == (if k == |paths| then old(fileHandles) + SetOf(paths) else old(fileHandles) - SetOf(paths[..k]))
      ensures acquired == [] && SetOf(paths) !! old(fileHandles) ==> fileHandles == old(fileHandles)
    {
      ghost var k := Acquirable(paths, fileHandles, foreign);
      acquired := [];
      var i := 0;
      while i < |paths|
        invariant 0 <= i <= k && acquired == paths[..i]
        invariant fileHandles == old(fileHandles) + SetOf(paths[..i])
      {
        var ok := AcquireLock(paths[i], foreign);
        if !ok {
          assert Refused(paths[i], old(fileHandles), foreign);
          ReleaseAll(acquired);
          return [];
        }
        assert paths[..i + 1] == paths[..i] + [paths[i]];
        acquired := acquired + [paths[i]];
        i := i + 1;
      }
      assert paths[..i] == paths;
    }

    /** The release loop, used on failure and after every callback. */
    method ReleaseAll(paths: seq<string>)
      modifies this
      ensures fileHandles == old(fileHandles) - SetOf(paths)
    {
      for i := 0 to |paths|
        invariant fileHandles == old(fileHandles) - SetOf(paths[..i])
      {
        assert paths[..i + 1] == paths[..i] + [paths[i]];
        ReleaseLock(paths[i]);
      }
      assert paths[..|paths|] == paths;
    }
  }
}
