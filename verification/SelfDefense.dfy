/** The protected-process cache: what each callback does when nothing interrupts it.

    The cache is the red-black tree itself. A guarded mutex is not recursive, so taking one asks that it be
    free, and taking the one over the cache also asks that the one over the directory list be free.
 */
module SelfDefense {
  import opened OrderedMap
  import RedBlackTree

  type Pid = nat
  type Path = string

  datatype Info = Info(path: Path, isProtected: bool)

  // An empty string has no storage and is a prefix of nothing.
  predicate PathProtected(dirs: seq<Path>, path: Path) {
    exists d :: d in dirs && d != "" && d <= path
  }

  // The directory is not empty and the path begins with it, element by element.
  predicate Inside(dir: Path, path: Path) {
    dir != "" && |dir| <= |path| && forall k :: 0 <= k < |dir| ==> dir[k] == path[k]
  }

  // A path is protected exactly when it lies inside one of the directories.
  lemma ProtectedMeans(dirs: seq<Path>, path: Path)
    ensures PathProtected(dirs, path) <==> exists i :: 0 <= i < |dirs| && Inside(dirs[i], path)
  {
    if PathProtected(dirs, path) {
      var d :| d in dirs && d != "" && d <= path;
      var i :| 0 <= i < |dirs| && dirs[i] == d;
      assert Inside(dirs[i], path);
    }
    if i :| 0 <= i < |dirs| && Inside(dirs[i], path) {
      assert dirs[i] in dirs && dirs[i] <= path;
    }
  }

  // Whatever comes after a protected directory is protected, and what is protected lies after one.
  lemma EverythingInside(dirs: seq<Path>, d: Path, rest: Path)
    requires d in dirs && d != ""
    ensures PathProtected(dirs, d + rest)
  {
    assert d <= d + rest;
  }

  lemma RememberedLookups(less: (Pid, Pid) -> bool, es: seq<Entry<Pid, Info>>, pid: Pid, info: Info)
    requires (forall a, b :: less(a, b) == (a < b)) && Sorted(less, es)
    ensures forall q :: Lookup(less, Inserted(less, es, pid, info), q) ==
                        if q == pid && Lookup(less, es, pid) == None then Some(info) else Lookup(less, es, q)
  {
    forall q
      ensures Lookup(less, Inserted(less, es, pid, info), q) ==
              if q == pid && Lookup(less, es, pid) == None then Some(info) else Lookup(less, es, q)
    {
      LookupInserted(less, es, pid, info, q);
    }
  }

  lemma ForgottenLookups(less: (Pid, Pid) -> bool, es: seq<Entry<Pid, Info>>, pid: Pid)
    requires (forall a, b :: less(a, b) == (a < b)) && Sorted(less, es)
    ensures forall q :: Lookup(less, Erased(less, es, pid), q) == if q == pid then None else Lookup(less, es, q)
  {
    forall q
      ensures Lookup(less, Erased(less, es, pid), q) == if q == pid then None else Lookup(less, es, q)
    {
      LookupErased(less, es, pid, q);
    }
  }

  class Guard {
    const dirs: seq<Path>
    const cache: RedBlackTree.Map<Pid, Info>
    var mapHeld: bool
    var dirHeld: bool

    ghost predicate Free()
      reads this, cache, cache.nil, cache.nodes
    {
      !mapHeld && !dirHeld && cache.Valid() && forall a, b :: cache.less(a, b) == (a < b)
    }

    ghost function Cached(pid: Pid): Option<Info>
      reads cache
    {
      Lookup(cache.less, cache.entries, pid)
    }

    constructor (dirs: seq<Path>)
      ensures Free() && this.dirs == dirs && forall q :: Cached(q) == None
    {
      this.dirs := dirs;
      mapHeld, dirHeld := false, false;
      cache := new RedBlackTree.Map((a: Pid, b: Pid) => a < b, 0, Info("", false));
    }

    method LockMap()
      requires !mapHeld && !dirHeld
      modifies this`mapHeld
      ensures mapHeld
    {
      mapHeld := true;
    }

    method UnlockMap()
      requires mapHeld
      modifies this`mapHeld
      ensures !mapHeld
    {
      mapHeld := false;
    }

    method IsInProtectedDirectory(path: Path) returns (r: bool)
      requires !dirHeld
      modifies this`dirHeld
      ensures !dirHeld && r == PathProtected(dirs, path)
      ensures r <==> exists i :: 0 <= i < |dirs| && Inside(dirs[i], path)
    {
      ProtectedMeans(dirs, path);
      dirHeld := true;
      r := false;
      var i := 0;
      while i < |dirs|
        invariant 0 <= i <= |dirs| && !r
        invariant forall k :: 0 <= k < i ==> !(dirs[k] != "" && dirs[k] <= path)
      {
        if dirs[i] != "" && dirs[i] <= path {
          assert dirs[i] in dirs;
          r := true;
          break;
        }
        i := i + 1;
      }
      dirHeld := false;
    }

    // Insert on the tree, as the cache sees it: an entry already there stays.
    method Remember(pid: Pid, info: Info)
      requires cache.Valid() && forall a, b :: cache.less(a, b) == (a < b)
      modifies cache, cache.nil, cache.nodes
      ensures cache.Valid()
      ensures forall q :: Cached(q) == if q == pid && old(Cached(pid)) == None then Some(info) else old(Cached(q))
    {
      cache.EntriesSorted();
      var _, _ := cache.Insert(pid, info);
      RememberedLookups(cache.less, old(cache.entries), pid, info);
    }

    method Forget(pid: Pid)
      requires cache.Valid() && forall a, b :: cache.less(a, b) == (a < b)
      modifies cache, cache.nil, cache.nodes
      ensures cache.Valid()
      ensures forall q :: Cached(q) == if q == pid then None else old(Cached(q))
    {
      cache.EntriesSorted();
      var _ := cache.Erase(pid);
      ForgottenLookups(cache.less, old(cache.entries), pid);
    }

    method Recall(pid: Pid) returns (r: Option<Info>)
      requires cache.Valid()
      ensures cache.Valid() && r == Cached(pid)
    {
      var it, _ := cache.Find(pid);
      if it == cache.nil {
        return None;
      }
      return Some(it.value);
    }

    method ParentProtected(parent: Pid) returns (r: bool)
      requires !mapHeld && !dirHeld && cache.Valid()
      modifies this`mapHeld
      ensures !mapHeld && cache.Valid() && r == (Cached(parent).Some? && Cached(parent).value.isProtected)
    {
      LockMap();
      var it := Recall(parent);
      r := false;
      if it.Some? {
        if it.value.isProtected {
          r := true;
        }
      }
      UnlockMap();
    }

    // The first half of a creation: whether the new process is to be protected.
    method Decide(parent: Pid, path: Path) returns (isProtected: bool)
      requires Free()
      modifies this`mapHeld, this`dirHeld
      ensures Free()
      ensures var found := Cached(parent);
              isProtected == (PathProtected(dirs, path) || (found.Some? && found.value.isProtected))
    {
      isProtected := IsInProtectedDirectory(path);
      if !isProtected {
        isProtected := ParentProtected(parent);
      }
    }

    // ProcessNotifyCallback for a creation; path is what the image-name lookup gave.
    method OnCreate(pid: Pid, parent: Pid, path: Path)
      requires Free()
      modifies this`mapHeld, this`dirHeld, cache, cache.nil, cache.nodes
      ensures Free()
      ensures var found := old(Cached(parent));
              var info := Info(path, PathProtected(dirs, path) || (found.Some? && found.value.isProtected));
              forall q :: Cached(q) == if q == pid && old(Cached(pid)) == None then Some(info) else old(Cached(q))
    {
      var isProtected := Decide(parent, path);
      LockMap();
      Remember(pid, Info(path, isProtected));
      UnlockMap();
    }

    // ProcessNotifyCallback for a termination.
    method OnTerminate(pid: Pid)
      requires Free()
      modifies this`mapHeld, cache, cache.nil, cache.nodes
      ensures Free()
      ensures forall q :: Cached(q) == if q == pid then None else old(Cached(q))
    {
      LockMap();
      Forget(pid);
      UnlockMap();
    }

    // The part of IsProtectedProcess for a pid that is not in the cache.
    method Learn(pid: Pid, image: Path) returns (r: bool)
      requires mapHeld && !dirHeld && cache.Valid() && forall a, b :: cache.less(a, b) == (a < b)
      modifies this`dirHeld, cache, cache.nil, cache.nodes
      ensures !dirHeld && cache.Valid() && r == PathProtected(dirs, image)
      ensures var info := Info(image, r);
              forall q :: Cached(q) == if q == pid && old(Cached(pid)) == None then Some(info) else old(Cached(q))
    {
      r := IsInProtectedDirectory(image);
      Remember(pid, Info(image, r));
    }

    // image is what the operating system would name as the path of pid. The mutex over the directory
    // list is taken while the one over the cache is held.
    method IsProtectedProcess(pid: Pid, image: Path) returns (r: bool)
      requires Free()
      modifies this`mapHeld, this`dirHeld, cache, cache.nil, cache.nodes
      ensures Free()
      ensures var path := if old(Cached(pid)).Some? then old(Cached(pid)).value.path else image;
              r == ((old(Cached(pid)).Some? && old(Cached(pid)).value.isProtected) || PathProtected(dirs, path))
      ensures var info := Info(image, r);
              forall q :: Cached(q) == if q == pid && old(Cached(pid)) == None then Some(info) else old(Cached(q))
    {
      LockMap();
      var it := Recall(pid);
      r := false;
      if it.Some? {
        r := it.value.isProtected;
        if !r {
          r := IsInProtectedDirectory(it.value.path);
        }
      } else {
        r := Learn(pid, image);
      }
      UnlockMap();
    }
  }
}
