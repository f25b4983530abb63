/** `reserveTopology`: names are reserved on a filesystem that aliases only equal names. */
module GitTopology {
  import opened Bytes
  import opened Sorting
  import opened GitTree
  import opened GitFlatten
  import opened GitClashes

  /** A path as its components. */
  type Path = seq<bytes>

  predicate ProperPrefix(p: Path, q: Path)
  {
    |p| < |q| && q[..|p|] == p
  }

  class FileSystem {
    var dirs: set<Path>
    var files: set<Path>

    /** An empty staging directory. */
    constructor ()
      ensures dirs == {[]} && files == {}
    {
      dirs, files := {[]}, {};
    }

    predicate Free(p: Path)
      reads this
    {
      p != [] && p[..|p| - 1] in dirs && p !in dirs && p !in files
    }

    method Mkdir(p: Path) returns (ok: bool)
      modifies this`dirs
      ensures ok <==> old(Free(p))
      ensures dirs == if ok then old(dirs) + {p} else old(dirs)
    {
      ok := p != [] && p[..|p| - 1] in dirs && p !in dirs && p !in files;
      if ok {
        dirs := dirs + {p};
      }
    }

    method CreateExclusive(p: Path) returns (ok: bool)
      modifies this`files
      ensures ok <==> old(Free(p))
      ensures files == if ok then old(files) + {p} else old(files)
    {
      ok := p != [] && p[..|p| - 1] in dirs && p !in dirs && p !in files;
      if ok {
        files := files + {p};
      }
    }
  }

  /** The directories of the first `depth` levels of `p`, without the root. */
  ghost predicate DirOf(d: Path, p: Path, depth: nat)
  {
    d != [] && ProperPrefix(d, p) && |d| < depth
  }

  /** What the reserved paths have made of the filesystem. */
  ghost predicate Reserved(dirs: set<Path>, files: set<Path>, paths: seq<Path>)
  {
    && (forall d :: d in dirs <==> d == [] || exists i :: 0 <= i < |paths| && DirOf(d, paths[i], |paths[i]|))
    && (forall f :: f in files <==> f in paths)
  }

  predicate Compatible(p: Path, q: Path)
  {
    p != q && !ProperPrefix(p, q) && !ProperPrefix(q, p)
  }

  /** The paths are distinct and none is a directory prefix of another. */
  predicate AllCompatible(paths: seq<Path>)
  {
    forall i, j :: 0 <= i < j < |paths| ==> Compatible(paths[i], paths[j])
  }

  lemma OneDeeper(components: Path, depth: nat, d: Path)
    requires 0 < depth < |components|
    ensures DirOf(d, components, depth + 1) <==> DirOf(d, components, depth) || d == components[..depth]
  {
  }

  /** The directories of one path, from the top. A directory made for an earlier path is skipped. */
  method ReserveDirectories(fs: FileSystem, components: Path, seen: set<Path>) returns (ok: bool, now: set<Path>)
    requires components != [] && [] in fs.dirs && seen == fs.dirs - {[]} && fs.dirs !! fs.files
    modifies fs`dirs
    ensures ok <==> forall f <- fs.files :: !DirOf(f, components, |components|)
    ensures ok ==> now == fs.dirs - {[]} && fs.dirs !! fs.files
    ensures ok ==> forall d :: d in fs.dirs <==> d in old(fs.dirs) || DirOf(d, components, |components|)
  {
    now := seen;
    for depth := 1 to |components|
      modifies fs`dirs
      invariant now == fs.dirs - {[]} && fs.dirs !! fs.files && [] in fs.dirs
      invariant forall d :: d in fs.dirs <==> d in old(fs.dirs) || DirOf(d, components, depth)
      invariant forall f <- fs.files :: !DirOf(f, components, depth)
    {
      var logical := components[..depth];
      assert logical[..depth - 1] == components[..depth - 1];
      assert depth > 1 ==> DirOf(components[..depth - 1], components, depth);
      forall d ensures DirOf(d, components, depth + 1) <==> DirOf(d, components, depth) || d == logical {
        OneDeeper(components, depth, d);
      }
      if logical !in now {
        ok := fs.Mkdir(logical);
        if !ok {
          assert DirOf(logical, components, |components|);
          return false, now;
        }
        now := now + {logical};
      }
    }
    return true, now;
  }

  /** Reserving one more path. */
  lemma ReservedMore(dirs: set<Path>, files: set<Path>, paths: seq<Path>, p: Path, moreDirs: set<Path>)
    requires Reserved(dirs, files, paths) && p != []
    requires forall d :: d in moreDirs <==> d in dirs || DirOf(d, p, |p|)
    ensures Reserved(moreDirs, files + {p}, paths + [p])
  {
    var all := paths + [p];
    forall d ensures d in moreDirs <==> d == [] || exists i :: 0 <= i < |all| && DirOf(d, all[i], |all[i]|) {
      if DirOf(d, p, |p|) {
        assert DirOf(d, all[|paths|], |all[|paths|]|);
      }
      if d in dirs && d != [] {
        var i :| 0 <= i < |paths| && DirOf(d, paths[i], |paths[i]|);
        assert DirOf(d, all[i], |all[i]|);
      }
    }
  }

  /** A path still has room exactly when it is compatible with all reserved ones. */
  lemma RoomExactly(dirs: set<Path>, files: set<Path>, paths: seq<Path>, p: Path, moreDirs: set<Path>)
    requires Reserved(dirs, files, paths) && p != [] && forall q <- paths :: q != []
    requires forall d :: d in moreDirs <==> d in dirs || DirOf(d, p, |p|)
    ensures p[..|p| - 1] in moreDirs
    ensures (forall f <- files :: !DirOf(f, p, |p|)) && p !in moreDirs && p !in files
            <==> forall j :: 0 <= j < |paths| ==> Compatible(paths[j], p)
  {
    assert |p| > 1 ==> DirOf(p[..|p| - 1], p, |p|);
    assert forall j :: 0 <= j < |paths| ==> (ProperPrefix(p, paths[j]) <==> DirOf(p, paths[j], |paths[j]|));
    assert forall j :: 0 <= j < |paths| ==> paths[j] in files && (ProperPrefix(paths[j], p) <==> DirOf(paths[j], p, |p|));
  }

  /** One path: its directories, then the file itself. */
  method ReservePath(fs: FileSystem, path: Path, seen: set<Path>, ghost paths: seq<Path>) returns (ok: bool, now: set<Path>)
    requires path != [] && (forall p <- paths :: p != []) && Reserved(fs.dirs, fs.files, paths)
    requires seen == fs.dirs - {[]} && fs.dirs !! fs.files
    modifies fs
    ensures ok <==> forall j :: 0 <= j < |paths| ==> Compatible(paths[j], path)
    ensures ok ==> Reserved(fs.dirs, fs.files, paths + [path]) && now == fs.dirs - {[]} && fs.dirs !! fs.files
  {
    hide DirOf;
    assert [] in fs.dirs;
    ghost var dirs, files := fs.dirs, fs.files;
    ok, now := ReserveDirectories(fs, path, seen);
    if !ok {
      Collision(dirs, files, paths, path);
      return;
    }
    RoomExactly(dirs, files, paths, path, fs.dirs);
    ReservedMore(dirs, files, paths, path, fs.dirs);
    ok := fs.CreateExclusive(path);
  }

  lemma Collision(dirs: set<Path>, files: set<Path>, paths: seq<Path>, p: Path)
    requires p != [] && Reserved(dirs, files, paths)
    requires exists f <- files :: DirOf(f, p, |p|)
    ensures exists j :: 0 <= j < |paths| && !Compatible(paths[j], p)
  {
    var f :| f in files && DirOf(f, p, |p|);
    var j :| 0 <= j < |paths| && paths[j] == f;
    assert !Compatible(paths[j], p);
  }

  // ---------------------------------------------------- from path bytes to components

  function JoinAll(components: seq<bytes>): bytes
    requires components != []
  {
    if |components| == 1 then components[0] else components[0] + [SLASH] + JoinAll(components[1..])
  }

  /** `strings.Split` loses nothing, so distinct paths have distinct components. */
  lemma {:induction false} SplitJoins(path: bytes)
    ensures JoinAll(Split(path)) == path
    decreases |path|
  {
    var k := IndexFrom(path, 0, SLASH);
    if k < |path| {
      SplitJoins(path[k + 1..]);
      assert Split(path)[1..] == Split(path[k + 1..]);
      assert path == path[..k] + [path[k]] + path[k + 1..];
    } else {
      assert path[0..k] == path;
    }
  }

  lemma SplitInjective(p: bytes, q: bytes)
    ensures Split(p) == Split(q) <==> p == q
  {
    SplitJoins(p);
    SplitJoins(q);
  }

  /** A path lies below another one exactly when its components do. */
  lemma {:induction false} BelowIsProperPrefix(path: bytes, dir: bytes)
    ensures Below(path, dir) <==> ProperPrefix(Split(dir), Split(path))
    decreases |dir|
  {
    if Below(path, dir) {
      SplitBelow(path, dir);
    }
    if ProperPrefix(Split(dir), Split(path)) {
      JoinBelow(Split(path), |Split(dir)|);
      SplitJoins(path);
      SplitJoins(dir);
    }
  }

  lemma {:induction false} JoinBelow(components: seq<bytes>, n: nat)
    requires 0 < n < |components|
    ensures Below(JoinAll(components), JoinAll(components[..n]))
  {
    var all, top := JoinAll(components), JoinAll(components[..n]);
    assert components[..n][1..] == components[1..][..n - 1];
    if n > 1 {
      JoinBelow(components[1..], n - 1);
      var head := components[0] + [SLASH];
      var rest, part := JoinAll(components[1..]), JoinAll(components[1..][..n - 1]);
      assert all[..|top|] == head + rest[..|part|];
      assert all[|top|] == rest[|part|];
    }
  }

  lemma {:induction false} SplitBelow(path: bytes, dir: bytes)
    requires Below(path, dir)
    ensures ProperPrefix(Split(dir), Split(path))
    decreases |dir|
  {
    hide IndexFrom;
    var k := IndexFrom(dir, 0, SLASH);
    SameFirstSlash(path, dir);
    if k < |dir| {
      BelowTail(path, dir, k);
      SplitBelow(path[k + 1..], dir[k + 1..]);
      SamePrefixed(dir[..k], Split(dir[k + 1..]), Split(path[k + 1..]));
    } else {
      SamePrefixed(dir, [], Split(path[|dir| + 1..]));
      assert [dir] + [] == Split(dir);
    }
  }

  lemma BelowTail(path: bytes, dir: bytes, k: nat)
    requires Below(path, dir) && k < |dir|
    ensures Below(path[k + 1..], dir[k + 1..]) && path[..k] == dir[..k]
  {
    assert path[k + 1..][..|dir[k + 1..]|] == path[..|dir|][k + 1..];
    assert path[..k] == path[..|dir|][..k];
  }

  lemma SamePrefixed(head: bytes, p: Path, q: Path)
    requires ProperPrefix(p, q)
    ensures ProperPrefix([head] + p, [head] + q)
  {
    assert ([head] + q)[..|p| + 1] == [head] + q[..|p|];
  }

  lemma SameFirstSlash(path: bytes, dir: bytes)
    requires Below(path, dir)
    ensures IndexFrom(path, 0, SLASH) == IndexFrom(dir, 0, SLASH)
  {
    var m := IndexFrom(dir, 0, SLASH);
    assert path[..m] == path[..|dir|][..m] == dir[..m] == dir[0..m];
    assert m < |dir| ==> path[m] == path[..|dir|][m];
    IndexIs(path, 0, m);
  }

  lemma {:induction false} IndexIs(s: bytes, i: nat, k: nat)
    requires i <= k < |s| && s[k] == SLASH && SLASH !in s[..k]
    ensures IndexFrom(s, i, SLASH) == k
    decreases k - i
  {
    if i < k {
      assert s[i] == s[..k][i];
      IndexIs(s, i + 1, k);
    }
  }

  // ------------------------------------------------- the reservation of a listing

  /** The components of each path. */
  function SplitPaths(entries: seq<EntryRecord>): (r: seq<Path>)
    ensures |r| == |entries| && forall i :: 0 <= i < |r| ==> r[i] == Split(entries[i].path)
  {
    seq(|entries|, i requires 0 <= i < |entries| => Split(entries[i].path))
  }

  /** Neither path is the other or below it. */
  predicate Apart(p: bytes, q: bytes)
  {
    p != q && !Below(p, q) && !Below(q, p)
  }

  lemma ApartExactly(p: bytes, q: bytes)
    ensures Compatible(Split(p), Split(q)) <==> Apart(p, q)
  {
    SplitInjective(p, q);
    BelowIsProperPrefix(p, q);
    BelowIsProperPrefix(q, p);
  }

  /** Paths can be reserved together exactly when they are distinct and none is a directory of another. */
  lemma CompatibleExactly(entries: seq<EntryRecord>)
    ensures AllCompatible(SplitPaths(entries)) <==> DistinctKeys(entries, PathOf) && PrefixFree(entries)
  {
    hide Split, Below, Compatible;
    var paths := SplitPaths(entries);
    forall i, j | 0 <= i < |entries| && 0 <= j < |entries|
      ensures Compatible(paths[i], paths[j]) <==> Apart(entries[i].path, entries[j].path)
      ensures !Below(entries[i].path, entries[i].path)
    {
      ApartExactly(entries[i].path, entries[j].path);
      NotBelowItself(entries[i].path);
    }
    ApartInPairs(entries);
    assert AllCompatible(paths) <==> forall i, j :: 0 <= i < j < |entries| ==> Apart(entries[i].path, entries[j].path);
  }

  lemma ApartInPairs(entries: seq<EntryRecord>)
    ensures (forall i, j :: 0 <= i < j < |entries| ==> Apart(entries[i].path, entries[j].path))
            <==> DistinctKeys(entries, PathOf) && PrefixFree(entries)
  {
    hide Below;
    forall i | 0 <= i < |entries| ensures !Below(entries[i].path, entries[i].path) {
      NotBelowItself(entries[i].path);
    }
    assert forall i :: 0 <= i < |entries| ==> PathOf(entries[i]) == entries[i].path;
  }

  /** Reservation succeeds exactly when the paths are distinct and none is a directory of another, and
      then it has made exactly these files and their directories. */
  method ReserveTopology(fs: FileSystem, entries: seq<EntryRecord>) returns (result: Result<(), GitError>)
    requires fs.dirs == {[]} && fs.files == {}
    modifies fs
    ensures result.Ok? <==> DistinctKeys(entries, PathOf) && PrefixFree(entries)
    ensures result.Ok? <==> AllCompatible(SplitPaths(entries))
    ensures result.Ok? ==> Reserved(fs.dirs, fs.files, SplitPaths(entries))
    ensures result.Err? ==> result.error == PathCollision
  {
    hide Split, PrefixFree, DistinctKeys, Compatible;
    ghost var paths := SplitPaths(entries);
    CompatibleExactly(entries);
    var seen: set<Path> := {};
    for i := 0 to |entries|
      invariant Reserved(fs.dirs, fs.files, paths[..i]) && seen == fs.dirs - {[]} && fs.dirs !! fs.files
      invariant AllCompatible(paths[..i])
    {
      assert paths[..i + 1] == paths[..i] + [paths[i]];
      var ok;
      ok, seen := ReservePath(fs, Split(entries[i].path), seen, paths[..i]);
      if !ok {
        ghost var j :| 0 <= j < i && !Compatible(paths[..i][j], paths[i]);
        assert !Compatible(paths[j], paths[i]);
        return Err(PathCollision);
      }
    }
    assert paths[..|paths|] == paths;
    return Ok(());
  }

  /** A listed root can be reserved exactly when no tree object reached lists one name both as a file and
      as a directory, whatever the neighbour check has said of it. */
  lemma ReservableExactly(store: Store, width: nat, root: bytes)
    requires Listing(store, width, root, [], 0).Some?
    ensures AllCompatible(SplitPaths(Listing(store, width, root, [], 0).value))
            <==> forall b, k: nat :: Reaches(store, width, root, b, k) ==> !ListsTwice(store, width, b)
  {
    hide Listing, Reaches, ListsTwice, PrefixFree, DistinctKeys, AllCompatible;
    SortIsNoOp(store, width, root);
    CompatibleExactly(Listing(store, width, root, [], 0).value);
    PrefixFreeExactly(store, width, root);
  }
}
