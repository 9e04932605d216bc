/** The directory walk: which files of a directory tree the uploader considers, in
    the order `os.walk` yields them (top-down), after the ignored subdirectory names
    are pruned at every level below the root. */
module Tree {
  import opened Text
  import opened Paths

  /** A directory as `os.walk` lists it: its name, its subdirectories and the names
      of its files, each in listing order. */
  datatype Dir = Dir(name: string, subdirs: seq<Dir>, files: seq<string>)

  /** A file the loop considers: `os.path.join(root, file)` and `file` itself. */
  datatype Candidate = Candidate(fullpath: string, name: string)

  /** Number of directories in a forest; the walk's termination measure. */
  function ForestSize(ds: seq<Dir>): nat
    decreases ds
  {
    if ds == [] then 0 else 1 + ForestSize(ds[0].subdirs) + ForestSize(ds[1..])
  }

  function Size(d: Dir): nat
  {
    1 + ForestSize(d.subdirs)
  }

  lemma {:induction false} ForestSizeConcat(a: seq<Dir>, b: seq<Dir>)
    ensures ForestSize(a + b) == ForestSize(a) + ForestSize(b)
  {
    if a == [] {
      assert a + b == b;
    } else {
      assert (a + b)[0] == a[0];
      assert (a + b)[1..] == a[1..] + b;
      ForestSizeConcat(a[1..], b);
    }
  }

  /** `name in dirs` */
  predicate HasDirNamed(ds: seq<Dir>, n: string)
  {
    exists i :: 0 <= i < |ds| && ds[i].name == n
  }

  /** Entry `i` is the first directory named `n`. */
  predicate FirstNamed(ds: seq<Dir>, n: string, i: int)
  {
    0 <= i < |ds| && ds[i].name == n && forall j :: 0 <= j < i ==> ds[j].name != n
  }

  /** `dirs.remove(n)` guarded by `if n in dirs`: the first directory with that name
      goes, the others keep their order, and nothing else changes. */
  function RemoveFirst(ds: seq<Dir>, n: string): (r: seq<Dir>)
    ensures !HasDirNamed(ds, n) ==> r == ds
    ensures HasDirNamed(ds, n) ==> exists i :: FirstNamed(ds, n, i) && r == ds[..i] + ds[i + 1..]
    ensures ForestSize(r) <= ForestSize(ds)
  {
    if ds == [] then []
    else if ds[0].name == n then
      assert FirstNamed(ds, n, 0) && ds[1..] == ds[..0] + ds[0 + 1..];
      ds[1..]
    else
      var rest := RemoveFirst(ds[1..], n);
      var r := [ds[0]] + rest;
      assert r[0] == ds[0] && r[1..] == rest;
      HasDirNamedCons(ds, n);
      if HasDirNamed(ds, n) then
        var i :| FirstNamed(ds[1..], n, i) && rest == ds[1..][..i] + ds[1..][i + 1..];
        RemoveAfterHead(ds, n, i, rest);
        r
      else
        assert r == ds;
        r
  }

  /** Removal shortens the list by one when the name occurs, and keeps only entries
      of the list. */
  lemma RemoveFirstKeeps(ds: seq<Dir>, n: string)
    ensures HasDirNamed(ds, n) ==> |RemoveFirst(ds, n)| == |ds| - 1
    ensures forall x :: x in RemoveFirst(ds, n) ==> x in ds
  {
    if HasDirNamed(ds, n) {
      var r := RemoveFirst(ds, n);
      var i :| FirstNamed(ds, n, i) && r == ds[..i] + ds[i + 1..];
      WithoutOne(ds, i);
    }
  }

  /** Leaving out entry `i` shortens the list by one and keeps only its entries. */
  lemma WithoutOne(ds: seq<Dir>, i: int)
    requires 0 <= i < |ds|
    ensures |ds[..i] + ds[i + 1..]| == |ds| - 1
    ensures forall x :: x in ds[..i] + ds[i + 1..] ==> x in ds
  {
    var w := ds[..i] + ds[i + 1..];
    forall x | x in w ensures x in ds {
      var k :| 0 <= k < |w| && w[k] == x;
      if k < i {
        assert w[k] == ds[k];
      } else {
        assert w[k] == ds[k + 1];
      }
    }
  }

  /** Past a head with another name, the name occurs in the list exactly when it occurs
      in the tail. */
  lemma HasDirNamedCons(ds: seq<Dir>, n: string)
    requires ds != [] && ds[0].name != n
    ensures HasDirNamed(ds, n) <==> HasDirNamed(ds[1..], n)
  {
    if HasDirNamed(ds, n) {
      var i :| 0 <= i < |ds| && ds[i].name == n;
      assert ds[1..][i - 1].name == n;
    }
    if HasDirNamed(ds[1..], n) {
      var i :| 0 <= i < |ds[1..]| && ds[1..][i].name == n;
      assert ds[i + 1].name == n;
    }
  }

  /** Removing the first `n` from the tail, behind a head with another name, removes the
      first `n` of the whole list. */
  lemma RemoveAfterHead(ds: seq<Dir>, n: string, i: int, rest: seq<Dir>)
    requires ds != [] && ds[0].name != n && FirstNamed(ds[1..], n, i)
    requires rest == ds[1..][..i] + ds[1..][i + 1..]
    ensures FirstNamed(ds, n, i + 1) && [ds[0]] + rest == ds[..i + 1] + ds[i + 2..]
  {
    forall j | 0 <= j < i + 1 ensures ds[j].name != n {
      if j > 0 {
        assert ds[j] == ds[1..][j - 1];
      }
    }
    assert ds[..i + 1] == [ds[0]] + ds[1..][..i];
    assert ds[i + 2..] == ds[1..][i + 1..];
  }

  /** The subdirectories `os.walk` still descends into after the pruning loop: each
      ignored name in turn removes its first occurrence. */
  function Pruned(ds: seq<Dir>, ignore: seq<string>): (r: seq<Dir>)
    ensures forall x :: x in r ==> x in ds
    ensures ForestSize(r) <= ForestSize(ds)
    decreases |ignore|
  {
    if ignore == [] then ds
    else
      RemoveFirstKeeps(ds, ignore[0]);
      Pruned(RemoveFirst(ds, ignore[0]), ignore[1..])
  }

  /** The pruning loop over `ignore_dirs`, removing in place from the `dirs` list. */
  method PruneDirs(dirs: seq<Dir>, ignore: seq<string>) returns (kept: seq<Dir>)
    ensures kept == Pruned(dirs, ignore)
  {
    kept := dirs;
    for i := 0 to |ignore|
      invariant Pruned(kept, ignore[i..]) == Pruned(dirs, ignore)
    {
      assert ignore[i..][1..] == ignore[i + 1..];
      if HasDirNamed(kept, ignore[i]) {
        kept := RemoveFirst(kept, ignore[i]);
      }
    }
    assert ignore[|ignore|..] == [];
  }

  /** The candidates for the files of one directory, in listing order. */
  function FilesIn(root: string, files: seq<string>, sep: char): (r: seq<Candidate>)
    ensures |r| == |files|
    ensures forall i :: 0 <= i < |files| ==> r[i] == Candidate(PathJoin(root, files[i], sep), files[i])
  {
    if files == [] then [] else [Candidate(PathJoin(root, files[0], sep), files[0])] + FilesIn(root, files[1..], sep)
  }

  lemma FilesInSnoc(root: string, files: seq<string>, i: nat, sep: char)
    requires i < |files|
    ensures FilesIn(root, files[..i + 1], sep) == FilesIn(root, files[..i], sep) + [Candidate(PathJoin(root, files[i], sep), files[i])]
  {
    var longer := FilesIn(root, files[..i + 1], sep);
    var shorter := FilesIn(root, files[..i], sep) + [Candidate(PathJoin(root, files[i], sep), files[i])];
    forall k | 0 <= k < |longer| ensures longer[k] == shorter[k] {
      if k < i {
        assert files[..i + 1][k] == files[..i][k];
      }
    }
  }

  /** Every file the walk considers below (and in) `d`, which sits at path `root`. */
  function Considered(ignore: seq<string>, sep: char, root: string, d: Dir): seq<Candidate>
    decreases Size(d), 0
  {
    FilesIn(root, d.files, sep) + ForestConsidered(ignore, sep, root, Pruned(d.subdirs, ignore))
  }

  function ForestConsidered(ignore: seq<string>, sep: char, parent: string, ds: seq<Dir>): seq<Candidate>
    decreases ForestSize(ds), 1
  {
    if ds == [] then []
    else
      Considered(ignore, sep, PathJoin(parent, ds[0].name, sep), ds[0]) +
      ForestConsidered(ignore, sep, parent, ds[1..])
  }

  // ----- Reference definition: every file of the tree, with the directories above it -----

  /** A file of the tree and the names of the directories between the root and it. */
  datatype Found = Found(cand: Candidate, ancestors: seq<string>)

  function FoundIn(root: string, files: seq<string>, sep: char): seq<Found>
  {
    if files == [] then [] else [Found(Candidate(PathJoin(root, files[0], sep), files[0]), [])] + FoundIn(root, files[1..], sep)
  }

  /** Puts directory `n` above every file of `fs`. */
  function Within(n: string, fs: seq<Found>): (r: seq<Found>)
    ensures |r| == |fs|
  {
    if fs == [] then [] else [Found(fs[0].cand, [n] + fs[0].ancestors)] + Within(n, fs[1..])
  }

  /** Every file of the tree in walk order, with no pruning at all. */
  function AllFiles(sep: char, root: string, d: Dir): seq<Found>
    decreases Size(d), 0
  {
    FoundIn(root, d.files, sep) + AllForest(sep, root, d.subdirs)
  }

  function AllForest(sep: char, parent: string, ds: seq<Dir>): seq<Found>
    decreases ForestSize(ds), 1
  {
    if ds == [] then []
    else
      Within(ds[0].name, AllFiles(sep, PathJoin(parent, ds[0].name, sep), ds[0])) +
      AllForest(sep, parent, ds[1..])
  }

  /** Some directory above the file has an ignored name. */
  predicate Hidden(f: Found, ignore: seq<string>)
  {
    exists a :: a in f.ancestors && a in ignore
  }

  /** The files that no ignored directory hides, in order. */
  function Visible(fs: seq<Found>, ignore: seq<string>): seq<Candidate>
  {
    if fs == [] then []
    else (if Hidden(fs[0], ignore) then [] else [fs[0].cand]) + Visible(fs[1..], ignore)
  }

  lemma {:induction false} VisibleConcat(a: seq<Found>, b: seq<Found>, ignore: seq<string>)
    ensures Visible(a + b, ignore) == Visible(a, ignore) + Visible(b, ignore)
  {
    if a == [] {
      assert a + b == b;
    } else {
      assert (a + b)[0] == a[0];
      assert (a + b)[1..] == a[1..] + b;
      VisibleConcat(a[1..], b, ignore);
    }
  }

  lemma {:induction false} VisibleFoundIn(root: string, files: seq<string>, sep: char, ignore: seq<string>)
    ensures Visible(FoundIn(root, files, sep), ignore) == FilesIn(root, files, sep)
  {
    if files != [] {
      VisibleFoundIn(root, files[1..], sep, ignore);
    }
  }

  /** Below an ignored directory nothing is visible; below any other, what is visible
      is what was visible inside it. */
  lemma {:induction false} VisibleWithin(n: string, fs: seq<Found>, ignore: seq<string>)
    ensures n in ignore ==> Visible(Within(n, fs), ignore) == []
    ensures n !in ignore ==> Visible(Within(n, fs), ignore) == Visible(fs, ignore)
  {
    if fs != [] {
      VisibleWithin(n, fs[1..], ignore);
      var f := Found(fs[0].cand, [n] + fs[0].ancestors);
      if n in ignore {
        assert n in f.ancestors;
      } else {
        assert Hidden(f, ignore) <==> Hidden(fs[0], ignore) by {
          if Hidden(f, ignore) {
            var a :| a in f.ancestors && a in ignore;
            assert a in fs[0].ancestors;
          }
          if Hidden(fs[0], ignore) {
            var a :| a in fs[0].ancestors && a in ignore;
            assert a in f.ancestors;
          }
        }
      }
    }
  }

  // ----- Pruning with unique names is filtering -----

  /** Sibling directories have distinct names, as in any real file system. */
  predicate UniqueNames(ds: seq<Dir>)
  {
    forall i, j :: 0 <= i < j < |ds| ==> ds[i].name != ds[j].name
  }

  predicate UniqueTree(d: Dir)
  {
    UniqueNames(d.subdirs) && forall i :: 0 <= i < |d.subdirs| ==> UniqueTree(d.subdirs[i])
  }

  /** The directories whose name is not ignored, in order. */
  function DropIgnored(ds: seq<Dir>, ignore: seq<string>): (r: seq<Dir>)
    ensures forall x :: x in r ==> x in ds && x.name !in ignore
  {
    if ds == [] then []
    else (if ds[0].name in ignore then [] else [ds[0]]) + DropIgnored(ds[1..], ignore)
  }

  lemma {:induction false} DropIgnoredNothing(ds: seq<Dir>, ignore: seq<string>)
    requires forall i :: 0 <= i < |ds| ==> ds[i].name !in ignore
    ensures DropIgnored(ds, ignore) == ds
  {
    if ds != [] {
      DropIgnoredNothing(ds[1..], ignore);
    }
  }

  lemma {:induction false} DropIgnoredUnique(ds: seq<Dir>, ignore: seq<string>)
    requires UniqueNames(ds)
    ensures UniqueNames(DropIgnored(ds, ignore))
  {
    if ds != [] {
      DropIgnoredUnique(ds[1..], ignore);
      var rest := DropIgnored(ds[1..], ignore);
      forall x | x in rest ensures x.name != ds[0].name {
        var j :| 0 <= j < |ds[1..]| && ds[1..][j] == x;
        assert ds[j + 1] == x;
      }
    }
  }

  lemma {:induction false} DropIgnoredCompose(ds: seq<Dir>, n: string, rest: seq<string>)
    ensures DropIgnored(DropIgnored(ds, [n]), rest) == DropIgnored(ds, [n] + rest)
  {
    if ds != [] {
      DropIgnoredCompose(ds[1..], n, rest);
      var first := if ds[0].name in [n] then [] else [ds[0]];
      DropIgnoredConcat(first, DropIgnored(ds[1..], [n]), rest);
    }
  }

  lemma {:induction false} DropIgnoredConcat(a: seq<Dir>, b: seq<Dir>, ignore: seq<string>)
    ensures DropIgnored(a + b, ignore) == DropIgnored(a, ignore) + DropIgnored(b, ignore)
  {
    if a == [] {
      assert a + b == b;
    } else {
      assert (a + b)[0] == a[0];
      assert (a + b)[1..] == a[1..] + b;
      DropIgnoredConcat(a[1..], b, ignore);
    }
  }

  lemma {:induction false} RemoveFirstUnique(ds: seq<Dir>, n: string)
    requires UniqueNames(ds)
    ensures RemoveFirst(ds, n) == DropIgnored(ds, [n])
  {
    if ds != [] {
      if ds[0].name == n {
        DropIgnoredNothing(ds[1..], [n]);
      } else {
        RemoveFirstUnique(ds[1..], n);
      }
    }
  }

  /** With unique sibling names, the source's pruning removes exactly the ignored names. */
  lemma {:induction false} PrunedIsFilter(ds: seq<Dir>, ignore: seq<string>)
    requires UniqueNames(ds)
    ensures Pruned(ds, ignore) == DropIgnored(ds, ignore)
    decreases |ignore|
  {
    if ignore == [] {
      DropIgnoredNothing(ds, ignore);
    } else {
      RemoveFirstUnique(ds, ignore[0]);
      DropIgnoredUnique(ds, [ignore[0]]);
      PrunedIsFilter(DropIgnored(ds, [ignore[0]]), ignore[1..]);
      DropIgnoredCompose(ds, ignore[0], ignore[1..]);
      assert [ignore[0]] + ignore[1..] == ignore;
    }
  }

  /** The walk considers exactly the files of the tree that no ignored directory below
      the root hides, each once, in walk order. */
  lemma {:induction false} WalkSkipsExactlyIgnored(ignore: seq<string>, sep: char, root: string, d: Dir)
    requires UniqueTree(d)
    ensures Considered(ignore, sep, root, d) == Visible(AllFiles(sep, root, d), ignore)
    decreases Size(d), 0
  {
    PrunedIsFilter(d.subdirs, ignore);
    ForestWalkSkipsExactlyIgnored(ignore, sep, root, d.subdirs);
    VisibleConcat(FoundIn(root, d.files, sep), AllForest(sep, root, d.subdirs), ignore);
    VisibleFoundIn(root, d.files, sep, ignore);
  }

  lemma {:induction false} ForestWalkSkipsExactlyIgnored(ignore: seq<string>, sep: char, parent: string, ds: seq<Dir>)
    requires forall i :: 0 <= i < |ds| ==> UniqueTree(ds[i])
    ensures ForestConsidered(ignore, sep, parent, DropIgnored(ds, ignore)) == Visible(AllForest(sep, parent, ds), ignore)
    decreases ForestSize(ds), 1
  {
    if ds != [] {
      var d0 := ds[0];
      var path0 := PathJoin(parent, d0.name, sep);
      var inside := AllFiles(sep, path0, d0);
      var keptRest := DropIgnored(ds[1..], ignore);
      ForestWalkSkipsExactlyIgnored(ignore, sep, parent, ds[1..]);
      assert AllForest(sep, parent, ds) == Within(d0.name, inside) + AllForest(sep, parent, ds[1..]);
      VisibleConcat(Within(d0.name, inside), AllForest(sep, parent, ds[1..]), ignore);
      VisibleWithin(d0.name, inside, ignore);
      if d0.name in ignore {
        assert DropIgnored(ds, ignore) == keptRest;
      } else {
        WalkSkipsExactlyIgnored(ignore, sep, path0, d0);
        var kept := [d0] + keptRest;
        assert DropIgnored(ds, ignore) == kept;
        assert kept[0] == d0 && kept[1..] == keptRest;
        assert ForestConsidered(ignore, sep, parent, kept)
            == Considered(ignore, sep, path0, d0) + ForestConsidered(ignore, sep, parent, keptRest);
      }
    }
  }

  /** Membership form: a file is considered if and only if it is in the tree and no
      ignored directory below the root is above it. */
  lemma {:induction false} VisibleMembers(fs: seq<Found>, ignore: seq<string>, c: Candidate)
    ensures c in Visible(fs, ignore) <==> exists f :: f in fs && f.cand == c && !Hidden(f, ignore)
  {
    if fs != [] {
      VisibleMembers(fs[1..], ignore, c);
      if c in Visible(fs[1..], ignore) {
        var f :| f in fs[1..] && f.cand == c && !Hidden(f, ignore);
        assert f in fs;
      }
      if exists f :: f in fs && f.cand == c && !Hidden(f, ignore) {
        var f :| f in fs && f.cand == c && !Hidden(f, ignore);
        if f != fs[0] {
          assert f in fs[1..];
        }
      }
    }
  }

  // ----- The work list the walk keeps -----

  /** A directory still to be walked, and its path. */
  datatype Pending = Pending(root: string, dir: Dir)

  function PendingConsidered(ignore: seq<string>, sep: char, ps: seq<Pending>): seq<Candidate>
  {
    if ps == [] then [] else Considered(ignore, sep, ps[0].root, ps[0].dir) + PendingConsidered(ignore, sep, ps[1..])
  }

  function PendingSize(ps: seq<Pending>): nat
  {
    if ps == [] then 0 else Size(ps[0].dir) + PendingSize(ps[1..])
  }

  /** The subdirectories of `parent` that remain, each with its joined path. */
  function Children(parent: string, ds: seq<Dir>, sep: char): (r: seq<Pending>)
    ensures |r| == |ds|
  {
    if ds == [] then [] else [Pending(PathJoin(parent, ds[0].name, sep), ds[0])] + Children(parent, ds[1..], sep)
  }

  lemma {:induction false} PendingConcat(ignore: seq<string>, sep: char, a: seq<Pending>, b: seq<Pending>)
    ensures PendingConsidered(ignore, sep, a + b) == PendingConsidered(ignore, sep, a) + PendingConsidered(ignore, sep, b)
    ensures PendingSize(a + b) == PendingSize(a) + PendingSize(b)
  {
    if a == [] {
      assert a + b == b;
    } else {
      assert (a + b)[0] == a[0];
      assert (a + b)[1..] == a[1..] + b;
      PendingConcat(ignore, sep, a[1..], b);
    }
  }

  lemma {:induction false} ChildrenConsidered(ignore: seq<string>, sep: char, parent: string, ds: seq<Dir>)
    ensures PendingConsidered(ignore, sep, Children(parent, ds, sep)) == ForestConsidered(ignore, sep, parent, ds)
    ensures PendingSize(Children(parent, ds, sep)) == ForestSize(ds)
  {
    if ds != [] {
      ChildrenConsidered(ignore, sep, parent, ds[1..]);
    }
  }

  /** One step of the walk: the first pending directory gives up its own files and is
      replaced by its remaining subdirectories; the work left shrinks. */
  lemma WalkStep(ignore: seq<string>, sep: char, ps: seq<Pending>, kept: seq<Dir>)
    requires ps != []
    requires kept == Pruned(ps[0].dir.subdirs, ignore)
    ensures PendingConsidered(ignore, sep, ps) ==
      FilesIn(ps[0].root, ps[0].dir.files, sep) + PendingConsidered(ignore, sep, Children(ps[0].root, kept, sep) + ps[1..])
    ensures PendingSize(Children(ps[0].root, kept, sep) + ps[1..]) < PendingSize(ps)
  {
    var root, rest := ps[0].root, ps[1..];
    ChildrenConsidered(ignore, sep, root, kept);
    PendingConcat(ignore, sep, Children(root, kept, sep), rest);
  }
}
