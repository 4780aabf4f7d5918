/** Putting a downloaded update in place, all of it or nothing (SwapPackage in common/n02_update.cpp).
    The files are a map from names to contents; any forward rename and any deletion may be refused. */
module PackageSwap {
  import opened Bytes
  import opened Manifest

  type Files = map<string, seq<byte>>

  /** The two disks agree about one name. */
  ghost predicate Agree(a: Files, b: Files, name: string) {
    (name in a <==> name in b) && (name in a ==> a[name] == b[name])
  }

  /** From a to b nothing changed but names touched for the path. */
  ghost predicate OnlyTouched(a: Files, b: Files, path: string) {
    forall name :: !Touches(path, name) ==> Agree(a, b, name)
  }

  /** What there was before, and where the replaced file went. */
  datatype Swap = Swap(index: nat, hadOld: bool, kept: string)

  /** The downloaded file is in place, and the one it replaced, if any, is kept under an old name. */
  ghost predicate Swapped(was: Files, now: Files, path: string, sw: Swap) {
    && NewName(path) in was && NewName(path) !in now
    && Target(path) in now && now[Target(path)] == was[NewName(path)]
    && (sw.hadOld <==> Target(path) in was)
    && (sw.hadOld ==>
          (exists n :: 1 <= n <= 9 && sw.kept == OldName(path, n)) &&
          sw.kept in now && now[sw.kept] == was[Target(path)])
  }

  /** The file and its download are as before. */
  ghost predicate AsBefore(was: Files, now: Files, path: string) {
    Agree(was, now, Target(path)) && Agree(was, now, NewName(path))
  }

  /** No path's names are touched on account of another path. */
  ghost predicate Apart(p: string, q: string) {
    forall name :: !(Touches(p, name) && Touches(q, name))
  }

  lemma SwappedStays(was: Files, now: Files, later: Files, p: string, q: string, sw: Swap)
    requires Swapped(was, now, p, sw) && OnlyTouched(now, later, q) && Safe(p) && Apart(p, q)
    ensures Swapped(was, later, p, sw)
  {
    OwnNamesDiffer(p, 1);
    assert Agree(now, later, Target(p)) && Agree(now, later, NewName(p));
    if sw.hadOld {
      var n :| 1 <= n <= 9 && sw.kept == OldName(p, n);
      OwnNamesDiffer(p, n);
      assert Agree(now, later, sw.kept);
    }
  }

  lemma AsBeforeStays(was: Files, now: Files, later: Files, p: string, q: string)
    requires AsBefore(was, now, p) && OnlyTouched(now, later, q) && Safe(p) && Apart(p, q)
    ensures AsBefore(was, later, p)
  {
    OwnNamesDiffer(p, 1);
    assert Agree(now, later, Target(p)) && Agree(now, later, NewName(p));
  }

  lemma AcceptedAreApart(files: seq<PackageFile>, i: nat, j: nat)
    requires Accepted(files) && i < |files| && j < |files| && i != j
    ensures Apart(files[i].path, files[j].path)
  {
    forall name
      ensures !(Touches(files[i].path, name) && Touches(files[j].path, name))
    {
      if i < j {
        TouchedNamesDiffer(files[i].path, files[j].path, name);
      } else {
        TouchedNamesDiffer(files[j].path, files[i].path, name);
      }
    }
  }

  // ----- the whole package -----

  /** How far the file with index k has come: swapped with the given swap, or as before. */
  ghost predicate FileState(was: Files, now: Files, files: seq<PackageFile>, k: nat, swaps: seq<Swap>)
    requires k < |files|
  {
    && (forall m :: 0 <= m < |swaps| && swaps[m].index == k ==> Swapped(was, now, files[k].path, swaps[m]))
    && ((forall m :: 0 <= m < |swaps| ==> swaps[m].index != k) ==> AsBefore(was, now, files[k].path))
  }

  ghost predicate SwapsFit(files: seq<PackageFile>, swaps: seq<Swap>, bound: nat) {
    && (forall m :: 0 <= m < |swaps| ==> swaps[m].index < bound <= |files| && files[swaps[m].index].download)
    && (forall m, n :: 0 <= m < n < |swaps| ==> swaps[m].index < swaps[n].index)
  }

  /** Names that no downloaded file of the package touches. */
  ghost predicate Foreign(files: seq<PackageFile>, name: string) {
    forall k :: 0 <= k < |files| && files[k].download ==> !Touches(files[k].path, name)
  }

  /** Midway: the files with a swap are swapped, all others as before, and nothing foreign is changed. */
  ghost predicate Midway(was: Files, now: Files, files: seq<PackageFile>, swaps: seq<Swap>) {
    && (forall k :: 0 <= k < |files| ==> FileState(was, now, files, k, swaps))
    && (forall name :: Foreign(files, name) ==> Agree(was, now, name))
  }

  lemma StartsMidway(was: Files, files: seq<PackageFile>)
    ensures Midway(was, was, files, [])
  {
  }

  /** Work on one file leaves the state of every other file alone. */
  lemma OthersStay(was: Files, now: Files, later: Files, files: seq<PackageFile>, i: nat, k: nat, swaps: seq<Swap>)
    requires Accepted(files) && i < |files| && k < |files| && k != i
    requires FileState(was, now, files, k, swaps) && OnlyTouched(now, later, files[i].path)
    ensures FileState(was, later, files, k, swaps)
  {
    AcceptedAreApart(files, k, i);
    forall m | 0 <= m < |swaps| && swaps[m].index == k
      ensures Swapped(was, later, files[k].path, swaps[m])
    {
      SwappedStays(was, now, later, files[k].path, files[i].path, swaps[m]);
    }
    if forall m :: 0 <= m < |swaps| ==> swaps[m].index != k {
      AsBeforeStays(was, now, later, files[k].path, files[i].path);
    }
  }

  lemma ForeignStays(was: Files, now: Files, later: Files, files: seq<PackageFile>, i: nat)
    requires i < |files| && files[i].download && OnlyTouched(now, later, files[i].path)
    requires forall name :: Foreign(files, name) ==> Agree(was, now, name)
    ensures forall name :: Foreign(files, name) ==> Agree(was, later, name)
  {
    forall name | Foreign(files, name)
      ensures Agree(was, later, name)
    {
      assert !Touches(files[i].path, name);
      assert Agree(was, now, name) && Agree(now, later, name);
    }
  }

  /** A swap of another file does not matter to the state of this one. */
  lemma LastSwapIsOfAnother(was: Files, now: Files, files: seq<PackageFile>, k: nat, swaps: seq<Swap>, sw: Swap)
    requires k < |files| && sw.index != k
    ensures FileState(was, now, files, k, swaps) <==> FileState(was, now, files, k, swaps + [sw])
  {
    var more := swaps + [sw];
    assert forall m :: 0 <= m < |swaps| ==> more[m] == swaps[m];
    assert more[|swaps|] == sw;
  }

  lemma SwappedSinceStart(was: Files, now: Files, later: Files, path: string, sw: Swap)
    requires AsBefore(was, now, path) && Swapped(now, later, path, sw)
    ensures Swapped(was, later, path, sw)
  {
  }

  /** One more file was swapped. */
  lemma SwapStaysMidway(was: Files, now: Files, later: Files, files: seq<PackageFile>, i: nat, swaps: seq<Swap>,
                        sw: Swap)
    requires Accepted(files) && Midway(was, now, files, swaps) && SwapsFit(files, swaps, i)
    requires i < |files| && files[i].download && OnlyTouched(now, later, files[i].path)
    requires sw.index == i && Swapped(now, later, files[i].path, sw)
    ensures Midway(was, later, files, swaps + [sw]) && SwapsFit(files, swaps + [sw], i + 1)
  {
    ForeignStays(was, now, later, files, i);
    forall k | 0 <= k < |files|
      ensures FileState(was, later, files, k, swaps + [sw])
    {
      if k != i {
        OthersStay(was, now, later, files, i, k, swaps);
        LastSwapIsOfAnother(was, later, files, k, swaps, sw);
      } else {
        assert FileState(was, now, files, i, swaps);
        SwappedSinceStart(was, now, later, files[i].path, sw);
        assert (swaps + [sw])[|swaps|] == sw;
      }
    }
  }

  /** The swap of one file failed, or was undone. */
  lemma FailureStaysMidway(was: Files, now: Files, later: Files, files: seq<PackageFile>, i: nat, swaps: seq<Swap>)
    requires Accepted(files) && Midway(was, now, files, swaps) && SwapsFit(files, swaps, i)
    requires i < |files| && files[i].download && OnlyTouched(now, later, files[i].path)
             && AsBefore(now, later, files[i].path)
    ensures Midway(was, later, files, swaps)
  {
    ForeignStays(was, now, later, files, i);
    forall k | 0 <= k < |files|
      ensures FileState(was, later, files, k, swaps)
    {
      if k != i {
        OthersStay(was, now, later, files, i, k, swaps);
      } else {
        assert FileState(was, now, files, i, swaps);
        assert AsBefore(was, now, files[i].path);
      }
    }
  }

  /** The last swap was undone. */
  lemma UndoStaysMidway(was: Files, now: Files, later: Files, files: seq<PackageFile>, swaps: seq<Swap>, bound: nat)
    requires Accepted(files) && Midway(was, now, files, swaps) && SwapsFit(files, swaps, bound) && swaps != []
    requires var i := swaps[|swaps| - 1].index;
             OnlyTouched(now, later, files[i].path) && AsBefore(was, later, files[i].path)
    ensures Midway(was, later, files, swaps[..|swaps| - 1]) && SwapsFit(files, swaps[..|swaps| - 1], bound)
  {
    var n := |swaps| - 1;
    var rest, sw := swaps[..n], swaps[n];
    assert swaps == rest + [sw];
    SwapsFitButLast(files, rest, sw, bound);
    ForeignStays(was, now, later, files, sw.index);
    forall k | 0 <= k < |files|
      ensures FileState(was, later, files, k, rest)
    {
      MidwayAt(was, now, files, swaps, k);
      UndoLeavesState(was, now, later, files, k, rest, sw);
    }
  }

  lemma MidwayAt(was: Files, now: Files, files: seq<PackageFile>, swaps: seq<Swap>, k: nat)
    requires Midway(was, now, files, swaps) && k < |files|
    ensures FileState(was, now, files, k, swaps)
  {
  }

  lemma SwapsFitButLast(files: seq<PackageFile>, rest: seq<Swap>, sw: Swap, bound: nat)
    requires SwapsFit(files, rest + [sw], bound)
    ensures SwapsFit(files, rest, bound) && sw.index < |files| && files[sw.index].download
    ensures forall m :: 0 <= m < |rest| ==> rest[m].index != sw.index
  {
    var swaps := rest + [sw];
    assert swaps[|rest|] == sw;
    assert forall m :: 0 <= m < |rest| ==> swaps[m] == rest[m];
  }

  /** The last swap was undone: what that means for one file. */
  lemma UndoLeavesState(was: Files, now: Files, later: Files, files: seq<PackageFile>, k: nat, rest: seq<Swap>,
                        sw: Swap)
    requires Accepted(files) && k < |files| && sw.index < |files| && FileState(was, now, files, k, rest + [sw])
    requires forall m :: 0 <= m < |rest| ==> rest[m].index != sw.index
    requires OnlyTouched(now, later, files[sw.index].path) && AsBefore(was, later, files[sw.index].path)
    ensures FileState(was, later, files, k, rest)
  {
    if k != sw.index {
      OthersStay(was, now, later, files, sw.index, k, rest + [sw]);
      LastSwapIsOfAnother(was, later, files, k, rest, sw);
    }
  }

  /** Success: every downloaded file is in place and its download consumed; a file it replaced is still
      there under an old name; no other file of the package and nothing foreign has changed. */
  ghost predicate AllReplaced(was: Files, now: Files, files: seq<PackageFile>) {
    && (forall k :: 0 <= k < |files| && files[k].download ==> exists sw :: Swapped(was, now, files[k].path, sw))
    && (forall k :: 0 <= k < |files| && !files[k].download ==> AsBefore(was, now, files[k].path))
    && (forall name :: Foreign(files, name) ==> Agree(was, now, name))
  }

  /** Failure: every file of the package and every download is as before, and nothing foreign has changed. */
  ghost predicate NothingReplaced(was: Files, now: Files, files: seq<PackageFile>) {
    && (forall k :: 0 <= k < |files| ==> AsBefore(was, now, files[k].path))
    && (forall name :: Foreign(files, name) ==> Agree(was, now, name))
  }

  ghost predicate Covered(files: seq<PackageFile>, swaps: seq<Swap>, i: nat) {
    forall k :: 0 <= k < i <= |files| && files[k].download ==> exists m :: 0 <= m < |swaps| && swaps[m].index == k
  }

  lemma MidwayToTheEnd(was: Files, now: Files, files: seq<PackageFile>, swaps: seq<Swap>)
    requires Midway(was, now, files, swaps) && SwapsFit(files, swaps, |files|) && Covered(files, swaps, |files|)
    ensures AllReplaced(was, now, files)
  {
    forall k | 0 <= k < |files| && files[k].download
      ensures exists sw :: Swapped(was, now, files[k].path, sw)
    {
      var m :| 0 <= m < |swaps| && swaps[m].index == k;
      assert FileState(was, now, files, k, swaps);
      assert Swapped(was, now, files[k].path, swaps[m]);
    }
    forall k | 0 <= k < |files| && !files[k].download
      ensures AsBefore(was, now, files[k].path)
    {
      assert FileState(was, now, files, k, swaps);
    }
  }

  lemma MidwayWithoutSwaps(was: Files, now: Files, files: seq<PackageFile>)
    requires Midway(was, now, files, [])
    ensures NothingReplaced(was, now, files)
  {
    forall k | 0 <= k < |files|
      ensures AsBefore(was, now, files[k].path)
    {
      assert FileState(was, now, files, k, []);
    }
  }

  lemma CoveredNext(files: seq<PackageFile>, swaps: seq<Swap>, i: nat, sw: Swap)
    requires i < |files| && Covered(files, swaps, i)
    ensures !files[i].download ==> Covered(files, swaps, i + 1)
    ensures sw.index == i ==> Covered(files, swaps + [sw], i + 1)
  {
    var more := swaps + [sw];
    forall k | 0 <= k < i + 1 && files[k].download && sw.index == i
      ensures exists m :: 0 <= m < |more| && more[m].index == k
    {
      if k < i {
        var m :| 0 <= m < |swaps| && swaps[m].index == k;
        assert more[m].index == k;
      } else {
        assert more[|swaps|].index == i;
      }
    }
  }

  // ----- single renames -----

  function Moved(files: Files, from: string, to: string): (r: Files)
    requires from in files
  {
    (files - {from})[to := files[from]]
  }

  lemma MoveTouches(was: Files, now: Files, path: string, from: string, to: string)
    requires OnlyTouched(was, now, path) && from in now && Touches(path, from) && Touches(path, to)
    ensures OnlyTouched(was, Moved(now, from, to), path)
  {
    forall name | !Touches(path, name)
      ensures Agree(was, Moved(now, from, to), name)
    {
      assert Agree(was, now, name);
      assert name != from && name != to;
    }
  }

  /** Out of the way and in: the file goes to its old name, and the download takes its place. */
  lemma OutAndIn(was: Files, now: Files, path: string, n: nat, sw: Swap)
    requires Safe(path) && 1 <= n <= 9 && AsBefore(was, now, path) && OnlyTouched(was, now, path)
    requires Target(path) in now && OldName(path, n) !in now && NewName(path) in now
    requires sw.hadOld && sw.kept == OldName(path, n)
    ensures NewName(path) in Moved(now, Target(path), OldName(path, n))
    ensures var later := Moved(Moved(now, Target(path), OldName(path, n)), NewName(path), Target(path));
            Swapped(was, later, path, sw) && OnlyTouched(was, later, path)
  {
    OwnNamesDiffer(path, n);
    var mid := Moved(now, Target(path), OldName(path, n));
    MoveTouches(was, now, path, Target(path), OldName(path, n));
    MoveTouches(was, mid, path, NewName(path), Target(path));
  }

  /** Out of the way and back again. */
  lemma OutAndBack(was: Files, now: Files, path: string, n: nat)
    requires Safe(path) && 1 <= n <= 9 && AsBefore(was, now, path) && OnlyTouched(was, now, path)
    requires Target(path) in now && OldName(path, n) !in now
    ensures var mid := Moved(now, Target(path), OldName(path, n));
            && OldName(path, n) in mid && Target(path) !in mid
            && AsBefore(was, Moved(mid, OldName(path, n), Target(path)), path)
            && OnlyTouched(was, Moved(mid, OldName(path, n), Target(path)), path)
  {
    OwnNamesDiffer(path, n);
    var mid := Moved(now, Target(path), OldName(path, n));
    MoveTouches(was, now, path, Target(path), OldName(path, n));
    MoveTouches(was, mid, path, OldName(path, n), Target(path));
  }

  /** Where there was no file before, the download just takes its name. */
  lemma JustIn(was: Files, path: string, sw: Swap)
    requires Safe(path) && Target(path) !in was && NewName(path) in was && !sw.hadOld
    ensures Swapped(was, Moved(was, NewName(path), Target(path)), path, sw)
    ensures OnlyTouched(was, Moved(was, NewName(path), Target(path)), path)
  {
    OwnNamesDiffer(path, 1);
    MoveTouches(was, was, path, NewName(path), Target(path));
  }

  /** Three names: the file, its download, and the old name. */
  lemma ThreeNames(was: Files, now: Files, full: string, neu: string, old_: string)
    requires full != neu && full != old_ && neu != old_
    requires full in was && neu in was && full in now && now[full] == was[neu] && old_ in now && now[old_] == was[full]
    ensures var mid := Moved(now, full, neu);
            && old_ in mid && full !in mid
            && Agree(was, Moved(mid, old_, full), full) && Agree(was, Moved(mid, old_, full), neu)
  {
  }

  /** The download went back to its name: now the kept file goes to its own. */
  lemma KeptGoesBack(was: Files, now: Files, mid: Files, path: string, sw: Swap, n: nat)
    requires Safe(path) && Swapped(was, now, path, sw) && sw.hadOld && OnlyTouched(now, mid, path)
    requires mid == Moved(now, Target(path), NewName(path)) && 1 <= n <= 9 && sw.kept == OldName(path, n)
    ensures sw.kept in mid && Target(path) !in mid
    ensures OnlyTouched(now, Moved(mid, sw.kept, Target(path)), path)
    ensures AsBefore(was, Moved(mid, sw.kept, Target(path)), path)
  {
    OwnNamesDiffer(path, n);
    ThreeNames(was, now, Target(path), NewName(path), sw.kept);
    MoveTouches(now, mid, path, sw.kept, Target(path));
  }

  /** Undoing a swap: the download goes back to its name, and the kept file, if any, to its own. */
  lemma Undone(was: Files, now: Files, path: string, sw: Swap, mid: Files)
    requires Safe(path) && Swapped(was, now, path, sw) && mid == Moved(now, Target(path), NewName(path))
    ensures OnlyTouched(now, mid, path) && (!sw.hadOld ==> AsBefore(was, mid, path))
    ensures sw.hadOld ==>
              && sw.kept in mid && Target(path) !in mid
              && OnlyTouched(now, Moved(mid, sw.kept, Target(path)), path)
              && AsBefore(was, Moved(mid, sw.kept, Target(path)), path)
  {
    OwnNamesDiffer(path, 1);
    MoveTouches(now, now, path, Target(path), NewName(path));
    if sw.hadOld {
      var n :| 1 <= n <= 9 && sw.kept == OldName(path, n);
      KeptGoesBack(was, now, mid, path, sw, n);
    }
  }

  // ----- when a file can be swapped -----

  /** What the system grants while one file is swapped: the rename out of the way, the rename into place, and the
      deletion of each old name. */
  datatype Grants = Grants(out: bool, into: bool, deletes: nat -> bool)

  /** The n-th old name is free, or can be freed. */
  predicate Spare(files: Files, path: string, g: Grants, n: nat) {
    OldName(path, n) !in files || g.deletes(n)
  }

  ghost predicate HasSpare(files: Files, path: string, g: Grants) {
    exists n :: 1 <= n <= 9 && Spare(files, path, g, n)
  }

  /** The download is there and nothing that its swap needs is refused. */
  ghost predicate CanSwap(files: Files, path: string, g: Grants) {
    NewName(path) in files && g.into && (Target(path) in files ==> g.out && HasSpare(files, path, g))
  }

  /** None of the old names before the n-th is free, or can be. */
  ghost predicate NoSpareBelow(files: Files, path: string, g: Grants, n: nat) {
    forall m :: 1 <= m < n ==> !Spare(files, path, g, m)
  }

  /** One try of an old name: it is free afterwards, or was no spare name. */
  lemma SpareTried(files: Files, path: string, g: Grants, n: nat, spare: string, later: Files)
    requires spare == OldName(path, n) && NoSpareBelow(files, path, g, n)
    requires later == if g.deletes(n) then files - {spare} else files
    ensures spare !in later ==> Spare(files, path, g, n) && later == files - {spare}
    ensures spare in later ==> NoSpareBelow(files, path, g, n + 1) && later == files
  {
    if spare !in files {
      assert files - {spare} == files;
    }
  }

  /** Only what happens to names touched for the path matters to its swap. */
  lemma CanSwapDependsOn(a: Files, b: Files, path: string, g: Grants)
    requires forall name :: Touches(path, name) ==> Agree(a, b, name)
    requires Safe(path)
    ensures CanSwap(a, path, g) <==> CanSwap(b, path, g)
  {
    OwnNamesDiffer(path, 1);
    assert Agree(a, b, NewName(path)) && Agree(a, b, Target(path));
    forall n | 1 <= n <= 9
      ensures Spare(a, path, g, n) <==> Spare(b, path, g, n)
    {
      OwnNamesDiffer(path, n);
      assert Agree(a, b, OldName(path, n));
    }
    assert HasSpare(a, path, g) <==> HasSpare(b, path, g);
  }

  /** The files from the i-th on, and all their names, are as they were. */
  ghost predicate NotYet(was: Files, now: Files, files: seq<PackageFile>, i: nat) {
    forall k, name :: i <= k < |files| && files[k].download && Touches(files[k].path, name) ==> Agree(was, now, name)
  }

  lemma NotYetNext(was: Files, now: Files, later: Files, files: seq<PackageFile>, i: nat)
    requires Accepted(files) && i < |files| && NotYet(was, now, files, i) && OnlyTouched(now, later, files[i].path)
    ensures NotYet(was, later, files, i + 1)
  {
    forall k, name | i + 1 <= k < |files| && files[k].download && Touches(files[k].path, name)
      ensures Agree(was, later, name)
    {
      AcceptedAreApart(files, i, k);
      assert !Touches(files[i].path, name);
      assert Agree(was, now, name) && Agree(now, later, name);
    }
  }

  lemma CanStillSwap(was: Files, now: Files, files: seq<PackageFile>, i: nat, g: Grants)
    requires Accepted(files) && i < |files| && files[i].download && NotYet(was, now, files, i)
    ensures CanSwap(was, files[i].path, g) <==> CanSwap(now, files[i].path, g)
  {
    CanSwapDependsOn(was, now, files[i].path, g);
  }

  /** Each of the first n downloads of the package can be swapped, given what the system grants for each. */
  ghost predicate AllCanSwap(files: Files, pkg: seq<PackageFile>, env: nat -> Grants, n: nat) {
    forall k :: 0 <= k < n <= |pkg| && pkg[k].download ==> CanSwap(files, pkg[k].path, env(k))
  }

  /** The k-th file is the first download that cannot be swapped. */
  ghost predicate FirstFailure(files: Files, pkg: seq<PackageFile>, env: nat -> Grants, k: nat) {
    k < |pkg| && pkg[k].download && !CanSwap(files, pkg[k].path, env(k)) && AllCanSwap(files, pkg, env, k)
  }

  lemma DeletionTouches(was: Files, now: Files, path: string, n: nat)
    requires Safe(path) && 1 <= n <= 9 && OnlyTouched(was, now, path) && AsBefore(was, now, path)
    ensures OnlyTouched(was, now - {OldName(path, n)}, path) && AsBefore(was, now - {OldName(path, n)}, path)
  {
    OwnNamesDiffer(path, n);
    forall name | !Touches(path, name)
      ensures Agree(was, now - {OldName(path, n)}, name)
    {
      assert Agree(was, now, name) && name != OldName(path, n);
    }
  }

  class Disk {
    var files: Files

    predicate Exists(name: string)
      reads this
    {
      name in files
    }

    /** MoveFileExW without MOVEFILE_REPLACE_EXISTING. */
    method Move(from: string, to: string, granted: bool) returns (ok: bool)
      modifies this
      ensures ok <==> granted && from in old(files) && to !in old(files)
      ensures files == if ok then Moved(old(files), from, to) else old(files)
    {
      ok := granted && from in files && to !in files;
      if ok {
        files := (files - {from})[to := files[from]];
      }
    }

    /** MoveFileExW with MOVEFILE_REPLACE_EXISTING, which an undo relies on. */
    method MoveOver(from: string, to: string)
      requires from in files
      modifies this
      ensures files == Moved(old(files), from, to)
    {
      files := (files - {from})[to := files[from]];
    }

    /** DeleteFileW; refused while the file is open. */
    method Delete(name: string, granted: bool)
      modifies this
      ensures files == if granted then old(files) - {name} else old(files)
    {
      if granted {
        files := files - {name};
      }
    }

    /** The first old name that is free, or can be freed. */
    method FreeOldName(path: string, g: Grants) returns (n: nat, spare: string)
      requires Safe(path)
      modifies this
      ensures 1 <= n <= 10 && NoSpareBelow(old(files), path, g, n)
      ensures n <= 9 ==> spare == OldName(path, n) && Spare(old(files), path, g, n)
      ensures files == if n <= 9 then old(files) - {spare} else old(files)
    {
      n, spare := 1, "";
      while n <= 9
        invariant 1 <= n <= 10 && files == old(files) && NoSpareBelow(files, path, g, n)
      {
        spare := OldName(path, n);
        Delete(spare, g.deletes(n));
        SpareTried(old(files), path, g, n, spare, files);
        if !Exists(spare) {
          return;
        }
        n := n + 1;
      }
    }

    /** One turn of the forward loop. */
    method SwapOne(path: string, index: nat, g: Grants) returns (ok: bool, sw: Swap)
      requires Safe(path)
      modifies this
      ensures ok <==> CanSwap(old(files), path, g)
      ensures OnlyTouched(old(files), files, path) && sw.index == index
      ensures ok ==> Swapped(old(files), files, path, sw)
      ensures !ok ==> AsBefore(old(files), files, path)
    {
      var full, neu := Target(path), NewName(path);
      var hadOld := Exists(full);
      sw := Swap(index, hadOld, "");
      if hadOld {
        ok, sw := SwapOver(path, sw, g);
      } else {
        ok := Move(neu, full, g.into);
        if ok {
          JustIn(old(files), path, sw);
        }
      }
    }

    /** Where there is a file already: it is moved out of the way, and back if the download cannot take its place. */
    method SwapOver(path: string, sw0: Swap, g: Grants) returns (ok: bool, sw: Swap)
      requires Safe(path) && Target(path) in files && sw0.hadOld
      modifies this
      ensures ok <==> CanSwap(old(files), path, g)
      ensures OnlyTouched(old(files), files, path) && sw.index == sw0.index
      ensures ok ==> Swapped(old(files), files, path, sw)
      ensures !ok ==> AsBefore(old(files), files, path)
    {
      var full, neu := Target(path), NewName(path);
      sw := sw0;
      var n, spare := FreeOldName(path, g);
      if n > 9 {
        return false, sw;
      }
      sw := sw0.(kept := spare);
      DeletionTouches(old(files), old(files), path, n);
      OwnNamesDiffer(path, n);
      ghost var now := files;
      ok := Move(full, spare, g.out);
      if !ok {
        return;
      }
      OutAndBack(old(files), now, path, n);
      ok := Move(neu, full, g.into);
      if ok {
        OutAndIn(old(files), now, path, n, sw);
      } else {
        var undone := Move(spare, full, true);
      }
    }

    /** One turn of the undo loop. */
    method UndoOne(path: string, sw: Swap, ghost was: Files)
      requires Safe(path) && Swapped(was, files, path, sw)
      modifies this
      ensures OnlyTouched(old(files), files, path) && AsBefore(was, files, path)
    {
      var full, neu := Target(path), NewName(path);
      Undone(was, files, path, sw, Moved(files, full, neu));
      MoveOver(full, neu);
      if sw.hadOld {
        var undone := Move(sw.kept, full, true);
      }
    }

    /** All or nothing. `env` says what is granted for each file on the way forward. The package is put in place if
        and only if every download can be swapped; else, undo renames succeeding, all files and their downloads are
        as before, and the first that could not be swapped is named. */
    method SwapPackage(pkg: seq<PackageFile>, env: nat -> Grants) returns (ok: bool, failed: string, ghost at: nat)
      requires Accepted(pkg)
      modifies this
      ensures ok <==> AllCanSwap(old(files), pkg, env, |pkg|)
      ensures ok ==> AllReplaced(old(files), files, pkg)
      ensures !ok ==> NothingReplaced(old(files), files, pkg)
      ensures !ok ==> FirstFailure(old(files), pkg, env, at) && failed == pkg[at].path
    {
      ghost var was := files;
      var swaps: seq<Swap> := [];
      ok, failed, at := true, "", 0;
      var i := 0;
      StartsMidway(was, pkg);
      while i < |pkg| && ok
        invariant i <= |pkg| && Midway(was, files, pkg, swaps) && SwapsFit(pkg, swaps, i)
        invariant ok ==> Covered(pkg, swaps, i) && NotYet(was, files, pkg, i) && AllCanSwap(was, pkg, env, i)
        invariant !ok ==> FirstFailure(was, pkg, env, at) && failed == pkg[at].path
      {
        if pkg[i].download {
          ghost var now := files;
          var sw;
          CanStillSwap(was, files, pkg, i, env(i));
          ok, sw := SwapOne(pkg[i].path, i, env(i));
          CoveredNext(pkg, swaps, i, sw);
          if ok {
            NotYetNext(was, now, files, pkg, i);
            SwapStaysMidway(was, now, files, pkg, i, swaps, sw);
            swaps := swaps + [sw];
          } else {
            FailureStaysMidway(was, now, files, pkg, i, swaps);
            failed, at := pkg[i].path, i;
          }
        } else {
          CoveredNext(pkg, swaps, i, Swap(i, false, ""));
        }
        i := i + 1;
      }
      if ok {
        MidwayToTheEnd(was, files, pkg, swaps);
        return;
      }
      while swaps != []
        invariant Midway(was, files, pkg, swaps) && SwapsFit(pkg, swaps, i) && i <= |pkg|
        decreases |swaps|
      {
        ghost var now := files;
        var sw := swaps[|swaps| - 1];
        assert FileState(was, files, pkg, sw.index, swaps);
        UndoOne(pkg[sw.index].path, sw, was);
        UndoStaysMidway(was, now, files, pkg, swaps, i);
        swaps := swaps[..|swaps| - 1];
      }
      MidwayWithoutSwaps(was, files, pkg);
    }
  }
}
