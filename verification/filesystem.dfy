/**
 * A destination on a local disk: its steps as system calls, and what survives a stop between any
 * two of them. Every name of an archive is of a whole one, earlier or new.
 */
module Filesystems {
  import opened Text
  import opened Clock
  import opened Paths
  import opened Roots
  import opened Dumps
  import opened Ordering

  /** What is in a file, how much of it would survive a loss of power, and when it was last written. */
  datatype File = File(bytes: Bytes, flushed: nat, at: Instant)

  /** The files under the root of a destination, by the path that leads to them from there. */
  type Disk = map<string, File>

  datatype Entry = Entry(path: string, bytes: nat, at: Instant)

  const PARTIAL_SUFFIX := ".partial"

  predicate IsPartial(path: string) {
    HasSuffix(path, PARTIAL_SUFFIX)
  }

  /** The directories a path goes through. */
  function Directories(path: string): set<string> {
    set i | 0 <= i < |path| && path[i] == '/' :: path[..i]
  }

  /** The directories of a path are what comes before its slashes. */
  lemma DirectoriesComeBeforeSlashes(path: string, d: string)
    ensures d in Directories(path) <==> d + "/" <= path
  {
    if d + "/" <= path {
      assert path[|d|] == '/' && path[..|d|] == d;
    }
  }

  /** What has no slash of its own is in the directory it is put in. */
  lemma BesideIsInTheSameDirectory(path: string, name: string)
    requires '/' !in name
    ensures Directories(path[..LastIndexOf(path, '/') + 1] + name) == Directories(path)
  {
    var parent := path[..LastIndexOf(path, '/') + 1];
    var other := parent + name;
    NothingAfterLastIndex(path, '/');
    assert forall k | |parent| <= k < |other| :: other[k] == name[k - |parent|] && other[k] in name;
    forall d ensures d in Directories(other) <==> d in Directories(path) {
      if d in Directories(other) {
        var i :| 0 <= i < |other| && other[i] == '/' && d == other[..i];
        assert i < |parent|;
        assert path[..i] == other[..i] && path[i] == '/';
      }
      if d in Directories(path) {
        var i :| 0 <= i < |path| && path[i] == '/' && d == path[..i];
        assert i < |parent|;
        assert path[..i] == other[..i] && other[i] == '/';
      }
    }
  }

  /** Temporary are exactly the files named so. */
  lemma PartialsEndSo(path: string)
    ensures IsPartial(path) <==> HasSuffix(path, ".partial")
    ensures IsPartial(path + ".partial")
  {
    assert (path + ".partial")[|path|..] == ".partial";
  }

  /** A file written whole, and flushed. */
  predicate IsWhole(disk: Disk, q: string, whole: Bytes) {
    q in disk && disk[q].bytes == whole && disk[q].flushed == |whole|
  }

  /** What a crash may leave of one file: its name or not, its bytes cut anywhere in what was not flushed. */
  ghost predicate IsRemnant(disk: Disk, after: Disk, q: string) {
    && (q in after <==> q in disk)
    && (q in disk ==>
          && after[q].bytes <= disk[q].bytes
          && |after[q].bytes| >= Min(disk[q].flushed, |disk[q].bytes|))
  }

  /**
   * What a crash may leave after these moments. Directories are not flushed: each name is as it was
   * at the last of them, or at any earlier one.
   */
  ghost predicate CrashLeaves(moments: seq<Disk>, after: Disk) {
    forall q :: IsRemnantOfSome(moments, after, q)
  }

  ghost predicate IsRemnantOfSome(moments: seq<Disk>, after: Disk, q: string) {
    exists k | 0 <= k < |moments| :: IsRemnant(moments[k], after, q)
  }

  predicate IsSafeAt(disk: Disk, q: string) {
    q in disk ==> disk[q].flushed == |disk[q].bytes|
  }

  /**
   * A moment of a write to `final`, through the temporary file `temp`, of a stream that comes to
   * `whole`: nothing else has changed, and the target is as it was or holds the whole, flushed.
   */
  ghost predicate IsMoment(start: Disk, disk: Disk, final: string, temp: string, whole: Bytes) {
    && (forall q | q != final && q != temp :: SameAt(start, disk, q))
    && (SameAt(start, disk, final) || IsWhole(disk, final, whole))
  }

  ghost predicate SameAt(a: Disk, b: Disk, q: string) {
    (q in a <==> q in b) && (q in a ==> a[q] == b[q])
  }

  /** What a reader of the disk sees at a path after a crash: what was there, or the whole. */
  lemma CrashesLeaveWholeArchives(
    start: Disk, moments: seq<Disk>, after: Disk, final: string, temp: string, whole: Bytes, q: string)
    requires forall k | 0 <= k < |moments| :: IsMoment(start, moments[k], final, temp, whole)
    requires CrashLeaves(moments, after) && q != temp && IsSafeAt(start, q)
    ensures (q in after && q == final && after[q].bytes == whole)
         || ((q in after <==> q in start) && (q in start ==> after[q].bytes == start[q].bytes))
  {
    assert IsRemnantOfSome(moments, after, q);
    var k :| 0 <= k < |moments| && IsRemnant(moments[k], after, q);
    assert IsMoment(start, moments[k], final, temp, whole);
    assert SameAt(start, moments[k], q) || q == final;
    if q in moments[k] {
      assert after[q].bytes <= moments[k][q].bytes;
    }
  }

  predicate IsSettled(disk: Disk, q: string, whole: Bytes) {
    q in disk && disk[q].bytes == whole && disk[q].flushed >= |whole|
  }

  /**
   * Whether what is at a path survives any crash: exactly when it lay there whole and flushed at
   * every moment a crash may go back to. A rename alone does not bring that about.
   */
  lemma WhatSurvivesACrash(moments: seq<Disk>, q: string, whole: Bytes)
    requires moments != []
    ensures (forall after: Disk | CrashLeaves(moments, after) :: Holds(after, q, whole))
       <==> forall k | 0 <= k < |moments| :: IsSettled(moments[k], q, whole)
  {
    if k :| 0 <= k < |moments| && !IsSettled(moments[k], q, whole) {
      var after := ACrashMayLeave(moments, k, q, whole);
      assert CrashLeaves(moments, after);
    } else {
      forall after: Disk | CrashLeaves(moments, after) ensures Holds(after, q, whole) {
        assert IsRemnantOfSome(moments, after, q);
        var k :| 0 <= k < |moments| && IsRemnant(moments[k], after, q);
        assert IsSettled(moments[k], q, whole);
      }
    }
  }

  /** What is not settled may be cut, or is not the whole as it is. */
  lemma ARemnantMayBe(disk: Disk, q: string, whole: Bytes) returns (after: Disk)
    requires !IsSettled(disk, q, whole)
    ensures !Holds(after, q, whole) && forall x :: IsRemnant(disk, after, x)
  {
    if q in disk && disk[q].bytes == whole {
      after := disk[q := disk[q].(bytes := whole[..disk[q].flushed])];
    } else {
      after := disk;
    }
  }

  lemma ACrashMayLeave(moments: seq<Disk>, k: nat, q: string, whole: Bytes) returns (after: Disk)
    requires k < |moments|
    requires !IsSettled(moments[k], q, whole)
    ensures CrashLeaves(moments, after) && !Holds(after, q, whole)
  {
    after := ARemnantMayBe(moments[k], q, whole);
    forall x ensures IsRemnantOfSome(moments, after, x) {
      assert IsRemnant(moments[k], after, x);
    }
  }

  /** What was not at a path when a crash may go back to may be gone again: a success is not yet durable. */
  lemma APublicationMayBeLost(moments: seq<Disk>, final: string)
    requires exists k | 0 <= k < |moments| :: final !in moments[k]
    ensures exists after: Disk :: CrashLeaves(moments, after) && final !in after
  {
    var k :| 0 <= k < |moments| && final !in moments[k];
    forall x ensures IsRemnantOfSome(moments, moments[k], x) {
      assert IsRemnant(moments[k], moments[k], x);
    }
    assert CrashLeaves(moments, moments[k]);
  }

  /** Each name may be as it was at a moment of its own. */
  lemma NamesFailApart(moments: seq<Disk>, i: nat, p: string, q: string, fromI: Disk, j: nat) returns (after: Disk)
    requires i < |moments| && j < |moments| && p != q
    requires IsRemnant(moments[i], fromI, p)
    ensures CrashLeaves(moments, after) && (p in after <==> p in fromI) && (p in fromI ==> after[p] == fromI[p])
    ensures (q in after <==> q in moments[j]) && (q in moments[j] ==> after[q] == moments[j][q])
  {
    after := if p in fromI then moments[j][p := fromI[p]] else moments[j] - {p};
    forall x ensures IsRemnantOfSome(moments, after, x) {
      assert x == p ==> IsRemnant(moments[i], after, x);
      assert x != p ==> IsRemnant(moments[j], after, x);
    }
  }

  /**
   * A marker beside an archive means something after any loss of power exactly when no moment a
   * crash may go back to has the marker, or all of them have the archive, whole and flushed.
   */
  lemma MarkersSurviveIff(moments: seq<Disk>, archive: string, marker: string, whole: Bytes)
    requires archive != marker
    ensures (forall after: Disk | CrashLeaves(moments, after) && marker in after :: Holds(after, archive, whole))
       <==> || (forall k | 0 <= k < |moments| :: marker !in moments[k])
            || (forall k | 0 <= k < |moments| :: IsSettled(moments[k], archive, whole))
  {
    if j :| 0 <= j < |moments| && marker in moments[j] {
      if i :| 0 <= i < |moments| && !IsSettled(moments[i], archive, whole) {
        var cut := ARemnantMayBe(moments[i], archive, whole);
        var after := NamesFailApart(moments, i, archive, marker, cut, j);
        assert CrashLeaves(moments, after) && marker in after && !Holds(after, archive, whole);
      } else {
        forall after: Disk | CrashLeaves(moments, after) && marker in after ensures Holds(after, archive, whole) {
          assert IsRemnantOfSome(moments, after, archive);
        }
      }
    } else {
      forall after: Disk | CrashLeaves(moments, after) ensures marker !in after {
        assert IsRemnantOfSome(moments, after, marker);
      }
    }
  }

  predicate Holds(disk: Disk, q: string, whole: Bytes) {
    q in disk && disk[q].bytes == whole
  }

  /** Flushed as both are, the marker may be there without its archive while no directory is. */
  lemma AMarkerMayOutliveItsArchive(archive: string, marker: string, a: File, m: File)
    requires archive != marker
    ensures CrashLeaves([map[], map[archive := a], map[archive := a, marker := m]], map[marker := m])
  {
    var moments: seq<Disk> := [map[], map[archive := a], map[archive := a, marker := m]];
    var after: Disk := map[marker := m];
    forall x ensures IsRemnantOfSome(moments, after, x) {
      assert x == marker ==> IsRemnant(moments[2], after, x);
      assert x != marker ==> IsRemnant(moments[0], after, x);
    }
  }

  /** Without the flush the same rename would publish a file that a crash can cut anywhere. */
  lemma UnflushedArchivesAreCut(whole: Bytes, final: string, at: Instant, k: nat)
    requires k <= |whole|
    ensures CrashLeaves([map[final := File(whole, 0, at)]], map[final := File(whole[..k], 0, at)])
  {
    forall q ensures IsRemnantOfSome([map[final := File(whole, 0, at)]], map[final := File(whole[..k], 0, at)], q) {
      assert IsRemnant([map[final := File(whole, 0, at)]][0], map[final := File(whole[..k], 0, at)], q);
    }
  }

  /** The stream an archive comes from: chunks until its end, or an error. */
  class Incoming {
    const healthy: bool
    var left: nat
    ghost var given: Bytes
    ghost var ended: bool

    constructor (healthy: bool)
      ensures given == "" && !ended && this.healthy == healthy
    {
      this.healthy := healthy;
      left := *;
      given, ended := "", false;
    }

    method Read() returns (chunk: Bytes, status: ReadStatus)
      modifies this
      ensures given == old(given) + chunk && ended == (old(ended) || status.EndOfFile?)
      ensures status.More? ==> left < old(left)
      ensures healthy ==> !status.Broken?
    {
      chunk, status := *, *;
      if status.Broken? || (status.More? && left == 0) {
        status := if healthy then EndOfFile else Broken;
      }
      if status.More? {
        left := left - 1;
      }
      given := given + chunk;
      ended := ended || status.EndOfFile?;
    }
  }

  predicate IsEmptyFile(f: File) {
    f.bytes == "" && f.flushed == 0
  }

  class Filesystem {
    /** The names that lead to the root, from the top of the file system. */
    const root: seq<string>

    /** No system call fails. */
    const healthy: bool
    var disk: Disk
    var directories: set<string>

    /** Every disk there was, one system call after the other: where a crash may fall. */
    ghost var moments: seq<Disk>

    ghost predicate Valid()
      reads this
    {
      && moments != [] && moments[|moments| - 1] == disk
      && forall q | q in disk :: Directories(q) <= directories
    }

    constructor (root: seq<string>, healthy: bool)
      ensures Valid() && disk == map[] && this.root == root && this.healthy == healthy
    {
      this.healthy := healthy;
      this.root, disk, directories, moments := root, map[], {}, [map[]];
    }

    method Put(path: string, bytes: Bytes, flushed: nat)
      requires Valid() && Directories(path) <= directories
      modifies this`disk, this`moments
      ensures Valid() && path in disk && disk == old(disk)[path := disk[path]] && moments == old(moments) + [disk]
      ensures disk[path].bytes == bytes && disk[path].flushed == flushed
    {
      var now: Instant := *;
      disk := disk[path := File(bytes, flushed, now)];
      moments := moments + [disk];
    }

    /** Makes what is missing of the way to a file; some of it may be left behind by a failure. */
    method MakeDirectories(path: string) returns (ok: bool)
      requires Valid()
      modifies this`directories
      ensures Valid() && old(directories) <= directories <= old(directories) + Directories(path)
      ensures ok ==> Directories(path) <= directories
      ensures healthy ==> ok
    {
      var made: set<string> := *;
      if healthy {
        made := Directories(path);
      }
      directories := directories + made * Directories(path);
      return Directories(path) <= directories;
    }

    /** A name nobody has, in the directory of the target, ending in ".partial". */
    method CreateTemp(final: string) returns (temp: Option<string>)
      requires Valid() && Directories(final) <= directories
      modifies this`disk, this`moments
      ensures Valid()
      ensures temp.None? ==> disk == old(disk) && moments == old(moments)
      ensures temp.Some? ==>
                && temp.value !in old(disk) && temp.value != final && IsPartial(temp.value)
                && temp.value in disk && IsEmptyFile(disk[temp.value])
                && disk == old(disk)[temp.value := disk[temp.value]] && moments == old(moments) + [disk]
      ensures healthy ==> temp.Some?
    {
      var name: string := *;
      if name in disk || name == final || !IsPartial(name) || Directories(name) != Directories(final) {
        if !healthy {
          return None;
        }
        name := FreshName(final);
      }
      Put(name, "", 0);
      return Some(name);
    }

    /** A name of its own in the directory of a file: there is always one, if only a longer one. */
    method FreshName(final: string) returns (name: string)
      ensures name !in disk && name != final && IsPartial(name) && Directories(name) == Directories(final)
    {
      var longest := |final|;
      var todo := disk.Keys;
      while todo != {}
        invariant todo <= disk.Keys && |final| <= longest
        invariant forall q | q in disk.Keys - todo :: |q| <= longest
        decreases todo
      {
        var q :| q in todo;
        todo := todo - {q};
        longest := if |q| > longest then |q| else longest;
      }
      var parent := final[..LastIndexOf(final, '/') + 1];
      var filler := seq(longest, _ => '0');
      name := parent + (filler + PARTIAL_SUFFIX);
      BesideIsInTheSameDirectory(final, filler + PARTIAL_SUFFIX);
      PartialsEndSo(name);
      assert parent + (filler + PARTIAL_SUFFIX) == parent + filler + PARTIAL_SUFFIX;
    }

    method Append(temp: string, chunk: Bytes) returns (ok: bool)
      requires Valid() && temp in disk && disk[temp].flushed == 0
      modifies this`disk, this`moments
      ensures Valid() && moments == old(moments) + [disk]
      ensures temp in disk && disk[temp].flushed == 0 && disk == old(disk)[temp := disk[temp]]
      ensures ok ==> disk[temp].bytes == old(disk)[temp].bytes + chunk
      ensures healthy ==> ok
    {
      ok := *;
      ok := ok || healthy;
      var part: Bytes := *;
      Put(temp, disk[temp].bytes + if ok then chunk else part, 0);
    }

    method Sync(temp: string) returns (ok: bool)
      requires Valid() && temp in disk
      modifies this`disk, this`moments
      ensures Valid() && moments == old(moments) + [disk]
      ensures temp in disk && disk == old(disk)[temp := disk[temp]] && disk[temp].bytes == old(disk)[temp].bytes
      ensures ok ==> disk[temp].flushed == |disk[temp].bytes|
      ensures healthy ==> ok
    {
      ok := *;
      ok := ok || healthy;
      Put(temp, disk[temp].bytes, if ok then |disk[temp].bytes| else disk[temp].flushed);
    }

    method Rename(temp: string, final: string) returns (ok: bool)
      requires Valid() && temp in disk && temp != final && Directories(final) <= directories
      modifies this`disk, this`moments
      ensures Valid() && moments == old(moments) + [disk]
      ensures disk == if ok then (old(disk) - {temp})[final := old(disk)[temp]] else old(disk)
      ensures healthy ==> ok
    {
      ok := *;
      ok := ok || healthy;
      if ok {
        disk := (disk - {temp})[final := disk[temp]];
      }
      moments := moments + [disk];
    }

    method Remove(path: string) returns (ok: bool)
      requires Valid()
      modifies this`disk, this`moments
      ensures Valid() && moments == old(moments) + [disk]
      ensures disk == if ok then old(disk) - {path} else old(disk)
      ensures healthy ==> ok
    {
      ok := *;
      ok := ok || healthy;
      if ok {
        disk := disk - {path};
      }
      moments := moments + [disk];
    }

    /** Copies a stream into a temporary file, to its end or to the first failure. */
    method Copy(temp: string, final: string, from: Incoming, ghost start: Disk) returns (ok: bool, copied: nat)
      requires Valid() && temp in disk && IsEmptyFile(disk[temp]) && temp != final
      requires from.given == "" && !from.ended
      requires disk == start[temp := disk[temp]]
      modifies this`disk, this`moments, from
      ensures Valid() && temp in disk && disk == start[temp := disk[temp]] && disk[temp].flushed == 0
      ensures ok ==> disk[temp].bytes == from.given && from.ended && copied == |from.given|
      ensures |moments| >= |old(moments)| && moments[..|old(moments)|] == old(moments)
      ensures forall k | |old(moments)| <= k < |moments| :: OnlyTemp(start, moments[k], temp)
      ensures healthy && from.healthy ==> ok
    {
      ghost var n := |moments|;
      var status := More;
      copied := 0;
      while status.More?
        invariant copied == |from.given|
        invariant Valid() && temp in disk && disk == start[temp := disk[temp]]
        invariant disk[temp].bytes == from.given && disk[temp].flushed == 0
        invariant (status.EndOfFile? ==> from.ended) && (from.healthy ==> !status.Broken?)
        invariant |moments| >= n && moments[..n] == old(moments)
        invariant forall k | n <= k < |moments| :: OnlyTemp(start, moments[k], temp)
        decreases if status.More? then 1 else 0, from.left
      {
        var chunk;
        chunk, status := from.Read();
        ghost var was := moments;
        ok := Append(temp, chunk);
        assert OnlyTemp(start, disk, temp);
        assert moments[..n] == was[..n];
        if !ok {
          return false, copied;
        }
        copied := copied + |chunk|;
      }
      ok := status.EndOfFile?;
    }

    lemma TempsAreMoments(start: Disk, moments: seq<Disk>, n: nat, final: string, temp: string, whole: Bytes)
      requires n <= |moments| && temp != final
      requires forall k | n <= k < |moments| :: OnlyTemp(start, moments[k], temp)
      ensures forall k | n <= k < |moments| ::
                IsMoment(start, moments[k], final, temp, whole) && SameAt(start, moments[k], final)
    {
      forall k | n <= k < |moments|
        ensures IsMoment(start, moments[k], final, temp, whole) && SameAt(start, moments[k], final)
      {
        assert OnlyTemp(start, moments[k], temp);
      }
    }

    ghost predicate OnlyTemp(start: Disk, disk: Disk, temp: string) {
      forall q | q != temp :: SameAt(start, disk, q)
    }

    /** Fills, flushes and renames a temporary file; the first failure stops it. */
    method Publish(temp: string, final: string, from: Incoming, ghost start: Disk) returns (written: Option<nat>)
      requires Valid() && temp in disk && IsEmptyFile(disk[temp]) && disk == start[temp := disk[temp]]
      requires temp !in start && temp != final && Directories(final) <= directories
      requires from.given == "" && !from.ended
      modifies this`disk, this`moments, from
      ensures Valid() && |moments| >= |old(moments)| && moments[..|old(moments)|] == old(moments)
      ensures forall k | |old(moments)| <= k < |moments| :: IsMoment(start, moments[k], final, temp, from.given)
      ensures !from.ended ==> forall k | |old(moments)| <= k < |moments| :: SameAt(start, moments[k], final)
      ensures written.Some? ==>
                && from.ended && written.value == |from.given|
                && IsWhole(disk, final, from.given) && disk == start[final := disk[final]]
      ensures written.None? ==> temp in disk && disk - {temp} == start
      ensures healthy && from.healthy ==> written.Some?
    {
      hide SameAt, IsMoment;
      ghost var first := |moments|;
      var copied, n := Copy(temp, final, from, start);
      if !copied {
        TempsAreMoments(start, moments, first, final, temp, from.given);
        return None;
      }
      var flushed := Sync(temp);
      OnlyTempHere(start, disk, temp);
      TempsAreMoments(start, moments, first, final, temp, from.given);
      var closed: bool := *;
      if !flushed || (!closed && !healthy) {
        return None;
      }
      ghost var before := disk;
      var renamed := Rename(temp, final);
      if !renamed {
        OnlyTempHere(start, disk, temp);
        TempsAreMoments(start, moments, first, final, temp, from.given);
        return None;
      }
      PublishedHere(start, before, disk, final, temp, from.given);
      return Some(n);
    }

    /** A temporary file that is made is a moment of whatever is to be written, its removal too. */
    lemma CreatedHere(start: Disk, disk: Disk, final: string, temp: string)
      requires temp in disk && disk == start[temp := disk[temp]] && temp !in start && temp != final
      ensures forall whole :: IsMoment(start, disk, final, temp, whole)
      ensures SameAt(start, disk, final)
    {
    }

    lemma RemovedHere(start: Disk, before: Disk, disk: Disk, final: string, temp: string, whole: Bytes)
      requires IsMoment(start, before, final, temp, whole) && temp != final
                && (disk == before || disk == before - {temp})
      ensures IsMoment(start, disk, final, temp, whole)
      ensures SameAt(start, before, final) ==> SameAt(start, disk, final)
    {
      assert forall q | q != temp :: SameAt(before, disk, q);
      forall q | q != final && q != temp ensures SameAt(start, disk, q) {
        assert SameAt(start, before, q);
      }
    }

    lemma OnlyTempHere(start: Disk, disk: Disk, temp: string)
      requires temp in disk && disk == start[temp := disk[temp]]
      ensures OnlyTemp(start, disk, temp)
    {
    }

    lemma PublishedHere(start: Disk, before: Disk, disk: Disk, final: string, temp: string, whole: Bytes)
      requires temp !in start && temp != final && IsWhole(before, temp, whole) && before == start[temp := before[temp]]
      requires disk == (before - {temp})[final := before[temp]]
      ensures IsMoment(start, disk, final, temp, whole)
      ensures IsWhole(disk, final, whole) && disk == start[final := disk[final]]
    {
    }

    /**
     * Writes beside the target, flushes, renames. At every moment the target is whole, old or new,
     * and old as long as the stream has not ended; at every return it is the new one exactly when
     * the write succeeded, and the temporary file is gone unless its removal was refused.
     */
    method Write(final: string, from: Incoming) returns (written: Option<nat>, ghost temp: string, ghost removed: bool)
      requires Valid() && from.given == "" && !from.ended
      modifies this, from
      ensures Valid() && |moments| >= |old(moments)| && moments[..|old(moments)|] == old(moments)
      ensures forall k | |old(moments)| <= k < |moments| :: IsMoment(old(disk), moments[k], final, temp, from.given)
      ensures !from.ended ==> forall k | |old(moments)| <= k < |moments| :: SameAt(old(disk), moments[k], final)
      ensures written.Some? ==>
                && from.ended && written.value == |from.given|
                && IsWhole(disk, final, from.given) && disk == old(disk)[final := disk[final]]
                && Directories(final) <= directories
      ensures written.None? && removed ==> disk == old(disk)
      ensures written.None? && !removed ==> temp in disk && disk - {temp} == old(disk)
      ensures written.Some? && final !in old(disk) ==>
                exists after: Disk :: CrashLeaves(moments[|old(moments)| - 1..], after) && final !in after
      ensures temp != final && IsPartial(temp)
      ensures old(directories) <= directories <= old(directories) + Directories(final)
      ensures healthy && from.healthy ==> written.Some? && removed
    {
      hide CrashLeaves, IsMoment, SameAt;
      ghost var start := disk;
      removed := true;
      temp := final + PARTIAL_SUFFIX;
      var prepared := MakeDirectories(final);
      if !prepared {
        return None, temp, removed;
      }
      var created := CreateTemp(final);
      if created.None? {
        return None, temp, removed;
      }
      temp := created.value;
      CreatedHere(start, disk, final, temp);
      written := Publish(created.value, final, from, start);
      ghost var before := disk;
      var gone := Remove(created.value);
      removed := gone;
      RemovedHere(start, before, disk, final, temp, from.given);
      ghost var since := moments[|old(moments)| - 1..];
      assert since[0] == old(disk);
      if final !in old(disk) {
        APublicationMayBeLost(since, final);
      }
    }

    /** Opens an archive: what is read is what is there. */
    method Read(path: string) returns (bytes: Option<Bytes>)
      ensures bytes.Some? ==> path in disk && bytes.value == disk[path].bytes
      ensures path !in disk ==> bytes.None?
      ensures healthy && path in disk ==> bytes.Some?
    {
      var fault: bool := *;
      bytes := if (fault && !healthy) || path !in disk then None else Some(disk[path].bytes);
    }

    /** Deletes a file; deleting an absent one succeeds. */
    method Delete(path: string) returns (ok: bool)
      requires Valid()
      modifies this`disk, this`moments
      ensures Valid()
      ensures disk == if ok then old(disk) - {path} else old(disk)
      ensures path !in old(disk) ==> disk == old(disk)
      ensures healthy ==> ok
    {
      ok := Remove(path);
    }

    /** The files at or below a prefix, ascending by path; temporary ones are passed over. */
    method List(prefix: string) returns (found: Option<seq<Entry>>)
      ensures found.Some? ==> IsListing(root, disk, prefix, found.value)
      ensures found.Some? ==>
                forall e | e in found.value ::
                  e.path in disk && e.bytes == |disk[e.path].bytes| && e.at == disk[e.path].at
      ensures found.Some? ==>
                forall q | q in disk ::
                  (exists e :: e in found.value && e.path == q)
                  <==> Locate(root, prefix) <= Locate(root, q) && !HasSuffix(q, ".partial")
      ensures healthy ==> found.Some?
    {
      var fault: bool := *;
      if fault && !healthy {
        return None;
      }
      var walked: seq<Entry> := [];
      var todo := disk.Keys;
      while todo != {}
        invariant todo <= disk.Keys
        invariant forall e :: e in walked <==> e.path in disk.Keys - todo && IsListed(root, disk, prefix, e)
        invariant AreDistinct(walked)
        decreases todo
      {
        var path :| path in todo;
        todo := todo - {path};
        if IsUnder(root, prefix, path) && !IsPartial(path) {
          ghost var was := walked;
          walked := walked + [EntryAt(disk, path)];
          assert forall e :: e in walked <==> e in was || e == EntryAt(disk, path);
        }
      }
      SortedListing(root, disk, prefix, walked);
      ListedOnce(root, disk, prefix, Sort(PathLess, walked));
      return Some(Sort(PathLess, walked));
    }
  }

  // ------------------------------------------------------------------ listings

  function EntryAt(disk: Disk, path: string): Entry
    requires path in disk
  {
    Entry(path, |disk[path].bytes|, disk[path].at)
  }

  predicate IsShown(root: seq<string>, disk: Disk, prefix: string, path: string) {
    path in disk && IsUnder(root, prefix, path) && !IsPartial(path)
  }

  predicate IsListed(root: seq<string>, disk: Disk, prefix: string, e: Entry) {
    IsShown(root, disk, prefix, e.path) && e == EntryAt(disk, e.path)
  }

  predicate PathLess(a: Entry, b: Entry) {
    Less(a.path, b.path)
  }

  ghost predicate AreDistinct(s: seq<Entry>) {
    forall i, j | 0 <= i < j < |s| :: s[i].path != s[j].path
  }

  /** Each whole file under the prefix once, in the order of paths. */
  ghost predicate IsListing(root: seq<string>, disk: Disk, prefix: string, found: seq<Entry>) {
    && IsAscending(PathLess, found)
    && forall e :: e in found <==> IsListed(root, disk, prefix, e)
  }

  lemma PathsAreStrict()
    ensures IsStrict(PathLess)
  {
    forall x, y, z | PathLess(x, y) && PathLess(y, z) ensures PathLess(x, z) {
      LessIsTransitive(x.path, y.path, z.path);
    }
    forall x ensures !PathLess(x, x) {
      LessIsTotal(x.path, x.path);
    }
  }

  lemma SortedListing(root: seq<string>, disk: Disk, prefix: string, walked: seq<Entry>)
    requires AreDistinct(walked) && forall e :: e in walked <==> IsListed(root, disk, prefix, e)
    ensures IsListing(root, disk, prefix, Sort(PathLess, walked))
  {
    hide IsUnder, IsPartial, Less;
    PathsAreStrict();
    forall i, j | 0 <= i < j < |walked| ensures PathLess(walked[i], walked[j]) || PathLess(walked[j], walked[i]) {
      DistinctPathsCompare(walked[i], walked[j]);
    }
    SortAscends(PathLess, walked);
    forall e ensures e in Sort(PathLess, walked) <==> IsListed(root, disk, prefix, e) {
      InSort(PathLess, walked, e);
    }
  }

  lemma ListedOnce(root: seq<string>, disk: Disk, prefix: string, found: seq<Entry>)
    requires IsListing(root, disk, prefix, found)
    ensures forall q | q in disk :: (exists e :: e in found && e.path == q) <==> IsShown(root, disk, prefix, q)
    ensures forall e | e in found :: IsListed(root, disk, prefix, e)
  {
    hide IsUnder, IsPartial, Less;
    forall q | q in disk ensures (exists e :: e in found && e.path == q) <==> IsShown(root, disk, prefix, q) {
      if IsShown(root, disk, prefix, q) {
        assert IsListed(root, disk, prefix, EntryAt(disk, q));
      }
    }
  }

  lemma DistinctPathsCompare(a: Entry, b: Entry)
    requires a.path != b.path
    ensures PathLess(a, b) || PathLess(b, a)
  {
    LessIsTotal(a.path, b.path);
  }

  /** Two listings of one disk are the same listing. */
  lemma ListingsAgree(root: seq<string>, disk: Disk, prefix: string, a: seq<Entry>, b: seq<Entry>)
    requires IsListing(root, disk, prefix, a) && IsListing(root, disk, prefix, b)
    ensures a == b
  {
    hide IsListed, Less;
    PathsAreStrict();
    AscendingIsUnique(PathLess, a, b);
  }

  /**
   * A listing taken at any moment of a write, even after a crash, shows the target either as it
   * was or whole, and never a temporary file.
   */
  lemma ListingsShowWholeArchives(
    start: Disk, moments: seq<Disk>, after: Disk, final: string, temp: string, whole: Bytes,
    root: seq<string>, prefix: string, found: seq<Entry>, e: Entry)
    requires forall k | 0 <= k < |moments| :: IsMoment(start, moments[k], final, temp, whole)
    requires CrashLeaves(moments, after) && IsPartial(temp)
    requires IsListing(root, after, prefix, found) && e in found && IsSafeAt(start, e.path)
    ensures e.path != temp && !IsPartial(e.path)
    ensures (e.path == final && e.bytes == |whole| && after[final].bytes == whole)
         || (e.path in start && e.bytes == |start[e.path].bytes| && after[e.path].bytes == start[e.path].bytes)
  {
    hide IsPartial, IsUnder, Less, CrashLeaves, IsMoment, IsSafeAt;
    assert IsListed(root, after, prefix, e);
    CrashesLeaveWholeArchives(start, moments, after, final, temp, whole, e.path);
  }

  /** A listing of one database is chronological: an archive started in an earlier second comes first. */
  lemma ListingsAreChronological(
    root: seq<string>, disk: Disk, prefix: string, found: seq<Entry>, i: nat, j: nat, database: string,
    a: Instant, idA: string, extensionA: string, b: Instant, idB: string, extensionB: string)
    requires IsListing(root, disk, prefix, found) && i < |found| && j < |found|
    requires found[i].path == ArchivePath(database, a, idA, extensionA)
    requires found[j].path == ArchivePath(database, b, idB, extensionB)
    requires FourDigitYear(SecondOf(a)) && FourDigitYear(SecondOf(b)) && SecondOf(a) < SecondOf(b)
    ensures i < j
  {
    hide ArchivePath, Less, FourDigitYear, IsListed;
    PathsSortByTime(database, a, idA, extensionA, b, idB, extensionB);
    LessIsTotal(found[i].path, found[j].path);
    assert j < i ==> PathLess(found[j], found[i]);
  }

  // ------------------------------------------------------------------ archives are not temporary

  lemma PartialAfterDot(front: string, e: string)
    requires HasSuffix(front + ['.'] + e, ".partial")
    ensures e == "partial" || HasSuffix(e, ".partial")
  {
    var name := front + ['.'] + e;
    assert name[|front|] == '.' && name[|front| + 1..] == e;
    var suffix := ".partial";
    var at := |name| - |suffix|;
    if at >= |front| + 1 {
      assert e[at - |front| - 1..] == suffix;
    } else {
      assert suffix[|front| - at] == name[at..][|front| - at] == '.';
      assert at == |front|;
    }
  }

  lemma PartialsEndInL(s: string)
    ensures HasSuffix(s, ".partial") ==> s != "" && s[|s| - 1] == 'l'
  {
    if HasSuffix(s, ".partial") {
      assert s[|s| - 8..][7] == s[|s| - 1];
    }
  }

  lemma {:induction false} StepsEndOtherwise(pipeline: seq<string>)
    ensures StepSuffix(pipeline) == ""
         || (StepSuffix(pipeline)[|StepSuffix(pipeline)| - 1] != 'l' && |StepSuffix(pipeline)| > 0)
  {
    if pipeline != [] {
      StepsEndOtherwise(pipeline[..|pipeline| - 1]);
      KnownStepsHaveExtensions(pipeline[|pipeline| - 1]);
    }
  }

  lemma ExtensionsAreNotPartial(dump: string, pipeline: seq<string>)
    requires dump == "pgc" || dump == "sql"
    ensures dump + StepSuffix(pipeline) != "partial" && !HasSuffix(dump + StepSuffix(pipeline), ".partial")
    ensures (dump + StepSuffix(pipeline))[0] != '.'
  {
    hide StepSuffix;
    StepsEndOtherwise(pipeline);
    var e, suffix := dump + StepSuffix(pipeline), StepSuffix(pipeline);
    if suffix == "" {
      assert e == dump;
    } else {
      assert e[|e| - 1] == suffix[|suffix| - 1];
      PartialsEndInL(e);
    }
  }

  /** No archive of a job is ever taken for a temporary file, and so hidden from a listing; nor is its manifest. */
  lemma ArchivesAreNotPartial(database: string, at: Instant, id: string, dump: string, pipeline: seq<string>)
    requires dump == "pgc" || dump == "sql"
    ensures !IsPartial(ArchivePath(database, at, id, dump + StepSuffix(pipeline)))
    ensures !IsPartial(ArchivePath(database, at, id, dump + StepSuffix(pipeline)) + ".json")
  {
    hide ArchivePath, SafeSegment, StepSuffix;
    var e := dump + StepSuffix(pipeline);
    var path := ArchivePath(database, at, id, e);
    ExtensionsAreNotPartial(dump, pipeline);
    ArchivePathParts(database, at, id, e);
    var front :| path == front + ['_'] + (SafeSegment(id) + ['.'] + TrimDot(e));
    var before := front + ['_'] + SafeSegment(id);
    assert path == before + ['.'] + e;
    if IsPartial(path) {
      PartialAfterDot(before, e);
    }
    var manifest := path + ".json";
    assert manifest[|manifest| - 1] == 'n';
    PartialsEndInL(manifest);
  }
}
