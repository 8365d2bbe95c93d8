/**
 The swap of a partition's files for compacted ones. A crash may come between any two file system
 operations, also while recovering from an earlier crash. `crash` counts the operations that still
 happen before it.
 */
module Swap {
  import opened Bytes

  datatype FileName = LogName(base: int) | IndexName(base: int) | OtherName(name: string)

  // Files in compact-tmp: as the writer made them, or staged.
  datatype TmpName = Built(name: FileName) | Staged(name: FileName)

  type Files = map<FileName, bytes>

  datatype Manifest = Manifest(before: seq<FileName>, after: seq<FileName>)

  // A manifest is readable only once it is written whole.
  datatype ManifestFile = Absent | Torn | Whole(m: Manifest)

  // ------------------------------------------------------------ the states a crash can leave

  // Between the two: every new file is staged, or has taken its place; every old file is still as
  // it was, or removed.
  ghost predicate Between(dir: Files, tmp: map<TmpName, bytes>, before: Files, after: Files)
  {
    && (forall n :: Staged(n) in tmp ==> n in after && tmp[Staged(n)] == after[n])
    && (forall n :: n in after && Staged(n) !in tmp ==> n in dir && dir[n] == after[n])
    && (forall n :: n in dir && (n !in after || Staged(n) in tmp) ==> n in before && dir[n] == before[n])
  }

  ghost predicate Lists(m: Manifest, before: Files, after: Files)
  {
    (forall n :: n in m.before <==> n in before) && (forall n :: n in m.after <==> n in after)
  }

  ghost predicate Committed(dir: Files, tmp: map<TmpName, bytes>, manifest: ManifestFile, before: Files, after: Files)
  {
    manifest.Whole? && Lists(manifest.m, before, after) && Between(dir, tmp, before, after)
  }

  // The old files as long as the manifest is not whole, the new ones once it is gone.
  ghost predicate Recoverable(dir: Files, tmp: map<TmpName, bytes>, manifest: ManifestFile, before: Files, after: Files)
  {
    if manifest.Whole? then Committed(dir, tmp, manifest, before, after) else dir == before || dir == after
  }

  lemma RemoveStep(dir: Files, tmp: map<TmpName, bytes>, before: Files, after: Files, name: FileName)
    requires Between(dir, tmp, before, after) && (name in after ==> Staged(name) in tmp)
    ensures Between(dir - {name}, tmp, before, after)
  {
  }

  lemma RenameStep(dir: Files, tmp: map<TmpName, bytes>, before: Files, after: Files, name: FileName)
    requires Between(dir, tmp, before, after) && Staged(name) in tmp
    ensures Between(dir[name := tmp[Staged(name)]], tmp - {Staged(name)}, before, after)
    ensures name in after && tmp[Staged(name)] == after[name]
  {
  }

  lemma NoNames(dir: Files, names: seq<FileName>)
    ensures dir - NameSet(names[..0]) == dir
  {
  }

  lemma MoreNames(dir: Files, names: seq<FileName>, i: nat)
    requires i < |names|
    ensures dir - NameSet(names[..i + 1]) == (dir - NameSet(names[..i])) - {names[i]}
  {
    assert names[..i + 1] == names[..i] + [names[i]];
  }

  ghost predicate OldGone(dir: Files, before: Files, after: Files)
  {
    forall n :: n in before && n !in after ==> n !in dir
  }

  // Directory, compact-tmp and operations left after up to k renames.
  datatype Partway = Partway(dir: Files, tmp: map<TmpName, bytes>, left: nat)

  function Renames(names: seq<FileName>, k: nat, dir: Files, tmp: map<TmpName, bytes>): Partway
  {
    if names == [] then Partway(dir, tmp, k)
    else if Staged(names[0]) !in tmp then Renames(names[1..], k, dir, tmp)
    else if k == 0 then Partway(dir, tmp, 0)
    else Renames(names[1..], k - 1, dir[names[0] := tmp[Staged(names[0])]], tmp - {Staged(names[0])})
  }

  lemma {:induction false} RenamesKeep(names: seq<FileName>, k: nat, dir: Files, tmp: map<TmpName, bytes>,
                                       before: Files, after: Files)
    requires Between(dir, tmp, before, after)
    ensures var p := Renames(names, k, dir, tmp);
      && Between(p.dir, p.tmp, before, after) && (OldGone(dir, before, after) ==> OldGone(p.dir, before, after))
      && p.left >= k - |names| && |p.tmp.Keys| <= |tmp.Keys|
    decreases |names|
  {
    hide Between;
    if names != [] {
      var name := names[0];
      if Staged(name) !in tmp {
        RenamesKeep(names[1..], k, dir, tmp, before, after);
      } else if k > 0 {
        RenameStep(dir, tmp, before, after, name);
        assert (tmp - {Staged(name)}).Keys == tmp.Keys - {Staged(name)};
        RenamesKeep(names[1..], k - 1, dir[name := tmp[Staged(name)]], tmp - {Staged(name)}, before, after);
      }
    }
  }

  lemma {:induction false} RenamesFinish(names: seq<FileName>, k: nat, dir: Files, tmp: map<TmpName, bytes>)
    ensures var p := Renames(names, k, dir, tmp);
      && p.tmp.Keys <= tmp.Keys && (p.left > 0 ==> forall n :: n in names ==> Staged(n) !in p.tmp)
    decreases |names|
  {
    if names != [] {
      var name := names[0];
      assert names == [name] + names[1..];
      if Staged(name) !in tmp {
        RenamesFinish(names[1..], k, dir, tmp);
      } else if k > 0 {
        RenamesFinish(names[1..], k - 1, dir[name := tmp[Staged(name)]], tmp - {Staged(name)});
      }
    }
  }

  lemma NoneStaged(m: Manifest, dir: Files, tmp: map<TmpName, bytes>, before: Files, after: Files)
    requires Lists(m, before, after) && Between(dir, tmp, before, after)
      && forall n :: n in m.after ==> Staged(n) !in tmp
    ensures forall n :: Staged(n) !in tmp
  {
  }

  // If all of them are staged, the first k names are renamed and no other.
  lemma {:induction false} RenamesExactly(names: seq<FileName>, k: nat, dir: Files, tmp: map<TmpName, bytes>,
                                          after: Files)
    requires (forall i, j :: 0 <= i < j < |names| ==> names[i] != names[j]) && forall n :: n in names ==> n in after
    requires forall n :: n in names ==> Staged(n) in tmp && tmp[Staged(n)] == after[n]
    ensures var j := Least(k, |names|);
      Renames(names, k, dir, tmp).dir == dir + Named(after, names[..j]) && Renames(names, k, dir, tmp).left == k - j
    decreases |names|
  {
    hide Named;
    if names == [] || k == 0 {
      NoneNamed(dir, after, names);
    } else {
      var name, rest, j := names[0], names[1..], Least(k, |names|);
      assert forall n :: n in rest ==> n in names && n != name;
      RenamesExactly(rest, k - 1, dir[name := after[name]], tmp - {Staged(name)}, after);
      NamedFirst(dir, after, names, j);
    }
  }

  lemma NoneNamed(dir: Files, after: Files, names: seq<FileName>)
    ensures dir + Named(after, names[..0]) == dir
  {
  }

  lemma NamedFirst(dir: Files, after: Files, names: seq<FileName>, j: nat)
    requires 0 < j <= |names| && names[0] in after
    ensures dir + Named(after, names[..j]) == dir[names[0] := after[names[0]]] + Named(after, names[1..][..j - 1])
  {
    assert names[..j] == [names[0]] + names[1..][..j - 1];
  }

  // Once nothing is staged and nothing old is left, the new files are all there is.
  lemma SwapDone(dir: Files, tmp: map<TmpName, bytes>, before: Files, after: Files)
    requires Between(dir, tmp, before, after) && (forall n :: Staged(n) !in tmp) && OldGone(dir, before, after)
    ensures dir == after
  {
    forall n ensures n in dir <==> n in after { }
  }

  // As many operations as a recovery can need.
  function Operations(tmp: map<TmpName, bytes>, manifest: ManifestFile): nat
  {
    |tmp.Keys| + 2 + if manifest.Whole? then |manifest.m.before| + |manifest.m.after| else 0
  }

  // Distinct names of exactly these files.
  ghost predicate ListsAll(names: seq<FileName>, files: Files)
  {
    (forall i, j :: 0 <= i < j < |names| ==> names[i] != names[j]) && forall n :: n in names <==> n in files
  }

  ghost predicate AllStaged(m: Manifest, tmp: map<TmpName, bytes>) { forall n :: n in m.after ==> Staged(n) in tmp }

  // The files named.
  ghost function Named(files: Files, names: seq<FileName>): Files { map n | n in files && n in names :: files[n] }

  // The directory once the first k operations of a swap have been made, from the old files.
  ghost function Stopped(before: Files, after: Files, m: Manifest, k: nat): Files
  {
    if k <= |m.before| then Named(before, m.before[k..])
    else if k <= |m.before| + |m.after| then Named(after, m.after[..k - |m.before|])
    else after
  }

  ghost function NameSet(names: seq<FileName>): set<FileName> { set n | n in names }

  function Least(a: nat, b: nat): nat { if a < b then a else b }

  // Everything is staged and nothing moved.
  ghost predicate Untouched(m: Manifest, tmp: map<TmpName, bytes>, before: Files, after: Files)
  {
    && ListsAll(m.before, before) && ListsAll(m.after, after)
    && forall n :: n in m.after ==> Staged(n) in tmp && tmp[Staged(n)] == after[n]
  }

  // Removing, then renaming, cut after k operations.
  lemma StoppedIs(m: Manifest, dir: Files, tmp: map<TmpName, bytes>, before: Files, after: Files, k: nat)
    requires dir == before && Untouched(m, tmp, before, after)
    ensures AllStaged(m, tmp)
    ensures var i := Least(k, |m.before|);
      var left := dir - NameSet(m.before[..i]);
      && (k <= |m.before| ==> left == Stopped(before, after, m, k))
      && (k > |m.before| ==> Renames(m.after, k - i, left, tmp).dir == Stopped(before, after, m, k)
                             && (Renames(m.after, k - i, left, tmp).left > 0 ==> Stopped(before, after, m, k) == after))
  {
    hide Named;
    var i := Least(k, |m.before|);
    RestNamed(before, m.before, i);
    if k > |m.before| {
      assert m.before[..i] == m.before;
      assert before - NameSet(m.before) == map[];
      RenamesExactly(m.after, k - i, map[], tmp, after);
      OnlyNamed(after, m.after, Least(k - i, |m.after|));
    }
  }

  lemma RestNamed(files: Files, names: seq<FileName>, i: nat)
    requires ListsAll(names, files) && i <= |names|
    ensures files - NameSet(names[..i]) == Named(files, names[i..])
  {
    assert names == names[..i] + names[i..];
  }

  lemma OnlyNamed(files: Files, names: seq<FileName>, j: nat)
    requires ListsAll(names, files) && j <= |names|
    ensures map[] + Named(files, names[..j]) == Named(files, names[..j])
    ensures j == |names| ==> Named(files, names[..j]) == files
  {
    if j == |names| { assert names[..j] == names; }
  }

  class Disk {
    var dir: Files
    var tmp: map<TmpName, bytes>
    var manifest: ManifestFile

    constructor (dir: Files)
      ensures this.dir == dir && tmp == map[] && manifest == Absent
    {
      this.dir, tmp, manifest := dir, map[], Absent;
    }

    // os.RemoveAll of compact-tmp: its entries go one by one, in no particular order.
    method RemoveTmp(crash: nat) returns (left: nat)
      modifies this`tmp, this`manifest
      ensures manifest == Absent || manifest == old(manifest)
      ensures left > 0 ==> tmp == map[] && manifest == Absent
      ensures left >= crash - |old(tmp).Keys| - 1
    {
      left := crash;
      while left > 0 && (tmp != map[] || manifest != Absent)
        invariant manifest == Absent || manifest == old(manifest)
        invariant left - |tmp.Keys| - (if manifest == Absent then 0 else 1) >= crash - |old(tmp).Keys| - 1
        decreases left
      {
        if {
          case tmp != map[] =>
            assert tmp.Keys != {};
            var n :| n in tmp.Keys;
            assert (tmp - {n}).Keys == tmp.Keys - {n};
            tmp := tmp - {n};
          case manifest != Absent =>
            manifest := Absent;
        }
        left := left - 1;
      }
    }

    // The old files go, except those whose replacement is already in place.
    method RemoveOld(m: Manifest, crash: nat, ghost before: Files, ghost after: Files) returns (left: nat)
      requires Lists(m, before, after) && Between(dir, tmp, before, after)
      modifies this`dir
      ensures Between(dir, tmp, before, after)
      ensures left > 0 ==> OldGone(dir, before, after)
      ensures left >= crash - |m.before|
      ensures AllStaged(m, tmp) ==>
        left == crash - Least(crash, |m.before|) && dir == old(dir) - NameSet(m.before[..Least(crash, |m.before|)])
    {
      hide Between, NameSet;
      var replaced := set n | n in m.after;
      left := crash;
      NoNames(dir, m.before);
      for i := 0 to |m.before|
        invariant left > 0 ==> forall j :: 0 <= j < i && m.before[j] !in after ==> m.before[j] !in dir
        invariant left >= crash - i
        invariant Between(dir, tmp, before, after)
        invariant AllStaged(m, tmp) ==> i <= crash && left == crash - i && dir == old(dir) - NameSet(m.before[..i])
      {
        var name := m.before[i];
        if name in replaced && Staged(name) !in tmp {
          continue;
        }
        if left == 0 {
          return;
        }
        RemoveStep(dir, tmp, before, after, name);
        MoreNames(old(dir), m.before, i);
        dir := dir - {name};
        left := left - 1;
      }
    }

    // Every staged file takes its place.
    method RenameStaged(names: seq<FileName>, crash: nat) returns (left: nat)
      modifies this`dir, this`tmp
      ensures Renames(names, crash, old(dir), old(tmp)) == Partway(dir, tmp, left)
    {
      left := crash;
      assert names[0..] == names;
      for i := 0 to |names|
        invariant Renames(names, crash, old(dir), old(tmp)) == Renames(names[i..], left, dir, tmp)
      {
        var name := names[i];
        assert names[i..][1..] == names[i + 1..];
        if Staged(name) !in tmp {
          continue;
        }
        if left == 0 {
          return;
        }
        dir, tmp := dir[name := tmp[Staged(name)]], tmp - {Staged(name)};
        left := left - 1;
      }
    }

    // Old files out, new ones in.
    method MoveFiles(m: Manifest, crash: nat, ghost before: Files, ghost after: Files) returns (left: nat)
      requires Lists(m, before, after) && Between(dir, tmp, before, after)
      modifies this`dir, this`tmp
      ensures Between(dir, tmp, before, after) && (left > 0 ==> dir == after)
      ensures left >= crash - |m.before| - |m.after| && |tmp.Keys| <= |old(tmp).Keys|
      ensures old(dir) == before && Untouched(m, old(tmp), before, after) ==> dir == Stopped(before, after, m, crash)
    {
      hide Between, Lists, Untouched, Stopped, OldGone, Renames, AllStaged, NameSet;
      ghost var exact := dir == before && Untouched(m, tmp, before, after);
      if exact { StoppedIs(m, dir, tmp, before, after, crash); }
      left := RemoveOld(m, crash, before, after);
      if left == 0 {
        return;
      }
      RenamesKeep(m.after, left, dir, tmp, before, after);
      RenamesFinish(m.after, left, dir, tmp);
      left := RenameStaged(m.after, left);
      if left > 0 {
        NoneStaged(m, dir, tmp, before, after);
        SwapDone(dir, tmp, before, after);
      }
    }

    // Recovery, and the last act of a compaction. It drops what was staged, unless the manifest is
    // whole; then it finishes the swap.
    method ApplySwap(crash: nat, ghost before: Files, ghost after: Files) returns (left: nat)
      requires Recoverable(dir, tmp, manifest, before, after)
      modifies this
      ensures Recoverable(dir, tmp, manifest, before, after)
      ensures old(manifest).Whole? && !manifest.Whole? ==> dir == after
      ensures !old(manifest).Whole? ==> !manifest.Whole? && dir == old(dir)
      ensures left > 0 ==> tmp == map[] && manifest == Absent
      ensures left >= crash - Operations(old(tmp), old(manifest))
      ensures old(manifest).Whole? && old(dir) == before && Untouched(old(manifest).m, old(tmp), before, after) ==>
        dir == Stopped(before, after, old(manifest).m, crash)
    {
      hide Between, Lists, Untouched, Stopped;
      if !manifest.Whole? {
        left := RemoveTmp(crash);
        return;
      }
      var m := manifest.m;
      left := MoveFiles(m, crash, before, after);
      if left == 0 {
        return;
      }
      manifest := Absent;
      left := left - 1;
      left := RemoveTmp(left);
    }

    // Recovery after recovery, each but the last cut short by another crash.
    method Recover(crashes: seq<nat>, ghost before: Files, ghost after: Files) returns (finished: bool)
      requires Recoverable(dir, tmp, manifest, before, after)
      modifies this
      ensures Recoverable(dir, tmp, manifest, before, after)
      ensures finished ==> tmp == map[] && manifest == Absent && dir == if old(manifest).Whole? then after else old(dir)
    {
      hide Between, Lists;
      for i := 0 to |crashes|
        invariant Recoverable(dir, tmp, manifest, before, after)
        invariant manifest.Whole? ==> old(manifest).Whole?
        invariant !manifest.Whole? ==> dir == if old(manifest).Whole? then after else old(dir)
      {
        var left := ApplySwap(crashes[i], before, after);
        if left > 0 {
          return true;
        }
      }
      return false;
    }

    // The new files are moved to their staged names.
    method StageFiles(names: seq<FileName>, crash: nat, ghost after: Files) returns (left: nat)
      requires Ready(names, tmp, after)
      modifies this`tmp
      ensures left > 0 ==> forall n :: (n in after <==> Staged(n) in tmp) && (n in after ==> tmp[Staged(n)] == after[n])
      ensures left == if crash > |names| then crash - |names| else 0
    {
      left := crash;
      for i := 0 to |names|
        invariant left > 0 ==>
          forall j :: i <= j < |names| ==> Built(names[j]) in tmp && tmp[Built(names[j])] == after[names[j]]
        invariant left == if crash > i then crash - i else 0
        invariant left > 0 ==> forall n :: Staged(n) in tmp <==> n in names[..i]
        invariant left > 0 ==> forall n :: Staged(n) in tmp ==> n in after && tmp[Staged(n)] == after[n]
      {
        if left == 0 {
          return;
        }
        var name := names[i];
        tmp := (tmp - {Built(name)})[Staged(name) := tmp[Built(name)]];
        left := left - 1;
      }
      assert names[..|names|] == names;
    }

    // From the files the writer left to the finished swap. A crash while the manifest is being
    // written leaves it torn.
    method Install(names: seq<FileName>, listing: seq<FileName>, crash: nat, ghost after: Files) returns (left: nat)
      requires manifest == Absent && Ready(names, tmp, after) && forall n :: n in listing <==> n in dir
      modifies this
      ensures Recoverable(dir, tmp, manifest, old(dir), after)
      ensures if crash <= |names| + 1 then !manifest.Whole? && dir == old(dir) else manifest.Whole? || dir == after
      ensures left > 0 ==> dir == after && tmp == map[] && manifest == Absent
    {
      hide Between, Ready;
      ghost var before := dir;
      left := StageFiles(names, crash, after);
      if left == 0 {
        return;
      }
      if left == 1 {
        manifest := Torn;
        return 0;
      }
      NamesAre(names, old(tmp), after);
      manifest := Whole(Manifest(listing, names));
      left := left - 1;
      StagedBetween(dir, tmp, after);
      left := ApplySwap(left, before, after);
    }

    // An install whose swap makes k operations and then gets an error: compact-tmp is removed, with
    // whatever is still staged in it.
    method InstallFails(names: seq<FileName>, listing: seq<FileName>, k: nat, ghost after: Files)
      requires manifest == Absent && Ready(names, tmp, after) && ListsAll(listing, dir)
      modifies this
      ensures dir == Stopped(old(dir), after, Manifest(listing, names), k) && tmp == map[] && manifest == Absent
    {
      hide Between, Ready, Stopped, Untouched, Recoverable;
      ghost var before := dir;
      var left := StageFiles(names, |names| + 1, after);
      ReadyLists(names, old(tmp), after);
      manifest := Whole(Manifest(listing, names));
      StagedBetween(dir, tmp, after);
      StagedUntouched(manifest.m, tmp, before, after);
      assert Recoverable(dir, tmp, manifest, before, after) by { CommittedNow(dir, tmp, manifest, before, after); }
      left := ApplySwap(k, before, after);
      left := RemoveTmp(|tmp.Keys| + 2);
    }
  }

  // The writer's files, each of them new.
  ghost predicate Ready(names: seq<FileName>, tmp: map<TmpName, bytes>, after: Files)
  {
    && (forall i, j :: 0 <= i < j < |names| ==> names[i] != names[j]) && (forall n :: n in names <==> n in after)
    && (forall n :: n in after ==> Built(n) in tmp && tmp[Built(n)] == after[n]) && (forall n :: Staged(n) !in tmp)
  }

  lemma ReadyLists(names: seq<FileName>, tmp: map<TmpName, bytes>, after: Files)
    requires Ready(names, tmp, after)
    ensures ListsAll(names, after)
  {
  }

  lemma StagedUntouched(m: Manifest, tmp: map<TmpName, bytes>, before: Files, after: Files)
    requires ListsAll(m.before, before) && ListsAll(m.after, after)
    requires forall n :: (n in after <==> Staged(n) in tmp) && (n in after ==> tmp[Staged(n)] == after[n])
    ensures Untouched(m, tmp, before, after)
  {
  }

  lemma CommittedNow(dir: Files, tmp: map<TmpName, bytes>, manifest: ManifestFile, before: Files, after: Files)
    requires manifest.Whole? && ListsAll(manifest.m.before, before) && ListsAll(manifest.m.after, after)
    requires Between(dir, tmp, before, after)
    ensures Recoverable(dir, tmp, manifest, before, after)
  {
    hide Between;
  }

  lemma NamesAre(names: seq<FileName>, tmp: map<TmpName, bytes>, after: Files)
    requires Ready(names, tmp, after)
    ensures forall n :: n in names <==> n in after
  {
  }

  lemma StagedBetween(dir: Files, tmp: map<TmpName, bytes>, after: Files)
    requires forall n :: (n in after <==> Staged(n) in tmp) && (n in after ==> tmp[Staged(n)] == after[n])
    ensures Between(dir, tmp, dir, after)
  {
  }

  // ------------------------------------------------------------ an error instead of a crash

  // One of the two file sets is left exactly if the error came before the first operation or after
  // the last rename, or one set happens to be what is left of the other, unchanged.
  lemma StoppedExactly(before: Files, after: Files, m: Manifest, k: nat)
    requires ListsAll(m.before, before) && ListsAll(m.after, after)
    ensures var dir := Stopped(before, after, m, k);
      dir == before || dir == after <==>
        || k == 0 || k >= |m.before| + |m.after|
        || (k <= |m.before| && after == Named(before, m.before[k..]))
        || (k >= |m.before| && before == Named(after, m.after[..k - |m.before|]))
  {
    hide Named;
    NamedNone(before);
    NamedNone(after);
    assert m.before[|m.before|..] == [] && m.after[..0] == [];
    assert |m.before| > 0 ==> m.before[0] in before;
    assert |m.after| > 0 ==> m.after[0] in after;
    if k <= |m.before| {
      NamedAll(before, m.before, k, |m.before|);
    } else if k <= |m.before| + |m.after| {
      NamedAll(after, m.after, 0, k - |m.before|);
    }
  }

  lemma NamedNone(files: Files)
    ensures Named(files, []) == map[]
  {
  }

  // Some of the names give all of the files only if they are all of the names.
  lemma NamedAll(files: Files, names: seq<FileName>, i: nat, j: nat)
    requires ListsAll(names, files) && i <= j <= |names|
    ensures Named(files, names[i..j]) == files <==> i == 0 && j == |names|
    ensures j == |names| ==> names[i..j] == names[i..]
    ensures i == 0 ==> names[i..j] == names[..j]
  {
    var part := names[i..j];
    if i == 0 && j == |names| {
      assert part == names;
    } else {
      var missing := if i > 0 then 0 else j;
      assert names[missing] in names && names[missing] !in part;
    }
  }

  // If neither set is part of the other, only the number of operations counts.
  lemma AbandonedSwap(before: Files, after: Files, m: Manifest, k: nat)
    requires ListsAll(m.before, before) && ListsAll(m.after, after) && !PartOf(before, after) && !PartOf(after, before)
    ensures var dir := Stopped(before, after, m, k);
      dir == before || dir == after <==> k == 0 || k >= |m.before| + |m.after|
  {
    hide Stopped, ListsAll;
    StoppedExactly(before, after, m, k);
  }

  ghost predicate PartOf(a: Files, b: Files) { forall n :: n in a ==> n in b && b[n] == a[n] }

  // An error on the first rename leaves nothing at all.
  lemma AbandonLosesAll(before: Files, after: Files, m: Manifest)
    ensures Stopped(before, after, m, |m.before|) == map[]
  {
  }
}
