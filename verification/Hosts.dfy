/** The system calls the agent makes. Each may fail at any time; `*` chooses when. */
module Hosts {
  import opened Options
  import opened Octal
  import opened ByteStrings
  import opened Disks

  datatype Inspection = Unreadable | Absent | Present(body: Bytes, mode: Perm)

  /** m is d with some of `dirs` made. */
  ghost predicate Making(d: Disk, m: Disk, dirs: set<Path>) {
    forall q :: At(m, q) != At(d, q) ==> q in dirs && q !in d && q in m && m[q].Dir?
  }

  /** m is d with some paths gone. */
  ghost predicate Removing(d: Disk, m: Disk) {
    forall q :: q in m ==> At(d, q) == Some(m[q])
  }

  /** m lies between d and d', path by path. */
  ghost predicate Midway(d: Disk, m: Disk, d': Disk) {
    forall q :: At(m, q) == At(d, q) || At(m, q) == At(d', q)
  }

  /** Every directory above p exists. */
  predicate Rooted(d: Disk, p: Path) {
    forall a :: a in Ancestors(p) ==> IsDir(d, a)
  }

  class Host {
    const env: Env
    var disk: Disk
    var archives: map<Path, Bytes>
    /** Every state of the disk that a concurrent reader could have met, in order. A call that is not one
        step of the kernel adds as many as it likes of those it may pass through. */
    ghost var seen: seq<Disk>
    /** How many calls have returned an error. */
    ghost var failures: nat
    /** The predicates run, with their answers, and the commands run, with whether they exited with 0. */
    ghost var asked: seq<(string, Option<bool>)>
    ghost var ran: seq<(string, bool)>

    constructor (env: Env, disk: Disk, archives: map<Path, Bytes>)
      ensures this.env == env && this.disk == disk && this.archives == archives
      ensures seen == [] && failures == 0 && asked == [] && ran == []
    {
      this.env, this.disk, this.archives := env, disk, archives;
      seen, failures, asked, ran := [], 0, [], [];
    }

    method Stat(p: Path) returns (r: Look)
      modifies this`failures
      ensures r == Disks.Stat(env, disk, p) || r == Broken
      ensures failures == old(failures) + (if r.Broken? then 1 else 0)
    {
      r := Disks.Stat(env, disk, p);
      if * { r := Broken; }
      if r.Broken? { failures := failures + 1; }
    }

    method Lstat(p: Path) returns (r: Look)
      modifies this`failures
      ensures r == Disks.Lstat(disk, p) || r == Broken
      ensures failures == old(failures) + (if r.Broken? then 1 else 0)
    {
      r := Disks.Lstat(disk, p);
      if * { r := Broken; }
      if r.Broken? { failures := failures + 1; }
    }

    /** Stat, open and read; a directory opens but cannot be read. */
    method Inspect(p: Path) returns (r: Inspection)
      modifies this`failures
      ensures match Disks.Stat(env, disk, p)
        case Broken => r == Unreadable
        case Missing => r == Unreadable || r == Absent
        case Found(_, n) => r == Unreadable || (n.File? && r == Present(n.body, n.mode))
      ensures if r.Unreadable? then failures > old(failures) else failures == old(failures)
    {
      var look := Stat(p);
      match look
      case Broken => r := Unreadable;
      case Missing => r := Absent;
      case Found(_, n) =>
        r := if n.File? then Present(n.body, n.mode) else Unreadable;
        if r.Unreadable? { failures := failures + 1; }
    }

    /** `os.MkdirAll`, given every directory it has to make sure of. */
    method MkdirAll(dirs: set<Path>, mode: int) returns (ok: bool)
      modifies this`disk, this`seen, this`failures
      ensures failures == old(failures) + (if ok then 0 else 1)
      ensures ok ==> CanMake(old(disk), dirs) && disk == MakeDirs(env, old(disk), dirs, mode)
      ensures Making(old(disk), disk, dirs)
      ensures old(seen) <= seen && forall i :: |old(seen)| <= i < |seen| ==> Making(old(disk), seen[i], dirs)
    {
      ok := *;
      var made: set<Path> := if ok then dirs else {};
      if !CanMake(disk, dirs) { ok := false; made := {}; }
      if !ok { made :| made <= dirs; }
      ghost var moments: seq<Disk> := *;
      if !(forall m | m in moments :: Making(disk, m, dirs)) { moments := []; }
      disk := MakeDirs(env, disk, made, mode);
      seen := seen + moments + [disk];
      if !ok { failures := failures + 1; }
    }

    /** `os.OpenFile` for writing: create p, or truncate the file there. */
    method Create(p: Path) returns (ok: bool)
      modifies this`disk, this`seen, this`failures
      ensures failures == old(failures) + (if ok then 0 else 1)
      ensures ok ==> TmpFree(old(disk), p) && Rooted(old(disk), p)
      ensures ok ==> exists m: Perm :: disk == old(disk)[p := NewFile(env, old(disk), p, [], m)]
      ensures !ok ==> disk == old(disk)
      ensures seen == old(seen) + [disk]
    {
      ok := *;
      var mode: Perm :| true;
      if ok && TmpFree(disk, p) && Rooted(disk, p) {
        disk := disk[p := NewFile(env, disk, p, [], mode)];
      } else {
        ok := false;
      }
      seen := seen + [disk];
      if !ok { failures := failures + 1; }
    }

    /** Write to the file just created; part of the data can be seen there, and a failure may leave part of it. */
    method Write(p: Path, data: Bytes) returns (ok: bool)
      requires p in disk && disk[p].File?
      modifies this`disk, this`seen, this`failures
      ensures failures == old(failures) + (if ok then 0 else 1)
      ensures ok ==> disk == old(disk)[p := old(disk)[p].(body := data)]
      ensures OnlyTmp(old(disk), disk, p) && p in disk && disk[p].File?
      ensures !ok ==> disk[p].body < data
      ensures old(seen) <= seen && forall i :: |old(seen)| <= i < |seen| ==> OnlyTmp(old(disk), seen[i], p)
    {
      var before := disk;
      var early :| 0 <= early <= |data|;
      disk := before[p := before[p].(body := data[..early])];
      seen := seen + [disk];
      var n :| early <= n <= |data|;
      disk := before[p := before[p].(body := data[..n])];
      seen := seen + [disk];
      ok := n == |data|;
      if ok { assert data[..n] == data; }
      if !ok { failures := failures + 1; }
    }

    /** `os.WriteFile`. */
    method WriteFile(p: Path, data: Bytes) returns (ok: bool)
      modifies this`disk, this`seen, this`failures
      ensures failures == old(failures) + (if ok then 0 else 1)
      ensures ok ==> TmpFree(old(disk), p) && Rooted(old(disk), p)
      ensures ok ==> exists m: Perm :: disk == old(disk)[p := NewFile(env, old(disk), p, data, m)]
      ensures OnlyTmp(old(disk), disk, p)
      ensures !ok ==> disk == old(disk) || (p in disk && disk[p].File? && disk[p].body < data)
      ensures old(seen) <= seen && forall i :: |old(seen)| <= i < |seen| ==> OnlyTmp(old(disk), seen[i], p)
    {
      ok := Create(p);
      if !ok { return; }
      ghost var made := disk;
      ghost var m: Perm :| made == old(disk)[p := NewFile(env, old(disk), p, [], m)];
      ok := Write(p, data);
      assert ok ==> disk == old(disk)[p := NewFile(env, old(disk), p, data, m)];
    }

    method Chmod(p: Path, mode: nat) returns (ok: bool)
      modifies this`disk, this`seen, this`failures
      ensures failures == old(failures) + (if ok then 0 else 1)
      ensures ok ==> var r := Disks.Stat(env, old(disk), p);
        r.Found? && disk == old(disk)[r.at := Moded(r.node, mode % 512)]
      ensures !ok ==> disk == old(disk)
      ensures seen == old(seen) + [disk]
    {
      ok := *;
      var r := Disks.Stat(env, disk, p);
      if ok && r.Found? { disk := disk[r.at := Moded(r.node, mode % 512)]; } else { ok := false; }
      seen := seen + [disk];
      if !ok { failures := failures + 1; }
    }

    method Chown(p: Path, uid: Option<int>, gid: Option<int>) returns (ok: bool)
      modifies this`disk, this`seen, this`failures
      ensures failures == old(failures) + (if ok then 0 else 1)
      ensures ok ==> var r := Disks.Stat(env, old(disk), p);
        r.Found? && disk == old(disk)[r.at := Owned(r.node, uid, gid)]
      ensures !ok ==> disk == old(disk)
      ensures seen == old(seen) + [disk]
    {
      ok := *;
      var r := Disks.Stat(env, disk, p);
      if ok && r.Found? { disk := disk[r.at := Owned(r.node, uid, gid)]; } else { ok := false; }
      seen := seen + [disk];
      if !ok { failures := failures + 1; }
    }

    /** `os.Lchown`, or a walk of it over a tree; a failing walk may stop anywhere. */
    method Lchown(p: Path, uid: Option<int>, gid: Option<int>, recursive: bool) returns (ok: bool)
      modifies this`disk, this`seen, this`failures
      ensures failures == old(failures) + (if ok then 0 else 1)
      ensures ok ==> p in old(disk)
      ensures ok && recursive ==> disk == OwnTree(old(disk), p, uid, gid)
      ensures ok && !recursive ==> disk == old(disk)[p := Owned(old(disk)[p], uid, gid)]
      ensures old(seen) <= seen && forall i :: |old(seen)| <= i < |seen| ==> Midway(old(disk), seen[i], disk)
    {
      ok := *;
      ghost var before, moments: seq<Disk> := disk, *;
      if p !in disk { ok := false; }
      if ok {
        disk := if recursive then OwnTree(disk, p, uid, gid) else disk[p := Owned(disk[p], uid, gid)];
      } else if recursive {
        var reached: set<Path> :| true;
        disk := map q | q in disk :: if q in reached then Owned(disk[q], uid, gid) else disk[q];
      }
      if !(forall m | m in moments :: Midway(before, m, disk)) { moments := []; }
      seen := seen + moments + [disk];
      if !ok { failures := failures + 1; }
    }

    /** `os.Rename` onto p; the source must be there and p must not be a directory. */
    method Rename(tmp: Path, p: Path) returns (ok: bool)
      modifies this`disk, this`seen, this`failures
      ensures failures == old(failures) + (if ok then 0 else 1)
      ensures ok ==>
        tmp in old(disk) && !(p in old(disk) && old(disk)[p].Dir?) && disk == (old(disk) - {tmp})[p := old(disk)[tmp]]
      ensures !ok ==> disk == old(disk)
      ensures seen == old(seen) + [disk]
    {
      ok := *;
      if ok && tmp in disk && !(p in disk && disk[p].Dir?) {
        disk := (disk - {tmp})[p := disk[tmp]];
      } else {
        ok := false;
      }
      seen := seen + [disk];
      if !ok { failures := failures + 1; }
    }

    method Symlink(src: Path, dst: Path) returns (ok: bool)
      modifies this`disk, this`seen, this`failures
      ensures failures == old(failures) + (if ok then 0 else 1)
      ensures ok ==> dst !in old(disk) && disk == old(disk)[dst := Link(src, env.uid, env.gid)]
      ensures !ok ==> disk == old(disk)
      ensures seen == old(seen) + [disk]
    {
      ok := *;
      if ok && dst !in disk { disk := disk[dst := Link(src, env.uid, env.gid)]; } else { ok := false; }
      seen := seen + [disk];
      if !ok { failures := failures + 1; }
    }

    /** `os.Remove`: a directory must be empty. */
    method Remove(p: Path) returns (ok: bool)
      modifies this`disk, this`seen, this`failures
      ensures failures == old(failures) + (if ok then 0 else 1)
      ensures ok ==> p in old(disk) && (old(disk)[p].Dir? ==> !HasChildren(old(disk), p)) && disk == old(disk) - {p}
      ensures !ok ==> disk == old(disk)
      ensures seen == old(seen) + [disk]
    {
      ok := *;
      if ok && p in disk && (disk[p].Dir? ==> !HasChildren(disk, p)) { disk := disk - {p}; } else { ok := false; }
      seen := seen + [disk];
      if !ok { failures := failures + 1; }
    }

    /** `os.RemoveAll`: a failure may have removed part of the tree. */
    method RemoveAll(p: Path) returns (ok: bool)
      modifies this`disk, this`seen, this`failures
      ensures failures == old(failures) + (if ok then 0 else 1)
      ensures ok ==> disk == RemoveTree(old(disk), p)
      ensures Removing(old(disk), disk)
      ensures old(seen) <= seen && forall i :: |old(seen)| <= i < |seen| ==> Removing(old(disk), seen[i])
    {
      ok := *;
      ghost var moments: seq<Disk> := *;
      if !(forall m | m in moments :: Removing(disk, m)) { moments := []; }
      if ok {
        disk := RemoveTree(disk, p);
      } else {
        var gone: set<Path> :| true;
        disk := map q | q in disk && !(q in gone && (q == p || Under(q, p))) :: disk[q];
      }
      seen := seen + moments + [disk];
      if !ok { failures := failures + 1; }
    }

    /** A predicate run by `/bin/sh -c`: Some(exit 0), or None when it could not be run. */
    method Ask(expr: string) returns (answer: Option<bool>)
      modifies this`asked
      ensures asked == old(asked) + [(expr, answer)]
    {
      answer := *;
      asked := asked + [(expr, answer)];
    }

    /** `/bin/sh -c`: any effect on the disk by way of any states, any exit status. */
    method Shell(run: string) returns (ok: bool)
      modifies this`disk, this`seen, this`failures, this`ran
      ensures failures == old(failures) + (if ok then 0 else 1)
      ensures old(seen) < seen && ran == old(ran) + [(run, ok)]
    {
      ok := *;
      disk := *;
      ghost var moments: seq<Disk> := *;
      seen := seen + moments + [disk];
      ran := ran + [(run, ok)];
      if !ok { failures := failures + 1; }
    }

    /** Copy the file at p into the archive store under a fresh random name. */
    method Archive(p: Path) returns (ok: bool, name: Path)
      modifies this`archives, this`failures
      ensures failures == old(failures) + (if ok then 0 else 1)
      ensures ok ==> var r := Disks.Stat(env, disk, p);
        r.Found? && r.node.File? && archives == old(archives)[name := r.node.body]
      ensures !ok ==> archives == old(archives)
    {
      ok := *;
      name := *;
      var r := Disks.Stat(env, disk, p);
      if ok && r.Found? && r.node.File? { archives := archives[name := r.node.body]; } else { ok := false; }
      if !ok { failures := failures + 1; }
    }

    method OpenArchive(name: Path) returns (r: Option<Bytes>)
      modifies this`failures
      ensures r.Some? ==> name in archives && r.value == archives[name]
      ensures failures == old(failures) + (if r.Some? then 0 else 1)
    {
      if * { r := None; } else { r := if name in archives then Some(archives[name]) else None; }
      if r == None { failures := failures + 1; }
    }

    method RemoveArchive(name: Path) returns (ok: bool)
      modifies this`archives, this`failures
      ensures failures == old(failures) + (if ok then 0 else 1)
      ensures ok ==> archives == old(archives) - {name}
      ensures !ok ==> archives == old(archives)
    {
      ok := *;
      if ok { archives := archives - {name}; }
      if !ok { failures := failures + 1; }
    }

    /** `os.RemoveAll` on the history directory. */
    method RemoveHistoryDir() returns (ok: bool, ghost left: set<Path>)
      modifies this`archives, this`failures
      ensures failures == old(failures) + (if ok then 0 else 1)
      ensures archives == map n | n in old(archives) && n in left :: old(archives)[n]
      ensures ok ==> left == {}
    {
      ok := *;
      left := {};
      if ok {
        archives := map[];
      } else {
        var kept: set<Path> :| true;
        left := kept;
        archives := map n | n in archives && n in kept :: archives[n];
      }
      if !ok { failures := failures + 1; }
    }
  }
}
