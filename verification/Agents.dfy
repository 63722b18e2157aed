/** The agent itself: the handlers, the rollback and the run loop, step by step over the host. */
module Agents {
  import opened Options
  import opened Octal
  import opened ByteStrings
  import opened Disks
  import opened Hosts
  import opened Tasks
  import opened Rollbacks
  import opened Histories
  import opened Plans
  import opened Readers
  import opened Filters
  import opened Answers

  /** A row of state.json, shared by reference and updated in place by rollback and clear. */
  class FileState {
    var sha256: string
    var mode: string
    var history: seq<Entry>

    constructor (sha256: string, mode: string, history: seq<Entry>)
      ensures Rec() == FileRec(sha256, mode, history)
    {
      this.sha256, this.mode, this.history := sha256, mode, history;
    }

    function Rec(): FileRec
      reads this
    {
      FileRec(sha256, mode, history)
    }
  }

  lemma TmpAncestors(p: Path, suffix: string)
    requires forall i :: 0 <= i < |suffix| ==> suffix[i] != '/'
    ensures Ancestors(p + suffix) == Ancestors(p)
  {
    forall a ensures Under(p + suffix, a) <==> Under(p, a) {
      if |a| < |p| { assert (p + suffix)[..|a|] == p[..|a|]; }
    }
  }

  /** What a failed write may leave in the sibling when it could clean up: what was there, nothing, a part of the
      body, or the finished file that could not be put in place. */
  ghost predicate LeftInSibling(env: Env, d: Disk, d': Disk, tmp: Path, data: Bytes, mode: Perm) {
    || At(d', tmp) == At(d, tmp) || tmp !in d'
    || (d'[tmp].File? && d'[tmp].body < data)
    || At(d', tmp) == Some(NewFile(env, d, tmp, data, mode))
  }

  /** The world after a file task that went through. */
  function Written(env: Env, cfg: Config, w: World, op: Op, io: Io): World
    requires op.Copy? && Judge(env, w.disk, op).Dirty? && Effect(env, w.disk, op).Some?
  {
    World(Effect(env, w.disk, op).value, Archived(env, cfg, w, op, io).archives,
          w.files[op.dst := FileRec(Want(env, op), Recorded(op.mode), NextHistory(env, cfg, w, op, io.name))],
          w.changed + {op.dst})
  }

  lemma ArchivedFrame(env: Env, cfg: Config, w: World, op: Op, io: Io)
    requires Judge(env, w.disk, op).Dirty?
    ensures Archived(env, cfg, w, op, io) == w.(archives := Archived(env, cfg, w, op, io).archives)
  {
  }

  lemma ApplyCopy(env: Env, cfg: Config, w: World, op: Op, io: Io)
    requires op.Copy? && Judge(env, w.disk, op).Dirty? && io.fault.NoFault? && Effect(env, w.disk, op).Some?
    ensures Apply(env, cfg, w, op, io) == (Written(env, cfg, w, op, io), Changed)
  {
  }

  lemma MakeDirsOver(env: Env, d: Disk, dirs: set<Path>, p: Path, mode: int, n: Node)
    ensures MakeDirs(env, d, dirs + {p}, mode)[p := n] == MakeDirs(env, d, dirs, mode)[p := n]
  {
  }

  /** A directory made, given its mode and its owners is the directory the task asked for. */
  lemma MadeDir(env: Env, d: Disk, op: Op, mode: nat, uid: Option<int>, gid: Option<int>)
    requires op.Mkdir? && WellFormed(env, op)
    requires Stat(env, d, op.path).Missing? && CanMake(d, Ancestors(op.path) + {op.path})
    requires mode == ModeOr(op.mode, DEFAULT_DIR_MODE).value && (uid, gid) == Ownership(env, op.owner, op.group).value
    ensures Judge(env, d, op).Dirty? && Effect(env, d, op) == Some(
      MakeDirs(env, d, Ancestors(op.path) + {op.path}, mode)[op.path :=
        Owned(Dir(mode % 512, env.uid, env.gid), uid, gid)])
  {
    hide Ownership, ParseUint, ModeOr, Owned, Under, Blocked;
    assert op.path !in d && op.path !in Ancestors(op.path);
    MakeDirsOver(env, d, Ancestors(op.path), op.path, mode, Owned(Dir(mode % 512, env.uid, env.gid), uid, gid));
  }

  lemma MadeDirFound(env: Env, d: Disk, p: Path, mode: nat)
    requires Stat(env, d, p).Missing? && CanMake(d, Ancestors(p) + {p})
    ensures var d1 := MakeDirs(env, d, Ancestors(p) + {p}, mode);
      && p in d1 && d1[p] == Dir(env.mask(mode), env.uid, env.gid) && Stat(env, d1, p) == Found(p, d1[p])
      && forall n: Node :: !n.Link? ==> Stat(env, d1[p := n], p) == Found(p, n)
  {
    hide Under;
    var d1 := MakeDirs(env, d, Ancestors(p) + {p}, mode);
    assert p !in d && p !in Ancestors(p);
    forall a | a in Ancestors(p) ensures a in d1 && !d1[a].File? {
      if a in d { assert d[a].Dir?; }
    }
    forall n: Node | !n.Link? ensures Stat(env, d1[p := n], p) == Found(p, n) {
      assert !Blocked(d1[p := n], p);
    }
  }

  lemma ApplyFaulty(env: Env, cfg: Config, w: World, op: Op, io: Io, residue: Disk)
    requires op.Copy? && Judge(env, w.disk, op).Dirty?
    ensures Apply(env, cfg, w, op, io.(fault := AtEffect, residue := residue))
         == (World(residue, Archived(env, cfg, w, op, io).archives, w.files, w.changed), Error)
  {
  }

  lemma RootedUnblocked(d: Disk, d': Disk, tmp: Path)
    requires Rooted(d, tmp) && OnlyTmp(d, d', tmp)
    ensures !Blocked(d', tmp)
  {
    forall a | a in Ancestors(tmp) ensures !(a in d' && d'[a].File?) {
      assert IsDir(d, a) && At(d', a) == At(d, a);
    }
  }

  lemma RemovedTmp(d: Disk, filled: Disk, d': Disk, tmp: Path)
    requires OnlyTmp(d, filled, tmp) && TmpFree(d, tmp)
    requires (d' == filled || d' == filled - {tmp}) && TmpFree(filled, tmp)
    ensures OnlyTmp(d, d', tmp)
  {
    forall q | q != tmp ensures At(d', q) == At(d, q) { assert At(filled, q) == At(d, q); }
  }

  lemma RollbackDone(env: Env, w: World, p: Path, k: nat, io: Io)
    requires p in w.files && k >= 1 && Succeeds(w, p, k) && io.fault.NoFault?
    ensures var gone := Names(w.files[p].history[..k]) - io.sticky;
      Rollbacks.RollbackOne(env, w, p, k, io)
        == (World(Restored(env, w, p, k), w.archives - gone, w.files[p := Dropped(w.files[p], k)], w.changed), Changed)
  {
  }

  lemma RestoredIsReplaced(env: Env, w: World, p: Path, k: nat)
    requires p in w.files && k >= 1 && Backed(w, p, k)
    ensures var e := w.files[p].history[k - 1];
      Restored(env, w, p, k) == Replaced(env, w.disk, p, p + ROLLBACK_TMP, w.archives[e.archive],
                                         ModeOr(e.mode, DEFAULT_FILE_MODE).value % 512)
  {
  }

  lemma RollbackRefused(env: Env, w: World, p: Path, k: nat, io: Io)
    requires p in w.files && k >= 1 && (!Backed(w, p, k) || io.fault.AtInspect?)
    ensures Rollbacks.RollbackOne(env, w, p, k, io) == (w, Error)
  {
  }

  lemma RollbackBroken(env: Env, w: World, p: Path, k: nat, io: Io)
    requires p in w.files && k >= 1 && Backed(w, p, k) && io.fault.AtEffect?
    ensures Rollbacks.RollbackOne(env, w, p, k, io) == (w.(disk := io.residue), Error)
  {
  }

  lemma SameOnlyTmp(d: Disk, tmp: Path)
    ensures OnlyTmp(d, d, tmp)
  {
  }

  lemma SameOnlyScratch(d: Disk, p: Path, tmp: Path)
    ensures OnlyScratch(d, d, p, tmp)
  {
  }

  /** The fields of a plan that choose the mode. */
  datatype Plan = Plan(statusOnly: bool, includeHistory: bool, clearHistory: bool, rollback: bool, step: int,
    filter: Path, tasks: seq<Task>)

  /** The i-th event of a status tells of p; a failed inspection is an error. */
  ghost predicate Reports(env: Env, e: Event, i: nat, w: World, p: Path, includeHistory: bool, failed: bool) {
    && p in w.files && e.id == StatusId(i + 1) && e.path == p
    && e.status == (if failed then Error else StatusOf(env, w, p))
    && var h := if includeHistory then w.files[p].history else [];
    |e.history| == |h| && forall j :: 0 <= j < |h| ==> e.history[j] == Item(h[j].sha, h[j].mode, h[j].phase)
  }

  /** The events tell of the first paths in turn; `lost` are those whose inspection failed. */
  ghost predicate AllReport(env: Env, es: seq<Event>, w: World, paths: seq<Path>, includeHistory: bool,
                            lost: set<nat>)
  {
    && |es| <= |paths| && (forall j :: j in lost ==> j < |es|)
    && forall i :: 0 <= i < |es| ==> Reports(env, es[i], i, w, paths[i], includeHistory, i in lost)
  }

  lemma NothingReported(env: Env, w: World, paths: seq<Path>, includeHistory: bool)
    ensures AllReport(env, [], w, paths, includeHistory, {})
  {
  }

  lemma AllReportSnoc(env: Env, es: seq<Event>, w: World, paths: seq<Path>, includeHistory: bool, lost: set<nat>,
                      e: Event, failed: bool)
    requires AllReport(env, es, w, paths, includeHistory, lost) && |es| < |paths|
    requires Reports(env, e, |es|, w, paths[|es|], includeHistory, failed)
    ensures AllReport(env, es + [e], w, paths, includeHistory, if failed then lost + {|es|} else lost)
    ensures failed ==> |lost + {|es|}| == |lost| + 1
  {
    hide Reports;
  }

  class Agent {
    const host: Host
    const cfg: Config
    var files: map<Path, FileState>
    var changed: set<Path>

    /** No two paths share a row object. */
    ghost predicate Valid()
      reads this`files
    {
      forall p, q | p in files && q in files :: files[p] == files[q] ==> p == q
    }

    ghost function Rows(): map<Path, FileRec>
      reads this`files, files.Values
    {
      map p | p in files :: files[p].Rec()
    }

    ghost function W(): World
      reads this, host, files.Values
    {
      World(host.disk, host.archives, Rows(), changed)
    }

    constructor (host: Host, cfg: Config)
      ensures this.host == host && this.cfg == cfg && Valid() && Rows() == map[] && changed == {}
    {
      this.host, this.cfg, this.files, this.changed := host, cfg, map[], {};
    }

    /** Replace a row by a new object. */
    method SetRow(p: Path, sha256: string, mode: string, history: seq<Entry>)
      requires Valid()
      modifies this`files
      ensures Valid() && fresh(files.Values - old(files.Values))
      ensures Rows() == old(Rows())[p := FileRec(sha256, mode, history)]
    {
      var row := new FileState(sha256, mode, history);
      files := files[p := row];
    }

    /** Prepend and evict, deleting the evicted archives as far as the host lets us. */
    method PushHistory(history: seq<Entry>, entry: Entry, keep: nat) returns (out: seq<Entry>, ghost sticky: set<Path>)
      modifies host`archives, host`failures
      ensures old(host.failures) <= host.failures && (host.failures == old(host.failures) ==> sticky == {})
      ensures out == Kept([entry] + history, keep)
      ensures host.archives == old(host.archives) - (Names(Evicted([entry] + history, keep)) - sticky)
    {
      out := [entry] + history;
      if 0 < keep < |out| {
        sticky := DropArchives(out[keep..]);
        out := out[..keep];
      } else {
        sticky := {};
        assert Names([]) == {};
      }
    }

    /** Write a sibling, set its mode, rename it into place. Until the rename only the sibling changes. */
    method WriteAtomic(path: Path, data: Bytes, mode: nat) returns (ok: bool)
      modifies host`disk, host`seen, host`failures
      ensures old(host.failures) <= host.failures && (ok || old(host.failures) < host.failures)
      ensures ok ==> TmpFree(old(host.disk), path + DEPLOY_TMP)
      ensures ok ==> host.disk == Replaced(host.env, old(host.disk), path, path + DEPLOY_TMP, data, mode % 512)
      ensures !ok ==> OnlyTmp(old(host.disk), host.disk, path + DEPLOY_TMP)
      ensures !ok && host.failures == old(host.failures) + 1 ==>
        LeftInSibling(host.env, old(host.disk), host.disk, path + DEPLOY_TMP, data, mode % 512)
      ensures old(host.seen) <= host.seen
      ensures forall i :: |old(host.seen)| <= i < |host.seen| ==>
        OnlyTmp(old(host.disk), host.seen[i], path + DEPLOY_TMP) || host.seen[i] == host.disk
    {
      hide Ancestors, Under;
      var tmp := path + DEPLOY_TMP;
      ok := host.WriteFile(tmp, data);
      if !ok { return; }
      TmpAncestors(path, DEPLOY_TMP);
      assert !Blocked(host.disk, tmp) by { RootedUnblocked(old(host.disk), host.disk, tmp); }
      ok := host.Chmod(tmp, mode);
      if !ok {
        var _ := host.Remove(tmp);
        return;
      }
      assert host.disk == old(host.disk)[tmp := NewFile(host.env, old(host.disk), tmp, data, mode % 512)];
      ok := host.Rename(tmp, path);
    }

    /** Archive the file about to be overwritten and push it onto its history. */
    method ArchiveCurrent(op: Op, body: Bytes, mode: Perm, history: seq<Entry>)
      returns (ok: bool, out: seq<Entry>, ghost io: Io)
      requires Valid() && op.Copy? && cfg.keep > 0
      requires var r := Disks.Stat(host.env, host.disk, op.dst);
        r.Found? && r.node.File? && r.node.body == body && r.node.mode == mode
      requires Judge(host.env, host.disk, op).Dirty? && history == Tasks.History(Rows(), op.dst)
      modifies host`archives, host`failures
      ensures Honest(old(host.failures), host.failures, io)
      ensures Rows() == old(Rows())
      ensures io.residue == host.disk
      ensures !ok ==> io.fault == AtArchive && host.archives == old(host.archives)
      ensures ok ==> io.fault == NoFault && W() == Archived(host.env, cfg, old(W()), op, io)
      ensures ok ==> out == NextHistory(host.env, cfg, old(W()), op, io.name)
    {
      out := history;
      io := Io(NoFault, "", {}, host.disk);
      var archived;
      ok, archived := host.Archive(op.dst);
      if !ok {
        io := io.(fault := AtArchive);
        return;
      }
      ghost var sticky;
      out, sticky := PushHistory(history, Entry(host.env.sha(body), FmtMode(mode), archived, cfg.phase), cfg.keep);
      io := io.(name := archived, sticky := sticky);
    }

    /** Make the parent directories and replace the file. */
    method Install(op: Op, mode: nat) returns (ok: bool)
      requires op.Copy? && op.body.Some? && Judge(host.env, host.disk, op).Dirty?
      requires ModeOr(op.mode, DEFAULT_FILE_MODE) == Some(mode)
      modifies host`disk, host`seen, host`failures
      ensures old(host.failures) <= host.failures && (ok || old(host.failures) < host.failures)
      ensures ok ==> Effect(host.env, old(host.disk), op) == Some(host.disk)
      ensures !ok ==> OnlyScratch(old(host.disk), host.disk, op.dst, op.dst + DEPLOY_TMP)
      ensures old(host.seen) <= host.seen
      ensures NeverPartial(host.seen, |old(host.seen)|, op.dst, At(old(host.disk), op.dst), At(host.disk, op.dst))
      ensures WholeFiles(host.seen, |old(host.seen)|, {op.dst + DEPLOY_TMP}, old(host.disk), host.disk)
    {
      ghost var d, n := host.disk, |host.seen|;
      ok := host.MkdirAll(Ancestors(op.dst), DEFAULT_DIR_MODE);
      ghost var d1, made := host.disk, |host.seen|;
      if ok { ok := WriteAtomic(op.dst, op.body.value, mode); }
      forall i | n <= i < |host.seen| ensures Between(host.seen[i], {op.dst + DEPLOY_TMP}, d, host.disk) {
        if i < made {
          ScratchBetween(d, host.seen[i], host.seen[i], op.dst + DEPLOY_TMP, host.disk);
        } else if host.seen[i] != host.disk {
          ScratchBetween(d, d1, host.seen[i], op.dst + DEPLOY_TMP, host.disk);
        }
      }
    }

    /** Replace the file and record it, given the world `was` before anything was archived. */
    method FinishFile(op: Op, mode: nat, newHistory: seq<Entry>, ghost was: World, ghost io0: Io)
      returns (s: Status, ghost io: Io)
      requires Valid() && op.Copy? && WellFormed(host.env, op) && Judge(host.env, was.disk, op).Dirty?
      requires io0.fault.NoFault? && io0.residue == host.disk
      requires ModeOr(op.mode, DEFAULT_FILE_MODE) == Some(mode)
      requires W() == Archived(host.env, cfg, was, op, io0)
      requires newHistory == NextHistory(host.env, cfg, was, op, io0.name)
      modifies this`files, this`changed, host`disk, host`seen, host`failures
      ensures old(host.failures) <= host.failures && (s == Changed || old(host.failures) < host.failures)
      ensures Valid() && fresh(files.Values - old(files.Values))
      ensures s == Changed ==>
        io == io0 && Effect(host.env, was.disk, op).Some? && W() == Written(host.env, cfg, was, op, io)
      ensures s != Changed ==> s == Error && io == io0.(fault := AtEffect, residue := host.disk)
      ensures s != Changed ==>
        W() == World(host.disk, Archived(host.env, cfg, was, op, io0).archives, was.files, was.changed)
      ensures OnlyScratch(was.disk, io.residue, op.dst, op.dst + DEPLOY_TMP)
      ensures old(host.seen) <= host.seen
      ensures NeverPartial(host.seen, |old(host.seen)|, op.dst, At(old(host.disk), op.dst), At(host.disk, op.dst))
      ensures WholeFiles(host.seen, |old(host.seen)|, {op.dst + DEPLOY_TMP}, old(host.disk), host.disk)
    {
      hide Judge, Effect, Archived, NextHistory, Ancestors, Under, Disks.Stat, ParseUint, DEPLOY_TMP;
      hide OnlyScratch, WholeFiles, NeverPartial, FmtMode, TmpTouched;
      SameOnlyScratch(host.disk, op.dst, op.dst + DEPLOY_TMP);
      io := io0;
      ghost var w1 := W();
      ArchivedFrame(host.env, cfg, was, op, io0);
      var ok := Install(op, mode);
      assert Rows() == w1.files == was.files;
      if !ok {
        io := io.(fault := AtEffect, residue := host.disk);
        return Error, io;
      }
      RecordFile(op, newHistory, was, io0);
      s := Changed;
    }

    /** Mark the file just written and renew its row. */
    method RecordFile(op: Op, newHistory: seq<Entry>, ghost was: World, ghost io: Io)
      requires Valid() && op.Copy? && WellFormed(host.env, op) && Judge(host.env, was.disk, op).Dirty?
      requires Effect(host.env, was.disk, op) == Some(host.disk)
      requires newHistory == NextHistory(host.env, cfg, was, op, io.name)
      requires W() == World(host.disk, Archived(host.env, cfg, was, op, io).archives, was.files, was.changed)
      modifies this`files, this`changed
      ensures Valid() && fresh(files.Values - old(files.Values))
      ensures W() == Written(host.env, cfg, was, op, io)
    {
      hide Judge, Effect, Archived, NextHistory, FmtMode;
      changed := changed + {op.dst};
      SetRow(op.dst, if op.sha != "" then op.sha else host.env.sha(op.body.value),
             if op.mode == "" then FmtMode(DEFAULT_FILE_MODE) else op.mode, newHistory);
    }

    /** What a file task does once it has decided to write. */
    method ApplyFile(op: Op, current: Inspection, mode: nat) returns (s: Status, ghost io: Io)
      requires Valid() && op.Copy? && !cfg.dryRun && Judge(host.env, host.disk, op).Dirty?
      requires ModeOr(op.mode, DEFAULT_FILE_MODE) == Some(mode)
      requires var r := Disks.Stat(host.env, host.disk, op.dst);
        if r.Found? then r.node.File? && current == Present(r.node.body, r.node.mode) else current == Absent
      modifies this`files, this`changed, host`disk, host`seen, host`archives, host`failures
      ensures Honest(old(host.failures), host.failures, io)
      ensures Valid() && fresh(files.Values - old(files.Values))
      ensures s == Changed || s == Error
      ensures (W(), s) == Apply(host.env, cfg, old(W()), op, io)
      ensures !io.fault.AtInspect? && OnlyScratch(old(host.disk), io.residue, op.dst, op.dst + DEPLOY_TMP)
      ensures old(host.seen) <= host.seen
      ensures NeverPartial(host.seen, |old(host.seen)|, op.dst, At(old(host.disk), op.dst), At(host.disk, op.dst))
      ensures WholeFiles(host.seen, |old(host.seen)|, {op.dst + DEPLOY_TMP}, old(host.disk), host.disk)
    {
      hide WholeFiles, NeverPartial, Disks.Stat, Effect, OnlyScratch, ParseUint;
      NothingRead(host.seen, {op.dst + DEPLOY_TMP}, op.dst, host.disk);
      SameOnlyScratch(host.disk, op.dst, op.dst + DEPLOY_TMP);
      ghost var w := W();
      io := Io(NoFault, "", {}, host.disk);
      var newHistory: seq<Entry> := if op.dst in files then files[op.dst].history else [];
      if cfg.keep > 0 && current.Present? {
        var ok;
        ok, newHistory, io := ArchiveCurrent(op, current.body, current.mode, newHistory);
        if !ok { return Error, io; }
      }
      ghost var io0 := io;
      s, io := FinishFile(op, mode, newHistory, w, io0);
      if s == Changed {
        ApplyCopy(host.env, cfg, w, op, io0);
      } else {
        ApplyFaulty(host.env, cfg, w, op, io0, host.disk);
      }
    }

    /** The checks a file task makes before it looks at the host: the body it will write and its mode. */
    method ParseFileTask(op: Op) returns (r: Option<(Bytes, nat)>)
      requires op.Copy?
      ensures r.Some? <==> WellFormed(host.env, op)
      ensures r.Some? ==> op.body == Some(r.value.0) && ModeOr(op.mode, DEFAULT_FILE_MODE) == Some(r.value.1)
    {
      if op.dst == "" || op.body == None { return None; }
      var body := op.body.value;
      if op.sha != "" && host.env.sha(body) != op.sha { return None; }
      var mode := DEFAULT_FILE_MODE;
      if op.mode != "" {
        var v := ParseUint(op.mode);
        if v == None { return None; }
        mode := v.value;
      }
      r := Some((body, mode));
    }

    /** copy and template. */
    method RunFileTask(op: Op) returns (s: Status, ghost io: Io)
      requires Valid() && op.Copy?
      modifies this`files, this`changed, host`disk, host`seen, host`archives, host`failures
      ensures Honest(old(host.failures), host.failures, io)
      ensures Valid() && fresh(files.Values - old(files.Values))
      ensures (W(), s) == Handle(host.env, cfg, old(W()), op, io)
      ensures OnlyScratch(old(host.disk), io.residue, op.dst, op.dst + DEPLOY_TMP)
      ensures old(host.seen) <= host.seen
      ensures cfg.dryRun || s == Skipped || !Judge(host.env, old(host.disk), op).Dirty? ==> host.seen == old(host.seen)
      ensures NeverPartial(host.seen, |old(host.seen)|, op.dst, At(old(host.disk), op.dst), At(host.disk, op.dst))
      ensures WholeFiles(host.seen, |old(host.seen)|, {op.dst + DEPLOY_TMP}, old(host.disk), host.disk)
    {
      hide Apply, Disks.Stat, WellFormed, ParseUint, Ancestors, Under, FmtMode, DEPLOY_TMP;
      hide WholeFiles, NeverPartial, OnlyScratch;
      NothingRead(host.seen, {op.dst + DEPLOY_TMP}, op.dst, host.disk);
      SameOnlyScratch(host.disk, op.dst, op.dst + DEPLOY_TMP);
      io := Io(NoFault, "", {}, host.disk);
      var parsed := ParseFileTask(op);
      if parsed == None { return Error, io; }
      s, io := DecideFile(op, parsed.value.0, parsed.value.1);
    }

    /** Compare digest and mode with what is there; skip, preview or write. */
    method DecideFile(op: Op, body: Bytes, mode: nat) returns (s: Status, ghost io: Io)
      requires Valid() && op.Copy? && WellFormed(host.env, op)
      requires op.body == Some(body) && ModeOr(op.mode, DEFAULT_FILE_MODE) == Some(mode)
      modifies this`files, this`changed, host`disk, host`seen, host`archives, host`failures
      ensures Honest(old(host.failures), host.failures, io)
      ensures Valid() && fresh(files.Values - old(files.Values))
      ensures (W(), s) == Handle(host.env, cfg, old(W()), op, io)
      ensures OnlyScratch(old(host.disk), io.residue, op.dst, op.dst + DEPLOY_TMP)
      ensures old(host.seen) <= host.seen
      ensures cfg.dryRun || s == Skipped || !Judge(host.env, old(host.disk), op).Dirty? ==> host.seen == old(host.seen)
      ensures NeverPartial(host.seen, |old(host.seen)|, op.dst, At(old(host.disk), op.dst), At(host.disk, op.dst))
      ensures WholeFiles(host.seen, |old(host.seen)|, {op.dst + DEPLOY_TMP}, old(host.disk), host.disk)
    {
      hide Apply, Disks.Stat, WellFormed, ParseUint, Ancestors, Under, FmtMode, DEPLOY_TMP;
      hide WholeFiles, NeverPartial, OnlyScratch;
      NothingRead(host.seen, {op.dst + DEPLOY_TMP}, op.dst, host.disk);
      SameOnlyScratch(host.disk, op.dst, op.dst + DEPLOY_TMP);
      io := Io(NoFault, "", {}, host.disk);
      var current := host.Inspect(op.dst);
      if current == Unreadable {
        io := io.(fault := AtInspect);
        return Error, io;
      }
      var desired := if op.sha != "" then op.sha else host.env.sha(body);
      if current.Present? && host.env.sha(current.body) == desired && current.mode == mode {
        if !cfg.dryRun { RefreshRow(op, desired); }
        return Skipped, io;
      }
      if cfg.dryRun {
        changed := changed + {op.dst};
        return WouldChange, io;
      }
      s, io := ApplyFile(op, current, mode);
    }

    /** Nothing to write: the row is renewed, its history kept. */
    method RefreshRow(op: Op, desired: string)
      requires Valid() && op.Copy? && op.body.Some? && desired == Want(host.env, op)
      modifies this`files
      ensures Valid() && fresh(files.Values - old(files.Values))
      ensures Rows() == old(Rows())[op.dst := FileRec(desired, Recorded(op.mode), History(old(Rows()), op.dst))]
    {
      SetRow(op.dst, desired, if op.mode == "" then FmtMode(DEFAULT_FILE_MODE) else op.mode,
             if op.dst in files then files[op.dst].history else []);
    }

    method RunMkdirTask(op: Op) returns (s: Status, ghost io: Io)
      requires Valid() && op.Mkdir?
      modifies this`changed, host`disk, host`seen, host`failures
      ensures Honest(old(host.failures), host.failures, io)
      ensures (W(), s) == Handle(host.env, cfg, old(W()), op, io)
      ensures old(host.seen) <= host.seen && WholeFiles(host.seen, |old(host.seen)|, {}, old(host.disk), host.disk)
      ensures cfg.dryRun || s == Skipped || !Judge(host.env, old(host.disk), op).Dirty? ==> host.seen == old(host.seen)
    {
      hide Effect, Apply, Disks.Stat, Ownership, ParseUint, Ancestors, Under, CanMake;
      io := Io(NoFault, "", {}, host.disk);
      var mode := ModeOr(op.mode, DEFAULT_DIR_MODE);
      var ids := Ownership(host.env, op.owner, op.group);
      if op.path == "" || mode == None || ids == None { return Error, io; }
      var (uid, gid) := ids.value;
      var look := host.Stat(op.path);
      match look
      case Broken =>
        io := io.(fault := AtInspect);
        s := Error;
      case Missing => s, io := MkdirMissing(op, mode.value, uid, gid);
      case Found(_, st) => s, io := MkdirFound(op, st, mode.value, uid, gid);
    }

    /** mkdir where nothing is there yet. */
    method MkdirMissing(op: Op, mode: nat, uid: Option<int>, gid: Option<int>) returns (s: Status, ghost io: Io)
      requires Valid() && op.Mkdir? && WellFormed(host.env, op)
      requires mode == ModeOr(op.mode, DEFAULT_DIR_MODE).value
      requires (uid, gid) == Ownership(host.env, op.owner, op.group).value
      requires Disks.Stat(host.env, host.disk, op.path).Missing?
      modifies this`changed, host`disk, host`seen, host`failures
      ensures Honest(old(host.failures), host.failures, io)
      ensures (W(), s) == Handle(host.env, cfg, old(W()), op, io)
      ensures old(host.seen) <= host.seen && WholeFiles(host.seen, |old(host.seen)|, {}, old(host.disk), host.disk)
      ensures cfg.dryRun || s == Skipped || !Judge(host.env, old(host.disk), op).Dirty? ==> host.seen == old(host.seen)
    {
      hide Effect, Apply, Disks.Stat, Ownership, ParseUint, Ancestors, Under;
      io := Io(NoFault, "", {}, host.disk);
      if cfg.dryRun {
        changed := changed + {op.path};
        return WouldChange, io;
      }
      ghost var d := host.disk;
      var ok := CreateDir(op, mode, uid, gid);
      s, io := Conclude(op, ok, d);
    }

    /** mkdir where something is there already. */
    method MkdirFound(op: Op, st: Node, mode: nat, uid: Option<int>, gid: Option<int>) returns (s: Status, ghost io: Io)
      requires Valid() && op.Mkdir? && WellFormed(host.env, op)
      requires mode == ModeOr(op.mode, DEFAULT_DIR_MODE).value
      requires (uid, gid) == Ownership(host.env, op.owner, op.group).value
      requires Disks.Stat(host.env, host.disk, op.path).Found? && Disks.Stat(host.env, host.disk, op.path).node == st
      modifies this`changed, host`disk, host`seen, host`failures
      ensures Honest(old(host.failures), host.failures, io)
      ensures (W(), s) == Handle(host.env, cfg, old(W()), op, io)
      ensures old(host.seen) <= host.seen && WholeFiles(host.seen, |old(host.seen)|, {}, old(host.disk), host.disk)
      ensures cfg.dryRun || s == Skipped || !Judge(host.env, old(host.disk), op).Dirty? ==> host.seen == old(host.seen)
    {
      hide Effect, Apply, Disks.Stat, Ownership, ParseUint, Ancestors, Under;
      io := Io(NoFault, "", {}, host.disk);
      if !st.Dir? { return Error, io; }
      var needChmod := op.mode != "" && st.mode != mode;
      var needChown := (uid.Some? && st.uid != uid.value) || (gid.Some? && st.gid != gid.value);
      if !needChmod && !needChown { return Skipped, io; }
      if cfg.dryRun {
        changed := changed + {op.path};
        return WouldChange, io;
      }
      ghost var d := host.disk;
      var ok := ReconcileDir(op, mode, uid, gid, needChmod, needChown);
      s, io := Conclude(op, ok, d);
    }

    /** The end of every handler that changes only the disk: the path is marked if all calls went through. */
    method Conclude(op: Op, ok: bool, ghost d: Disk) returns (s: Status, ghost io: Io)
      requires !op.Copy? && !op.Command? && Judge(host.env, d, op).Dirty?
      requires ok ==> Effect(host.env, d, op) == Some(host.disk)
      modifies this`changed
      ensures (W(), s) == Apply(host.env, cfg, old(W()).(disk := d), op, io) && io.fault != AtInspect
      ensures if ok then s == Changed && Calm(io) else s == Error
    {
      hide Judge, Effect;
      io := Io(if ok then NoFault else AtEffect, "", {}, host.disk);
      if ok { changed := changed + {PathOf(op)}; }
      s := if ok then Changed else Error;
    }

    method CreateDir(op: Op, mode: nat, uid: Option<int>, gid: Option<int>) returns (ok: bool)
      requires op.Mkdir? && WellFormed(host.env, op) && Disks.Stat(host.env, host.disk, op.path).Missing?
      requires mode == ModeOr(op.mode, DEFAULT_DIR_MODE).value
      requires (uid, gid) == Ownership(host.env, op.owner, op.group).value
      requires Judge(host.env, host.disk, op).Dirty?
      modifies host`disk, host`seen, host`failures
      ensures old(host.failures) <= host.failures && (ok || old(host.failures) < host.failures)
      ensures ok ==> Effect(host.env, old(host.disk), op) == Some(host.disk)
      ensures old(host.seen) <= host.seen && WholeFiles(host.seen, |old(host.seen)|, {}, old(host.disk), host.disk)
    {
      ghost var d, n := host.disk, |host.seen|;
      ok := host.MkdirAll(Ancestors(op.path) + {op.path}, mode);
      OldFilesMade(d, host.disk);
      if ok {
        MadeDir(host.env, d, op, mode, uid, gid);
        MadeDirFound(host.env, d, op.path, mode);
        ok := SetDir(op.path, mode, uid, gid, d);
      }
      OldFilesWhole(host.seen, n, d, host.disk);
    }

    /** Give a directory just made its mode and owners. */
    method SetDir(p: Path, mode: nat, uid: Option<int>, gid: Option<int>, ghost d: Disk) returns (ok: bool)
      requires Disks.Stat(host.env, host.disk, p).Found?
      requires Disks.Stat(host.env, host.disk, p).at == p && OldFiles(d, host.disk)
      requires Disks.Stat(host.env, host.disk, p).node == Dir(host.env.mask(mode), host.env.uid, host.env.gid)
      requires forall n: Node :: !n.Link? ==> Disks.Stat(host.env, host.disk[p := n], p) == Found(p, n)
      modifies host`disk, host`seen, host`failures
      ensures old(host.failures) <= host.failures && (ok || old(host.failures) < host.failures)
      ensures ok ==> host.disk == old(host.disk)[p := Owned(Dir(mode % 512, host.env.uid, host.env.gid), uid, gid)]
      ensures old(host.seen) <= host.seen && forall i :: |old(host.seen)| <= i < |host.seen| ==>
        OldFiles(d, host.seen[i])
    {
      hide Disks.Stat, OldFiles;
      ghost var d1 := host.disk;
      ghost var n := Dir(mode % 512, host.env.uid, host.env.gid);
      OldFilesDir(d, d1, p, n);
      OldFilesDir(d, d1, p, Owned(n, uid, gid));
      ok := host.Chmod(p, mode);
      if !ok { return; }
      assert host.disk == d1[p := n] && Disks.Stat(host.env, d1[p := n], p) == Found(p, n);
      if uid.Some? || gid.Some? {
        ok := host.Chown(p, uid, gid);
        assert ok ==> host.disk == d1[p := Owned(n, uid, gid)];
      } else {
        assert Owned(n, uid, gid) == n;
      }
    }

    method ReconcileDir(op: Op, mode: nat, uid: Option<int>, gid: Option<int>, needChmod: bool, needChown: bool)
      returns (ok: bool)
      requires op.Mkdir? && WellFormed(host.env, op) && Judge(host.env, host.disk, op).Dirty?
      requires mode == ModeOr(op.mode, DEFAULT_DIR_MODE).value
      requires (uid, gid) == Ownership(host.env, op.owner, op.group).value
      requires var r := Disks.Stat(host.env, host.disk, op.path);
        && r.Found? && r.node.Dir? && needChmod == (op.mode != "" && r.node.mode != mode)
        && needChown == ((uid.Some? && r.node.uid != uid.value) || (gid.Some? && r.node.gid != gid.value))
      modifies host`disk, host`seen, host`failures
      ensures old(host.failures) <= host.failures && (ok || old(host.failures) < host.failures)
      ensures ok ==> Effect(host.env, old(host.disk), op) == Some(host.disk)
      ensures old(host.seen) <= host.seen && WholeFiles(host.seen, |old(host.seen)|, {}, old(host.disk), host.disk)
    {
      hide Judge, Effect;
      ghost var d := host.disk;
      ghost var r := Disks.Stat(host.env, host.disk, op.path);
      ReconciledDir(host.env, d, op);
      ok := true;
      if needChmod {
        ok := host.Chmod(op.path, mode);
        FollowOfUpdate(host.env, d, op.path, Moded(r.node, mode % 512), host.env.maxLinks);
      }
      ghost var n := if op.mode != "" then Moded(r.node, mode % 512) else r.node;
      assert ok ==> host.disk == d[r.at := n];
      if ok && needChown { ok := host.Chown(op.path, uid, gid); }
      assert !needChown ==> Owned(n, uid, gid) == n;
      assert ok ==> host.disk == d[r.at := Owned(n, uid, gid)];
    }

    method RunSymlinkTask(op: Op) returns (s: Status, ghost io: Io)
      requires Valid() && op.Symlink?
      modifies this`changed, host`disk, host`seen, host`failures
      ensures Honest(old(host.failures), host.failures, io)
      ensures (W(), s) == Handle(host.env, cfg, old(W()), op, io)
      ensures old(host.seen) <= host.seen && WholeFiles(host.seen, |old(host.seen)|, {}, old(host.disk), host.disk)
      ensures cfg.dryRun || s == Skipped || !Judge(host.env, old(host.disk), op).Dirty? ==> host.seen == old(host.seen)
      ensures
        var look := Disks.Lstat(old(host.disk), op.dst);
        look.Found? && !look.node.Link? && !op.force ==>
          s == Error && W() == old(W()) && host.seen == old(host.seen)
    {
      hide Effect, Apply, Disks.Lstat;
      io := Io(NoFault, "", {}, host.disk);
      if op.src == "" || op.dst == "" { return Error, io; }
      var look := host.Lstat(op.dst);
      if look == Broken {
        io := io.(fault := AtInspect);
        return Error, io;
      }
      if look.Found? && look.node.Link? && look.node.target == op.src { return Skipped, io; }
      if look.Found? && !look.node.Link? && !op.force { return Error, io; }
      if cfg.dryRun {
        changed := changed + {op.dst};
        return WouldChange, io;
      }
      ghost var d := host.disk;
      var ok := PlaceLink(op, look);
      s, io := Conclude(op, ok, d);
    }

    method PlaceLink(op: Op, look: Look) returns (ok: bool)
      requires op.Symlink? && Judge(host.env, host.disk, op).Dirty?
      requires look == Disks.Lstat(host.disk, op.dst) && !look.Broken?
      modifies host`disk, host`seen, host`failures
      ensures old(host.failures) <= host.failures && (ok || old(host.failures) < host.failures)
      ensures ok ==> Effect(host.env, old(host.disk), op) == Some(host.disk)
      ensures old(host.seen) <= host.seen && WholeFiles(host.seen, |old(host.seen)|, {}, old(host.disk), host.disk)
    {
      hide Judge;
      ghost var link := Link(op.src, host.env.uid, host.env.gid);
      match look {
        case Missing => ok := host.MkdirAll(Ancestors(op.dst), DEFAULT_DIR_MODE);
        case Found(_, st) => if st.Link? { ok := host.Remove(op.dst); } else { ok := host.RemoveAll(op.dst); }
      }
      if !ok { return; }
      ok := host.Symlink(op.src, op.dst);
      if ok && look.Found? && look.node.Link? {
        assert (old(host.disk) - {op.dst})[op.dst := link] == old(host.disk)[op.dst := link];
      }
    }

    method RunRemoveTask(op: Op) returns (s: Status, ghost io: Io)
      requires Valid() && op.Remove?
      modifies this`changed, host`disk, host`seen, host`failures
      ensures Honest(old(host.failures), host.failures, io)
      ensures (W(), s) == Handle(host.env, cfg, old(W()), op, io)
      ensures old(host.seen) <= host.seen && WholeFiles(host.seen, |old(host.seen)|, {}, old(host.disk), host.disk)
      ensures cfg.dryRun || s == Skipped || !Judge(host.env, old(host.disk), op).Dirty? ==> host.seen == old(host.seen)
    {
      hide Effect, Apply, Blocked, Ancestors, Under, Between;
      io := Io(NoFault, "", {}, host.disk);
      if op.path == "" { return Error, io; }
      var look := host.Lstat(op.path);
      match look
      case Missing => s := Skipped;
      case Broken =>
        io := io.(fault := AtInspect);
        s := Error;
      case Found(_, st) =>
        if cfg.dryRun {
          changed := changed + {op.path};
          return WouldChange, io;
        }
        ghost var d := host.disk;
        var ok := DeletePath(op, st);
        s, io := Conclude(op, ok, d);
    }

    method DeletePath(op: Op, st: Node) returns (ok: bool)
      requires op.Remove? && Judge(host.env, host.disk, op).Dirty? && At(host.disk, op.path) == Some(st)
      modifies host`disk, host`seen, host`failures
      ensures old(host.failures) <= host.failures && (ok || old(host.failures) < host.failures)
      ensures ok ==> Effect(host.env, old(host.disk), op) == Some(host.disk)
      ensures old(host.seen) <= host.seen && WholeFiles(host.seen, |old(host.seen)|, {}, old(host.disk), host.disk)
    {
      hide Judge;
      if !st.Dir? || !op.recursive { ok := host.Remove(op.path); } else { ok := host.RemoveAll(op.path); }
    }

    method RunChmodTask(op: Op) returns (s: Status, ghost io: Io)
      requires Valid() && op.Chmod?
      modifies this`changed, host`disk, host`seen, host`failures
      ensures Honest(old(host.failures), host.failures, io)
      ensures (W(), s) == Handle(host.env, cfg, old(W()), op, io)
      ensures old(host.seen) <= host.seen && WholeFiles(host.seen, |old(host.seen)|, {}, old(host.disk), host.disk)
      ensures cfg.dryRun || s == Skipped || !Judge(host.env, old(host.disk), op).Dirty? ==> host.seen == old(host.seen)
    {
      hide Apply, Disks.Stat, ParseUint, Ancestors, Under, Between;
      io := Io(NoFault, "", {}, host.disk);
      if op.path == "" { return Error, io; }
      var mode := ParseUint(op.mode);
      if mode == None { return Error, io; }
      var look := host.Stat(op.path);
      match look
      case Missing => s := Error;
      case Broken =>
        io := io.(fault := AtInspect);
        s := Error;
      case Found(_, st) => s, io := ChmodFound(op, st, mode.value);
    }

    /** chmod where something is there. */
    method ChmodFound(op: Op, st: Node, mode: nat) returns (s: Status, ghost io: Io)
      requires Valid() && op.Chmod? && WellFormed(host.env, op) && ParseUint(op.mode) == Some(mode)
      requires Disks.Stat(host.env, host.disk, op.path).Found? && Disks.Stat(host.env, host.disk, op.path).node == st
      modifies this`changed, host`disk, host`seen, host`failures
      ensures Honest(old(host.failures), host.failures, io)
      ensures (W(), s) == Handle(host.env, cfg, old(W()), op, io)
      ensures old(host.seen) <= host.seen && WholeFiles(host.seen, |old(host.seen)|, {}, old(host.disk), host.disk)
      ensures cfg.dryRun || s == Skipped || !Judge(host.env, old(host.disk), op).Dirty? ==> host.seen == old(host.seen)
    {
      hide Apply, Disks.Stat, ParseUint, Ancestors, Under, Between;
      io := Io(NoFault, "", {}, host.disk);
      if st.mode == mode { return Skipped, io; }
      if cfg.dryRun {
        changed := changed + {op.path};
        return WouldChange, io;
      }
      ghost var d := host.disk;
      var ok := host.Chmod(op.path, mode);
      AfterBetween(d, {}, host.disk);
      s, io := Conclude(op, ok, d);
    }

    method RunChownTask(op: Op) returns (s: Status, ghost io: Io)
      requires Valid() && op.Chown?
      modifies this`changed, host`disk, host`seen, host`failures
      ensures Honest(old(host.failures), host.failures, io)
      ensures (W(), s) == Handle(host.env, cfg, old(W()), op, io)
      ensures old(host.seen) <= host.seen && WholeFiles(host.seen, |old(host.seen)|, {}, old(host.disk), host.disk)
      ensures cfg.dryRun || s == Skipped || !Judge(host.env, old(host.disk), op).Dirty? ==> host.seen == old(host.seen)
    {
      hide Apply, Disks.Lstat, Ownership, Between, OwnTree;
      io := Io(NoFault, "", {}, host.disk);
      if op.path == "" { return Error, io; }
      var ids := Ownership(host.env, op.owner, op.group);
      if ids == None { return Error, io; }
      var (uid, gid) := ids.value;
      var look := host.Lstat(op.path);
      match look
      case Missing => s := Error;
      case Broken =>
        io := io.(fault := AtInspect);
        s := Error;
      case Found(_, st) => s, io := ChownFound(op, st, uid, gid);
    }

    /** chown where something is there. */
    method ChownFound(op: Op, st: Node, uid: Option<int>, gid: Option<int>) returns (s: Status, ghost io: Io)
      requires Valid() && op.Chown? && WellFormed(host.env, op)
      requires (uid, gid) == Ownership(host.env, op.owner, op.group).value
      requires Disks.Lstat(host.disk, op.path).Found? && Disks.Lstat(host.disk, op.path).node == st
      modifies this`changed, host`disk, host`seen, host`failures
      ensures Honest(old(host.failures), host.failures, io)
      ensures (W(), s) == Handle(host.env, cfg, old(W()), op, io)
      ensures old(host.seen) <= host.seen && WholeFiles(host.seen, |old(host.seen)|, {}, old(host.disk), host.disk)
      ensures cfg.dryRun || s == Skipped || !Judge(host.env, old(host.disk), op).Dirty? ==> host.seen == old(host.seen)
    {
      hide Apply, Ownership, OwnTree, Ancestors, Under;
      io := Io(NoFault, "", {}, host.disk);
      var needsOwner := uid.Some? && st.uid != uid.value;
      var needsGroup := gid.Some? && st.gid != gid.value;
      if !needsOwner && !needsGroup { return Skipped, io; }
      if cfg.dryRun {
        changed := changed + {op.path};
        return WouldChange, io;
      }
      ghost var d := host.disk;
      var ok := host.Lchown(op.path, uid, gid, op.recursive);
      s, io := Conclude(op, ok, d);
    }

    /** The predicates first, dry run or not, then the command. */
    method RunCommandTask(op: Op) returns (s: Status, ghost io: Io)
      requires Valid() && op.Command?
      modifies host`disk, host`seen, host`failures, host`asked, host`ran
      ensures Honest(old(host.failures), host.failures, io)
      ensures (W(), s) == Handle(host.env, cfg, old(W()), op, io)
      ensures host.asked == old(host.asked)
        + (if op.holds == "" then [] else [(op.holds, io.holds)])
        + (if op.unless != "" && (op.holds == "" || io.holds == Some(true)) then [(op.unless, io.unless)] else [])
      ensures host.ran == old(host.ran) +
        if !cfg.dryRun && (op.holds == "" || io.holds == Some(true))
           && (op.unless == "" || io.unless == Some(false)) then
          [(op.run, io.fault.NoFault?)]
        else []
      ensures if host.ran == old(host.ran) then host.seen == old(host.seen) else old(host.seen) <= host.seen
      ensures s == Skipped ==> host.ran == old(host.ran)
      ensures s == Skipped <==>
        || (op.holds != "" && io.holds == Some(false))
        || ((op.holds == "" || io.holds == Some(true)) && op.unless != "" && io.unless == Some(true))
      ensures s == Error ==>
        || (op.holds != "" && io.holds == None)
        || ((op.holds == "" || io.holds == Some(true)) && op.unless != "" && io.unless == None)
        || (host.ran == old(host.ran) + [(op.run, false)] && !op.ignoreErr)
    {
      hide Predicates;
      var decided;
      decided, io := AskPredicates(op);
      CommandAnswers(host.env, cfg, W(), op.run, op.holds, op.unless, op.ignoreErr, io);
      if decided.Some? { return decided.value, io; }
      if cfg.dryRun { return WouldChange, io; }
      var ok := host.Shell(op.run);
      ghost var asked := io;
      io := io.(fault := if ok then NoFault else AtEffect, residue := host.disk);
      SamePredicates(op, asked, io);
      s := if ok || op.ignoreErr then Changed else Error;
    }

    method AskPredicates(op: Op) returns (decided: Option<Status>, ghost io: Io)
      requires op.Command?
      modifies host`asked
      ensures Calm(io)
      ensures host.asked == old(host.asked)
        + (if op.holds == "" then [] else [(op.holds, io.holds)])
        + (if op.unless != "" && (op.holds == "" || io.holds == Some(true)) then [(op.unless, io.unless)] else [])
      ensures decided == Predicates(op, io) && (decided == None <==> Permitted(op, io))
    {
      io := Io(NoFault, "", {}, host.disk);
      if op.holds != "" {
        var answer := host.Ask(op.holds);
        io := io.(holds := answer);
        if answer == None { return Some(Error), io; }
        if !answer.value { return Some(Skipped), io; }
      }
      if op.unless != "" {
        var answer := host.Ask(op.unless);
        io := io.(unless := answer);
        if answer == None { return Some(Error), io; }
        if answer.value { return Some(Skipped), io; }
      }
      decided := None;
    }

    /** The gate, then the handler. */
    method ExecuteTask(t: Task) returns (e: Event, ghost io: Io)
      requires Valid()
      modifies this`files, this`changed, host
      ensures Honest(old(host.failures), host.failures, io)
      ensures Valid() && fresh(files.Values - old(files.Values))
      ensures (W(), e) == Execute(host.env, cfg, old(W()), t, io)
      ensures t.op.Copy? ==> WholeFile(old(W()), W(), t.op, e.status)
      ensures old(host.seen) <= host.seen
      ensures cfg.dryRun || e.status == Skipped || !Judge(host.env, old(host.disk), t.op).Dirty? ==>
        host.seen == old(host.seen)
      ensures host.ran == old(host.ran) + Ran(cfg, old(W()), t, io)
      ensures !t.op.Command? ==>
        WholeFiles(host.seen, |old(host.seen)|, DeployScratch([t]), old(host.disk), host.disk)
    {
      hide Handle, WholeFile;
      ghost var w := W();
      io := Io(NoFault, "", {}, host.disk);
      if t.whenChanged != [] && !Ungated(t.op) {
        var any := false;
        for i := 0 to |t.whenChanged|
          invariant any <==> exists j :: 0 <= j < i && t.whenChanged[j] in changed
        {
          if t.whenChanged[i] in changed {
            any := true;
            break;
          }
        }
        if !any { return Event(TaskId(t.id), Skipped, ""), io; }
      }
      assert GateOpen(changed, t);
      var s: Status;
      match t.op {
        case Command(_, _, _, _) => s, io := RunCommandTask(t.op);
        case Copy(_, _, _, _) =>
          s, io := RunFileTask(t.op);
          FileTaskAllOrNothing(host.env, cfg, w, t, io);
          assert t in [t];
        case Mkdir(_, _, _, _) => s, io := RunMkdirTask(t.op);
        case Symlink(_, _, _) => s, io := RunSymlinkTask(t.op);
        case Remove(_, _) => s, io := RunRemoveTask(t.op);
        case Chmod(_, _) => s, io := RunChmodTask(t.op);
        case Chown(_, _, _, _) => s, io := RunChownTask(t.op);
        case Unknown => s := Error; UnknownRefused(host.env, cfg, W(), t.op, io);
      }
      e := Event(TaskId(t.id), s, PathOf(t.op));
    }

    /** The task loop. Every file task of it is all or nothing, and while any task but a command runs a reader
        meets only files that stood there before the task or stand there after it. */
    method RunTaskList(tasks: seq<Task>) returns (events: seq<Event>, ghost ios: seq<Io>, ghost marks: seq<nat>)
      requires Valid()
      modifies this`files, this`changed, host
      ensures |Faulty(ios)| <= host.failures - old(host.failures)
      ensures Valid() && fresh(files.Values - old(files.Values))
      ensures |ios| == |tasks| && (W(), events) == RunTasks(host.env, cfg, old(W()), tasks, ios)
      ensures DeployWhole(Worlds(host.env, cfg, old(W()), tasks, ios), tasks, events)
      ensures old(host.seen) <= host.seen && marks != [] && marks[0] == |old(host.seen)|
      ensures Moments(host.seen, marks, tasks, Worlds(host.env, cfg, old(W()), tasks, ios))
      ensures cfg.dryRun ==> host.seen == old(host.seen)
      ensures host.ran == old(host.ran) + Commands(host.env, cfg, old(W()), tasks, ios)
    {
      hide Execute, Calm, WholeFile, WholeFiles, Deploying, Ran;
      events, ios, marks := [], [], [|host.seen|];
      ghost var w, failures, ran := W(), host.failures, [];
      NothingDeployed(host.env, cfg, w, host.seen);
      for i := 0 to |tasks|
        invariant Valid() && fresh(files.Values - old(files.Values)) && old(host.seen) <= host.seen
        invariant marks != [] && marks[0] == |old(host.seen)| && failures <= host.failures
        invariant host.ran == old(host.ran) + ran && (cfg.dryRun ==> host.seen == old(host.seen))
        invariant Deploying(host.env, cfg, w, tasks[..i], ios, W(), events, host.seen, marks, ran,
                            host.failures - failures)
      {
        ghost var w1, seen, count := W(), host.seen, host.failures;
        var e;
        ghost var io;
        e, io := ExecuteTask(tasks[i]);
        assert tasks[..i + 1] == tasks[..i] + [tasks[i]];
        DeployingSnoc(host.env, cfg, w, tasks[..i], ios, w1, events, seen, marks, ran, failures, tasks[i], io, W(), e,
                      host.seen, count, host.failures);
        events, ios, marks := events + [e], ios + [io], marks + [|host.seen|];
        ran := ran + Ran(cfg, w1, tasks[i], io);
      }
      assert tasks[..|tasks|] == tasks;
      DeployedAll(host.env, cfg, w, tasks, ios, W(), events, host.seen, marks, ran, host.failures - failures);
    }

    /** Restore one file from its archive and drop the versions rolled over. */
    method RollbackOne(p: Path, step: nat) returns (s: Status, ghost io: Io)
      requires Valid() && p in files && step >= 1
      modifies host`disk, host`seen, host`archives, files[p], host`failures
      ensures Honest(old(host.failures), host.failures, io)
      ensures (W(), s) == Rollbacks.RollbackOne(host.env, old(W()), p, step, io)
      ensures OnlyTmp(old(host.disk), io.residue, p + ROLLBACK_TMP) && AllOrNothing(old(W()), W(), p, step, s)
      ensures s == Error && host.failures == old(host.failures) + 1 ==>
        host.disk == old(host.disk) || p + ROLLBACK_TMP !in host.disk
      ensures old(host.seen) <= host.seen
      ensures NeverPartial(host.seen, |old(host.seen)|, p, At(old(host.disk), p), At(host.disk, p))
      ensures WholeFiles(host.seen, |old(host.seen)|, {p + ROLLBACK_TMP}, old(host.disk), host.disk)
    {
      hide Ancestors, Under, Restorable, ParseUint, AllOrNothing;
      ghost var w := W();
      s, io := RestoreOne(p, step);
      RollbackAllOrNothing(host.env, w, p, step, io);
    }

    method RestoreOne(p: Path, step: nat) returns (s: Status, ghost io: Io)
      requires Valid() && p in files && step >= 1
      modifies host`disk, host`seen, host`archives, files[p], host`failures
      ensures Honest(old(host.failures), host.failures, io)
      ensures (W(), s) == Rollbacks.RollbackOne(host.env, old(W()), p, step, io)
      ensures OnlyTmp(old(host.disk), io.residue, p + ROLLBACK_TMP)
      ensures s == Error && host.failures == old(host.failures) + 1 ==>
        host.disk == old(host.disk) || p + ROLLBACK_TMP !in host.disk
      ensures old(host.seen) <= host.seen
      ensures NeverPartial(host.seen, |old(host.seen)|, p, At(old(host.disk), p), At(host.disk, p))
      ensures WholeFiles(host.seen, |old(host.seen)|, {p + ROLLBACK_TMP}, old(host.disk), host.disk)
    {
      hide Ancestors, Under, Restorable, ParseUint, WholeFiles, NeverPartial, OnlyTmp, Rollbacks.RollbackOne;
      hide EntryBacked, Restored, Replaced, Dropped;
      io := Io(NoFault, "", {}, host.disk);
      ghost var w := W();
      NothingRead(host.seen, {p + ROLLBACK_TMP}, p, host.disk);
      SameOnlyTmp(host.disk, p + ROLLBACK_TMP);
      var target;
      ghost var fault;
      target, fault := OpenTarget(p, step);
      if target == None {
        io := io.(fault := fault);
        RollbackRefused(host.env, w, p, step, io);
        return Error, io;
      }
      var ok := Restore(p, target.value.0, target.value.1);
      if !ok {
        io := io.(fault := AtEffect, residue := host.disk);
        RollbackBroken(host.env, w, p, step, io);
        return Error, io;
      }
      RestoredIsReplaced(host.env, w, p, step);
      io := RecordRestore(p, step, w);
      s := Changed;
    }

    /** Drop the versions rolled over once the file is back, given the world `w` before it was. */
    method RecordRestore(p: Path, step: nat, ghost w: World) returns (ghost io: Io)
      requires Valid() && p in files && step >= 1 && p in w.files && Succeeds(w, p, step)
      requires W() == w.(disk := Restored(host.env, w, p, step))
      modifies host`archives, files[p], host`failures
      ensures Honest(old(host.failures), host.failures, io) && io.residue == w.disk
      ensures (W(), Changed) == Rollbacks.RollbackOne(host.env, w, p, step, io)
    {
      hide Rollbacks.RollbackOne, Restorable, EntryBacked, Restored, Dropped;
      ghost var sticky := ForgetVersions(p, step);
      io := Io(NoFault, "", sticky, w.disk);
      RollbackDone(host.env, w, p, step, io);
    }

    /** The archived body and mode to put back. */
    method OpenTarget(p: Path, step: nat) returns (target: Option<(Bytes, nat)>, ghost fault: Fault)
      requires Valid() && p in files && step >= 1
      modifies host`failures
      ensures old(host.failures) <= host.failures && (fault == AtInspect ==> old(host.failures) < host.failures)
      ensures fault == NoFault || fault == AtInspect
      ensures target == None ==> !Backed(W(), p, step) || fault == AtInspect
      ensures target.Some? ==> Backed(W(), p, step) && fault == NoFault
      ensures target.Some? ==>
        var e := Rows()[p].history[step - 1];
        target.value == (host.archives[e.archive], ModeOr(e.mode, DEFAULT_FILE_MODE).value)
    {
      hide ParseUint;
      fault := NoFault;
      var row := files[p];
      assert Rows()[p] == row.Rec();
      if |row.history| < step { return None, fault; }
      var entry := row.history[step - 1];
      var mode := ModeOr(entry.mode, DEFAULT_FILE_MODE);
      if mode == None { return None, fault; }
      var body := host.OpenArchive(entry.archive);
      if body == None { return None, AtInspect; }
      target := Some((body.value, mode.value));
    }

    /** The versions rolled over are gone, the one restored is current. */
    method ForgetVersions(p: Path, step: nat) returns (ghost sticky: set<Path>)
      requires Valid() && p in files && 1 <= step <= |files[p].history|
      modifies host`archives, files[p], host`failures
      ensures old(host.failures) <= host.failures && (host.failures == old(host.failures) ==> sticky == {})
      ensures Rows() == old(Rows())[p := Dropped(old(Rows())[p], step)]
      ensures host.archives == old(host.archives) - (Names(old(Rows())[p].history[..step]) - sticky)
    {
      ghost var rows := Rows();
      var row := files[p];
      var target := row.history[step - 1];
      sticky := DropArchives(row.history[..step]);
      row.sha256, row.mode, row.history := target.sha, target.mode, row.history[step..];
      assert row.Rec() == Dropped(rows[p], step);
    }

    /** Copy a body into place through the rollback sibling. */
    method Restore(p: Path, body: Bytes, mode: nat) returns (ok: bool)
      modifies host`disk, host`seen, host`failures
      ensures old(host.failures) <= host.failures && (ok || old(host.failures) < host.failures)
      ensures ok ==> Restorable(old(host.disk), p)
      ensures ok ==> host.disk == Replaced(host.env, old(host.disk), p, p + ROLLBACK_TMP, body, mode % 512)
      ensures !ok ==> OnlyTmp(old(host.disk), host.disk, p + ROLLBACK_TMP)
      ensures !ok && host.failures == old(host.failures) + 1 ==>
        host.disk == old(host.disk) || p + ROLLBACK_TMP !in host.disk
      ensures old(host.seen) <= host.seen
      ensures NeverPartial(host.seen, |old(host.seen)|, p, At(old(host.disk), p), At(host.disk, p))
      ensures WholeFiles(host.seen, |old(host.seen)|, {p + ROLLBACK_TMP}, old(host.disk), host.disk)
    {
      hide Ancestors, Under, Between, TmpTouched;
      ghost var d, n := host.disk, |host.seen|;
      var tmp := p + ROLLBACK_TMP;
      var created;
      ok, created := FillTmp(p, body, mode);
      if created {
        ghost var filled := host.disk;
        if ok { ok := host.Rename(tmp, p); }
        if !ok {
          var _ := host.Remove(tmp);
          RemovedTmp(d, filled, host.disk, tmp);
        }
      }
      forall i | n <= i < |host.seen| ensures Between(host.seen[i], {tmp}, d, host.disk) {
        if OnlyTmp(d, host.seen[i], tmp) {
          ScratchBetween(d, d, host.seen[i], tmp, host.disk);
        } else {
          AfterBetween(d, {tmp}, host.disk);
        }
      }
    }

    /** Open the sibling, copy the body into it and set its mode. */
    method FillTmp(p: Path, body: Bytes, mode: nat) returns (ok: bool, created: bool)
      modifies host`disk, host`seen, host`failures
      ensures old(host.failures) <= host.failures && (ok || old(host.failures) < host.failures)
      ensures ok ==> created
      ensures ok ==>
        host.disk == old(host.disk)[p + ROLLBACK_TMP :=
          NewFile(host.env, old(host.disk), p + ROLLBACK_TMP, body, mode % 512)]
      ensures created ==> TmpFree(old(host.disk), p + ROLLBACK_TMP) && TmpFree(host.disk, p + ROLLBACK_TMP)
      ensures created ==> forall a :: a in Ancestors(p) ==> IsDir(old(host.disk), a)
      ensures !created ==> host.disk == old(host.disk)
      ensures OnlyTmp(old(host.disk), host.disk, p + ROLLBACK_TMP)
      ensures old(host.seen) <= host.seen
      ensures forall i :: |old(host.seen)| <= i < |host.seen| ==>
        OnlyTmp(old(host.disk), host.seen[i], p + ROLLBACK_TMP)
    {
      hide Ancestors, Under;
      ghost var d := host.disk;
      var tmp := p + ROLLBACK_TMP;
      TmpAncestors(p, ROLLBACK_TMP);
      created := host.Create(tmp);
      ok := created;
      if !created { return; }
      ghost var made := host.disk;
      ghost var m: Perm :| made == d[tmp := NewFile(host.env, d, tmp, [], m)];
      ok := host.Write(tmp, body);
      if !ok { return; }
      RootedUnblocked(d, host.disk, tmp);
      ok := host.Chmod(tmp, mode);
    }

    /** Delete archives as far as the host lets us. */
    method DropArchives(gone: seq<Entry>) returns (ghost sticky: set<Path>)
      modifies host`archives, host`failures
      ensures old(host.failures) <= host.failures && (host.failures == old(host.failures) ==> sticky == {})
      ensures host.archives == old(host.archives) - (Names(gone) - sticky)
    {
      sticky := {};
      assert Names(gone[..0]) == {};
      for i := 0 to |gone|
        invariant sticky <= Names(gone[..i]) * host.archives.Keys
        invariant old(host.failures) <= host.failures && (host.failures == old(host.failures) ==> sticky == {})
        invariant host.archives == old(host.archives) - (Names(gone[..i]) - sticky)
      {
        NamesSnoc(gone, i);
        var n := gone[i].archive;
        var ok := host.RemoveArchive(n);
        sticky := if ok then sticky - {n} else if n in host.archives then sticky + {n} else sticky;
      }
      assert gone[..|gone|] == gone;
    }

    /** Roll back every selected file, in the order the listing gives. With entries kept apart and no path
        another's temporary sibling, every event is true of its file and nothing else has changed. */
    method RunRollback(paths: seq<Path>, step: int, filter: Path)
      returns (events: seq<Event>, hadError: bool, ghost ios: seq<Io>)
      requires Valid() && Lists(paths, Rows())
      modifies host`disk, host`seen, host`archives, files.Values, host`failures
      ensures |Faulty(ios)| <= host.failures - old(host.failures)
      ensures |ios| == |paths| && Valid()
      ensures step < 1 ==> W() == old(W()) && events == [] && hadError && host.seen == old(host.seen)
      ensures step >= 1 ==> (W(), events) == RollbackFrom(host.env, old(W()), paths, 0, step, filter, ios)
      ensures step >= 1 ==> (hadError <==>
        (if filter == "" then paths == [] else filter !in paths) || exists e :: e in events && e.status == Error)
      ensures step >= 1 && filter == "" ==>
        |events| == |paths| && forall j :: 0 <= j < |paths| ==> events[j].path == paths[j]
      ensures step >= 1 && filter != "" ==>
        && |events| == (if filter in files then 1 else 0) && (forall e :: e in events ==> e.path == filter)
        && forall p :: p in files && p != filter ==> Rows()[p] == old(Rows())[p]
      ensures step >= 1 ==> Tidy(host.env, old(W()), paths, 0, step, filter, ios)
      ensures step >= 1 && Distinct(old(Rows())) && NoTmpClash(old(Rows())) ==>
        PerFile(host.env, old(W()), paths, 0, step, filter, ios)
      ensures old(host.seen) <= host.seen
      ensures step >= 1 ==> AllVersioned(host.seen, |old(host.seen)|, RollbackScratch(paths),
                                         RollbackWorlds(host.env, old(W()), paths, step, filter, ios))
    {
      hide AllVersioned, PerFile, Distinct, NoTmpClash, Tidy, Progress, RollbackFrom, RollbackWorlds, RollbackScratch;
      ghost var w, start := W(), |host.seen|;
      if step < 1 {
        ios := seq(|paths|, i => Io(NoFault, "", {}, map[]));
        return [], true, ios;
      }
      events, hadError, ios := RollbackLoop(paths, step, filter);
      ProgressDone(host.env, w, paths, step, filter, ios, W(), events, host.seen, start, RollbackScratch(paths));
      PathsRolledBack(host.env, w, paths, step, filter, ios);
    }

    method RollbackLoop(paths: seq<Path>, step: nat, filter: Path)
      returns (events: seq<Event>, hadError: bool, ghost ios: seq<Io>)
      requires Valid() && Lists(paths, Rows()) && step >= 1
      modifies host`disk, host`seen, host`archives, files.Values, host`failures
      ensures |Faulty(ios)| <= host.failures - old(host.failures)
      ensures |ios| == |paths| && Valid()
      ensures hadError <==>
        (if filter == "" then paths == [] else filter !in paths) || exists e :: e in events && e.status == Error
      ensures old(host.seen) <= host.seen
      ensures Progress(host.env, old(W()), paths, step, filter, ios, W(), events,
                       host.seen, |old(host.seen)|, RollbackScratch(paths))
    {
      hide Turn, Under, Ancestors, AllVersioned, PerFile, Distinct;
      hide NoTmpClash, Tidy, RollbackScratch, Progress, WholeFiles, OnlyTmp, AllOrNothing;
      ghost var w, start, scratch := W(), |host.seen|, RollbackScratch(paths);
      events, hadError, ios := [], false, [];
      ProgressNone(host.env, w, step, filter, host.seen, scratch);
      var anyAttempted := false;
      for i := 0 to |paths|
        invariant |ios| == i && |Faulty(ios)| <= host.failures - old(host.failures)
        invariant W().files.Keys == w.files.Keys && files == old(files) && old(host.seen) <= host.seen
        invariant Progress(host.env, w, paths[..i], step, filter, ios, W(), events, host.seen, start, scratch)
        invariant anyAttempted <==> if filter == "" then i > 0 else filter in paths[..i]
        invariant hadError <==> exists e :: e in events && e.status == Error
      {
        var p := paths[i];
        assert p in paths && paths[..i + 1] == paths[..i] + [p];
        ghost var io := Io(NoFault, "", {}, map[]);
        ghost var w1, es1, seen1, failures := W(), events, host.seen, host.failures;
        if filter == "" || filter == p {
          anyAttempted := true;
          var s;
          s, io := RollbackTurn(p, step, filter);
          events := events + [Event(RollbackId(i + 1), s, p)];
          if s == Error { hadError := true; }
          TurnRows(host.env, w1, p, step, filter, io);
        }
        FaultySnoc(ios, io, failures - old(host.failures), failures, host.failures);
        TmpScratch(paths, i);
        ProgressSnoc(host.env, w, paths[..i], step, filter, ios, w1, es1, seen1, start, scratch, p, io, W(), events,
          host.seen);
        ios := ios + [io];
      }
      assert paths[..|paths|] == paths;
      if !anyAttempted { hadError := true; }
    }

    /** One selected file. */
    method RollbackTurn(p: Path, step: nat, filter: Path) returns (s: Status, ghost io: Io)
      requires Valid() && p in files && step >= 1
      modifies host`disk, host`seen, host`archives, files[p], host`failures
      ensures Honest(old(host.failures), host.failures, io)
      ensures (W(), s) == Turn(host.env, old(W()), p, step, filter, io)
      ensures OnlyTmp(old(host.disk), io.residue, p + ROLLBACK_TMP) && AllOrNothing(old(W()), W(), p, step, s)
      ensures old(host.seen) <= host.seen
      ensures WholeFiles(host.seen, |old(host.seen)|, {p + ROLLBACK_TMP}, old(host.disk), host.disk)
    {
      hide Rollbacks.RollbackOne;
      var explicit := filter != "";
      if files[p].history == [] && !explicit {
        s, io := Skipped, Io(NoFault, "", {}, host.disk);
      } else {
        s, io := RollbackOne(p, step);
      }
    }

    method PreviewRow(row: FileState, step: int, filter: Path) returns (s: Status)
      requires step >= 1
      ensures s == Foretold(row.Rec(), step, filter)
    {
      var n := |row.history|;
      s := if n == 0 && filter == "" then Skipped else if n < step then Error else WouldChange;
    }

    /** The dry-run counterpart: nothing is touched. */
    method EmitRollbackPreview(paths: seq<Path>, step: int, filter: Path) returns (events: seq<Event>)
      requires Valid() && Lists(paths, Rows())
      ensures events == if step < 1 then [] else PreviewFrom(Rows(), paths, 0, step, filter)
      ensures step >= 1 && filter == "" ==>
        |events| == |paths| && forall j :: 0 <= j < |paths| ==> events[j].path == paths[j]
      ensures step >= 1 && filter != "" ==>
        |events| == (if filter in files then 1 else 0) && forall e :: e in events ==> e.path == filter
    {
      hide PreviewFrom;
      if step < 1 { return []; }
      events := PreviewLoop(paths, step, filter);
      PathsForetold(Rows(), paths, step, filter);
    }

    method PreviewLoop(paths: seq<Path>, step: nat, filter: Path) returns (events: seq<Event>)
      requires Valid() && Lists(paths, Rows()) && step >= 1
      ensures events == PreviewFrom(Rows(), paths, 0, step, filter)
    {
      hide Foretold;
      events := [];
      ghost var all := PreviewFrom(Rows(), paths, 0, step, filter);
      for i := 0 to |paths|
        invariant all == events + PreviewFrom(Rows(), paths, i, step, filter)
      {
        var p := paths[i];
        if filter == "" || filter == p {
          assert p in paths && p in Rows();
          var s := PreviewRow(files[p], step, filter);
          events := events + [Event(RollbackId(i + 1), s, p)];
        }
      }
    }

    /** Drop every row's history and remove the history directory. */
    method ClearAllHistory() returns (dropped: nat, ok: bool, ghost left: set<Path>)
      requires Valid()
      modifies files.Values, host`archives, host`failures
      ensures W() == ClearHistory(old(W()), left) && (ok ==> left == {})
      ensures host.failures == old(host.failures) + (if ok then 0 else 1)
      ensures dropped == Versions(old(Rows()), old(Rows()).Keys)
      ensures Rows().Keys == old(Rows()).Keys && (ok ==> host.archives == map[])
      ensures forall p :: p in files ==> Rows()[p] == FileRec(old(Rows())[p].sha, old(Rows())[p].mode, [])
    {
      dropped := ForgetAll();
      ok, left := host.RemoveHistoryDir();
    }

    /** Empty every row's history in place. */
    method ForgetAll() returns (dropped: nat)
      requires Valid()
      modifies files.Values
      ensures Rows() == Forgotten(old(Rows())) && dropped == Versions(old(Rows()), old(Rows()).Keys)
    {
      ghost var rows := Rows();
      var todo := files.Keys;
      assert todo == rows.Keys;
      EmptyAll(rows);
      dropped := 0;
      while todo != {}
        invariant todo <= files.Keys && files == old(files)
        invariant dropped + Versions(rows, todo) == Versions(rows, rows.Keys)
        invariant Rows() == EmptiedBut(rows, todo)
        decreases |todo|
      {
        hide Versions, Rows;
        var p :| p in todo;
        VersionsWithout(rows, todo, p);
        EmptyOne(rows, todo, p);
        var n := EmptyRow(p);
        dropped := dropped + n;
        todo := todo - {p};
      }
      EmptyAll(rows);
    }

    method EmptyRow(p: Path) returns (n: nat)
      requires Valid() && p in files
      modifies files[p]
      ensures p in old(Rows())
      ensures n == |old(Rows())[p].history| && Rows() == old(Rows())[p := old(Rows())[p].(history := [])]
    {
      ghost var rows := Rows();
      n := |files[p].history|;
      files[p].history := [];
      assert files[p].Rec() == rows[p].(history := []);
    }

    /** One event per tracked file. A file whose inspection fails is an error, and each such file is one call
        that failed. */
    method EmitStatus(paths: seq<Path>, includeHistory: bool) returns (events: seq<Event>, ghost lost: set<nat>)
      requires Valid() && Lists(paths, Rows())
      modifies host`failures
      ensures |events| == |paths| && |lost| <= host.failures - old(host.failures)
      ensures AllReport(host.env, events, W(), paths, includeHistory, lost)
    {
      hide AllReport, Reports;
      events, lost := [], {};
      ghost var w := W();
      NothingReported(host.env, w, paths, includeHistory);
      for i := 0 to |paths|
        invariant |events| == i && |lost| <= host.failures - old(host.failures)
        invariant W() == w && AllReport(host.env, events, w, paths, includeHistory, lost)
      {
        assert paths[i] in paths && paths[i] in Rows();
        ghost var failures := host.failures;
        var ev := StatusEvent(i, paths[i], includeHistory);
        AllReportSnoc(host.env, events, w, paths, includeHistory, lost, ev, host.failures > failures);
        if host.failures > failures { lost := lost + {i}; }
        events := events + [ev];
      }
    }

    method StatusEvent(i: nat, p: Path, includeHistory: bool) returns (e: Event)
      requires Valid() && p in files
      modifies host`failures
      ensures old(host.failures) <= host.failures && W() == old(W())
      ensures Reports(host.env, e, i, W(), p, includeHistory, old(host.failures) < host.failures)
    {
      var row := files[p];
      assert Rows()[p] == row.Rec();
      var current := host.Inspect(p);
      var s;
      match current {
        case Unreadable => s := Error;
        case Absent => s := MissingFile;
        case Present(body, mode) =>
          var modeOk := row.mode == "" || FmtMode(mode) == row.mode;
          var shaOk := host.env.sha(body) == row.sha256;
          s := if shaOk && modeOk then InSync else Drift;
      }
      var items := [];
      if includeHistory && |row.history| > 0 {
        for j := 0 to |row.history|
          invariant |items| == j
          invariant forall m :: 0 <= m < j ==>
            items[m] == Item(row.history[m].sha, row.history[m].mode, row.history[m].phase)
        {
          var h := row.history[j];
          items := items + [Item(h.sha, h.mode, h.phase)];
        }
      }
      e := Event(StatusId(i + 1), s, p, items);
    }

    /** One invocation: status, clear, rollback or deploy, in that order of precedence. */
    method Run(plan: Plan, paths: seq<Path>) returns (events: seq<Event>, ghost act: Action, ghost marks: seq<nat>,
                                                ghost lost: set<nat>)
      requires Valid() && Lists(paths, Rows())
      modifies this`files, this`changed, host, files.Values
      ensures Valid() && old(host.seen) <= host.seen
      ensures Formed(old(W()), act) && W() == Step(host.env, old(W()), act)
      ensures plan.statusOnly || (cfg.dryRun && (plan.clearHistory || plan.rollback)) ==> act == Queried
      ensures !plan.statusOnly && !plan.clearHistory && plan.rollback && !cfg.dryRun ==>
        act.RolledBack? && act.order == paths && act.step == plan.step && act.filter == plan.filter
        && (plan.step >= 1 ==> events == RollbackFrom(host.env, old(W()), paths, 0, plan.step, plan.filter, act.ios).1)
      ensures !plan.statusOnly && !plan.clearHistory && plan.rollback && cfg.dryRun && plan.step >= 1 ==>
        events == PreviewFrom(old(Rows()), paths, 0, plan.step, plan.filter)
      ensures !plan.statusOnly && !plan.clearHistory && !plan.rollback ==>
        act.Deployed? && act.cfg == cfg && act.tasks == plan.tasks
          && events == Deploy(host.env, cfg, old(W()), plan.tasks, act.ios).1
      ensures plan.statusOnly ==>
        && |events| == |paths| && |lost| <= host.failures - old(host.failures)
        && AllReport(host.env, events, old(W()), paths, plan.includeHistory, lost)
      ensures act.Deployed? || act.RolledBack? ==> |Faulty(act.ios)| <= host.failures - old(host.failures)
      ensures host.ran == old(host.ran) +
        if act.Deployed? then Commands(host.env, act.cfg, old(W()).(changed := {}), act.tasks, act.ios) else []
      ensures cfg.dryRun || act.Queried? || act.Cleared? ==> host.seen == old(host.seen)
      ensures act.Deployed? ==>
        && marks != [] && marks[0] == |old(host.seen)|
        && Moments(host.seen, marks, act.tasks,
                   Worlds(host.env, act.cfg, old(W()).(changed := {}), act.tasks, act.ios))
      ensures act.RolledBack? && act.step >= 1 ==>
        AllVersioned(host.seen, |old(host.seen)|, RollbackScratch(act.order),
                     RollbackWorlds(host.env, old(W()), act.order, act.step, act.filter, act.ios))
      ensures act.Deployed? ==>
        DeployWhole(Worlds(host.env, act.cfg, old(W()).(changed := {}), act.tasks, act.ios), act.tasks, events)
      ensures act.RolledBack? && act.step >= 1 && Distinct(old(Rows())) && NoTmpClash(old(Rows())) ==>
        PerFile(host.env, old(W()), act.order, 0, act.step, act.filter, act.ios)
      ensures !plan.statusOnly && plan.clearHistory && !cfg.dryRun ==> act.Cleared?
    {
      hide AllVersioned, Moments, DeployWhole, PerFile, Distinct, NoTmpClash, AllReport, Tidy;
      hide RunTasks, RollbackFrom, RollbackWorlds, PreviewFrom, Commands, Faulty, ClearHistory;
      act, marks, lost := Queried, [], {};
      if plan.statusOnly {
        events, lost := EmitStatus(paths, plan.includeHistory);
      } else if plan.clearHistory {
        events := [];
        if !cfg.dryRun {
          var dropped, ok;
          ghost var left;
          dropped, ok, left := ClearAllHistory();
          act := Cleared(left);
        }
      } else if plan.rollback {
        if cfg.dryRun {
          events := EmitRollbackPreview(paths, plan.step, plan.filter);
        } else {
          var hadError;
          ghost var ios;
          events, hadError, ios := RunRollback(paths, plan.step, plan.filter);
          act := RolledBack(paths, plan.step, plan.filter, ios);
        }
      } else {
        changed := {};
        ghost var ios;
        events, ios, marks := RunTaskList(plan.tasks);
        act := Deployed(cfg, plan.tasks, ios);
      }
    }
  }
}
