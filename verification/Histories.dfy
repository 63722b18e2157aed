/** The archive store and the history rows over whole runs of the agent: deploys, rollbacks and
    clears in any order, with outside changes to the disk in between and any system call failing. */
module Histories {
  import opened Options
  import opened Octal
  import opened ByteStrings
  import opened Disks
  import opened Tasks
  import opened Rollbacks
  import opened Compositions

  datatype Version = Version(body: Bytes, mode: Perm)

  /** The unbounded undo stack of every tracked file, newest version first. */
  type Stacks = map<Path, seq<Version>>

  function Stack(ideal: Stacks, p: Path): seq<Version> {
    if p in ideal then ideal[p] else []
  }

  /** An entry describes v, and its archive, where it still exists, holds v. */
  predicate Describes(env: Env, archives: map<Path, Bytes>, e: Entry, v: Version) {
    e.sha == env.sha(v.body) && e.mode == FmtMode(v.mode) && (e.archive in archives ==> archives[e.archive] == v.body)
  }

  /** Bounded history refines the undo stack: each row is a prefix of its file's stack. */
  ghost predicate Refines(env: Env, w: World, ideal: Stacks) {
    forall p, i | HasEntry(w.files, p, i) ::
      i < |Stack(ideal, p)| && Describes(env, w.archives, w.files[p].history[i], Stack(ideal, p)[i])
  }

  ghost predicate Referenced(files: map<Path, FileRec>, n: Path) {
    exists p, i :: HasEntry(files, p, i) && ArchiveAt(files, p, i) == n
  }

  /** Archives and history entries correspond one to one, and contents match the recorded digests. */
  ghost predicate Exact(env: Env, w: World) {
    && (forall p, i | HasEntry(w.files, p, i) ::
          ArchiveAt(w.files, p, i) in w.archives
            && env.sha(w.archives[ArchiveAt(w.files, p, i)]) == w.files[p].history[i].sha)
    && Distinct(w.files)
    && (forall n | n in w.archives :: Referenced(w.files, n))
  }

  ghost predicate Orphan(w: World) {
    exists n :: n in w.archives && !Referenced(w.files, n)
  }

  ghost predicate Bounded(w: World, cap: nat) {
    forall p :: |History(w.files, p)| <= cap
  }

  /** Sixteen random hex digits never name an existing or a recorded archive. */
  ghost predicate FreshName(w: World, n: Path) {
    n !in w.archives && !Referenced(w.files, n)
  }

  // ---------- one task ----------

  /** The task gets as far as archiving the file it is about to overwrite. */
  predicate Overwrites(env: Env, cfg: Config, w: World, t: Task, io: Io) {
    && GateOpen(w.changed, t) && t.op.Copy? && !io.fault.AtInspect? && !io.fault.AtArchive? && !cfg.dryRun
    && Judge(env, w.disk, t.op).Dirty? && Archives(env, cfg, w.disk, t.op)
  }

  function Pushed(env: Env, cfg: Config, w: World, t: Task, io: Io): seq<Entry>
    requires Overwrites(env, cfg, w, t, io)
  {
    [Snapshot(env, cfg, w.disk, t.op, io.name)] + History(w.files, t.op.dst)
  }

  /** Nothing fails once the current file is archived. */
  predicate CleanTask(env: Env, cfg: Config, w: World, t: Task, io: Io) {
    Overwrites(env, cfg, w, t, io) ==>
      !EffectFails(env, w.disk, t.op, io) && Names(Evicted(Pushed(env, cfg, w, t, io), cfg.keep)) !! io.sticky
  }

  function IdealTask(env: Env, cfg: Config, w: World, ideal: Stacks, t: Task, io: Io): Stacks {
    if Overwrites(env, cfg, w, t, io) && Execute(env, cfg, w, t, io).1.status == Changed then
      var n := Stat(env, w.disk, t.op.dst).node;
      ideal[t.op.dst := [Version(n.body, n.mode)] + Stack(ideal, t.op.dst)]
    else ideal
  }

  /** A task that does not overwrite an archived file leaves archives and histories alone. */
  lemma TaskQuiet(env: Env, cfg: Config, w: World, t: Task, io: Io)
    requires !Overwrites(env, cfg, w, t, io)
    ensures var w' := Execute(env, cfg, w, t, io).0;
      w'.archives == w.archives && (forall p, i :: HasEntry(w'.files, p, i) <==> HasEntry(w.files, p, i))
      && (forall p :: History(w'.files, p) == History(w.files, p))
  {
    hide Judge, Effect, Recorded, Stat, Kept, Evicted, Names, Want;
  }

  /** What an overwriting task does to archives and rows. */
  lemma TaskLoud(env: Env, cfg: Config, w: World, t: Task, io: Io)
    requires Overwrites(env, cfg, w, t, io)
    ensures var (w', e) := Execute(env, cfg, w, t, io);
      var out := Pushed(env, cfg, w, t, io);
      var n := Stat(env, w.disk, t.op.dst).node;
      && n.File?
      && w'.archives == w.archives[io.name := n.body] - (Names(Evicted(out, cfg.keep)) - io.sticky)
      && (EffectFails(env, w.disk, t.op, io) ==> e.status == Error && w'.files == w.files)
      && (!EffectFails(env, w.disk, t.op, io) ==>
            e.status == Changed
            && w'.files == w.files[t.op.dst := FileRec(Want(env, t.op), Recorded(t.op.mode), Kept(out, cfg.keep))])
  {
  }

  lemma SameReferences(w: World, w': World)
    requires forall p, i :: HasEntry(w'.files, p, i) <==> HasEntry(w.files, p, i)
    requires forall p :: History(w'.files, p) == History(w.files, p)
    ensures forall n :: Referenced(w'.files, n) <==> Referenced(w.files, n)
  {
    forall n ensures Referenced(w'.files, n) <==> Referenced(w.files, n) {
      if p, i :| HasEntry(w'.files, p, i) && ArchiveAt(w'.files, p, i) == n {
        assert History(w'.files, p) == History(w.files, p);
        assert HasEntry(w.files, p, i) && ArchiveAt(w.files, p, i) == n;
      }
      if p, i :| HasEntry(w.files, p, i) && ArchiveAt(w.files, p, i) == n {
        assert History(w'.files, p) == History(w.files, p);
        assert HasEntry(w'.files, p, i) && ArchiveAt(w'.files, p, i) == n;
      }
    }
  }

  lemma QuietKeeps(env: Env, w: World, w': World, ideal: Stacks)
    requires w'.archives == w.archives && (forall p, i :: HasEntry(w'.files, p, i) <==> HasEntry(w.files, p, i))
    requires forall p :: History(w'.files, p) == History(w.files, p)
    ensures Refines(env, w, ideal) ==> Refines(env, w', ideal)
    ensures Exact(env, w) ==> Exact(env, w')
    ensures Distinct(w.files) ==> Distinct(w'.files)
    ensures Orphan(w) ==> Orphan(w')
  {
    SameReferences(w, w');
    forall p, i | HasEntry(w'.files, p, i)
      ensures HasEntry(w.files, p, i) && w'.files[p].history[i] == w.files[p].history[i]
    {
      assert History(w'.files, p) == History(w.files, p);
    }
    assert Distinct(w.files) ==> Distinct(w'.files) by {
      if Distinct(w.files) {
        forall p, i, q, j | HasEntry(w'.files, p, i) && HasEntry(w'.files, q, j)
          && ArchiveAt(w'.files, p, i) == ArchiveAt(w'.files, q, j)
          ensures p == q && i == j
        {
          assert ArchiveAt(w.files, p, i) == ArchiveAt(w.files, q, j);
        }
      }
    }
  }

  /** w' is w with e pushed onto p's row and the rest of w's rows untouched. */
  predicate RowPushed(w: World, w': World, p: Path, e: Entry, keep: nat) {
    p in w'.files && w'.files == w.files[p := w'.files[p]]
      && w'.files[p].history == Kept([e] + History(w.files, p), keep)
  }

  /** Where an entry of the pushed rows stood before. */
  lemma Survivor(w: World, w': World, p: Path, e: Entry, keep: nat, q: Path, i: int)
    requires RowPushed(w, w', p, e, keep) && HasEntry(w'.files, q, i)
    ensures q == p && i == 0 ==> w'.files[q].history[i] == e && ArchiveAt(w'.files, q, i) == e.archive
    ensures !(q == p && i == 0) ==>
      var j := if q == p then i - 1 else i;
      HasEntry(w.files, q, j) && w'.files[q].history[i] == w.files[q].history[j]
        && ArchiveAt(w'.files, q, i) == ArchiveAt(w.files, q, j)
  {
  }

  /** Pushing keeps a prefix of the pushed stack, whatever else is evicted or removed. */
  lemma PushRefines(env: Env, w: World, w': World, ideal: Stacks, p: Path, e: Entry, v: Version, keep: nat)
    requires Refines(env, w, ideal) && FreshName(w, e.archive)
    requires e.sha == env.sha(v.body) && e.mode == FmtMode(v.mode)
    requires forall n :: n in w'.archives ==>
      (n == e.archive && w'.archives[n] == v.body) || (n in w.archives && w'.archives[n] == w.archives[n])
    requires RowPushed(w, w', p, e, keep)
    ensures Refines(env, w', ideal[p := [v] + Stack(ideal, p)])
  {
    hide RowPushed, FmtMode;
    var ideal' := ideal[p := [v] + Stack(ideal, p)];
    forall q, i | HasEntry(w'.files, q, i)
      ensures i < |Stack(ideal', q)| && Describes(env, w'.archives, w'.files[q].history[i], Stack(ideal', q)[i])
    {
      Survivor(w, w', p, e, keep, q, i);
    }
  }

  /** Archives may vanish or be added under fresh names without breaking refinement. */
  lemma LossRefines(env: Env, w: World, w': World, ideal: Stacks, name: Path)
    requires Refines(env, w, ideal) && FreshName(w, name) && w'.files == w.files
    requires forall n :: n in w'.archives && n != name ==> n in w.archives && w'.archives[n] == w.archives[n]
    ensures Refines(env, w', ideal)
  {
    forall p, i | HasEntry(w'.files, p, i)
      ensures i < |Stack(ideal, p)| && Describes(env, w'.archives, w'.files[p].history[i], Stack(ideal, p)[i])
    {
      assert HasEntry(w.files, p, i) && ArchiveAt(w.files, p, i) != name;
    }
  }

  lemma TaskRefines(env: Env, cfg: Config, w: World, ideal: Stacks, t: Task, io: Io)
    requires Refines(env, w, ideal)
    requires Overwrites(env, cfg, w, t, io) ==> FreshName(w, io.name)
    ensures Refines(env, Execute(env, cfg, w, t, io).0, IdealTask(env, cfg, w, ideal, t, io))
  {
    var w' := Execute(env, cfg, w, t, io).0;
    if !Overwrites(env, cfg, w, t, io) {
      TaskQuiet(env, cfg, w, t, io);
      QuietKeeps(env, w, w', ideal);
    } else {
      TaskLoud(env, cfg, w, t, io);
      if EffectFails(env, w.disk, t.op, io) {
        LossRefines(env, w, w', ideal, io.name);
      } else {
        var n := Stat(env, w.disk, t.op.dst).node;
        PushRefines(env, w, w', ideal, t.op.dst, Snapshot(env, cfg, w.disk, t.op, io.name), Version(n.body, n.mode),
          cfg.keep);
      }
    }
  }

  lemma PushDistinct(w: World, w': World, p: Path, e: Entry, keep: nat)
    requires RowPushed(w, w', p, e, keep) && Distinct(w.files) && !Referenced(w.files, e.archive)
    ensures Distinct(w'.files)
  {
    forall q, i, r, j | HasEntry(w'.files, q, i) && HasEntry(w'.files, r, j)
      && ArchiveAt(w'.files, q, i) == ArchiveAt(w'.files, r, j)
      ensures q == r && i == j
    {
      Survivor(w, w', p, e, keep, q, i);
      Survivor(w, w', p, e, keep, r, j);
    }
  }

  /** Fresh names keep entries apart, whatever fails. */
  lemma TaskDistinct(env: Env, cfg: Config, w: World, t: Task, io: Io)
    requires Distinct(w.files) && (Overwrites(env, cfg, w, t, io) ==> FreshName(w, io.name))
    ensures Distinct(Execute(env, cfg, w, t, io).0.files)
  {
    hide Distinct, Execute;
    var w' := Execute(env, cfg, w, t, io).0;
    if !Overwrites(env, cfg, w, t, io) {
      TaskQuiet(env, cfg, w, t, io);
      QuietKeeps(env, w, w', map[]);
    } else {
      TaskLoud(env, cfg, w, t, io);
      if !EffectFails(env, w.disk, t.op, io) {
        PushDistinct(w, w', t.op.dst, Snapshot(env, cfg, w.disk, t.op, io.name), cfg.keep);
      }
    }
  }

  lemma TaskBounded(env: Env, cfg: Config, w: World, t: Task, io: Io, cap: nat)
    requires Bounded(w, cap) && cfg.keep <= cap
    ensures Bounded(Execute(env, cfg, w, t, io).0, cap)
  {
    if !Overwrites(env, cfg, w, t, io) {
      TaskQuiet(env, cfg, w, t, io);
    } else {
      TaskLoud(env, cfg, w, t, io);
      var out := Pushed(env, cfg, w, t, io);
      assert |Kept(out, cfg.keep)| <= cfg.keep;
      forall p ensures |History(Execute(env, cfg, w, t, io).0.files, p)| <= cap {
        assert |History(w.files, p)| <= cap;
      }
    }
  }

  // ---------- exactness of one task ----------

  /** No surviving entry's archive is among the evicted ones. */
  lemma PushSurvives(w: World, w': World, p: Path, e: Entry, keep: nat, q: Path, i: int)
    requires RowPushed(w, w', p, e, keep) && Distinct(w.files) && !Referenced(w.files, e.archive)
    requires HasEntry(w'.files, q, i) && keep > 0
    ensures ArchiveAt(w'.files, q, i) !in Names(Evicted([e] + History(w.files, p), keep))
  {
    var out := [e] + History(w.files, p);
    var gone := Evicted(out, keep);
    Survivor(w, w', p, e, keep, q, i);
    forall j | 0 <= j < |gone| ensures gone[j].archive != ArchiveAt(w'.files, q, i) {
      assert gone[j] == out[keep + j];
      assert HasEntry(w.files, p, keep + j - 1) && ArchiveAt(w.files, p, keep + j - 1) == gone[j].archive;
    }
  }

  /** An old reference that is not evicted is still a reference. */
  lemma PushReferences(w: World, w': World, p: Path, e: Entry, keep: nat, n: Path)
    requires RowPushed(w, w', p, e, keep) && keep > 0 && Referenced(w.files, n)
    ensures Referenced(w'.files, n) || n in Names(Evicted([e] + History(w.files, p), keep))
  {
    var out := [e] + History(w.files, p);
    var gone := Evicted(out, keep);
    var q, i :| HasEntry(w.files, q, i) && ArchiveAt(w.files, q, i) == n;
    if q != p {
      assert HasEntry(w'.files, q, i) && ArchiveAt(w'.files, q, i) == n;
    } else if i + 1 < |Kept(out, keep)| {
      assert HasEntry(w'.files, p, i + 1) && ArchiveAt(w'.files, p, i + 1) == n;
    } else {
      assert gone[i + 1 - keep] == out[i + 1] && gone[i + 1 - keep].archive == n;
    }
  }

  /** A clean overwrite keeps the correspondence: the new archive in, exactly the evicted ones out. */
  lemma PushExact(env: Env, w: World, w': World, p: Path, e: Entry, body: Bytes, keep: nat)
    requires Exact(env, w) && FreshName(w, e.archive) && e.sha == env.sha(body) && keep > 0
    requires RowPushed(w, w', p, e, keep)
    requires w'.archives == w.archives[e.archive := body] - Names(Evicted([e] + History(w.files, p), keep))
    ensures Exact(env, w')
  {
    PushDistinct(w, w', p, e, keep);
    forall q, i | HasEntry(w'.files, q, i)
      ensures ArchiveAt(w'.files, q, i) in w'.archives
      ensures env.sha(w'.archives[ArchiveAt(w'.files, q, i)]) == w'.files[q].history[i].sha
    {
      Survivor(w, w', p, e, keep, q, i);
      PushSurvives(w, w', p, e, keep, q, i);
    }
    forall n | n in w'.archives ensures Referenced(w'.files, n) {
      if n == e.archive {
        assert HasEntry(w'.files, p, 0) && ArchiveAt(w'.files, p, 0) == n;
      } else {
        PushReferences(w, w', p, e, keep, n);
      }
    }
  }

  /** Every evicted entry was recorded before. */
  lemma EvictedReferenced(files: map<Path, FileRec>, p: Path, e: Entry, keep: nat, n: Path)
    requires keep > 0 && n in Names(Evicted([e] + History(files, p), keep))
    ensures Referenced(files, n)
  {
    var out := [e] + History(files, p);
    var gone := Evicted(out, keep);
    var j :| 0 <= j < |gone| && gone[j].archive == n;
    assert gone[j] == out[keep + j];
    assert HasEntry(files, p, keep + j - 1) && ArchiveAt(files, p, keep + j - 1) == n;
  }

  lemma TaskOrphan(env: Env, cfg: Config, w: World, t: Task, io: Io)
    requires Overwrites(env, cfg, w, t, io) ==> FreshName(w, io.name)
    requires Orphan(w) || (Exact(env, w) && !CleanTask(env, cfg, w, t, io))
    ensures Orphan(Execute(env, cfg, w, t, io).0)
  {
    var w' := Execute(env, cfg, w, t, io).0;
    if !Overwrites(env, cfg, w, t, io) {
      TaskQuiet(env, cfg, w, t, io);
      QuietKeeps(env, w, w', map[]);
    } else {
      TaskLoud(env, cfg, w, t, io);
      var p, e := t.op.dst, Snapshot(env, cfg, w.disk, t.op, io.name);
      var gone := Names(Evicted([e] + History(w.files, p), cfg.keep));
      forall n | n in gone ensures Referenced(w.files, n) { EvictedReferenced(w.files, p, e, cfg.keep, n); }
      if EffectFails(env, w.disk, t.op, io) {
        assert io.name in w'.archives && !Referenced(w'.files, io.name);
      } else {
        if Orphan(w) {
          var n :| n in w.archives && !Referenced(w.files, n);
          forall q, i | HasEntry(w'.files, q, i)
            ensures ArchiveAt(w'.files, q, i) != n
          {
            Survivor(w, w', p, e, cfg.keep, q, i);
          }
          assert n in w'.archives && !Referenced(w'.files, n);
        } else {
          var n :| n in gone && n in io.sticky;
          forall q, i | HasEntry(w'.files, q, i)
            ensures ArchiveAt(w'.files, q, i) != n
          {
            PushSurvives(w, w', p, e, cfg.keep, q, i);
          }
          assert n in w'.archives && !Referenced(w'.files, n);
        }
      }
    }
  }

  lemma {:induction false} TaskExact(env: Env, cfg: Config, w: World, t: Task, io: Io)
    requires Exact(env, w) && CleanTask(env, cfg, w, t, io)
    requires Overwrites(env, cfg, w, t, io) ==> FreshName(w, io.name)
    ensures Exact(env, Execute(env, cfg, w, t, io).0)
  {
    var w' := Execute(env, cfg, w, t, io).0;
    if !Overwrites(env, cfg, w, t, io) {
      TaskQuiet(env, cfg, w, t, io);
      QuietKeeps(env, w, w', map[]);
    } else {
      TaskLoud(env, cfg, w, t, io);
      var gone := Names(Evicted(Pushed(env, cfg, w, t, io), cfg.keep));
      assert gone - io.sticky == gone;
      PushExact(env, w, w', t.op.dst, Snapshot(env, cfg, w.disk, t.op, io.name), Stat(env, w.disk, t.op.dst).node.body,
        cfg.keep);
    }
  }

  // ---------- a file task, all or nothing ----------

  /** A file task that does not report a change has left every node but its temporary sibling as it was,
      and if it reports an error its rows and marks too; one that does leaves the whole new file. */
  ghost predicate WholeFile(w: World, w': World, op: Op, s: Status)
    requires op.Copy?
  {
    && (s == Error ==> w'.files == w.files && w'.changed == w.changed)
    && (s != Changed ==> forall q :: q in w.disk && q != op.dst + DEPLOY_TMP ==> At(w'.disk, q) == At(w.disk, q))
    && (s == Changed ==>
          && op.dst in w'.disk && w'.disk[op.dst].File? && Some(w'.disk[op.dst].body) == op.body
          && ModeOr(op.mode, DEFAULT_FILE_MODE).Some?
          && w'.disk[op.dst].mode == ModeOr(op.mode, DEFAULT_FILE_MODE).value % 512)
  }

  lemma FileTaskAllOrNothing(env: Env, cfg: Config, w: World, t: Task, io: Io)
    requires t.op.Copy? && OnlyScratch(w.disk, io.residue, t.op.dst, t.op.dst + DEPLOY_TMP)
    ensures var (w', e) := Execute(env, cfg, w, t, io); WholeFile(w, w', t.op, e.status)
  {
  }

  /** When the write fails after archiving, the i-th entry still has its archive exactly when it was
      among the newest keep - 1 or the host refused to delete it. */
  lemma FailedWriteKeepsNewest(env: Env, cfg: Config, w: World, t: Task, io: Io, i: nat)
    requires Exact(env, w) && Overwrites(env, cfg, w, t, io) && FreshName(w, io.name)
    requires EffectFails(env, w.disk, t.op, io) && HasEntry(w.files, t.op.dst, i)
    ensures var w' := Execute(env, cfg, w, t, io).0;
      var n := ArchiveAt(w.files, t.op.dst, i);
      && w'.files == w.files
      && (n in w'.archives <==> i < cfg.keep - 1 || n in io.sticky)
      && (n in w'.archives ==> w'.archives[n] == w.archives[n])
  {
    TaskLoud(env, cfg, w, t, io);
    var out := Pushed(env, cfg, w, t, io);
    var gone := Evicted(out, cfg.keep);
    var n := ArchiveAt(w.files, t.op.dst, i);
    assert out[i + 1].archive == n && n != io.name;
    if i + 1 >= cfg.keep {
      assert gone[i + 1 - cfg.keep] == out[i + 1];
    }
    forall j | 0 <= j < |gone| && gone[j].archive == n ensures j == i + 1 - cfg.keep {
      assert gone[j] == out[cfg.keep + j] && HasEntry(w.files, t.op.dst, cfg.keep + j - 1);
      assert ArchiveAt(w.files, t.op.dst, cfg.keep + j - 1) == n;
    }
  }

  // ---------- rollback ----------

  /** All the archive and history side of a rollback, whatever the disk does. */
  lemma RollbackRows(env: Env, w: World, p: Path, k: nat, io: Io)
    requires p in w.files && k >= 1
    ensures var (w', s) := RollbackOne(env, w, p, k, io);
      && (s != Changed ==> w'.archives == w.archives && w'.files == w.files)
      && (s == Changed ==>
            k <= |w.files[p].history| && p in w'.files && w'.files == w.files[p := w'.files[p]]
            && w'.files[p].history == w.files[p].history[k..]
            && w'.archives == w.archives - (Names(w.files[p].history[..k]) - io.sticky))
  {
  }

  lemma DroppedReferenced(w: World, p: Path, k: nat, n: Path)
    requires p in w.files && k <= |w.files[p].history|
    ensures n in Names(w.files[p].history[..k]) <==>
      exists i :: 0 <= i < k && HasEntry(w.files, p, i) && ArchiveAt(w.files, p, i) == n
  {
    var h := w.files[p].history;
    if n in Names(h[..k]) {
      var i :| 0 <= i < k && h[..k][i].archive == n;
      assert HasEntry(w.files, p, i) && ArchiveAt(w.files, p, i) == n;
    }
    if i :| 0 <= i < k && HasEntry(w.files, p, i) && ArchiveAt(w.files, p, i) == n {
      assert h[..k][i].archive == n;
    }
  }

  function IdealRollback(env: Env, w: World, ideal: Stacks, p: Path, k: nat, filter: Path, io: Io): Stacks
    requires p in w.files && k >= 1
  {
    if Turn(env, w, p, k, filter, io).1 == Changed && k <= |Stack(ideal, p)| then ideal[p := Stack(ideal, p)[k..]]
    else ideal
  }

  lemma TurnRefines(env: Env, w: World, ideal: Stacks, p: Path, k: nat, filter: Path, io: Io)
    requires Refines(env, w, ideal) && p in w.files && k >= 1
    ensures Refines(env, Turn(env, w, p, k, filter, io).0, IdealRollback(env, w, ideal, p, k, filter, io))
  {
    var (w', s) := Turn(env, w, p, k, filter, io);
    RollbackRows(env, w, p, k, io);
    if s == Changed {
      var ideal' := IdealRollback(env, w, ideal, p, k, filter, io);
      assert HasEntry(w.files, p, k - 1);
      forall q, i | HasEntry(w'.files, q, i)
        ensures i < |Stack(ideal', q)| && Describes(env, w'.archives, w'.files[q].history[i], Stack(ideal', q)[i])
      {
        Remains(w, w', p, k, q, i);
      }
    } else {
      forall q, i | HasEntry(w'.files, q, i)
        ensures i < |Stack(ideal, q)| && Describes(env, w'.archives, w'.files[q].history[i], Stack(ideal, q)[i])
      {
        assert HasEntry(w.files, q, i);
      }
    }
  }

  predicate CleanTurn(env: Env, w: World, p: Path, k: nat, filter: Path, io: Io)
    requires p in w.files && k >= 1
  {
    Turn(env, w, p, k, filter, io).1 == Changed ==>
      k <= |w.files[p].history| && Names(w.files[p].history[..k]) !! io.sticky
  }

  /** Rows and archives dropped together stay in correspondence. */
  lemma DropExact(env: Env, w: World, w': World, p: Path, k: nat)
    requires Exact(env, w) && p in w.files && 1 <= k <= |w.files[p].history| && p in w'.files
    requires w'.files == w.files[p := w'.files[p]] && w'.files[p].history == w.files[p].history[k..]
    requires w'.archives == w.archives - Names(w.files[p].history[..k])
    ensures Exact(env, w')
  {
    hide Names;
    forall q, i | HasEntry(w'.files, q, i)
      ensures ArchiveAt(w'.files, q, i) in w'.archives
      ensures env.sha(w'.archives[ArchiveAt(w'.files, q, i)]) == w'.files[q].history[i].sha
    {
      Remains(w, w', p, k, q, i);
      DroppedReferenced(w, p, k, ArchiveAt(w'.files, q, i));
    }
    DropDistinct(w, w', p, k);
    forall n | n in w'.archives ensures Referenced(w'.files, n) {
      var q, i :| HasEntry(w.files, q, i) && ArchiveAt(w.files, q, i) == n;
      DroppedReferenced(w, p, k, n);
      var j := if q == p then i - k else i;
      assert HasEntry(w'.files, q, j) && ArchiveAt(w'.files, q, j) == n;
    }
  }

  lemma {:induction false} TurnExact(env: Env, w: World, p: Path, k: nat, filter: Path, io: Io)
    requires Exact(env, w) && p in w.files && k >= 1 && CleanTurn(env, w, p, k, filter, io)
    ensures Exact(env, Turn(env, w, p, k, filter, io).0)
  {
    hide RollbackOne, Exact;
    var (w', s) := Turn(env, w, p, k, filter, io);
    RollbackRows(env, w, p, k, io);
    if s == Changed {
      var gone := Names(w.files[p].history[..k]);
      assert gone - io.sticky == gone;
      DropExact(env, w, w', p, k);
    } else {
      QuietKeeps(env, w, w', map[]);
    }
  }

  lemma TurnOrphan(env: Env, w: World, p: Path, k: nat, filter: Path, io: Io)
    requires p in w.files && k >= 1
    requires Orphan(w) || (Exact(env, w) && !CleanTurn(env, w, p, k, filter, io))
    ensures Orphan(Turn(env, w, p, k, filter, io).0)
  {
    hide RollbackOne;
    var (w', s) := Turn(env, w, p, k, filter, io);
    RollbackRows(env, w, p, k, io);
    if s != Changed {
      QuietKeeps(env, w, w', map[]);
    } else if Orphan(w) {
      var n :| n in w.archives && !Referenced(w.files, n);
      DroppedReferenced(w, p, k, n);
      forall q, i | HasEntry(w'.files, q, i) ensures ArchiveAt(w'.files, q, i) != n { Remains(w, w', p, k, q, i); }
      assert n in w'.archives && !Referenced(w'.files, n);
    } else {
      var n :| n in Names(w.files[p].history[..k]) && n in io.sticky;
      DroppedReferenced(w, p, k, n);
      forall q, i | HasEntry(w'.files, q, i) ensures ArchiveAt(w'.files, q, i) != n { Remains(w, w', p, k, q, i); }
      assert n in w'.archives && !Referenced(w'.files, n);
    }
  }

  // ---------- whole runs ----------

  /** One invocation of the agent, or a change to the disk made by somebody else. */
  datatype Action =
    | Deployed(cfg: Config, tasks: seq<Task>, ios: seq<Io>)
    | RolledBack(order: seq<Path>, step: int, filter: Path, ios: seq<Io>)
    | Cleared(left: set<Path>)      // archives the host refused to delete
    | Queried                       // status and the two previews
    | Outside(disk: Disk)

  /** The world and three facts about how it came to be: every file's undo stack, whether the archive
      store was always left tidy since it was last emptied, and the largest history depth used. */
  datatype Trail = Trail(w: World, ideal: Stacks, clean: bool, cap: nat)

  function Max(a: nat, b: nat): nat { if a < b then b else a }

  function AfterTask(env: Env, cfg: Config, g: Trail, t: Task, io: Io): Trail {
    Trail(Execute(env, cfg, g.w, t, io).0, IdealTask(env, cfg, g.w, g.ideal, t, io),
          g.clean && CleanTask(env, cfg, g.w, t, io), Max(g.cap, cfg.keep))
  }

  function AfterTasks(env: Env, cfg: Config, g: Trail, tasks: seq<Task>, ios: seq<Io>): Trail
    requires |ios| == |tasks|
    decreases |tasks|
  {
    if tasks == [] then g else AfterTasks(env, cfg, AfterTask(env, cfg, g, tasks[0], ios[0]), tasks[1..], ios[1..])
  }

  ghost predicate FreshTasks(env: Env, cfg: Config, w: World, tasks: seq<Task>, ios: seq<Io>)
    requires |ios| == |tasks|
    decreases |tasks|
  {
    tasks == [] || ((Overwrites(env, cfg, w, tasks[0], ios[0]) ==> FreshName(w, ios[0].name))
                    && FreshTasks(env, cfg, Execute(env, cfg, w, tasks[0], ios[0]).0, tasks[1..], ios[1..]))
  }

  function AfterTurn(env: Env, g: Trail, p: Path, k: nat, filter: Path, io: Io): Trail
    requires p in g.w.files && k >= 1
  {
    Trail(Turn(env, g.w, p, k, filter, io).0, IdealRollback(env, g.w, g.ideal, p, k, filter, io),
          g.clean && CleanTurn(env, g.w, p, k, filter, io), g.cap)
  }

  function AfterTurns(env: Env, g: Trail, order: seq<Path>, i: nat, k: nat, filter: Path, ios: seq<Io>): Trail
    requires i <= |order| == |ios| && k >= 1 && forall p :: p in order ==> p in g.w.files
    decreases |order| - i
  {
    if i == |order| then g
    else if !Selected(filter, order[i]) then AfterTurns(env, g, order, i + 1, k, filter, ios)
    else AfterTurns(env, AfterTurn(env, g, order[i], k, filter, ios[i]), order, i + 1, k, filter, ios)
  }

  function Forgotten(files: map<Path, FileRec>): map<Path, FileRec> {
    map p | p in files :: files[p].(history := [])
  }

  /** How many versions the given rows hold. */
  ghost function Versions(files: map<Path, FileRec>, keys: set<Path>): nat
    requires keys <= files.Keys
  {
    if keys == {} then 0 else var p :| p in keys; |files[p].history| + Versions(files, keys - {p})
  }

  lemma {:induction false} VersionsWithout(files: map<Path, FileRec>, keys: set<Path>, p: Path)
    requires keys <= files.Keys && p in keys
    ensures Versions(files, keys) == |files[p].history| + Versions(files, keys - {p})
  {
    var q :| q in keys && Versions(files, keys) == |files[q].history| + Versions(files, keys - {q});
    if q != p {
      VersionsWithout(files, keys - {q}, p);
      VersionsWithout(files, keys - {p}, q);
      assert keys - {q} - {p} == keys - {p} - {q};
    }
  }

  function ClearHistory(w: World, left: set<Path>): World {
    w.(files := Forgotten(w.files), archives := map n | n in w.archives && n in left :: w.archives[n])
  }

  /** The listing, where the action has one, is of the right shape. */
  ghost predicate Formed(w: World, a: Action) {
    match a
    case Deployed(_, tasks, ios) => |ios| == |tasks|
    case RolledBack(order, _, _, ios) => |ios| == |order| && Lists(order, w.files)
    case _ => true
  }

  /** What one invocation makes of the world. */
  ghost function Step(env: Env, w: World, a: Action): World
    requires Formed(w, a)
  {
    match a
    case Deployed(cfg, tasks, ios) => Deploy(env, cfg, w, tasks, ios).0
    case RolledBack(order, step, filter, ios) =>
      if step < 1 then w else RollbackFrom(env, w, order, 0, step, filter, ios).0
    case Cleared(left) => ClearHistory(w, left)
    case Queried => w
    case Outside(disk) => w.(disk := disk)
  }

  ghost predicate Possible(env: Env, w: World, a: Action) {
    Formed(w, a) && (a.Deployed? ==> FreshTasks(env, a.cfg, w.(changed := {}), a.tasks, a.ios))
  }

  ghost function After(env: Env, g: Trail, a: Action): Trail
    requires Possible(env, g.w, a)
  {
    match a
    case Deployed(cfg, tasks, ios) => AfterTasks(env, cfg, g.(w := g.w.(changed := {})), tasks, ios)
    case RolledBack(order, step, filter, ios) => if step < 1 then g else AfterTurns(env, g, order, 0, step, filter, ios)
    case Cleared(left) => Trail(ClearHistory(g.w, left), map[], left !! g.w.archives.Keys, g.cap)
    case Queried => g
    case Outside(disk) => g.(w := g.w.(disk := disk))
  }

  ghost predicate PossibleRun(env: Env, g: Trail, acts: seq<Action>)
    decreases |acts|
  {
    acts == [] || (Possible(env, g.w, acts[0]) && PossibleRun(env, After(env, g, acts[0]), acts[1..]))
  }

  ghost function Run(env: Env, g: Trail, acts: seq<Action>): Trail
    requires PossibleRun(env, g, acts)
    decreases |acts|
  {
    if acts == [] then g else Run(env, After(env, g, acts[0]), acts[1..])
  }

  ghost predicate Inv(env: Env, g: Trail) {
    && Refines(env, g.w, g.ideal) && Distinct(g.w.files) && Bounded(g.w, g.cap)
    && (if g.clean then Exact(env, g.w) else Orphan(g.w))
  }

  lemma TrailIsDeploy(env: Env, cfg: Config, g: Trail, tasks: seq<Task>, ios: seq<Io>)
    requires |ios| == |tasks|
    ensures AfterTasks(env, cfg, g, tasks, ios).w == RunTasks(env, cfg, g.w, tasks, ios).0
    decreases |tasks|
  {
  }

  lemma TrailIsRollback(env: Env, g: Trail, order: seq<Path>, i: nat, k: nat, filter: Path, ios: seq<Io>)
    requires i <= |order| == |ios| && k >= 1 && forall p :: p in order ==> p in g.w.files
    ensures AfterTurns(env, g, order, i, k, filter, ios).w == RollbackFrom(env, g.w, order, i, k, filter, ios).0
    decreases |order| - i
  {
  }

  /** The trail's world is the world the deploy, rollback and clear functions compute. */
  lemma TrailIsStep(env: Env, g: Trail, a: Action)
    requires Possible(env, g.w, a)
    ensures After(env, g, a).w == Step(env, g.w, a)
  {
    match a
    case Deployed(cfg, tasks, ios) => TrailIsDeploy(env, cfg, g.(w := g.w.(changed := {})), tasks, ios);
    case RolledBack(order, step, filter, ios) => if step >= 1 { TrailIsRollback(env, g, order, 0, step, filter, ios); }
    case _ =>
  }

  lemma {:induction false} TasksKeep(env: Env, cfg: Config, g: Trail, tasks: seq<Task>, ios: seq<Io>)
    requires |ios| == |tasks| && Inv(env, g) && FreshTasks(env, cfg, g.w, tasks, ios)
    ensures Inv(env, AfterTasks(env, cfg, g, tasks, ios))
    decreases |tasks|
  {
    if tasks != [] {
      var t, io := tasks[0], ios[0];
      TaskRefines(env, cfg, g.w, g.ideal, t, io);
      TaskDistinct(env, cfg, g.w, t, io);
      TaskBounded(env, cfg, g.w, t, io, Max(g.cap, cfg.keep));
      if g.clean && CleanTask(env, cfg, g.w, t, io) {
        TaskExact(env, cfg, g.w, t, io);
      } else {
        TaskOrphan(env, cfg, g.w, t, io);
      }
      TasksKeep(env, cfg, AfterTask(env, cfg, g, t, io), tasks[1..], ios[1..]);
    }
  }

  lemma TurnKeeps(env: Env, g: Trail, p: Path, k: nat, filter: Path, io: Io)
    requires p in g.w.files && k >= 1 && Inv(env, g)
    ensures Inv(env, AfterTurn(env, g, p, k, filter, io))
  {
    hide Refines, Exact, Orphan, RollbackOne, CleanTurn;
    TurnRefines(env, g.w, g.ideal, p, k, filter, io);
    TurnDistinct(env, g.w, p, k, filter, io);
    RollbackRows(env, g.w, p, k, io);
    if g.clean && CleanTurn(env, g.w, p, k, filter, io) {
      TurnExact(env, g.w, p, k, filter, io);
    } else {
      TurnOrphan(env, g.w, p, k, filter, io);
    }
    forall q ensures |History(AfterTurn(env, g, p, k, filter, io).w.files, q)| <= g.cap {
      assert |History(g.w.files, q)| <= g.cap;
    }
  }

  lemma {:induction false} TurnsKeep(env: Env, g: Trail, order: seq<Path>, i: nat, k: nat, filter: Path, ios: seq<Io>)
    requires i <= |order| == |ios| && k >= 1 && forall p :: p in order ==> p in g.w.files
    requires Inv(env, g)
    ensures Inv(env, AfterTurns(env, g, order, i, k, filter, ios))
    decreases |order| - i
  {
    if i < |order| {
      if Selected(filter, order[i]) {
        TurnKeeps(env, g, order[i], k, filter, ios[i]);
        RollbackRows(env, g.w, order[i], k, ios[i]);
        TurnsKeep(env, AfterTurn(env, g, order[i], k, filter, ios[i]), order, i + 1, k, filter, ios);
      } else {
        TurnsKeep(env, g, order, i + 1, k, filter, ios);
      }
    }
  }

  lemma ClearKeeps(env: Env, g: Trail, left: set<Path>)
    requires Inv(env, g)
    ensures Inv(env, After(env, g, Cleared(left)))
  {
    var w' := ClearHistory(g.w, left);
    assert forall p, i :: !HasEntry(w'.files, p, i);
    if !(left !! g.w.archives.Keys) {
      var n :| n in left && n in g.w.archives;
      assert n in w'.archives && !Referenced(w'.files, n);
    }
  }

  lemma AfterKeeps(env: Env, g: Trail, a: Action)
    requires Inv(env, g) && Possible(env, g.w, a)
    ensures Inv(env, After(env, g, a))
  {
    match a
    case Deployed(cfg, tasks, ios) =>
      var g0 := g.(w := g.w.(changed := {}));
      QuietKeeps(env, g.w, g0.w, g.ideal);
      TasksKeep(env, cfg, g0, tasks, ios);
    case RolledBack(order, step, filter, ios) =>
      if step >= 1 { TurnsKeep(env, g, order, 0, step, filter, ios); }
    case Cleared(left) => ClearKeeps(env, g, left);
    case Queried =>
    case Outside(disk) => QuietKeeps(env, g.w, g.w.(disk := disk), g.ideal);
  }

  lemma {:induction false} RunKeeps(env: Env, g: Trail, acts: seq<Action>)
    requires Inv(env, g) && PossibleRun(env, g, acts)
    ensures Inv(env, Run(env, g, acts))
    decreases |acts|
  {
    if acts != [] {
      AfterKeeps(env, g, acts[0]);
      RunKeeps(env, After(env, g, acts[0]), acts[1..]);
    }
  }

  /** A host the agent has never run on. */
  function Untouched(disk: Disk): Trail {
    Trail(World(disk, map[], map[], {}), map[], true, 0)
  }

  /** Over every run, whatever fails: rows are prefixes of the undo stacks, no longer than the largest
      depth used; no two entries share an archive; and the archive store matches the rows one to one exactly
      when no file task failed past archiving and no deletion failed since the store was last emptied. */
  lemma EveryRun(env: Env, disk: Disk, acts: seq<Action>)
    requires PossibleRun(env, Untouched(disk), acts)
    ensures var g := Run(env, Untouched(disk), acts);
      && Refines(env, g.w, g.ideal) && Distinct(g.w.files) && Bounded(g.w, g.cap)
      && (Exact(env, g.w) <==> g.clean)
  {
    var g0 := Untouched(disk);
    assert forall p, i :: !HasEntry(g0.w.files, p, i);
    RunKeeps(env, g0, acts);
  }

  lemma TaskNamed(env: Env, cfg: Config, w: World, t: Task, io: Io)
    requires "" !in w.files
    ensures "" !in Execute(env, cfg, w, t, io).0.files
  {
    hide Stat, Effect, NextHistory, ParseUint, Names, Snapshot;
  }

  lemma {:induction false} TasksNamed(env: Env, cfg: Config, w: World, tasks: seq<Task>, ios: seq<Io>)
    requires |ios| == |tasks| && "" !in w.files
    ensures "" !in RunTasks(env, cfg, w, tasks, ios).0.files
    decreases |tasks|
  {
    if tasks != [] {
      TaskNamed(env, cfg, w, tasks[0], ios[0]);
      TasksNamed(env, cfg, Execute(env, cfg, w, tasks[0], ios[0]).0, tasks[1..], ios[1..]);
    }
  }

  /** No run comes to track the empty path. */
  lemma {:induction false} NoEmptyPath(env: Env, g: Trail, acts: seq<Action>)
    requires PossibleRun(env, g, acts) && "" !in g.w.files
    ensures "" !in Run(env, g, acts).w.files
    decreases |acts|
  {
    hide RunTasks, RollbackFrom, AfterTasks, AfterTurns, Turn;
    if acts != [] {
      var a := acts[0];
      TrailIsStep(env, g, a);
      match a {
        case Deployed(cfg, tasks, ios) => TasksNamed(env, cfg, g.w.(changed := {}), tasks, ios);
        case RolledBack(order, step, filter, ios) =>
          if step >= 1 { RollbackFromKeys(env, g.w, order, 0, step, filter, ios); }
        case _ =>
      }
      NoEmptyPath(env, After(env, g, a), acts[1..]);
    }
  }

  lemma {:induction false} RollbackRestores(env: Env, w: World, ideal: Stacks, p: Path, k: nat, io: Io)
    requires Refines(env, w, ideal) && p in w.files && k >= 1
    ensures var (w', s) := RollbackOne(env, w, p, k, io);
      && (s == Changed ==>
            k <= |Stack(ideal, p)| && p in w'.disk && w'.disk[p].File?
            && w'.disk[p].body == Stack(ideal, p)[k - 1].body && w'.disk[p].mode == Stack(ideal, p)[k - 1].mode)
      && (Exact(env, w) && Calm(io) && k <= |w.files[p].history| && Restorable(w.disk, p) ==> s == Changed)
  {
    hide FmtMode, ParseUint, Restorable;
    if k <= |w.files[p].history| {
      assert HasEntry(w.files, p, k - 1) && ArchiveAt(w.files, p, k - 1) == w.files[p].history[k - 1].archive;
      ParseOfFmt(Stack(ideal, p)[k - 1].mode);
    }
  }

  /** After any run, a rollback that succeeds puts back the undo stack's k-th version, body and mode;
      and with a tidy store it does succeed whenever the row is deep enough and the host is willing. */
  lemma RollbackRestoresIdeal(env: Env, disk: Disk, acts: seq<Action>, p: Path, k: nat, io: Io)
    requires PossibleRun(env, Untouched(disk), acts) && k >= 1
    requires p in Run(env, Untouched(disk), acts).w.files
    ensures var g := Run(env, Untouched(disk), acts);
      var (w', s) := RollbackOne(env, g.w, p, k, io);
      && (s == Changed ==>
            k <= |Stack(g.ideal, p)| && p in w'.disk && w'.disk[p].File?
            && w'.disk[p].body == Stack(g.ideal, p)[k - 1].body && w'.disk[p].mode == Stack(g.ideal, p)[k - 1].mode)
      && (g.clean && Calm(io) && k <= |g.w.files[p].history| && Restorable(g.w.disk, p) ==> s == Changed)
  {
    hide Run, PossibleRun, Refines, Exact, RollbackOne, Restorable;
    EveryRun(env, disk, acts);
    var g := Run(env, Untouched(disk), acts);
    RollbackRestores(env, g.w, g.ideal, p, k, io);
  }

  // ---------- rollbacks after any run ----------

  /** With a tidy store every entry can be read back. */
  lemma CleanBacks(env: Env, disk: Disk, acts: seq<Action>, p: Path, k: nat)
    requires PossibleRun(env, Untouched(disk), acts)
    ensures var g := Run(env, Untouched(disk), acts);
      g.clean && p in g.w.files && 1 <= k <= |g.w.files[p].history| ==> Backed(g.w, p, k)
  {
    hide Run, PossibleRun, Bounded, Distinct;
    EveryRun(env, disk, acts);
    var g := Run(env, Untouched(disk), acts);
    if g.clean && p in g.w.files && 1 <= k <= |g.w.files[p].history| {
      assert HasEntry(g.w.files, p, k - 1) && ArchiveAt(g.w.files, p, k - 1) == g.w.files[p].history[k - 1].archive;
      ParseOfFmt(Stack(g.ideal, p)[k - 1].mode);
    }
  }

  /** After any run that left the store tidy: rolling back a versions and then b lands where rolling back
      a + b does. */
  lemma ComposesAfterRun(env: Env, disk: Disk, acts: seq<Action>, p: Path, a: nat, b: nat, io1: Io, io2: Io, io: Io)
    returns (w1: World, w2: World, w3: World)
    requires PossibleRun(env, Untouched(disk), acts)
    requires var g := Run(env, Untouched(disk), acts);
      g.clean && p in g.w.files && a >= 1 && b >= 1 && a + b <= |g.w.files[p].history| && Restorable(g.w.disk, p)
    requires Calm(io1) && Calm(io2) && Calm(io)
    ensures var w := Run(env, Untouched(disk), acts).w;
      && RollbackOne(env, w, p, a, io1) == (w1, Changed)
      && p in w1.files && RollbackOne(env, w1, p, b, io2) == (w2, Changed)
      && RollbackOne(env, w, p, a + b, io) == (w3, Changed)
    ensures w2.files == w3.files && w2.archives == w3.archives && w2.changed == w3.changed
    ensures p in w2.disk && p in w3.disk && w2.disk == w3.disk[p := w2.disk[p]]
    ensures w2.disk[p].File? && w3.disk[p].File?
    ensures w2.disk[p].body == w3.disk[p].body && w2.disk[p].mode == w3.disk[p].mode
  {
    hide Run, PossibleRun, Distinct, Refines, Exact, Bounded, Restorable, Backed, RollbackOne;
    EveryRun(env, disk, acts);
    CleanBacks(env, disk, acts, p, a);
    CleanBacks(env, disk, acts, p, a + b);
    w1, w2, w3 := RollbackComposes(env, Run(env, Untouched(disk), acts).w, p, a, b, io1, io2, io);
  }

  /** After any run that left the store tidy: rolling the rulebook back by a and then by b records what rolling
      it back by a + b does exactly when every file that can be written has a + b versions, or too few for
      either; and then archives and contents agree too. */
  lemma RulebookComposesAfterRun(env: Env, disk: Disk, acts: seq<Action>, a: nat, b: nat, filter: Path, s1: Sweep,
                                 s2: Sweep, s: Sweep)
    requires PossibleRun(env, Untouched(disk), acts) && a >= 1 && b >= 1
    requires var g := Run(env, Untouched(disk), acts);
      && g.clean && NoTmpClash(g.w.files) && Quiet(env, g.w, a, filter, s1) && Quiet(env, g.w, a + b, filter, s)
      && Quiet(env, Swept(env, g.w, a, filter, s1), b, filter, s2)
    ensures var w := Run(env, Untouched(disk), acts).w;
      var w2 := Swept(env, Swept(env, w, a, filter, s1), b, filter, s2);
      var w3 := Swept(env, w, a + b, filter, s);
      && (w2.files == w3.files <==> DepthsAgree(w, a, b, filter))
      && (w2.files == w3.files ==>
            w2.archives == w3.archives && w2.changed == w3.changed
              && forall q :: Alike(w, w2.disk, w3.disk, filter, q))
  {
    hide Run, PossibleRun, Distinct, Refines, Exact, Bounded, NoTmpClash, Quiet, Swept, Alike, Backed, DepthsAgree;
    EveryRun(env, disk, acts);
    var w := Run(env, Untouched(disk), acts).w;
    forall p, k | p in w.files && 1 <= k <= |w.files[p].history| ensures Backed(w, p, k) {
      CleanBacks(env, disk, acts, p, k);
    }
    RulebookComposes(env, w, a, b, filter, s1, s2, s);
    ComposesByDepth(w, a, b, filter);
  }

  /** After any run, whatever failed in it: the preview and the rollback that follows tell the same exactly
      when every file promised can be restored; with a tidy store, when every such path can be written. */
  lemma PreviewAgreesAfterRun(env: Env, disk: Disk, acts: seq<Action>, order: seq<Path>, k: nat, filter: Path,
                              ios: seq<Io>)
    requires PossibleRun(env, Untouched(disk), acts) && |order| == |ios| && k >= 1
    requires var files := Run(env, Untouched(disk), acts).w.files; Lists(order, files) && NoTmpClash(files)
    requires forall j :: 0 <= j < |ios| ==> ios[j].fault.NoFault?
    ensures var g := Run(env, Untouched(disk), acts);
      var agree := RollbackFrom(env, g.w, order, 0, k, filter, ios).1
        == Applied(PreviewFrom(g.w.files, order, 0, k, filter));
      var promised := set p | p in g.w.files && Selected(filter, p) && k <= |g.w.files[p].history|;
      && (agree <==> forall p :: p in promised ==> Succeeds(g.w, p, k))
      && (g.clean ==> (agree <==> forall p :: p in promised ==> Restorable(g.w.disk, p)))
  {
    hide Run, PossibleRun, Distinct, Refines, Exact, Bounded;
    hide Restorable, Backed, RollbackFrom, PreviewFrom, Applied, NoTmpClash;
    EveryRun(env, disk, acts);
    var g := Run(env, Untouched(disk), acts);
    RollbackPreviewAgrees(env, g.w, order, k, filter, ios);
    forall p | p in g.w.files && k <= |g.w.files[p].history| ensures g.clean ==> Backed(g.w, p, k) {
      CleanBacks(env, disk, acts, p, k);
    }
  }

  lemma EventTrue(env: Env, w: World, order: seq<Path>, k: nat, filter: Path, ios: seq<Io>, e: Event)
    requires |order| == |ios| && k >= 1 && Lists(order, w.files) && PerFile(env, w, order, 0, k, filter, ios)
    requires e in RollbackFrom(env, w, order, 0, k, filter, ios).1
    ensures e.path in w.files && Outcome(env, w, RollbackFrom(env, w, order, 0, k, filter, ios).0, e.path, k, e.status)
  {
    hide RollbackFrom, Outcome, Contained, Succeeds;
    assert Truthful(env, w, RollbackFrom(env, w, order, 0, k, filter, ios).0, order, 0, k, filter, ios, e);
  }

  /** p's live file is the undo stack's k-th version, body and mode. */
  ghost predicate HoldsIdeal(g: Trail, w': World, p: Path, k: nat)
    requires k >= 1
  {
    && k <= |Stack(g.ideal, p)| && p in w'.disk && w'.disk[p].File?
    && w'.disk[p].body == Stack(g.ideal, p)[k - 1].body && w'.disk[p].mode == Stack(g.ideal, p)[k - 1].mode
  }

  lemma OutcomeHoldsIdeal(env: Env, g: Trail, w': World, p: Path, k: nat)
    requires Refines(env, g.w, g.ideal) && p in g.w.files && k >= 1 && Outcome(env, g.w, w', p, k, Changed)
    ensures HoldsIdeal(g, w', p, k)
  {
    hide FmtMode, ParseUint, Ancestors;
    assert HasEntry(g.w.files, p, k - 1);
    ParseOfFmt(Stack(g.ideal, p)[k - 1].mode);
  }

  /** After any run, rolling back the rulebook, with anything failing in that too: every event is true of its
      file and nothing else changes; each file reported Changed holds its undo stack's k-th version. */
  lemma RollbackAfterRun(env: Env, disk: Disk, acts: seq<Action>, order: seq<Path>, k: nat, filter: Path, ios: seq<Io>)
    requires PossibleRun(env, Untouched(disk), acts) && |order| == |ios| && k >= 1
    requires var w := Run(env, Untouched(disk), acts).w;
      Lists(order, w.files) && NoTmpClash(w.files) && Tidy(env, w, order, 0, k, filter, ios)
    ensures var g := Run(env, Untouched(disk), acts);
      var (w', es) := RollbackFrom(env, g.w, order, 0, k, filter, ios);
      && PerFile(env, g.w, order, 0, k, filter, ios)
      && forall e | e in es && e.status == Changed :: HoldsIdeal(g, w', e.path, k)
  {
    hide Run, PossibleRun, Distinct, Exact, Bounded, RollbackFrom, NoTmpClash, Tidy, Refines, PerFile, HoldsIdeal;
    EveryRun(env, disk, acts);
    var g := Run(env, Untouched(disk), acts);
    RollbackIsPerFile(env, g.w, order, 0, k, filter, ios);
    var (w', es) := RollbackFrom(env, g.w, order, 0, k, filter, ios);
    forall e | e in es && e.status == Changed ensures HoldsIdeal(g, w', e.path, k) {
      EventTrue(env, g.w, order, k, filter, ios, e);
      OutcomeHoldsIdeal(env, g, w', e.path, k);
    }
  }

  /** The rows once all but `todo` are emptied. */
  ghost function EmptiedBut(rows: map<Path, FileRec>, todo: set<Path>): map<Path, FileRec> {
    map p | p in rows :: if p in todo then rows[p] else rows[p].(history := [])
  }

  lemma EmptyOne(rows: map<Path, FileRec>, todo: set<Path>, p: Path)
    requires p in rows && p in todo
    ensures EmptiedBut(rows, todo)[p] == rows[p]
    ensures EmptiedBut(rows, todo - {p}) == EmptiedBut(rows, todo)[p := rows[p].(history := [])]
  {
  }

  lemma EmptyAll(rows: map<Path, FileRec>)
    ensures EmptiedBut(rows, {}) == Forgotten(rows) && EmptiedBut(rows, rows.Keys) == rows
  {
  }
}
