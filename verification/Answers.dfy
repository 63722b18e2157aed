/** What each handler answers and leaves behind, read off the disk: for every disk, every answer of the host
    and every field of the task. */
module Answers {
  import opened Options
  import opened Octal
  import opened ByteStrings
  import opened Disks
  import opened Tasks
  import opened Rollbacks

  // ---------- words ----------

  /** A user or group is named that the host does not know. */
  predicate Nobody(env: Env, owner: string, group: string) {
    (owner != "" && env.userId(owner) == None) || (group != "" && env.groupId(group) == None)
  }

  predicate Belongs(env: Env, n: Node, owner: string, group: string) {
    (owner == "" || env.userId(owner) == Some(n.uid)) && (group == "" || env.groupId(group) == Some(n.gid))
  }

  /** n with the owner and group that are named, and otherwise as it is. */
  function GivenTo(env: Env, n: Node, owner: string, group: string): Node
    requires !Nobody(env, owner, group)
  {
    n.(uid := if owner == "" then n.uid else env.userId(owner).value,
       gid := if group == "" then n.gid else env.groupId(group).value)
  }

  /** Nothing stands in the way of the directories above p. */
  predicate Open(d: Disk, p: Path) {
    forall a :: a != "" && Under(p, a) && a in d ==> d[a].Dir?
  }

  /** What p holds once the directories above `below` are there: a new one has the mode's bits the umask lets pass. */
  function WithParents(env: Env, d: Disk, below: Path, mode: int, p: Path): Option<Node> {
    if p != "" && Under(below, p) && p !in d then Some(Dir(env.mask(mode), env.uid, env.gid)) else At(d, p)
  }

  // ---------- copy and template ----------

  /** The version overwritten is archived and heads the history, which is cut to the newest `keep`; the archives of
      those cut off are gone, except where the host refused. */
  ghost predicate Remembered(env: Env, cfg: Config, w: World, dst: Path, io: Io, history: seq<Entry>,
                            archives: map<Path, Bytes>) {
    var look := Stat(env, w.disk, dst);
    var old_ := if dst in w.files then w.files[dst].history else [];
    if look.Found? && look.node.File? && cfg.keep > 0 then
      var all := [Entry(env.sha(look.node.body), FmtMode(look.node.mode), io.name, cfg.phase)] + old_;
      && (forall n :: n in archives && n != io.name ==> n in w.archives && archives[n] == w.archives[n])
      && (io.name in archives ==> archives[io.name] == look.node.body)
      && history == (if |all| <= cfg.keep then all else all[..cfg.keep])
      && archives.Keys == (w.archives.Keys + {io.name})
           - ((set i | |history| <= i < |all| :: all[i].archive) - io.sticky)
    else
      history == old_ && archives == w.archives
  }

  /** dst holds the new body and mode, and nothing else but missing parents and the temporary sibling has
      changed. */
  ghost predicate FileWritten(env: Env, cfg: Config, w: World, w': World, dst: Path, body: Bytes, mode: nat,
                              modeText: string, io: Io) {
    && dst in w'.disk && w'.disk[dst].File? && w'.disk[dst].body == body && w'.disk[dst].mode == mode % 512
    && dst + ".deploy.tmp" !in w'.disk
    && (forall q :: q != dst && q != dst + ".deploy.tmp" ==>
          At(w'.disk, q) == WithParents(env, w.disk, dst, 0x1ED, q))
    && w'.changed == w.changed + {dst} && w'.files.Keys == w.files.Keys + {dst}
    && (forall p :: p in w.files && p != dst ==> w'.files[p] == w.files[p])
    && w'.files[dst].sha == env.sha(body) && w'.files[dst].mode == modeText
    && Remembered(env, cfg, w, dst, io, w'.files[dst].history, w'.archives)
  }

  lemma ModeText()
    ensures FmtMode(0x1A4) == "0644"
  {
  }

  /** dst holds the file, the sibling is gone, parents are there and all else is as it was. */
  lemma FileOnDisk(env: Env, d: Disk, op: Op)
    requires op.Copy? && WellFormed(env, op)
    ensures CopyEffect(env, d, op).Some? <==>
      Open(d, op.dst) && (op.dst + ".deploy.tmp" in d ==> d[op.dst + ".deploy.tmp"].File?)
    ensures CopyEffect(env, d, op).Some? ==>
      var d', tmp := CopyEffect(env, d, op).value, op.dst + ".deploy.tmp";
      && op.dst in d' && d'[op.dst].File? && d'[op.dst].body == op.body.value
      && d'[op.dst].mode == (if op.mode == "" then 0x1A4 else ParseUint(op.mode).value) % 512
      && tmp !in d'
      && forall q :: q != op.dst && q != tmp ==> At(d', q) == WithParents(env, d, op.dst, 0x1ED, q)
  {
    hide Under, ParseUint;
    if CopyEffect(env, d, op).Some? {
      var d', tmp := CopyEffect(env, d, op).value, op.dst + ".deploy.tmp";
      forall q | q != op.dst && q != tmp ensures At(d', q) == WithParents(env, d, op.dst, 0x1ED, q) {
        assert q in Ancestors(op.dst) <==> q != "" && Under(op.dst, q);
      }
    }
  }

  /** The version overwritten heads the history, and what falls off its end is deleted as far as the host allows. */
  lemma FileHistory(env: Env, cfg: Config, w: World, op: Op, io: Io)
    requires op.Copy? && Judge(env, w.disk, op).Dirty?
    ensures var w1 := Archived(env, cfg, w, op, io);
      && w1 == w.(archives := w1.archives)
      && Remembered(env, cfg, w, op.dst, io, NextHistory(env, cfg, w, op, io.name), w1.archives)
  {
    hide FmtMode, ParseUint, Stat;
    var look := Stat(env, w.disk, op.dst);
    if look.Found? && cfg.keep > 0 {
      var all := [Snapshot(env, cfg, w.disk, op, io.name)] + History(w.files, op.dst);
      var kept := if |all| <= cfg.keep then all else all[..cfg.keep];
      var gone := all[|kept|..];
      assert NextHistory(env, cfg, w, op, io.name) == kept && Evicted(all, cfg.keep) == gone;
      var cut := set i | |kept| <= i < |all| :: all[i].archive;
      assert cut == Names(gone) by {
        forall i | |kept| <= i < |all| ensures all[i].archive in Names(gone) { assert gone[i - |kept|] == all[i]; }
        forall i | 0 <= i < |gone| ensures gone[i].archive in cut { assert all[i + |kept|] == gone[i]; }
      }
    }
  }

  lemma FileApplied(env: Env, cfg: Config, w: World, op: Op, io: Io)
    requires op.Copy? && Judge(env, w.disk, op).Dirty?
    ensures var (w', s) := Apply(env, cfg, w, op, io);
      var look := Stat(env, w.disk, op.dst);
      && (s == Changed <==>
            && !io.fault.AtEffect? && !(io.fault.AtArchive? && look.Found? && cfg.keep > 0)
            && Open(w.disk, op.dst) && (op.dst + ".deploy.tmp" in w.disk ==> w.disk[op.dst + ".deploy.tmp"].File?))
      && (s == Changed ==>
            FileWritten(env, cfg, w, w', op.dst, op.body.value,
              if op.mode == "" then 0x1A4 else ParseUint(op.mode).value,
              if op.mode == "" then FmtMode(0x1A4) else op.mode, io))
      && (s != Changed ==> s == Error && w'.files == w.files && w'.changed == w.changed)
  {
    hide Under, ParseUint, FmtMode, Stat, Open, NextHistory, Archived, CopyEffect, WithParents, Remembered;
    FileOnDisk(env, w.disk, op);
    FileHistory(env, cfg, w, op, io);
  }

  lemma FileAnswers(env: Env, cfg: Config, w: World, dst: Path, body: Option<Bytes>, sha: string, mode: string, io: Io)
    ensures var (w', s) := Handle(env, cfg, w, Copy(dst, body, sha, mode), io);
      var look := Stat(env, w.disk, dst);
      if dst == "" || body == None || (sha != "" && env.sha(body.value) != sha)
         || (mode != "" && ParseUint(mode) == None) || io.fault.AtInspect? || look.Broken?
         || (look.Found? && !look.node.File?) then
        w' == w && s == Error
      else
        var bits := if mode == "" then 0x1A4 else ParseUint(mode).value;
        var text := if mode == "" then "0644" else mode;
        if look.Found? && env.sha(look.node.body) == env.sha(body.value) && look.node.mode == bits then
          && s == Skipped
          && w' == if cfg.dryRun then w
                   else w.(files := w.files[dst :=
                     FileRec(env.sha(body.value), text, if dst in w.files then w.files[dst].history else [])])
        else if cfg.dryRun then s == WouldChange && w' == w.(changed := w.changed + {dst})
        else
          && (s == Changed <==>
                && !io.fault.AtEffect? && !(io.fault.AtArchive? && look.Found? && cfg.keep > 0)
                && Open(w.disk, dst) && (dst + ".deploy.tmp" in w.disk ==> w.disk[dst + ".deploy.tmp"].File?))
          && (s == Changed ==> FileWritten(env, cfg, w, w', dst, body.value, bits, text, io))
          && (s != Changed ==> s == Error && w'.files == w.files && w'.changed == w.changed)
  {
    hide Apply, Stat, ParseUint, FmtMode, FileWritten, Open;
    assert FmtMode(0x1A4) == "0644" by { ModeText(); }
    var op := Copy(dst, body, sha, mode);
    if Judge(env, w.disk, op).Dirty? && !cfg.dryRun && !io.fault.AtInspect? { FileApplied(env, cfg, w, op, io); }
  }

  // ---------- the file system ----------

  lemma OwnersMean(env: Env, owner: string, group: string)
    ensures Ownership(env, owner, group).Some? <==> !Nobody(env, owner, group)
    ensures !Nobody(env, owner, group) ==>
      var ids := Ownership(env, owner, group).value;
      forall n :: Owned(n, ids.0, ids.1) == GivenTo(env, n, owner, group)
        && (OwnerFits(n, ids) <==> Belongs(env, n, owner, group))
  {
  }

  /** A handler that archives nothing either has its whole effect or touches neither rows nor archives. */
  lemma ApplyPlain(env: Env, cfg: Config, w: World, op: Op, io: Io)
    requires Judge(env, w.disk, op).Dirty? && !op.Copy? && !op.Command?
    ensures var (w', s) := Apply(env, cfg, w, op, io);
      && w'.files == w.files && w'.archives == w.archives
      && (s == Changed <==> !io.fault.AtEffect? && Effect(env, w.disk, op).Some?)
      && (s != Changed ==> s == Error && w'.changed == w.changed)
      && (s == Changed ==> w'.changed == w.changed + {PathOf(op)} && w'.disk == Effect(env, w.disk, op).value)
  {
    hide Judge, Effect;
  }

  lemma MkdirOnDisk(env: Env, d: Disk, op: Op)
    requires op.Mkdir? && Judge(env, d, op).Dirty?
    ensures var look := Stat(env, d, op.path);
      var bits := if op.mode == "" then 0x1ED else ParseUint(op.mode).value;
      && (Effect(env, d, op).Some? <==> look.Found? || (op.path !in d && Open(d, op.path)))
      && (Effect(env, d, op).Some? ==>
            var d' := Effect(env, d, op).value;
            if look.Found? then
              var n := if op.mode == "" then look.node else look.node.(mode := bits % 512);
              d' == d[look.at := GivenTo(env, n, op.owner, op.group)]
            else
              && At(d', op.path) == Some(GivenTo(env, Dir(bits % 512, env.uid, env.gid), op.owner, op.group))
              && forall q :: q != op.path ==> At(d', q) == WithParents(env, d, op.path, bits, q))
  {
    hide Stat, ParseUint, Under, Ownership;
    OwnersMean(env, op.owner, op.group);
    var look := Stat(env, d, op.path);
    if Effect(env, d, op).Some? && !look.Found? {
      var bits := if op.mode == "" then 0x1ED else ParseUint(op.mode).value;
      forall q | q != op.path ensures At(Effect(env, d, op).value, q) == WithParents(env, d, op.path, bits, q) {
        assert q in Ancestors(op.path) <==> q != "" && Under(op.path, q);
      }
    }
  }

  lemma MkdirAnswers(env: Env, cfg: Config, w: World, path: Path, mode: string, owner: string, group: string, io: Io)
    ensures var (w', s) := Handle(env, cfg, w, Mkdir(path, mode, owner, group), io);
      var look := Stat(env, w.disk, path);
      if path == "" || (mode != "" && ParseUint(mode) == None) || Nobody(env, owner, group) || io.fault.AtInspect?
         || look.Broken? || (look.Found? && !look.node.Dir?) then
        w' == w && s == Error
      else if look.Found? && (mode == "" || ParseUint(mode) == Some(look.node.mode))
         && Belongs(env, look.node, owner, group) then
        w' == w && s == Skipped
      else if cfg.dryRun then s == WouldChange && w' == w.(changed := w.changed + {path})
      else
        var bits := if mode == "" then 0x1ED else ParseUint(mode).value;
        && w'.files == w.files && w'.archives == w.archives
        && (s == Changed <==> !io.fault.AtEffect? && (look.Found? || (path !in w.disk && Open(w.disk, path))))
        && (s != Changed ==> s == Error && w'.changed == w.changed)
        && (s == Changed ==>
              && w'.changed == w.changed + {path}
              && if look.Found? then
                   var n := if mode == "" then look.node else look.node.(mode := bits % 512);
                   w'.disk == w.disk[look.at := GivenTo(env, n, owner, group)]
                 else
                   && At(w'.disk, path) == Some(GivenTo(env, Dir(bits % 512, env.uid, env.gid), owner, group))
                   && forall q :: q != path ==> At(w'.disk, q) == WithParents(env, w.disk, path, bits, q))
  {
    hide Apply, Stat, ParseUint, Open;
    var op := Mkdir(path, mode, owner, group);
    OwnersMean(env, owner, group);
    if Judge(env, w.disk, op).Dirty? && !cfg.dryRun && !io.fault.AtInspect? {
      MkdirOnDisk(env, w.disk, op);
      ApplyPlain(env, cfg, w, op, io);
    }
  }

  lemma SymlinkOnDisk(env: Env, d: Disk, op: Op)
    requires op.Symlink? && Judge(env, d, op).Dirty?
    ensures var look := Lstat(d, op.dst);
      && (Effect(env, d, op).Some? <==> look.Found? || Open(d, op.dst))
      && (Effect(env, d, op).Some? ==>
            var d' := Effect(env, d, op).value;
            && At(d', op.dst) == Some(Link(op.src, env.uid, env.gid))
            && forall q :: q != op.dst ==>
                 At(d', q) ==
                   if look.Missing? then WithParents(env, d, op.dst, 0x1ED, q)
                   else if !look.node.Link? && Under(q, op.dst) then None
                   else At(d, q))
  {
    hide Under;
    if Effect(env, d, op).Some? && Lstat(d, op.dst).Missing? {
      forall q | q != op.dst ensures At(Effect(env, d, op).value, q) == WithParents(env, d, op.dst, 0x1ED, q) {
        assert q in Ancestors(op.dst) <==> q != "" && Under(op.dst, q);
      }
    }
  }

  /** A file or directory gives way to a link only when `force` is set; a link to elsewhere always does. */
  lemma SymlinkAnswers(env: Env, cfg: Config, w: World, src: Path, dst: Path, force: bool, io: Io)
    ensures var (w', s) := Handle(env, cfg, w, Symlink(src, dst, force), io);
      var look := Lstat(w.disk, dst);
      if src == "" || dst == "" || io.fault.AtInspect? || look.Broken?
         || (look.Found? && !look.node.Link? && !force) then
        w' == w && s == Error
      else if look.Found? && look.node.Link? && look.node.target == src then w' == w && s == Skipped
      else if cfg.dryRun then s == WouldChange && w' == w.(changed := w.changed + {dst})
      else
        && w'.files == w.files && w'.archives == w.archives
        && (s == Changed <==> !io.fault.AtEffect? && (look.Found? || Open(w.disk, dst)))
        && (s != Changed ==> s == Error && w'.changed == w.changed)
        && (s == Changed ==>
              && w'.changed == w.changed + {dst} && At(w'.disk, dst) == Some(Link(src, env.uid, env.gid))
              && forall q :: q != dst ==>
                   At(w'.disk, q) ==
                     if look.Missing? then WithParents(env, w.disk, dst, 0x1ED, q)
                     else if !look.node.Link? && Under(q, dst) then None
                     else At(w.disk, q))
  {
    hide Apply, Lstat, Open;
    var op := Symlink(src, dst, force);
    if Judge(env, w.disk, op).Dirty? && !cfg.dryRun && !io.fault.AtInspect? {
      SymlinkOnDisk(env, w.disk, op);
      ApplyPlain(env, cfg, w, op, io);
    }
  }

  /** A directory with something in it goes only when `recursive` is set. */
  lemma RemoveAnswers(env: Env, cfg: Config, w: World, path: Path, recursive: bool, io: Io)
    ensures var (w', s) := Handle(env, cfg, w, Remove(path, recursive), io);
      var look := Lstat(w.disk, path);
      if path == "" || io.fault.AtInspect? || look.Broken? then w' == w && s == Error
      else if look.Missing? then w' == w && s == Skipped
      else if cfg.dryRun then s == WouldChange && w' == w.(changed := w.changed + {path})
      else
        var inside := set q | q in w.disk && look.node.Dir? && Under(q, path);
        && w'.files == w.files && w'.archives == w.archives
        && (s == Changed <==> !io.fault.AtEffect? && (inside == {} || recursive))
        && (s != Changed ==> s == Error && w'.changed == w.changed)
        && (s == Changed ==>
              && w'.changed == w.changed + {path}
              && forall q :: At(w'.disk, q) == if q == path || q in inside then None else At(w.disk, q))
  {
    hide Blocked;
    var look := Lstat(w.disk, path);
    if look.Found? {
      var inside := set q | q in w.disk && look.node.Dir? && Under(q, path);
      assert inside != {} <==> look.node.Dir? && HasChildren(w.disk, path) by {
        if look.node.Dir? && HasChildren(w.disk, path) {
          var q :| q in w.disk && Under(q, path);
          assert q in inside;
        }
      }
    }
  }

  lemma ChmodAnswers(env: Env, cfg: Config, w: World, path: Path, mode: string, io: Io)
    ensures var (w', s) := Handle(env, cfg, w, Chmod(path, mode), io);
      var look := Stat(env, w.disk, path);
      if path == "" || ParseUint(mode) == None || io.fault.AtInspect? || !look.Found? then w' == w && s == Error
      else if look.node.mode == ParseUint(mode).value then w' == w && s == Skipped
      else if cfg.dryRun then s == WouldChange && w' == w.(changed := w.changed + {path})
      else if io.fault.AtEffect? then s == Error && w' == w.(disk := w'.disk)
      else
        && s == Changed
        && w' == w.(disk := w.disk[look.at := look.node.(mode := ParseUint(mode).value % 512)],
                    changed := w.changed + {path})
  {
  }

  /** The top decides; with `recursive` everything below a directory gets the owner too. */
  lemma ChownAnswers(env: Env, cfg: Config, w: World, path: Path, owner: string, group: string, recursive: bool, io: Io)
    ensures var (w', s) := Handle(env, cfg, w, Chown(path, owner, group, recursive), io);
      var look := Lstat(w.disk, path);
      if path == "" || Nobody(env, owner, group) || io.fault.AtInspect? || !look.Found? then w' == w && s == Error
      else if Belongs(env, look.node, owner, group) then w' == w && s == Skipped
      else if cfg.dryRun then s == WouldChange && w' == w.(changed := w.changed + {path})
      else if io.fault.AtEffect? then s == Error && w' == w.(disk := w'.disk)
      else
        && s == Changed && w' == w.(disk := w'.disk, changed := w.changed + {path})
        && w'.disk.Keys == w.disk.Keys
        && forall q :: q in w.disk ==>
             w'.disk[q] ==
               if q == path || (recursive && look.node.Dir? && Under(q, path)) then
                 GivenTo(env, w.disk[q], owner, group)
               else w.disk[q]
  {
  }

  // ---------- commands ----------

  /** The shell is reached exactly when neither predicate forbids it and the run is no dry run; a predicate
      that is reached and cannot be run is an error. */
  lemma CommandAnswers(env: Env, cfg: Config, w: World, run: string, holds: string, unless: string, ignoreErr: bool,
                       io: Io)
    ensures var (w', s) := Handle(env, cfg, w, Command(run, holds, unless, ignoreErr), io);
      var first := holds == "" || io.holds == Some(true);
      var goes := first && (unless == "" || io.unless == Some(false));
      && (s == Skipped <==>
            (holds != "" && io.holds == Some(false)) || (first && unless != "" && io.unless == Some(true)))
      && (s == WouldChange <==> goes && cfg.dryRun)
      && (s == Changed <==> goes && !cfg.dryRun && (!io.fault.AtEffect? || ignoreErr))
      && (s == Error <==>
            || (holds != "" && io.holds == None) || (first && unless != "" && io.unless == None)
            || (goes && !cfg.dryRun && io.fault.AtEffect? && !ignoreErr))
      && w' == if goes && !cfg.dryRun then w.(disk := io.residue) else w
  {
  }

  /** And that is when it runs, in a deploy whose gate is open. */
  lemma RanMeans(cfg: Config, w: World, t: Task, io: Io)
    ensures Ran(cfg, w, t, io) ==
      if t.op.Command? && !cfg.dryRun && (t.whenChanged == [] || exists p :: p in t.whenChanged && p in w.changed)
         && (t.op.holds == "" || io.holds == Some(true)) && (t.op.unless == "" || io.unless == Some(false)) then
        [(t.op.run, io.fault.NoFault?)]
      else []
  {
  }

  // ---------- the gate ----------

  /** `when_changed` closes the gate of any task but the five that compare for themselves when none of the watched
      paths has been marked, and one marked path is enough to open it. */
  lemma GateAnswers(env: Env, cfg: Config, w: World, t: Task, io: Io)
    ensures var (w', e) := Execute(env, cfg, w, t, io);
      var (w1, s) := Handle(env, cfg, w, t.op, io);
      var compares := t.op.Copy? || t.op.Mkdir? || t.op.Symlink? || t.op.Remove?;
      && e.id == TaskId(t.id) && e.history == []
      && if !compares && t.whenChanged != [] && (forall p :: p in t.whenChanged ==> p !in w.changed) then
           w' == w && e.status == Skipped && e.path == ""
         else
           && w' == w1 && e.status == s
           && e.path == match t.op
              case Copy(dst, _, _, _) => dst
              case Symlink(src, dst, _) => if src == "" then "" else dst
              case Command(_, _, _, _) => ""
              case Unknown => ""
              case _ => t.op.path
  {
    hide Handle;
  }

  /** The paths of the events that report a change or, in a dry run, one to come. */
  function Reported(tasks: seq<Task>, es: seq<Event>): set<Path>
    requires |es| == |tasks|
  {
    set j | 0 <= j < |tasks| && !tasks[j].op.Command? && (es[j].status == Changed || es[j].status == WouldChange) ::
      es[j].path
  }

  lemma MarkIsReport(env: Env, cfg: Config, w: World, t: Task, io: Io)
    ensures var (w', e) := Execute(env, cfg, w, t, io);
      w'.changed == w.changed +
        if !t.op.Command? && (e.status == Changed || e.status == WouldChange) then {e.path} else {}
  {
    hide Judge, Effect, Archives, Predicates, GateOpen;
  }

  lemma ReportedCons(tasks: seq<Task>, e: Event, es: seq<Event>)
    requires |tasks| == |es| + 1
    ensures Reported(tasks, [e] + es) == Reported(tasks[1..], es) +
      if !tasks[0].op.Command? && (e.status == Changed || e.status == WouldChange) then {e.path} else {}
  {
    var all, ts := [e] + es, tasks[1..];
    forall j | 0 <= j < |es| ensures all[j + 1] == es[j] && tasks[j + 1] == ts[j] {}
    assert forall j :: 0 < j < |tasks| ==> all[j] == es[j - 1] && tasks[j] == ts[j - 1];
  }

  lemma {:induction false} MarksAreReports(env: Env, cfg: Config, w: World, tasks: seq<Task>, ios: seq<Io>)
    requires |ios| == |tasks|
    ensures var (w', es) := RunTasks(env, cfg, w, tasks, ios); w'.changed == w.changed + Reported(tasks, es)
    decreases |tasks|
  {
    hide Execute;
    if tasks != [] {
      var (w1, e) := Execute(env, cfg, w, tasks[0], ios[0]);
      MarkIsReport(env, cfg, w, tasks[0], ios[0]);
      MarksAreReports(env, cfg, w1, tasks[1..], ios[1..]);
      ReportedCons(tasks, e, RunTasks(env, cfg, w1, tasks[1..], ios[1..]).1);
    }
  }

  /** Over a whole deploy: a watching task is passed over exactly when no task before it, commands aside, reported a
      change of a path it watches; otherwise its handler decides. */
  lemma WatchersRunOnReports(env: Env, cfg: Config, w: World, tasks: seq<Task>, ios: seq<Io>, i: nat)
    requires |ios| == |tasks| && i < |tasks|
    requires tasks[i].op.Command? || tasks[i].op.Chmod? || tasks[i].op.Chown?
    requires tasks[i].whenChanged != []
    ensures var es := Deploy(env, cfg, w, tasks, ios).1;
      var before := Deploy(env, cfg, w, tasks[..i], ios[..i]).0;
      var after := Deploy(env, cfg, w, tasks[..i + 1], ios[..i + 1]).0;
      if forall j | 0 <= j < i && (es[j].status == Changed || es[j].status == WouldChange) ::
           tasks[j].op.Command? || es[j].path !in tasks[i].whenChanged then
        es[i].status == Skipped && after == before
      else
        (after, es[i].status) == Handle(env, cfg, before, tasks[i].op, ios[i])
  {
    hide Execute, Handle, RunTasks;
    var w0 := w.(changed := {});
    var es := RunTasks(env, cfg, w0, tasks, ios).1;
    var (before, front) := RunTasks(env, cfg, w0, tasks[..i], ios[..i]);
    RunTasksPrefix(env, cfg, w0, tasks, ios, i);
    RunTasksPrefix(env, cfg, w0, tasks, ios, i + 1);
    assert tasks[..i + 1] == tasks[..i] + [tasks[i]] && ios[..i + 1] == ios[..i] + [ios[i]];
    RunTasksSnoc(env, cfg, w0, tasks[..i], ios[..i], tasks[i], ios[i]);
    assert es[i] == es[..i + 1][i] && forall j :: 0 <= j < i ==> es[j] == front[j];
    MarksAreReports(env, cfg, w0, tasks[..i], ios[..i]);
    GateAnswers(env, cfg, before, tasks[i], ios[i]);
    assert before.changed == Reported(tasks[..i], front);
  }

  // ---------- rollback ----------

  /** One file is put back from its k-th version, or nothing but its temporary sibling is touched; the versions
      rolled over are gone, and their archives as far as the host allows. */
  lemma RollbackAnswers(env: Env, w: World, p: Path, k: nat, io: Io)
    requires p in w.files && k >= 1
    ensures var (w', s) := RollbackOne(env, w, p, k, io);
      var h, tmp, d := w.files[p].history, p + ".rollback.tmp", w.disk;
      if |h| < k || (h[k - 1].mode != "" && ParseUint(h[k - 1].mode) == None) || h[k - 1].archive !in w.archives
         || io.fault.AtInspect? then
        w' == w && s == Error
      else
        && (s == Changed <==>
              && !io.fault.AtEffect? && (forall a :: a != "" && Under(p, a) ==> a in d && d[a].Dir?)
              && (tmp in d ==> d[tmp].File?) && (p in d ==> !d[p].Dir?))
        && (s != Changed ==> s == Error && w' == w.(disk := w'.disk))
        && (s == Changed ==>
              && w'.changed == w.changed
              && w'.files == w.files[p := FileRec(h[k - 1].sha, h[k - 1].mode, h[k..])]
              && p in w'.disk && w'.disk[p].File? && w'.disk[p].body == w.archives[h[k - 1].archive]
              && w'.disk[p].mode == (if h[k - 1].mode == "" then 0x1A4 else ParseUint(h[k - 1].mode).value) % 512
              && tmp !in w'.disk && (forall q :: q != p && q != tmp ==> At(w'.disk, q) == At(d, q))
              && w'.archives.Keys == w.archives.Keys - ((set i | 0 <= i < k :: h[i].archive) - io.sticky)
              && forall n :: n in w'.archives ==> w'.archives[n] == w.archives[n])
  {
    hide ParseUint, Under;
    var h := w.files[p].history;
    if k <= |h| {
      var gone := set i | 0 <= i < k :: h[i].archive;
      assert gone == Names(h[..k]) by {
        forall i | 0 <= i < k ensures h[i].archive in Names(h[..k]) { assert h[..k][i] == h[i]; }
        forall i | 0 <= i < |h[..k]| ensures h[..k][i].archive in gone { assert h[..k][i] == h[i]; }
      }
      assert forall a :: a in Ancestors(p) <==> a != "" && Under(p, a);
    }
  }
}
