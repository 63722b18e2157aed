/** Whole plans: a second run changes nothing, a preview foretells the run, status agrees with both. */
module Plans {
  import opened Options
  import opened Octal
  import opened ByteStrings
  import opened Disks
  import opened Tasks
  import opened Rollbacks
  import opened Histories

  // ---------- what a task leaves behind ----------

  /** The condition a task establishes on the disk. */
  predicate Done(env: Env, d: Disk, op: Op)
    requires WellFormed(env, op)
  {
    !Blocked(d, PathOf(op)) &&
    match op
    case Copy(dst, _, _, mode) =>
      dst in d && d[dst].File? && env.sha(d[dst].body) == Want(env, op)
        && d[dst].mode == ModeOr(mode, DEFAULT_FILE_MODE).value % 512
    case Mkdir(p, mode, owner, group) =>
      p in d && d[p].Dir? && (mode != "" ==> d[p].mode == ParseUint(mode).value % 512)
      && OwnerFits(d[p], Ownership(env, owner, group).value)
    case Symlink(src, dst, _) => dst in d && d[dst].Link? && d[dst].target == src
    case Remove(p, _) => p !in d
    case Chmod(p, mode) => p in d && !d[p].Link? && d[p].mode == ParseUint(mode).value % 512
    case Chown(p, owner, group, _) => p in d && OwnerFits(d[p], Ownership(env, owner, group).value)
    case Command(_, _, _, _) => true
  }

  /** The task's mode, if it sets one, is made of permission bits only. */
  predicate PermMode(op: Op) {
    match op
    case Copy(_, _, _, mode) => ModeOr(mode, DEFAULT_FILE_MODE).Some? ==> ModeOr(mode, DEFAULT_FILE_MODE).value < 512
    case Mkdir(_, mode, _, _) => ParseUint(mode).Some? ==> ParseUint(mode).value < 512
    case Chmod(_, mode) => ParseUint(mode).Some? ==> ParseUint(mode).value < 512
    case _ => true
  }

  /** The path is not an alias: handlers that follow links find no link there. */
  predicate NoAlias(d: Disk, op: Op) {
    (op.Copy? || op.Mkdir? || op.Chmod?) && PathOf(op) in d ==> !d[PathOf(op)].Link?
  }

  lemma CleanIsDone(env: Env, d: Disk, op: Op)
    requires NoAlias(d, op) && Judge(env, d, op).Clean?
    ensures WellFormed(env, op) && Done(env, d, op) && PermMode(op)
  {
  }

  /** Once a task's condition holds, the task is skipped exactly when its mode is permission bits. */
  lemma DoneIsClean(env: Env, d: Disk, op: Op)
    requires NoAlias(d, op) && WellFormed(env, op) && Done(env, d, op) && !op.Command?
    ensures Judge(env, d, op).Clean? <==> PermMode(op)
  {
  }

  /** Directories above the path stay, or appear; nothing above it turns into a file. */
  lemma EffectAbove(env: Env, d: Disk, op: Op, a: Path)
    requires Judge(env, d, op).Dirty? && Effect(env, d, op).Some?
    requires a in Ancestors(PathOf(op)) && a in Effect(env, d, op).value
    ensures Effect(env, d, op).value[a].File? ==> a in d && d[a].File?
  {
    var p := PathOf(op);
    assert a != p && !Under(a, p);
    if op.Copy? { assert a != op.dst + DEPLOY_TMP; }
  }

  lemma EffectDone(env: Env, d: Disk, op: Op)
    requires NoAlias(d, op) && Judge(env, d, op).Dirty? && Effect(env, d, op).Some? && !op.Command?
    ensures Done(env, Effect(env, d, op).value, op) && NoAlias(Effect(env, d, op).value, op)
  {
    var d' := Effect(env, d, op).value;
    forall a | a in Ancestors(PathOf(op)) && a in d' ensures !d'[a].File? {
      EffectAbove(env, d, op, a);
    }
  }

  // ---------- which tasks can get in each other's way ----------

  predicate MakesParents(op: Op) { op.Copy? || op.Mkdir? || op.Symlink? }

  predicate JudgesOwner(op: Op) {
    op.Chown? || (op.Mkdir? && (op.owner != "" || op.group != ""))
  }

  predicate JudgesMode(op: Op) {
    op.Chmod? || (op.Mkdir? && op.mode != "")
  }

  /** op may rewrite what lives below its own path in a way op' looks at. */
  predicate TakesTree(op: Op, op': Op) {
    op.Copy? || op.Symlink? || op.Remove? || (op.Chown? && op.recursive && JudgesOwner(op'))
  }

  /** op may change what op' decides. */
  predicate Touches(op: Op, op': Op) {
    !op.Command? && !op'.Command? &&
    var p, p' := PathOf(op), PathOf(op');
    || p == p'
    || (op.Copy? && (p' == op.dst + DEPLOY_TMP || Under(p', op.dst + DEPLOY_TMP)))
    || (MakesParents(op) && Under(p, p'))
    || (Under(p', p) && TakesTree(op, op'))
  }

  predicate Agree(x: string, y: string) { x == "" || y == "" || x == y }

  /** No owner or group that one names differs from the other's. */
  predicate OwnersAgree(op: Op, op': Op) {
    && (op.Mkdir? || op.Chown?) && (op'.Mkdir? || op'.Chown?)
    && Agree(op.owner, op'.owner) && Agree(op.group, op'.group)
  }

  /** The same task again; or op looks after the owner or repeats the mode of what op' put in place; or the two
      manage one directory's existence, mode and owner between them and agree where both say. */
  predicate SharesNode(op: Op, op': Op) {
    PathOf(op) == PathOf(op') &&
    if op == op' || (op.Chown? && (op'.Copy? || op'.Symlink?)) then true
    else if op.Chmod? && op'.Copy? then op.mode == Recorded(op'.mode)
    else
      && (op.Mkdir? || op.Chmod? || op.Chown?) && (op'.Mkdir? || op'.Chmod? || op'.Chown?)
      && (JudgesMode(op) && JudgesMode(op') ==> op.mode == op'.mode)
      && (JudgesOwner(op) && JudgesOwner(op') ==> OwnersAgree(op, op'))
  }

  /** A recursive chown gives what lies below it no owner but the one op' asks for. */
  predicate Reowns(op: Op, op': Op) {
    op.Chown? && op.recursive && Under(PathOf(op'), PathOf(op)) && OwnersAgree(op, op')
  }

  /** op may undo what op' has established: as Touches, but sharing a node, giving the same owner and filling in
      missing parents of an existing path do no harm. */
  predicate Disturbs(op: Op, op': Op) {
    Touches(op, op') && !SharesNode(op, op') && !Reowns(op, op') &&
    (op'.Remove? || PathOf(op) == PathOf(op') || !MakesParents(op) || !Under(PathOf(op), PathOf(op')))
  }

  /** op puts a link where op' would follow it. */
  predicate Aliases(op: Op, op': Op) {
    op.Symlink? && (op'.Copy? || op'.Mkdir? || op'.Chmod?) && PathOf(op) == PathOf(op')
  }

  /** Two disks look the same to a task. */
  predicate SameView(d: Disk, d': Disk, op: Op) {
    && Blocked(d, PathOf(op)) == Blocked(d', PathOf(op))
    && (At(d, PathOf(op)) == At(d', PathOf(op))
        || (!JudgesOwner(op) && PathOf(op) in d && PathOf(op) in d'
            && Owned(d[PathOf(op)], Some(0), Some(0)) == Owned(d'[PathOf(op)], Some(0), Some(0))))
  }

  lemma SameViewJudge(env: Env, d: Disk, d': Disk, op: Op)
    requires SameView(d, d', op) && NoAlias(d, op) && !op.Command?
    ensures NoAlias(d', op) && Judge(env, d, op) == Judge(env, d', op)
    ensures WellFormed(env, op) ==> Done(env, d, op) == Done(env, d', op)
  {
  }

  lemma UnderTransitive(p: Path, q: Path, r: Path)
    requires Under(p, q) && Under(q, r)
    ensures Under(p, r)
  {
    assert p[..|q|][..|r|] == p[..|r|];
  }

  /** The effect of op at a path it does not reach. */
  lemma EffectElsewhere(env: Env, d: Disk, op: Op, q: Path)
    requires Judge(env, d, op).Dirty? && Effect(env, d, op).Some? && NoAlias(d, op) && !op.Command?
    requires q != PathOf(op) && !(op.Copy? && q == op.dst + DEPLOY_TMP) && !(MakesParents(op) && Under(PathOf(op), q))
    requires !(Under(q, PathOf(op)) && (op.Copy? || op.Symlink? || op.Remove?))
    ensures var d' := Effect(env, d, op).value;
      At(d', q) == At(d, q)
      || (op.Chown? && op.recursive && Under(q, op.path) && q in d && q in d'
          && Owned(d[q], Some(0), Some(0)) == Owned(d'[q], Some(0), Some(0)))
  {
    if op.Copy? || op.Mkdir? || op.Chmod? { StatIsLstat(env, d, PathOf(op)); }
  }

  /** Outside what op replaces or removes, no regular file comes or goes. */
  lemma EffectFiles(env: Env, d: Disk, op: Op, a: Path)
    requires Judge(env, d, op).Dirty? && Effect(env, d, op).Some? && NoAlias(d, op) && !op.Command?
    requires !(op.Copy? && a == op.dst + DEPLOY_TMP)
    requires !((a == PathOf(op) || Under(a, PathOf(op))) && (op.Copy? || op.Symlink? || op.Remove?))
    ensures (a in d && d[a].File?) <==> (a in Effect(env, d, op).value && Effect(env, d, op).value[a].File?)
  {
    if op.Copy? || op.Mkdir? || op.Chmod? { StatIsLstat(env, d, PathOf(op)); }
  }

  /** A task that does not touch another does not change what the other sees. */
  lemma {:induction false} EffectView(env: Env, d: Disk, op: Op, op': Op)
    requires Judge(env, d, op).Dirty? && Effect(env, d, op).Some? && NoAlias(d, op) && !op.Command? && !op'.Command?
    requires !Touches(op, op')
    ensures SameView(d, Effect(env, d, op).value, op')
  {
    var p, p' := PathOf(op), PathOf(op');
    EffectElsewhere(env, d, op, p');
    forall a | a in Ancestors(p')
      ensures (a in d && d[a].File?) <==> (a in Effect(env, d, op).value && Effect(env, d, op).value[a].File?)
    {
      if Under(a, p) { UnderTransitive(p', a, p); }
      EffectFiles(env, d, op, a);
    }
  }

  lemma ParentAt(env: Env, d: Disk, op: Op, q: Path)
    requires Judge(env, d, op).Dirty? && Effect(env, d, op).Some? && NoAlias(d, op)
    requires MakesParents(op) && Under(PathOf(op), q)
    ensures var d' := Effect(env, d, op).value;
      At(d', q) == At(d, q) || (q !in d && q in d' && d'[q].Dir?)
  {
    if op.Copy? || op.Mkdir? { StatIsLstat(env, d, PathOf(op)); }
  }

  /** Making the directories above a path neither blocks it nor changes the directory it is to be. */
  lemma ParentKeeps(env: Env, d: Disk, op: Op, op': Op)
    requires Judge(env, d, op).Dirty? && Effect(env, d, op).Some? && NoAlias(d, op) && !op.Command? && !op'.Command?
    requires !op'.Remove? && MakesParents(op) && Under(PathOf(op), PathOf(op')) && NoAlias(d, op')
    ensures NoAlias(Effect(env, d, op).value, op')
    ensures WellFormed(env, op') && Done(env, d, op') ==> Done(env, Effect(env, d, op).value, op')
  {
    hide JudgesOwner, JudgesMode;
    var d' := Effect(env, d, op).value;
    var p, p' := PathOf(op), PathOf(op');
    forall a | a in Ancestors(p') ensures (a in d && d[a].File?) <==> (a in d' && d'[a].File?) {
      UnderTransitive(p, p', a);
      EffectFiles(env, d, op, a);
    }
    ParentAt(env, d, op, p');
  }

  lemma RepeatedMode(op: Op)
    requires op.Copy?
    ensures ParseUint(Recorded(op.mode)) == ModeOr(op.mode, DEFAULT_FILE_MODE)
  {
    ParseOfFmt(DEFAULT_FILE_MODE);
  }

  /** Of two tasks that share a node, neither undoes what the other sets. */
  lemma SharedNodeKeeps(env: Env, d: Disk, op: Op, op': Op)
    requires Judge(env, d, op).Dirty? && Effect(env, d, op).Some? && NoAlias(d, op)
    requires SharesNode(op, op') && op != op' && NoAlias(d, op')
    ensures NoAlias(Effect(env, d, op).value, op')
    ensures WellFormed(env, op') && Done(env, d, op') ==> Done(env, Effect(env, d, op).value, op')
  {
    hide ParseUint, FmtMode;
    var d' := Effect(env, d, op).value;
    forall a | a in Ancestors(PathOf(op')) ensures (a in d && d[a].File?) <==> (a in d' && d'[a].File?) {
      EffectFiles(env, d, op, a);
    }
    hide Ancestors, Under;
    if op.Mkdir? || op.Chmod? { StatIsLstat(env, d, PathOf(op)); }
    if op.Chmod? && op'.Copy? { RepeatedMode(op'); }
  }

  /** Giving what lies below a directory the owner it is to have does no harm. */
  lemma ReownKeeps(env: Env, d: Disk, op: Op, op': Op)
    requires Judge(env, d, op).Dirty? && Effect(env, d, op).Some? && NoAlias(d, op)
    requires Reowns(op, op') && NoAlias(d, op')
    ensures NoAlias(Effect(env, d, op).value, op')
    ensures WellFormed(env, op') && Done(env, d, op') ==> Done(env, Effect(env, d, op).value, op')
  {
    var d' := Effect(env, d, op).value;
    forall a | a in Ancestors(PathOf(op')) ensures (a in d && d[a].File?) <==> (a in d' && d'[a].File?) {
      EffectFiles(env, d, op, a);
    }
  }

  /** What a task established survives every task that does not disturb it. */
  lemma {:induction false} EffectKeeps(env: Env, d: Disk, op: Op, op': Op)
    requires Judge(env, d, op).Dirty? && Effect(env, d, op).Some? && NoAlias(d, op) && !op.Command? && !op'.Command?
    requires !Disturbs(op, op') && NoAlias(d, op')
    ensures NoAlias(Effect(env, d, op).value, op')
    ensures WellFormed(env, op') && Done(env, d, op') ==> Done(env, Effect(env, d, op).value, op')
  {
    var d' := Effect(env, d, op).value;
    if !Touches(op, op') {
      EffectView(env, d, op, op');
      SameViewJudge(env, d, d', op');
    } else if op == op' {
      EffectDone(env, d, op);
    } else if PathOf(op) == PathOf(op') {
      SharedNodeKeeps(env, d, op, op');
    } else if Reowns(op, op') {
      ReownKeeps(env, d, op, op');
    } else {
      ParentKeeps(env, d, op, op');
    }
  }

  /** Only a symlink task makes a link. */
  lemma EffectNoAlias(env: Env, d: Disk, op: Op, op': Op)
    requires Judge(env, d, op).Dirty? && Effect(env, d, op).Some? && !op.Command?
    requires NoAlias(d, op') && !Aliases(op, op')
    ensures NoAlias(Effect(env, d, op).value, op')
  {
    hide Ancestors, Under, ParseUint, Ownership;
  }

  // ---------- runs ----------

  /** What the parser lets through: `when_changed` belongs to commands. */
  predicate Parsed(t: Task) {
    t.op.Command? || t.whenChanged == []
  }

  /** A plan whose every command is gated. */
  predicate Shaped(t: Task) {
    Parsed(t) && (t.op.Command? ==> t.whenChanged != [])
  }

  /** The row state.json holds for a file the task manages. */
  predicate RowSettled(env: Env, files: map<Path, FileRec>, op: Op)
    requires WellFormed(env, op)
  {
    op.Copy? ==> op.dst in files && files[op.dst].sha == Want(env, op) && files[op.dst].mode == Recorded(op.mode)
  }

  predicate Settled(env: Env, w: World, t: Task) {
    t.op.Command? || (WellFormed(env, t.op) && NoAlias(w.disk, t.op) && Done(env, w.disk, t.op)
      && RowSettled(env, w.files, t.op))
  }

  lemma {:induction false} ExecuteSettles(env: Env, cfg: Config, w: World, t: Task, io: Io)
    requires !cfg.dryRun && Shaped(t) && NoAlias(w.disk, t.op)
    requires Execute(env, cfg, w, t, io).1.status != Error
    ensures Settled(env, Execute(env, cfg, w, t, io).0, t)
  {
    if !t.op.Command? {
      match Judge(env, w.disk, t.op)
      case Clean => CleanIsDone(env, w.disk, t.op);
      case Dirty => EffectDone(env, w.disk, t.op);
    }
  }

  /** What the disk and rows look like after a task that did not fail. */
  lemma ExecuteShape(env: Env, cfg: Config, w: World, t: Task, io: Io)
    requires !cfg.dryRun && Parsed(t) && !t.op.Command?
    requires Execute(env, cfg, w, t, io).1.status != Error
    ensures var (w', e) := Execute(env, cfg, w, t, io);
      && Judge(env, w.disk, t.op) != Refused
      && (Judge(env, w.disk, t.op).Clean? ==> w'.disk == w.disk && e.status == Skipped && w'.changed == w.changed)
      && (Judge(env, w.disk, t.op).Dirty? ==>
            Effect(env, w.disk, t.op).Some? && w'.disk == Effect(env, w.disk, t.op).value && e.status == Changed
            && w'.changed == w.changed + {PathOf(t.op)})
      && (forall p :: p in w.files && p != PathOf(t.op) ==> p in w'.files && w'.files[p] == w.files[p])
  {
  }

  lemma {:induction false} ExecuteKeeps(env: Env, cfg: Config, w: World, t: Task, io: Io, t': Task)
    requires !cfg.dryRun && Shaped(t) && !t.op.Command?
    requires NoAlias(w.disk, t.op) && NoAlias(w.disk, t'.op) && !Disturbs(t.op, t'.op)
    requires Execute(env, cfg, w, t, io).1.status != Error
    ensures NoAlias(Execute(env, cfg, w, t, io).0.disk, t'.op)
    ensures Settled(env, w, t') ==> Settled(env, Execute(env, cfg, w, t, io).0, t')
  {
    ExecuteShape(env, cfg, w, t, io);
    if !t'.op.Command? && Judge(env, w.disk, t.op).Dirty? {
      EffectKeeps(env, w.disk, t.op, t'.op);
    }
  }

  /** Commands that run leave what the plan's other tasks see alone. */
  predicate Harmless(env: Env, cfg: Config, w: World, tasks: seq<Task>, ios: seq<Io>, all: seq<Task>)
    requires |ios| == |tasks|
    decreases |tasks|
  {
    tasks == [] ||
    var w' := Execute(env, cfg, w, tasks[0], ios[0]).0;
    && (tasks[0].op.Command? ==> forall t | t in all :: SameView(w.disk, w'.disk, t.op))
    && Harmless(env, cfg, w', tasks[1..], ios[1..], all)
  }

  /** No task disturbs an earlier one, or turns a later one's path into a link. */
  predicate Unrelated(tasks: seq<Task>) {
    forall i, j | 0 <= i < j < |tasks| :: !Disturbs(tasks[j].op, tasks[i].op) && !Aliases(tasks[i].op, tasks[j].op)
  }

  predicate ErrorFree(es: seq<Event>) {
    forall i | 0 <= i < |es| :: es[i].status != Error
  }

  predicate AllSkipped(es: seq<Event>) {
    forall i | 0 <= i < |es| :: es[i].status == Skipped
  }

  predicate AllNoAlias(d: Disk, tasks: seq<Task>) {
    forall t | t in tasks :: NoAlias(d, t.op)
  }

  lemma RunStepSettles(env: Env, cfg: Config, w: World, all: seq<Task>, n: nat, io: Io)
    requires n < |all|
    requires !cfg.dryRun && Unrelated(all) && forall t :: t in all ==> Shaped(t)
    requires AllNoAlias(w.disk, all)
    requires all[n].op.Command? ==>
      forall t | t in all :: SameView(w.disk, Execute(env, cfg, w, all[n], io).0.disk, t.op)
    requires Execute(env, cfg, w, all[n], io).1.status != Error
    requires forall i :: 0 <= i < n ==> Settled(env, w, all[i])
    ensures AllNoAlias(Execute(env, cfg, w, all[n], io).0.disk, all)
    ensures forall i :: 0 <= i <= n ==> Settled(env, Execute(env, cfg, w, all[n], io).0, all[i])
  {
    var w' := Execute(env, cfg, w, all[n], io).0;
    ExecuteSettles(env, cfg, w, all[n], io);
    forall i | 0 <= i < |all| ensures NoAlias(w'.disk, all[i].op) && (i < n ==> Settled(env, w', all[i])) {
      var t' := all[i];
      assert t' in all;
      if t'.op.Command? {
      } else if all[n].op.Command? {
        assert SameView(w.disk, w'.disk, t'.op);
        SameViewJudge(env, w.disk, w'.disk, t'.op);
      } else if i < n {
        ExecuteKeeps(env, cfg, w, all[n], io, t');
      } else if i > n {
        ExecuteShape(env, cfg, w, all[n], io);
        if Judge(env, w.disk, all[n].op).Dirty? { EffectNoAlias(env, w.disk, all[n].op, t'.op); }
      }
    }
  }

  /** An error-free run settles every task, and keeps settled the n tasks before it. */
  lemma {:induction false} RunSettles(env: Env, cfg: Config, w: World, all: seq<Task>, n: nat, ios: seq<Io>)
    requires n <= |all| && |ios| == |all| - n
    requires !cfg.dryRun && Unrelated(all) && forall t :: t in all ==> Shaped(t)
    requires AllNoAlias(w.disk, all) && Harmless(env, cfg, w, all[n..], ios, all)
    requires ErrorFree(RunTasks(env, cfg, w, all[n..], ios).1)
    requires forall i :: 0 <= i < n ==> Settled(env, w, all[i])
    ensures forall t :: t in all ==> Settled(env, RunTasks(env, cfg, w, all[n..], ios).0, t)
    decreases |all| - n
  {
    if n < |all| {
      var t, io := all[n], ios[0];
      var (w1, e) := Execute(env, cfg, w, t, io);
      var (w2, es) := RunTasks(env, cfg, w1, all[n + 1..], ios[1..]);
      assert all[n..][1..] == all[n + 1..] && all[n..][0] == t;
      var run := RunTasks(env, cfg, w, all[n..], ios);
      assert run == (w2, [e] + es);
      assert run.1[0] == e && forall i :: 0 <= i < |es| ==> es[i] == run.1[i + 1];
      RunStepSettles(env, cfg, w, all, n, io);
      RunSettles(env, cfg, w1, all, n + 1, ios[1..]);
    }
  }

  // ---------- convergence ----------

  predicate NoInspectFault(ios: seq<Io>) {
    forall i | 0 <= i < |ios| :: !ios[i].fault.AtInspect?
  }

  lemma SettledSkips(env: Env, cfg: Config, w: World, t: Task, io: Io)
    requires Settled(env, w, t) && Shaped(t) && PermMode(t.op) && !io.fault.AtInspect? && w.changed == {}
    ensures var (w', e) := Execute(env, cfg, w, t, io);
      w' == w && e.status == Skipped
  {
    if !t.op.Command? {
      DoneIsClean(env, w.disk, t.op);
    }
  }

  lemma {:induction false} SettledRunSkips(env: Env, cfg: Config, w: World, tasks: seq<Task>, ios: seq<Io>)
    requires |ios| == |tasks| && NoInspectFault(ios) && w.changed == {}
    requires forall t :: t in tasks ==> Settled(env, w, t) && Shaped(t) && PermMode(t.op)
    ensures RunTasks(env, cfg, w, tasks, ios).0 == w && AllSkipped(RunTasks(env, cfg, w, tasks, ios).1)
    decreases |tasks|
  {
    if tasks != [] {
      SettledSkips(env, cfg, w, tasks[0], ios[0]);
      SettledRunSkips(env, cfg, w, tasks[1..], ios[1..]);
    }
  }

  /** A task whose mode holds more than permission bits is never found in place. */
  lemma {:induction false} WideModeNeverSkips(env: Env, cfg: Config, w: World, tasks: seq<Task>, ios: seq<Io>, i: nat)
    requires |ios| == |tasks| && i < |tasks| && Shaped(tasks[i]) && !PermMode(tasks[i].op)
    ensures RunTasks(env, cfg, w, tasks, ios).1[i].status != Skipped
    decreases |tasks|
  {
    if i > 0 {
      WideModeNeverSkips(env, cfg, Execute(env, cfg, w, tasks[0], ios[0]).0, tasks[1..], ios[1..], i - 1);
    }
  }

  /** After an error-free run of unrelated tasks, a second run skips every task exactly when every mode
      is permission bits only; then nothing is marked changed and disk, archives and rows stay as they were. */
  lemma PlanConverges(env: Env, cfg: Config, w: World, tasks: seq<Task>, ios: seq<Io>, ios2: seq<Io>)
    requires |ios| == |tasks| == |ios2| && !cfg.dryRun
    requires Unrelated(tasks) && forall t :: t in tasks ==> Shaped(t)
    requires AllNoAlias(w.disk, tasks) && Harmless(env, cfg, w.(changed := {}), tasks, ios, tasks)
    requires ErrorFree(Deploy(env, cfg, w, tasks, ios).1) && NoInspectFault(ios2)
    ensures var w1 := Deploy(env, cfg, w, tasks, ios).0;
      var (w2, es2) := Deploy(env, cfg, w1, tasks, ios2);
      && (AllSkipped(es2) <==> forall t :: t in tasks ==> PermMode(t.op))
      && (AllSkipped(es2) ==> w2 == w1.(changed := {}))
  {
    assert tasks[0..] == tasks;
    RunSettles(env, cfg, w.(changed := {}), tasks, 0, ios);
    var w1 := Deploy(env, cfg, w, tasks, ios).0;
    var w0 := w1.(changed := {});
    if forall t :: t in tasks ==> PermMode(t.op) {
      assert forall t :: t in tasks ==> Settled(env, w0, t) by {
        forall t | t in tasks ensures Settled(env, w0, t) { assert Settled(env, w1, t); }
      }
      SettledRunSkips(env, cfg, w0, tasks, ios2);
    } else {
      var t :| t in tasks && !PermMode(t.op);
      var i :| 0 <= i < |tasks| && tasks[i] == t;
      WideModeNeverSkips(env, cfg, w0, tasks, ios2, i);
    }
  }

  // ---------- status ----------

  /** One row of `axup status`. */
  function StatusOf(env: Env, w: World, p: Path): Status
    requires p in w.files
  {
    match Stat(env, w.disk, p)
    case Broken => Error
    case Missing => MissingFile
    case Found(_, n) =>
      if !n.File? then Error
      else if env.sha(n.body) == w.files[p].sha
        && (w.files[p].mode == "" || FmtMode(n.mode) == w.files[p].mode) then InSync
      else Drift
  }

  lemma SettledInSync(env: Env, w: World, t: Task)
    requires t.op.Copy? && Settled(env, w, t)
    ensures t.op.dst in w.files && (StatusOf(env, w, t.op.dst) == InSync <==> t.op.mode == "" || FourDigit(t.op.mode))
  {
    StatIsLstat(env, w.disk, t.op.dst);
    if t.op.mode != "" { FmtOfParse(t.op.mode); }
  }

  /** After an error-free run, status reports a managed file in sync exactly when the plan leaves its
      mode out or spells it in the four digits status prints. */
  lemma DeployInSync(env: Env, cfg: Config, w: World, tasks: seq<Task>, ios: seq<Io>, i: nat)
    requires |ios| == |tasks| && !cfg.dryRun && i < |tasks| && tasks[i].op.Copy?
    requires Unrelated(tasks) && forall t :: t in tasks ==> Shaped(t)
    requires AllNoAlias(w.disk, tasks) && Harmless(env, cfg, w.(changed := {}), tasks, ios, tasks)
    requires ErrorFree(Deploy(env, cfg, w, tasks, ios).1)
    ensures var w1 := Deploy(env, cfg, w, tasks, ios).0;
      var op := tasks[i].op;
      op.dst in w1.files && (StatusOf(env, w1, op.dst) == InSync <==> op.mode == "" || FourDigit(op.mode))
  {
    assert tasks[0..] == tasks && tasks[i] in tasks;
    RunSettles(env, cfg, w.(changed := {}), tasks, 0, ios);
    SettledInSync(env, Deploy(env, cfg, w, tasks, ios).0, tasks[i]);
  }

  /** Where the row records what a file task would write, in the digits status prints, status says what the task
      would do. */
  lemma StatusIsVerdict(env: Env, w: World, op: Op)
    requires op.Copy? && WellFormed(env, op) && RowSettled(env, w.files, op)
    requires op.mode == "" || FourDigit(op.mode)
    ensures var st, look, v := StatusOf(env, w, op.dst), Stat(env, w.disk, op.dst), Judge(env, w.disk, op);
      && (st == InSync <==> v.Clean?) && (st == MissingFile <==> v.Dirty? && look.Missing?)
      && (st == Drift <==> v.Dirty? && look.Found?) && (st == Error <==> v.Refused?)
  {
    hide ParseUint, FmtMode, Stat;
    var bits := ModeOr(op.mode, DEFAULT_FILE_MODE).value;
    if op.mode != "" { FmtOfFourDigit(op.mode); }
    assert FmtMode(bits) == Recorded(op.mode);
    ParseOfFmt(bits);
    forall m: Perm ensures FmtMode(m) == FmtMode(bits) <==> m == bits { ParseOfFmt(m); }
  }

  /** What status says of a file is what writing it again would do. */
  ghost predicate Foretells(env: Env, w: World, op: Op, io: Io)
    requires op.Copy? && op.dst in w.files
  {
    var st, look := StatusOf(env, w, op.dst), Stat(env, w.disk, op.dst);
    forall cfg: Config ::
      var s := Handle(env, cfg, w, op, io).1;
      && (st == InSync <==> s == Skipped)
      && (cfg.dryRun ==>
            && (st == MissingFile <==> s == WouldChange && look.Missing?)
            && (st == Drift <==> s == WouldChange && look.Found?)
            && (st == Error <==> s == Error))
  }

  lemma StatusForetells(env: Env, w: World, op: Op, io: Io)
    requires op.Copy? && WellFormed(env, op) && RowSettled(env, w.files, op)
    requires (op.mode == "" || FourDigit(op.mode)) && !io.fault.AtInspect?
    ensures Foretells(env, w, op, io)
  {
    hide Judge, Stat, StatusOf, Effect, Archived, NextHistory;
    StatusIsVerdict(env, w, op);
  }

  /** After an error-free deploy, and whatever has become of the disk since: a managed file is in sync exactly when
      its task would skip it, missing exactly when the task would create it, and has drifted exactly when the
      task would overwrite it. */
  lemma StatusForetellsRedeploy(env: Env, cfg: Config, w: World, tasks: seq<Task>, ios: seq<Io>, i: nat, d: Disk,
                                io: Io)
    requires |ios| == |tasks| && !cfg.dryRun && i < |tasks| && tasks[i].op.Copy?
    requires Unrelated(tasks) && forall t :: t in tasks ==> Shaped(t)
    requires AllNoAlias(w.disk, tasks) && Harmless(env, cfg, w.(changed := {}), tasks, ios, tasks)
    requires ErrorFree(Deploy(env, cfg, w, tasks, ios).1)
    requires (tasks[i].op.mode == "" || FourDigit(tasks[i].op.mode)) && !io.fault.AtInspect?
    ensures var w1 := Deploy(env, cfg, w, tasks, ios).0;
      tasks[i].op.dst in w1.files && Foretells(env, w1.(disk := d), tasks[i].op, io)
  {
    hide RunTasks, Foretells, Done;
    assert tasks[0..] == tasks && tasks[i] in tasks;
    RunSettles(env, cfg, w.(changed := {}), tasks, 0, ios);
    var w1 := Deploy(env, cfg, w, tasks, ios).0;
    assert Settled(env, w1, tasks[i]);
    StatusForetells(env, w1.(disk := d), tasks[i].op, io);
  }

  /** A file put back as its outcome says is in sync. */
  lemma OutcomeInSync(env: Env, g: Trail, w': World, p: Path, k: nat)
    requires Refines(env, g.w, g.ideal) && p in g.w.files && k >= 1 && Outcome(env, g.w, w', p, k, Changed)
    ensures p in w'.files && StatusOf(env, w', p) == InSync
  {
    hide FmtMode, ParseUint;
    assert HasEntry(g.w.files, p, k - 1);
    ParseOfFmt(Stack(g.ideal, p)[k - 1].mode);
    assert !Blocked(w'.disk, p) by {
      forall a | a in Ancestors(p) ensures !(a in w'.disk && w'.disk[a].File?) { assert IsDir(w'.disk, a); }
    }
    StatIsLstat(env, w'.disk, p);
  }

  /** After any run, whatever failed in it, and whatever fails in the rollback of the rulebook: every file
      the rollback reports Changed is in sync when it is done. */
  lemma RollbackInSync(env: Env, disk: Disk, acts: seq<Action>, order: seq<Path>, k: nat, filter: Path, ios: seq<Io>)
    requires PossibleRun(env, Untouched(disk), acts) && |order| == |ios| && k >= 1
    requires var w := Run(env, Untouched(disk), acts).w;
      Lists(order, w.files) && NoTmpClash(w.files) && Tidy(env, w, order, 0, k, filter, ios)
    ensures var (w', es) := RollbackFrom(env, Run(env, Untouched(disk), acts).w, order, 0, k, filter, ios);
      forall e | e in es && e.status == Changed :: e.path in w'.files && StatusOf(env, w', e.path) == InSync
  {
    hide Run, PossibleRun, Distinct, Exact, Bounded, RollbackFrom;
    hide NoTmpClash, Tidy, Refines, PerFile, StatusOf, Outcome;
    EveryRun(env, disk, acts);
    var g := Run(env, Untouched(disk), acts);
    RollbackIsPerFile(env, g.w, order, 0, k, filter, ios);
    var (w', es) := RollbackFrom(env, g.w, order, 0, k, filter, ios);
    forall e | e in es && e.status == Changed ensures e.path in w'.files && StatusOf(env, w', e.path) == InSync {
      EventTrue(env, g.w, order, k, filter, ios, e);
      OutcomeInSync(env, g, w', e.path, k);
    }
  }

  lemma OutcomeRecords(env: Env, g: Trail, w': World, p: Path, k: nat)
    requires Refines(env, g.w, g.ideal) && p in g.w.files && k >= 1 && Outcome(env, g.w, w', p, k, Changed)
    ensures k <= |Stack(g.ideal, p)| && p in w'.files
    ensures var v := Stack(g.ideal, p)[k - 1];
      w'.files[p].sha == env.sha(v.body) && w'.files[p].mode == FmtMode(v.mode)
  {
    hide FmtMode, ParseUint;
    assert HasEntry(g.w.files, p, k - 1);
  }

  /** And after a rollback, of the version put back. */
  lemma StatusForetellsRestore(env: Env, disk: Disk, acts: seq<Action>, order: seq<Path>, k: nat, filter: Path,
                               ios: seq<Io>, e: Event, d: Disk, io: Io)
    requires PossibleRun(env, Untouched(disk), acts) && |order| == |ios| && k >= 1
    requires var w := Run(env, Untouched(disk), acts).w;
      && Lists(order, w.files) && NoTmpClash(w.files) && Tidy(env, w, order, 0, k, filter, ios)
      && e in RollbackFrom(env, w, order, 0, k, filter, ios).1 && e.status == Changed
    requires !io.fault.AtInspect?
    ensures var g := Run(env, Untouched(disk), acts);
      var w' := RollbackFrom(env, g.w, order, 0, k, filter, ios).0;
      && e.path in w'.files && k <= |Stack(g.ideal, e.path)|
      && var v := Stack(g.ideal, e.path)[k - 1];
      Foretells(env, w'.(disk := d), Copy(e.path, Some(v.body), "", FmtMode(v.mode)), io)
  {
    hide Run, PossibleRun, Distinct, Exact, Bounded, RollbackFrom, FmtMode;
    hide NoTmpClash, Tidy, Refines, PerFile, StatusOf, Outcome, Foretells, ParseUint;
    EveryRun(env, disk, acts);
    NoEmptyPath(env, Untouched(disk), acts);
    var g := Run(env, Untouched(disk), acts);
    RollbackIsPerFile(env, g.w, order, 0, k, filter, ios);
    var w' := RollbackFrom(env, g.w, order, 0, k, filter, ios).0;
    EventTrue(env, g.w, order, k, filter, ios, e);
    OutcomeRecords(env, g, w', e.path, k);
    var v := Stack(g.ideal, e.path)[k - 1];
    ParseOfFmt(v.mode);
    StatusForetells(env, w'.(disk := d), Copy(e.path, Some(v.body), "", FmtMode(v.mode)), io);
  }

  // ---------- preview ----------

  /** No earlier task touches what a later one looks at. */
  predicate Independent(tasks: seq<Task>) {
    forall i, j | 0 <= i < j < |tasks| :: !Touches(tasks[i].op, tasks[j].op)
  }

  /** Every command's predicates, where it has any, decide alike in both runs. */
  predicate SameAnswers(tasks: seq<Task>, ios: seq<Io>, iosDry: seq<Io>)
    requires |ios| == |tasks| == |iosDry|
  {
    forall i | 0 <= i < |tasks| && tasks[i].op.Command? ::
      Predicates(tasks[i].op, iosDry[i]) == Predicates(tasks[i].op, ios[i])
  }

  function Dry(cfg: Config): Config { cfg.(dryRun := true) }

  /** Two disks look the same to every task from the n-th on. */
  predicate SameViews(d: Disk, d': Disk, tasks: seq<Task>) {
    forall t | t in tasks :: t.op.Command? || (SameView(d, d', t.op) && NoAlias(d, t.op))
  }

  lemma SameViewTransitive(d1: Disk, d2: Disk, d3: Disk, op: Op)
    requires SameView(d1, d2, op) && SameView(d2, d3, op)
    ensures SameView(d1, d3, op)
  {
  }

  lemma {:induction false} PreviewStep(env: Env, cfg: Config, dry: World, w: World, t: Task, io: Io, ioDry: Io)
    requires !cfg.dryRun && Parsed(t) && !ioDry.fault.AtInspect?
    requires t.op.Command? ==> Predicates(t.op, ioDry) == Predicates(t.op, io)
    requires dry.changed == w.changed
    requires t.op.Command? || (SameView(dry.disk, w.disk, t.op) && NoAlias(dry.disk, t.op))
    requires Execute(env, cfg, w, t, io).1.status != Error
    ensures var (dry', f) := Execute(env, Dry(cfg), dry, t, ioDry);
      var (w', e) := Execute(env, cfg, w, t, io);
      dry' == dry.(changed := dry'.changed) && dry'.changed == w'.changed && e == f.(status := ApplyStatus(f.status))
  {
    if !t.op.Command? {
      SameViewJudge(env, dry.disk, w.disk, t.op);
      ExecuteShape(env, cfg, w, t, io);
    }
  }

  /** What the rest of the plan sees is not changed by the n-th task. */
  lemma {:induction false} PreviewFrame(env: Env, cfg: Config, d: Disk, w: World, tasks: seq<Task>, ios: seq<Io>,
                                        all: seq<Task>)
    requires (forall t :: t in tasks ==> t in all) && tasks != [] && |ios| == |tasks| && !cfg.dryRun && Parsed(tasks[0])
    requires Independent(tasks) && SameViews(d, w.disk, tasks) && Harmless(env, cfg, w, tasks, ios, all)
    requires Execute(env, cfg, w, tasks[0], ios[0]).1.status != Error
    ensures SameViews(d, Execute(env, cfg, w, tasks[0], ios[0]).0.disk, tasks[1..])
  {
    var w' := Execute(env, cfg, w, tasks[0], ios[0]).0;
    var op := tasks[0].op;
    forall t | t in tasks[1..] ensures t.op.Command? || (SameView(d, w'.disk, t.op) && NoAlias(d, t.op)) {
      assert t in tasks;
      if !t.op.Command? {
        if op.Command? {
          assert SameView(w.disk, w'.disk, t.op);
        } else {
          assert tasks[0] in tasks;
          ExecuteShape(env, cfg, w, tasks[0], ios[0]);
          SameViewJudge(env, d, w.disk, op);
          if Judge(env, w.disk, op).Dirty? { EffectView(env, w.disk, op, t.op); }
        }
        SameViewTransitive(d, w.disk, w'.disk, t.op);
      }
    }
  }

  lemma {:induction false} PreviewRun(env: Env, cfg: Config, dry: World, w: World, tasks: seq<Task>, ios: seq<Io>,
                                      iosDry: seq<Io>, all: seq<Task>)
    requires |ios| == |tasks| == |iosDry| && !cfg.dryRun && NoInspectFault(iosDry) && SameAnswers(tasks, ios, iosDry)
    requires forall t :: t in tasks ==> t in all && Parsed(t)
    requires Independent(tasks) && SameViews(dry.disk, w.disk, tasks) && Harmless(env, cfg, w, tasks, ios, all)
    requires dry.changed == w.changed && ErrorFree(RunTasks(env, cfg, w, tasks, ios).1)
    ensures var (dry', fs) := RunTasks(env, Dry(cfg), dry, tasks, iosDry);
      var (w', es) := RunTasks(env, cfg, w, tasks, ios);
      dry' == dry.(changed := w'.changed) && es == Applied(fs)
    decreases |tasks|
  {
    if tasks != [] {
      var (w1, e) := Execute(env, cfg, w, tasks[0], ios[0]);
      var (dry1, f) := Execute(env, Dry(cfg), dry, tasks[0], iosDry[0]);
      var (w2, es) := RunTasks(env, cfg, w1, tasks[1..], ios[1..]);
      var (dry2, fs) := RunTasks(env, Dry(cfg), dry1, tasks[1..], iosDry[1..]);
      var run := RunTasks(env, cfg, w, tasks, ios);
      assert run == (w2, [e] + es) && RunTasks(env, Dry(cfg), dry, tasks, iosDry) == (dry2, [f] + fs);
      assert run.1[0] == e && forall i :: 0 <= i < |es| ==> es[i] == run.1[i + 1];
      assert tasks[0] in tasks;
      PreviewStep(env, cfg, dry, w, tasks[0], ios[0], iosDry[0]);
      PreviewFrame(env, cfg, dry.disk, w, tasks, ios, all);
      PreviewRun(env, cfg, dry1, w1, tasks[1..], ios[1..], iosDry[1..], all);
      ConsAgrees(e, es, f, fs);
    }
  }

  /** A dry run leaves disk, archives and rows alone, whatever its tasks and however the host answers. */
  lemma {:induction false} DryTouchesNothing(env: Env, cfg: Config, w: World, tasks: seq<Task>, ios: seq<Io>)
    requires |ios| == |tasks| && cfg.dryRun
    ensures RunTasks(env, cfg, w, tasks, ios).0 == w.(changed := RunTasks(env, cfg, w, tasks, ios).0.changed)
    decreases |tasks|
  {
    hide Judge, Apply;
    if tasks != [] { DryTouchesNothing(env, cfg, Execute(env, cfg, w, tasks[0], ios[0]).0, tasks[1..], ios[1..]); }
  }

  /** As far as the real run meets no error, and for independent tasks, a dry run foretells it: the same
      events with would_change for changed, and so the same gates, and the same set of changed paths. */
  lemma PreviewAgrees(env: Env, cfg: Config, w: World, tasks: seq<Task>, ios: seq<Io>, iosDry: seq<Io>, n: nat)
    requires |ios| == |tasks| == |iosDry| && n <= |tasks| && !cfg.dryRun && NoInspectFault(iosDry[..n])
    requires SameAnswers(tasks[..n], ios[..n], iosDry[..n])
    requires Independent(tasks[..n]) && forall t :: t in tasks[..n] ==> Parsed(t)
    requires AllNoAlias(w.disk, tasks[..n])
    requires Harmless(env, cfg, w.(changed := {}), tasks[..n], ios[..n], tasks[..n])
    requires ErrorFree(Deploy(env, cfg, w, tasks, ios).1[..n])
    ensures Deploy(env, cfg, w, tasks, ios).1[..n] == Applied(Deploy(env, Dry(cfg), w, tasks, iosDry).1[..n])
    ensures Deploy(env, cfg, w, tasks[..n], ios[..n]).0.changed
         == Deploy(env, Dry(cfg), w, tasks[..n], iosDry[..n]).0.changed
  {
    hide Harmless, Independent, SameAnswers, RunTasks;
    var w0 := w.(changed := {});
    RunTasksPrefix(env, cfg, w0, tasks, ios, n);
    RunTasksPrefix(env, Dry(cfg), w0, tasks, iosDry, n);
    PreviewRun(env, cfg, w0, w0, tasks[..n], ios[..n], iosDry[..n], tasks[..n]);
  }
}
