/** What one task of a plan means, as a function of the agent's world. The agent's handlers
    all have one shape: judge the host, stop if it already agrees, and otherwise preview or apply. */
module Tasks {
  import opened Options
  import opened Octal
  import opened ByteStrings
  import opened Disks

  /** One archived version of a tracked file; the body is kept in the archive store under `archive`. */
  datatype Entry = Entry(sha: string, mode: string, archive: Path, phase: string)

  /** A tracked file's row in state.json; history is newest first. */
  datatype FileRec = FileRec(sha: string, mode: string, history: seq<Entry>)

  datatype World = World(disk: Disk, archives: map<Path, Bytes>, files: map<Path, FileRec>, changed: set<Path>)

  datatype Op =
    | Copy(dst: Path, body: Option<Bytes>, sha: string, mode: string)   // copy and template; None: undecodable base64
    | Mkdir(path: Path, mode: string, owner: string, group: string)
    | Symlink(src: Path, dst: Path, force: bool)
    | Remove(path: Path, recursive: bool)
    | Chmod(path: Path, mode: string)
    | Chown(path: Path, owner: string, group: string, recursive: bool)
    | Command(run: string, holds: string, unless: string, ignoreErr: bool)   // holds: the `when` predicate
    | Unknown

  datatype Task = Task(id: string, op: Op, whenChanged: seq<Path>)

  datatype Config = Config(dryRun: bool, keep: nat, phase: string)

  datatype Status = Changed | Skipped | Error | WouldChange | InSync | Drift | MissingFile

  datatype EventId = TaskId(id: string) | RollbackId(n: nat) | StatusId(n: nat)

  /** What status shows of one archived version. */
  datatype Item = Item(sha: string, mode: string, phase: string)

  datatype Event = Event(id: EventId, status: Status, path: Path, history: seq<Item> := [])

  /** How the host answers one task: which system call fails if any, the random archive name,
      the archives whose best-effort removal fails, what the disk holds after a failed effect or a
      command, and how the host answers a command's two predicates: whether they exit with 0, None when they
      cannot be run. */
  datatype Fault = NoFault | AtInspect | AtArchive | AtEffect
  datatype Io = Io(fault: Fault, name: Path, sticky: set<Path>, residue: Disk,
    holds: Option<bool> := Some(true), unless: Option<bool> := Some(false))

  function PathOf(op: Op): Path {
    match op
    case Copy(dst, _, _, _) => dst
    case Mkdir(p, _, _, _) => p
    case Symlink(src, dst, _) => if src == "" then "" else dst
    case Remove(p, _) => p
    case Chmod(p, _) => p
    case Chown(p, _, _, _) => p
    case Command(_, _, _, _) => ""
    case Unknown => ""
  }

  /** `when_changed` is ignored on the five primitives that diff for themselves. */
  predicate Ungated(op: Op) {
    op.Copy? || op.Mkdir? || op.Symlink? || op.Remove?
  }

  predicate GateOpen(changed: set<Path>, t: Task) {
    t.whenChanged == [] || Ungated(t.op) || exists i :: 0 <= i < |t.whenChanged| && t.whenChanged[i] in changed
  }

  function ModeOr(mode: string, fallback: nat): Option<nat> {
    if mode == "" then Some(fallback) else ParseUint(mode)
  }

  const DEFAULT_FILE_MODE: nat := 420  // 0644
  const DEFAULT_DIR_MODE: nat := 493   // 0755

  function Recorded(mode: string): string {
    if mode == "" then FmtMode(DEFAULT_FILE_MODE) else mode
  }

  function Want(env: Env, op: Op): string
    requires op.Copy? && op.body.Some?
  {
    if op.sha != "" then op.sha else env.sha(op.body.value)
  }

  function Resolved(table: string -> Option<int>, name: string): Option<Option<int>> {
    if name == "" then Some(None)
    else match table(name)
      case Some(id) => Some(Some(id))
      case None => None
  }

  /** `resolveOwnership`: None when a named user or group does not exist. */
  function Ownership(env: Env, owner: string, group: string): Option<(Option<int>, Option<int>)> {
    match (Resolved(env.userId, owner), Resolved(env.groupId, group))
    case (Some(u), Some(g)) => Some((u, g))
    case _ => None
  }

  predicate OwnerFits(n: Node, ids: (Option<int>, Option<int>)) {
    (ids.0.Some? ==> n.uid == ids.0.value) && (ids.1.Some? ==> n.gid == ids.1.value)
  }

  datatype Verdict = Refused | Clean | Dirty

  predicate WellFormed(env: Env, op: Op) {
    match op
    case Copy(dst, body, sha, mode) =>
      dst != "" && body.Some? && (sha != "" ==> env.sha(body.value) == sha) && ModeOr(mode, DEFAULT_FILE_MODE).Some?
    case Mkdir(p, mode, owner, group) =>
      p != "" && ModeOr(mode, DEFAULT_DIR_MODE).Some? && Ownership(env, owner, group).Some?
    case Symlink(src, dst, _) => src != "" && dst != ""
    case Remove(p, _) => p != ""
    case Chmod(p, mode) => p != "" && ParseUint(mode).Some?
    case Chown(p, owner, group, _) => p != "" && Ownership(env, owner, group).Some?
    case Command(_, _, _, _) => true
    case Unknown => false
  }

  function JudgeCopy(env: Env, d: Disk, op: Op): Verdict
    requires op.Copy? && WellFormed(env, op)
  {
    match Stat(env, d, op.dst)
    case Broken => Refused
    case Missing => Dirty
    case Found(_, n) =>
      if !n.File? then Refused
      else if env.sha(n.body) == Want(env, op) && n.mode == ModeOr(op.mode, DEFAULT_FILE_MODE).value then Clean
      else Dirty
  }

  function JudgeMkdir(env: Env, d: Disk, op: Op): Verdict
    requires op.Mkdir? && WellFormed(env, op)
  {
    match Stat(env, d, op.path)
    case Broken => Refused
    case Missing => Dirty
    case Found(_, n) =>
      if !n.Dir? then Refused
      else if (op.mode != "" ==> n.mode == ParseUint(op.mode).value)
        && OwnerFits(n, Ownership(env, op.owner, op.group).value) then Clean
      else Dirty
  }

  function JudgeSymlink(d: Disk, op: Op): Verdict
    requires op.Symlink?
  {
    match Lstat(d, op.dst)
    case Broken => Refused
    case Missing => Dirty
    case Found(_, n) =>
      if n.Link? then (if n.target == op.src then Clean else Dirty)
      else if op.force then Dirty
      else Refused
  }

  function JudgeRemove(d: Disk, op: Op): Verdict
    requires op.Remove?
  {
    match Lstat(d, op.path)
    case Broken => Refused
    case Missing => Clean
    case Found(_, _) => Dirty
  }

  function JudgeChmod(env: Env, d: Disk, op: Op): Verdict
    requires op.Chmod? && WellFormed(env, op)
  {
    match Stat(env, d, op.path)
    case Found(_, n) => if n.mode == ParseUint(op.mode).value then Clean else Dirty
    case _ => Refused
  }

  function JudgeChown(env: Env, d: Disk, op: Op): Verdict
    requires op.Chown? && WellFormed(env, op)
  {
    match Lstat(d, op.path)
    case Found(_, n) => if OwnerFits(n, Ownership(env, op.owner, op.group).value) then Clean else Dirty
    case _ => Refused
  }

  /** What the handler decides before it touches anything. */
  function Judge(env: Env, d: Disk, op: Op): Verdict {
    if !WellFormed(env, op) then Refused
    else match op
      case Copy(_, _, _, _) => JudgeCopy(env, d, op)
      case Mkdir(_, _, _, _) => JudgeMkdir(env, d, op)
      case Symlink(_, _, _) => JudgeSymlink(d, op)
      case Remove(_, _) => JudgeRemove(d, op)
      case Chmod(_, _) => JudgeChmod(env, d, op)
      case Chown(_, _, _, _) => JudgeChown(env, d, op)
      case Command(_, _, _, _) => Dirty
      case Unknown => Refused
  }

  function CopyEffect(env: Env, d: Disk, op: Op): Option<Disk>
    requires op.Copy? && WellFormed(env, op)
  {
    var tmp := op.dst + DEPLOY_TMP;
    if CanMake(d, Ancestors(op.dst)) && TmpFree(d, tmp) then
      Some(Replaced(env, MakeDirs(env, d, Ancestors(op.dst), DEFAULT_DIR_MODE), op.dst, tmp, op.body.value,
                    ModeOr(op.mode, DEFAULT_FILE_MODE).value % 512))
    else None
  }

  function MkdirEffect(env: Env, d: Disk, op: Op): Option<Disk>
    requires op.Mkdir? && WellFormed(env, op)
  {
    var p := op.path;
    var ids := Ownership(env, op.owner, op.group).value;
    var mode := ModeOr(op.mode, DEFAULT_DIR_MODE).value;
    match Stat(env, d, p)
    case Found(q, n) => Some(d[q := Owned(if op.mode != "" then Moded(n, mode % 512) else n, ids.0, ids.1)])
    case _ =>
      if p !in d && CanMake(d, Ancestors(p)) then
        Some(MakeDirs(env, d, Ancestors(p), mode)[p := Owned(Dir(mode % 512, env.uid, env.gid), ids.0, ids.1)])
      else None
  }

  function SymlinkEffect(env: Env, d: Disk, op: Op): Option<Disk>
    requires op.Symlink?
  {
    var link := Link(op.src, env.uid, env.gid);
    if op.dst in d then Some((if d[op.dst].Link? then d else RemoveTree(d, op.dst))[op.dst := link])
    else if CanMake(d, Ancestors(op.dst)) then
      Some(MakeDirs(env, d, Ancestors(op.dst), DEFAULT_DIR_MODE)[op.dst := link])
    else None
  }

  function RemoveEffect(d: Disk, op: Op): Option<Disk>
    requires op.Remove? && op.path in d
  {
    if !d[op.path].Dir? || (!op.recursive && !HasChildren(d, op.path)) then Some(d - {op.path})
    else if op.recursive then Some(RemoveTree(d, op.path))
    else None
  }

  function ChmodEffect(env: Env, d: Disk, op: Op): Option<Disk>
    requires op.Chmod? && WellFormed(env, op)
  {
    match Stat(env, d, op.path)
    case Found(q, n) => Some(d[q := Moded(n, ParseUint(op.mode).value % 512)])
    case _ => None
  }

  function ChownEffect(env: Env, d: Disk, op: Op): Option<Disk>
    requires op.Chown? && WellFormed(env, op) && op.path in d
  {
    var ids := Ownership(env, op.owner, op.group).value;
    Some(if op.recursive then OwnTree(d, op.path, ids.0, ids.1) else d[op.path := Owned(d[op.path], ids.0, ids.1)])
  }

  /** The disk after the handler's system calls all succeed; None when the disk itself makes one fail. */
  function Effect(env: Env, d: Disk, op: Op): Option<Disk>
    requires Judge(env, d, op).Dirty?
  {
    match op
    case Copy(_, _, _, _) => CopyEffect(env, d, op)
    case Mkdir(_, _, _, _) => MkdirEffect(env, d, op)
    case Symlink(_, _, _) => SymlinkEffect(env, d, op)
    case Remove(_, _) => RemoveEffect(d, op)
    case Chmod(_, _) => ChmodEffect(env, d, op)
    case Chown(_, _, _, _) => ChownEffect(env, d, op)
    case Command(_, _, _, _) => Some(d)
  }

  function History(files: map<Path, FileRec>, p: Path): seq<Entry> {
    if p in files then files[p].history else []
  }

  function Kept(out: seq<Entry>, keep: nat): seq<Entry> {
    if 0 < keep < |out| then out[..keep] else out
  }

  function Evicted(out: seq<Entry>, keep: nat): seq<Entry> {
    if 0 < keep < |out| then out[keep..] else []
  }

  function Names(es: seq<Entry>): set<Path> {
    set i | 0 <= i < |es| :: es[i].archive
  }

  /** Copy and template archive a file they are about to overwrite, when history is on. */
  predicate Archives(env: Env, cfg: Config, d: Disk, op: Op) {
    op.Copy? && cfg.keep > 0 && Stat(env, d, op.dst).Found?
  }

  function Snapshot(env: Env, cfg: Config, d: Disk, op: Op, name: Path): Entry
    requires op.Copy? && Judge(env, d, op).Dirty? && Archives(env, cfg, d, op)
  {
    var n := Stat(env, d, op.dst).node;
    Entry(env.sha(n.body), FmtMode(n.mode), name, cfg.phase)
  }

  /** The world once the current file is archived and the history evicted, before the write. */
  function Archived(env: Env, cfg: Config, w: World, op: Op, io: Io): World
    requires Judge(env, w.disk, op).Dirty?
  {
    if !Archives(env, cfg, w.disk, op) then w
    else
      var out := [Snapshot(env, cfg, w.disk, op, io.name)] + History(w.files, op.dst);
      w.(archives := w.archives[io.name := Stat(env, w.disk, op.dst).node.body]
                     - (Names(Evicted(out, cfg.keep)) - io.sticky))
  }

  /** The history row a successful write records. */
  function NextHistory(env: Env, cfg: Config, w: World, op: Op, name: Path): seq<Entry>
    requires op.Copy? && Judge(env, w.disk, op).Dirty?
  {
    if !Archives(env, cfg, w.disk, op) then History(w.files, op.dst)
    else Kept([Snapshot(env, cfg, w.disk, op, name)] + History(w.files, op.dst), cfg.keep)
  }

  /** The disk after the effect, or whatever a failing host left. */
  predicate EffectFails(env: Env, d: Disk, op: Op, io: Io)
    requires Judge(env, d, op).Dirty?
  {
    io.fault.AtEffect? || Effect(env, d, op).None?
  }

  function Apply(env: Env, cfg: Config, w: World, op: Op, io: Io): (r: (World, Status))
    requires Judge(env, w.disk, op).Dirty?
  {
    if op.Command? then
      (w.(disk := io.residue), if io.fault.AtEffect? && !op.ignoreErr then Error else Changed)
    else if io.fault.AtArchive? && Archives(env, cfg, w.disk, op) then (w, Error)
    else
      var w1 := Archived(env, cfg, w, op, io);
      if EffectFails(env, w.disk, op, io) then (w1.(disk := io.residue), Error)
      else
        var w2 := w1.(disk := Effect(env, w.disk, op).value, changed := w.changed + {PathOf(op)});
        if op.Copy? then
          var row := FileRec(Want(env, op), Recorded(op.mode), NextHistory(env, cfg, w, op, io.name));
          (w2.(files := w.files[op.dst := row]), Changed)
        else (w2, Changed)
  }

  /** What a command's predicates decide: None lets it go on. */
  function Predicates(op: Op, io: Io): Option<Status>
    requires op.Command?
  {
    if op.holds != "" && io.holds == None then Some(Error)
    else if op.holds != "" && !io.holds.value then Some(Skipped)
    else if op.unless != "" && io.unless == None then Some(Error)
    else if op.unless != "" && io.unless.value then Some(Skipped)
    else None
  }

  predicate Permitted(op: Op, io: Io)
    requires op.Command?
  {
    (op.holds == "" || io.holds == Some(true)) && (op.unless == "" || io.unless == Some(false))
  }

  /** The command a task runs, with whether it exits with 0. */
  function Ran(cfg: Config, w: World, t: Task, io: Io): seq<(string, bool)> {
    if t.op.Command? && !cfg.dryRun && GateOpen(w.changed, t) && Permitted(t.op, io) then
      [(t.op.run, io.fault.NoFault?)]
    else []
  }

  /** One handler, once the gate is open. */
  function Handle(env: Env, cfg: Config, w: World, op: Op, io: Io): (r: (World, Status)) {
    if io.fault.AtInspect? && !op.Command? then (w, Error)
    else if op.Command? && Predicates(op, io).Some? then (w, Predicates(op, io).value)
    else match Judge(env, w.disk, op)
      case Refused => (w, Error)
      case Clean =>
        if op.Copy? && !cfg.dryRun then
          (w.(files := w.files[op.dst := FileRec(Want(env, op), Recorded(op.mode), History(w.files, op.dst))]), Skipped)
        else (w, Skipped)
      case Dirty =>
        if !cfg.dryRun then Apply(env, cfg, w, op, io)
        else if op.Command? then (w, WouldChange)
        else (w.(changed := w.changed + {PathOf(op)}), WouldChange)
  }

  function Execute(env: Env, cfg: Config, w: World, t: Task, io: Io): (r: (World, Event)) {
    if !GateOpen(w.changed, t) then (w, Event(TaskId(t.id), Skipped, ""))
    else
      var (w', s) := Handle(env, cfg, w, t.op, io);
      (w', Event(TaskId(t.id), s, PathOf(t.op)))
  }

  /** The task loop of a deploy. */
  function RunTasks(env: Env, cfg: Config, w: World, tasks: seq<Task>, ios: seq<Io>): (r: (World, seq<Event>))
    requires |ios| == |tasks|
    ensures |r.1| == |tasks|
    decreases |tasks|
  {
    if tasks == [] then (w, [])
    else
      var (w1, e) := Execute(env, cfg, w, tasks[0], ios[0]);
      var (w2, es) := RunTasks(env, cfg, w1, tasks[1..], ios[1..]);
      (w2, [e] + es)
  }

  /** The commands a run runs, in order. */
  function Commands(env: Env, cfg: Config, w: World, tasks: seq<Task>, ios: seq<Io>): seq<(string, bool)>
    requires |ios| == |tasks|
    decreases |tasks|
  {
    if tasks == [] then []
    else
      Ran(cfg, w, tasks[0], ios[0])
      + Commands(env, cfg, Execute(env, cfg, w, tasks[0], ios[0]).0, tasks[1..], ios[1..])
  }

  /** A run starts with nothing marked as changed. */
  function Deploy(env: Env, cfg: Config, w: World, tasks: seq<Task>, ios: seq<Io>): (r: (World, seq<Event>))
    requires |ios| == |tasks|
    ensures |r.1| == |tasks|
  {
    RunTasks(env, cfg, w.(changed := {}), tasks, ios)
  }

  lemma NamesSnoc(es: seq<Entry>, i: nat)
    requires i < |es|
    ensures Names(es[..i + 1]) == Names(es[..i]) + {es[i].archive}
  {
    assert es[..i + 1] == es[..i] + [es[i]];
    forall n ensures n in Names(es[..i + 1]) <==> n in Names(es[..i]) + {es[i].archive} {
      if n in Names(es[..i]) { var j :| 0 <= j < i && es[..i][j].archive == n; assert es[..i + 1][j].archive == n; }
      if n in Names(es[..i + 1]) && n != es[i].archive {
        var j :| 0 <= j < i + 1 && es[..i + 1][j].archive == n;
        assert es[..i][j].archive == n;
      }
      assert es[..i + 1][i].archive == es[i].archive;
    }
  }

  lemma {:induction false} RunTasksSnoc(env: Env, cfg: Config, w: World, tasks: seq<Task>, ios: seq<Io>, t: Task,
                                        io: Io)
    requires |ios| == |tasks|
    ensures var (w1, es) := RunTasks(env, cfg, w, tasks, ios);
      var (w2, e) := Execute(env, cfg, w1, t, io);
      RunTasks(env, cfg, w, tasks + [t], ios + [io]) == (w2, es + [e])
    decreases |tasks|
  {
    if tasks == [] {
      assert RunTasks(env, cfg, w, tasks + [t], ios + [io]).1 == [] + [Execute(env, cfg, w, t, io).1];
    } else {
      assert (tasks + [t])[1..] == tasks[1..] + [t] && (ios + [io])[1..] == ios[1..] + [io];
      var (w1, e1) := Execute(env, cfg, w, tasks[0], ios[0]);
      RunTasksSnoc(env, cfg, w1, tasks[1..], ios[1..], t, io);
      var (w2, es) := RunTasks(env, cfg, w1, tasks[1..], ios[1..]);
      var e := Execute(env, cfg, w2, t, io).1;
      assert [e1] + (es + [e]) == ([e1] + es) + [e];
    }
  }

  lemma {:induction false} CommandsSnoc(env: Env, cfg: Config, w: World, tasks: seq<Task>, ios: seq<Io>, t: Task,
                                        io: Io)
    requires |ios| == |tasks|
    ensures Commands(env, cfg, w, tasks + [t], ios + [io])
         == Commands(env, cfg, w, tasks, ios) + Ran(cfg, RunTasks(env, cfg, w, tasks, ios).0, t, io)
    decreases |tasks|
  {
    hide Execute, Ran;
    if tasks == [] {
      assert (tasks + [t])[1..] == [] && (ios + [io])[1..] == [];
    } else {
      assert (tasks + [t])[1..] == tasks[1..] + [t] && (ios + [io])[1..] == ios[1..] + [io];
      CommandsSnoc(env, cfg, Execute(env, cfg, w, tasks[0], ios[0]).0, tasks[1..], ios[1..], t, io);
    }
  }

  /** The first n events are those of the first n tasks. */
  lemma {:induction false} RunTasksPrefix(env: Env, cfg: Config, w: World, tasks: seq<Task>, ios: seq<Io>, n: nat)
    requires |ios| == |tasks| && n <= |tasks|
    ensures RunTasks(env, cfg, w, tasks, ios).1[..n] == RunTasks(env, cfg, w, tasks[..n], ios[..n]).1
    decreases |tasks|
  {
    hide Execute;
    if n > 0 {
      assert tasks[..n][1..] == tasks[1..][..n - 1] && ios[..n][1..] == ios[1..][..n - 1];
      var (w1, e) := Execute(env, cfg, w, tasks[0], ios[0]);
      RunTasksPrefix(env, cfg, w1, tasks[1..], ios[1..], n - 1);
      assert ([e] + RunTasks(env, cfg, w1, tasks[1..], ios[1..]).1)[..n]
          == [e] + RunTasks(env, cfg, w1, tasks[1..], ios[1..]).1[..n - 1];
    }
  }

  lemma SamePredicates(op: Op, io: Io, io': Io)
    requires op.Command? && io'.holds == io.holds && io'.unless == io.unless
    ensures Predicates(op, io') == Predicates(op, io)
  {
  }

  lemma UnknownRefused(env: Env, cfg: Config, w: World, op: Op, io: Io)
    requires op.Unknown?
    ensures Handle(env, cfg, w, op, io) == (w, Error)
  {
  }

  lemma ReconciledDir(env: Env, d: Disk, op: Op)
    requires op.Mkdir? && WellFormed(env, op) && Stat(env, d, op.path).Found? && Judge(env, d, op).Dirty?
    ensures var ids := Ownership(env, op.owner, op.group).value;
      var r := Stat(env, d, op.path);
      Effect(env, d, op) == Some(d[r.at :=
        Owned(if op.mode == "" then r.node else Moded(r.node, ModeOr(op.mode, DEFAULT_DIR_MODE).value % 512),
              ids.0, ids.1)])
  {
  }
}
