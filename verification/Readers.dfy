/** What a process that reads the managed disk while the agent works can meet there: whole files only. */
module Readers {
  import opened Options
  import opened Disks
  import opened Tasks
  import opened Rollbacks
  import opened Histories

  // ---------- one step ----------

  /** Every regular file on d, scratch paths aside, is one of `before` or one of `after`. */
  ghost predicate Between(d: Disk, scratch: set<Path>, before: Disk, after: Disk) {
    forall p | p in d && d[p].File? && p !in scratch :: At(before, p) == Some(d[p]) || At(after, p) == Some(d[p])
  }

  /** The moments from `start` on. */
  ghost predicate WholeFiles(seen: seq<Disk>, start: nat, scratch: set<Path>, before: Disk, after: Disk) {
    forall i | start <= i < |seen| :: Between(seen[i], scratch, before, after)
  }

  /** At p there was the old node or the complete new one. */
  ghost predicate NeverPartial(seen: seq<Disk>, start: nat, p: Path, before: Option<Node>, after: Option<Node>) {
    forall i | start <= i < |seen| :: At(seen[i], p) == before || At(seen[i], p) == after
  }

  lemma NothingRead(seen: seq<Disk>, scratch: set<Path>, p: Path, d: Disk)
    ensures WholeFiles(seen, |seen|, scratch, d, d) && NeverPartial(seen, |seen|, p, At(d, p), At(d, p))
  {
  }

  /** Every regular file on d2 was on d. */
  ghost predicate OldFiles(d: Disk, d2: Disk) {
    forall p | p in d2 && d2[p].File? :: At(d, p) == Some(d2[p])
  }

  lemma OldFilesWhole(seen: seq<Disk>, start: nat, d: Disk, after: Disk)
    requires forall i | start <= i < |seen| :: OldFiles(d, seen[i])
    ensures WholeFiles(seen, start, {}, d, after)
  {
    hide At;
  }

  lemma OldFilesDir(d: Disk, d1: Disk, p: Path, n: Node)
    requires OldFiles(d, d1) && n.Dir?
    ensures OldFiles(d, d1[p := n])
  {
  }

  lemma OldFilesMade(d: Disk, d1: Disk)
    requires forall q :: At(d1, q) != At(d, q) ==> q !in d && q in d1 && d1[q].Dir?
    ensures OldFiles(d, d1)
  {
    forall p | p in d1 && d1[p].File? ensures At(d, p) == Some(d1[p]) { assert At(d1, p) == Some(d1[p]); }
  }

  /** d2 was reached from d by making directories and touching one temporary sibling. */
  lemma ScratchBetween(d: Disk, d1: Disk, d2: Disk, tmp: Path, after: Disk)
    requires forall q :: At(d1, q) != At(d, q) ==> q !in d && d1[q].Dir?
    requires OnlyTmp(d1, d2, tmp)
    ensures Between(d2, {tmp}, d, after)
  {
    forall p | p in d2 && d2[p].File? && p != tmp ensures At(d, p) == Some(d2[p]) {
      assert At(d2, p) == At(d1, p);
    }
  }

  // ---------- whole runs ----------

  /** The worlds a deploy goes through, from the first to the last. */
  function Worlds(env: Env, cfg: Config, w: World, tasks: seq<Task>, ios: seq<Io>): (ws: seq<World>)
    requires |ios| == |tasks|
    ensures |ws| == |tasks| + 1 && ws[0] == w && ws[|tasks|] == RunTasks(env, cfg, w, tasks, ios).0
    decreases |tasks|
  {
    if tasks == [] then [w] else [w] + Worlds(env, cfg, Execute(env, cfg, w, tasks[0], ios[0]).0, tasks[1..], ios[1..])
  }

  lemma {:induction false} WorldsSnoc(env: Env, cfg: Config, w: World, tasks: seq<Task>, ios: seq<Io>, t: Task, io: Io)
    requires |ios| == |tasks|
    ensures Worlds(env, cfg, w, tasks + [t], ios + [io])
         == Worlds(env, cfg, w, tasks, ios) + [Execute(env, cfg, RunTasks(env, cfg, w, tasks, ios).0, t, io).0]
    decreases |tasks|
  {
    hide Execute;
    if tasks == [] {
      assert (tasks + [t])[1..] == [] && (ios + [io])[1..] == [];
    } else {
      assert (tasks + [t])[1..] == tasks[1..] + [t] && (ios + [io])[1..] == ios[1..] + [io];
      WorldsSnoc(env, cfg, Execute(env, cfg, w, tasks[0], ios[0]).0, tasks[1..], ios[1..], t, io);
    }
  }

  /** The worlds a rollback goes through, one for each place in the listing. */
  function RollbackWorlds(env: Env, w: World, order: seq<Path>, k: nat, filter: Path, ios: seq<Io>): (ws: seq<World>)
    requires |order| == |ios| && k >= 1 && forall p :: p in order ==> p in w.files
    ensures |ws| == |order| + 1 && ws[0] == w
    decreases |order|
  {
    if order == [] then [w]
    else
      var w1 := if Selected(filter, order[0]) then Turn(env, w, order[0], k, filter, ios[0]).0 else w;
      [w] + RollbackWorlds(env, w1, order[1..], k, filter, ios[1..])
  }

  lemma {:induction false} RollbackWorldsSnoc(env: Env, w: World, order: seq<Path>, k: nat, filter: Path, ios: seq<Io>,
                                              p: Path, io: Io)
    requires |order| == |ios| && k >= 1 && (forall q :: q in order ==> q in w.files) && p in w.files
    ensures var ws := RollbackWorlds(env, w, order, k, filter, ios);
      var last := ws[|order|];
      && p in last.files
      && RollbackWorlds(env, w, order + [p], k, filter, ios + [io])
           == ws + [if Selected(filter, p) then Turn(env, last, p, k, filter, io).0 else last]
    decreases |order|
  {
    hide Selected, RollbackOne;
    if order == [] {
      assert (order + [p])[1..] == [] && (ios + [io])[1..] == [];
    } else {
      assert (order + [p])[1..] == order[1..] + [p] && (ios + [io])[1..] == ios[1..] + [io];
      assert order[0] in order;
      TurnRows(env, w, order[0], k, filter, ios[0]);
      var w1 := if Selected(filter, order[0]) then Turn(env, w, order[0], k, filter, ios[0]).0 else w;
      RollbackWorldsSnoc(env, w1, order[1..], k, filter, ios[1..], p, io);
    }
  }

  /** Every regular file on d, scratch paths aside, is a file one of the worlds holds there. */
  ghost predicate Versioned(d: Disk, scratch: set<Path>, ws: seq<World>) {
    forall p | p in d && d[p].File? && p !in scratch :: exists j :: 0 <= j < |ws| && At(ws[j].disk, p) == Some(d[p])
  }

  ghost predicate AllVersioned(seen: seq<Disk>, start: nat, scratch: set<Path>, ws: seq<World>) {
    forall i | start <= i < |seen| :: Versioned(seen[i], scratch, ws)
  }

  lemma VersionedMore(d: Disk, scratch: set<Path>, ws: seq<World>, w: World)
    requires Versioned(d, scratch, ws)
    ensures Versioned(d, scratch, ws + [w])
  {
    hide At;
    var vs := ws + [w];
    forall p | p in d && d[p].File? && p !in scratch
      ensures exists j :: 0 <= j < |vs| && At(vs[j].disk, p) == Some(d[p])
    {
      var j :| 0 <= j < |ws| && At(ws[j].disk, p) == Some(d[p]);
      assert vs[j] == ws[j];
    }
  }

  /** One more step of a run. */
  lemma VersionedSnoc(seen: seq<Disk>, start: nat, mid: nat, scratch: set<Path>, mine: set<Path>, ws: seq<World>,
                      w: World)
    requires start <= mid <= |seen| && ws != [] && mine <= scratch
    requires AllVersioned(seen[..mid], start, scratch, ws)
    requires WholeFiles(seen, mid, mine, ws[|ws| - 1].disk, w.disk)
    ensures AllVersioned(seen, start, scratch, ws + [w])
  {
    hide At;
    forall i | start <= i < |seen| ensures Versioned(seen[i], scratch, ws + [w]) {
      if i < mid {
        assert Versioned(seen[..mid][i], scratch, ws);
        VersionedMore(seen[i], scratch, ws, w);
      } else {
        assert Between(seen[i], mine, ws[|ws| - 1].disk, w.disk);
        var vs := ws + [w];
        forall p | p in seen[i] && seen[i][p].File? && p !in scratch
          ensures exists j :: 0 <= j < |vs| && At(vs[j].disk, p) == Some(seen[i][p])
        {
          assert vs[|ws| - 1] == ws[|ws| - 1] && vs[|ws|] == w;
        }
      }
    }
  }

  /** Where the temporary siblings of a run lie. */
  function DeployScratch(tasks: seq<Task>): set<Path> {
    set t | t in tasks && t.op.Copy? :: t.op.dst + DEPLOY_TMP
  }

  function RollbackScratch(order: seq<Path>): set<Path> {
    set p | p in order :: p + ROLLBACK_TMP
  }

  /** What was seen while each task of a deploy ran, task by task: `marks` are the lengths of `seen` between the
      tasks. Only while a command's shell runs may anything be met. */
  ghost predicate Moments(seen: seq<Disk>, marks: seq<nat>, tasks: seq<Task>, ws: seq<World>) {
    && |marks| == |ws| == |tasks| + 1 && marks[|tasks|] == |seen|
    && (forall j, k | 0 <= j <= k <= |tasks| :: marks[j] <= marks[k])
    && forall j | 0 <= j < |tasks| && !tasks[j].op.Command? ::
         WholeFiles(seen[..marks[j + 1]], marks[j], DeployScratch([tasks[j]]), ws[j].disk, ws[j + 1].disk)
  }

  lemma MomentsSnoc(seen: seq<Disk>, marks: seq<nat>, tasks: seq<Task>, ws: seq<World>, seen2: seq<Disk>, t: Task,
                    w: World)
    requires Moments(seen, marks, tasks, ws) && seen <= seen2
    requires !t.op.Command? ==> WholeFiles(seen2, |seen|, DeployScratch([t]), ws[|tasks|].disk, w.disk)
    ensures Moments(seen2, marks + [|seen2|], tasks + [t], ws + [w])
  {
    hide WholeFiles, DeployScratch;
    var marks2, tasks2, ws2 := marks + [|seen2|], tasks + [t], ws + [w];
    forall j | 0 <= j < |tasks2| && !tasks2[j].op.Command?
      ensures WholeFiles(seen2[..marks2[j + 1]], marks2[j], DeployScratch([tasks2[j]]), ws2[j].disk, ws2[j + 1].disk)
    {
      if j < |tasks| {
        assert seen2[..marks[j + 1]] == seen[..marks[j + 1]];
      } else {
        assert seen2[..|seen2|] == seen2;
      }
    }
  }

  /** The moment i falls while a command's shell runs. */
  ghost predicate DuringCommand(i: nat, marks: seq<nat>, tasks: seq<Task>)
    requires |marks| == |tasks| + 1
  {
    exists j :: 0 <= j < |tasks| && tasks[j].op.Command? && marks[j] <= i < marks[j + 1]
  }

  lemma {:induction false} Stretch(marks: seq<nat>, i: nat, n: nat) returns (j: nat)
    requires n < |marks| && marks[0] <= i < marks[n]
    ensures j < n && marks[j] <= i < marks[j + 1]
    decreases n
  {
    if marks[n - 1] <= i { return n - 1; }
    j := Stretch(marks, i, n - 1);
  }

  /** At any other moment of the run a reader meets only whole files, each from between two tasks. */
  lemma MomentsVersioned(seen: seq<Disk>, marks: seq<nat>, tasks: seq<Task>, ws: seq<World>)
    requires Moments(seen, marks, tasks, ws)
    ensures forall i | marks[0] <= i < |seen| ::
      DuringCommand(i, marks, tasks) || Versioned(seen[i], DeployScratch(tasks), ws)
  {
    hide At;
    forall i | marks[0] <= i < |seen| && !DuringCommand(i, marks, tasks)
      ensures Versioned(seen[i], DeployScratch(tasks), ws)
    {
      var j := Stretch(marks, i, |tasks|);
      var t := tasks[j];
      assert t in tasks && DeployScratch([t]) <= DeployScratch(tasks);
      assert Between(seen[..marks[j + 1]][i], DeployScratch([t]), ws[j].disk, ws[j + 1].disk);
    }
  }

  /** Every file task of the run was all or nothing. */
  ghost predicate DeployWhole(ws: seq<World>, tasks: seq<Task>, es: seq<Event>)
  {
    && |ws| == |tasks| + 1 && |es| == |tasks|
    && forall j | 0 <= j < |tasks| && tasks[j].op.Copy? :: WholeFile(ws[j], ws[j + 1], tasks[j].op, es[j].status)
  }

  lemma AfterBetween(d: Disk, scratch: set<Path>, after: Disk)
    ensures Between(after, scratch, d, after)
  {
  }

  lemma NothingSeen(seen: seq<Disk>, scratch: set<Path>, ws: seq<World>)
    ensures AllVersioned(seen, |seen|, scratch, ws)
  {
  }

  lemma WholeSnoc(ws: seq<World>, tasks: seq<Task>, es: seq<Event>, w: World, t: Task, e: Event)
    requires |ws| == |tasks| + 1 && |es| == |tasks| && DeployWhole(ws, tasks, es)
    requires t.op.Copy? ==> WholeFile(ws[|tasks|], w, t.op, e.status)
    ensures DeployWhole(ws + [w], tasks + [t], es + [e])
  {
    hide WholeFile;
  }

  /** What the task loop has done for the tasks so far; `count` is how many calls have failed. */
  ghost predicate Deploying(env: Env, cfg: Config, w: World, tasks: seq<Task>, ios: seq<Io>, w1: World,
                            es: seq<Event>, seen: seq<Disk>, marks: seq<nat>, ran: seq<(string, bool)>, count: int) {
    && |ios| == |tasks| && (w1, es) == RunTasks(env, cfg, w, tasks, ios)
    && DeployWhole(Worlds(env, cfg, w, tasks, ios), tasks, es)
    && Moments(seen, marks, tasks, Worlds(env, cfg, w, tasks, ios))
    && ran == Commands(env, cfg, w, tasks, ios) && |Faulty(ios)| <= count
  }

  lemma NothingDeployed(env: Env, cfg: Config, w: World, seen: seq<Disk>)
    ensures Deploying(env, cfg, w, [], [], w, [], seen, [|seen|], [], 0)
  {
    assert Faulty([]) == {};
  }

  lemma DeployingSnoc(env: Env, cfg: Config, w: World, tasks: seq<Task>, ios: seq<Io>, w1: World, es: seq<Event>,
                      seen: seq<Disk>, marks: seq<nat>, ran: seq<(string, bool)>, start: nat,
                      t: Task, io: Io, w2: World, e: Event, seen2: seq<Disk>, before: nat, after: nat)
    requires start <= before && Deploying(env, cfg, w, tasks, ios, w1, es, seen, marks, ran, before - start)
    requires (w2, e) == Execute(env, cfg, w1, t, io) && Honest(before, after, io) && seen <= seen2
    requires t.op.Copy? ==> WholeFile(w1, w2, t.op, e.status)
    requires !t.op.Command? ==> WholeFiles(seen2, |seen|, DeployScratch([t]), w1.disk, w2.disk)
    ensures Deploying(env, cfg, w, tasks + [t], ios + [io], w2, es + [e], seen2, marks + [|seen2|],
                      ran + Ran(cfg, w1, t, io), after - start)
  {
    hide Execute, Calm, Faulty, Ran, WholeFile, WholeFiles, Moments, DeployWhole;
    FaultySnoc(ios, io, before - start, before, after);
    CommandsSnoc(env, cfg, w, tasks, ios, t, io);
    RunTasksSnoc(env, cfg, w, tasks, ios, t, io);
    WorldsSnoc(env, cfg, w, tasks, ios, t, io);
    var ws := Worlds(env, cfg, w, tasks, ios);
    MomentsSnoc(seen, marks, tasks, ws, seen2, t, w2);
    WholeSnoc(ws, tasks, es, w2, t, e);
  }

  lemma DeployedAll(env: Env, cfg: Config, w: World, tasks: seq<Task>, ios: seq<Io>, w1: World, es: seq<Event>,
                 seen: seq<Disk>, marks: seq<nat>, ran: seq<(string, bool)>, count: int)
    requires Deploying(env, cfg, w, tasks, ios, w1, es, seen, marks, ran, count)
    ensures |ios| == |tasks| && (w1, es) == RunTasks(env, cfg, w, tasks, ios)
    ensures DeployWhole(Worlds(env, cfg, w, tasks, ios), tasks, es)
    ensures Moments(seen, marks, tasks, Worlds(env, cfg, w, tasks, ios))
    ensures ran == Commands(env, cfg, w, tasks, ios) && |Faulty(ios)| <= count
  {
  }

  /** What the rollback loop has done for the places listed so far. */
  ghost predicate Progress(env: Env, w: World, order: seq<Path>, k: nat, filter: Path, ios: seq<Io>,
                           w1: World, es: seq<Event>, seen: seq<Disk>, start: nat, scratch: set<Path>)
    requires k >= 1
  {
    && |ios| == |order| && (forall p :: p in order ==> p in w.files)
    && (w1, es) == RollbackFrom(env, w, order, 0, k, filter, ios) && Tidy(env, w, order, 0, k, filter, ios)
    && RollbackWorlds(env, w, order, k, filter, ios)[|order|] == w1
    && AllVersioned(seen, start, scratch, RollbackWorlds(env, w, order, k, filter, ios))
  }

  lemma ProgressNone(env: Env, w: World, k: nat, filter: Path, seen: seq<Disk>, scratch: set<Path>)
    requires k >= 1
    ensures Progress(env, w, [], k, filter, [], w, [], seen, |seen|, scratch)
  {
    NothingSeen(seen, scratch, [w]);
    NothingTidy(env, w, k, filter);
  }

  lemma ProgressSnoc(env: Env, w: World, order: seq<Path>, k: nat, filter: Path, ios: seq<Io>,
                     w1: World, es: seq<Event>, seen: seq<Disk>, start: nat, scratch: set<Path>,
                     p: Path, io: Io, w2: World, es2: seq<Event>, seen2: seq<Disk>)
    requires k >= 1 && Progress(env, w, order, k, filter, ios, w1, es, seen, start, scratch)
    requires p in w.files && p in w1.files
    requires start <= |seen| && seen <= seen2 && p + ROLLBACK_TMP in scratch
    requires if !Selected(filter, p) then w2 == w1 && es2 == es && seen2 == seen
      else
        && w2 == Turn(env, w1, p, k, filter, io).0
        && es2 == es + [Event(RollbackId(|order| + 1), Turn(env, w1, p, k, filter, io).1, p)]
        && OnlyTmp(w1.disk, io.residue, p + ROLLBACK_TMP)
        && WholeFiles(seen2, |seen|, {p + ROLLBACK_TMP}, w1.disk, w2.disk)
    ensures Progress(env, w, order + [p], k, filter, ios + [io], w2, es2, seen2, start, scratch)
  {
    hide Turn, Selected, OnlyTmp, WholeFiles, AllVersioned, Tidy, RollbackFrom, RollbackWorlds;
    RollbackFromSnoc(env, w, order, 0, k, filter, ios, p, io);
    RollbackWorldsSnoc(env, w, order, k, filter, ios, p, io);
    TidySnoc(env, w, order, 0, k, filter, ios, p, io);
    var ws := RollbackWorlds(env, w, order, k, filter, ios);
    assert seen2[..|seen|] == seen;
    if !Selected(filter, p) { NothingRead(seen2, {p + ROLLBACK_TMP}, p, w1.disk); }
    VersionedSnoc(seen2, start, |seen|, scratch, {p + ROLLBACK_TMP}, ws, w2);
    assert (ws + [w2])[|order + [p]|] == w2;
  }

  lemma ProgressDone(env: Env, w: World, order: seq<Path>, k: nat, filter: Path, ios: seq<Io>,
                     w1: World, es: seq<Event>, seen: seq<Disk>, start: nat, scratch: set<Path>)
    requires k >= 1 && Progress(env, w, order, k, filter, ios, w1, es, seen, start, scratch) && Lists(order, w.files)
    ensures |ios| == |order|
    ensures (w1, es) == RollbackFrom(env, w, order, 0, k, filter, ios) && Tidy(env, w, order, 0, k, filter, ios)
    ensures AllVersioned(seen, start, scratch, RollbackWorlds(env, w, order, k, filter, ios))
    ensures Distinct(w.files) && NoTmpClash(w.files) ==> PerFile(env, w, order, 0, k, filter, ios)
  {
    hide AllVersioned, Tidy, RollbackFrom, RollbackWorlds, PerFile, Distinct, NoTmpClash;
    if Distinct(w.files) && NoTmpClash(w.files) { RollbackIsPerFile(env, w, order, 0, k, filter, ios); }
  }

  lemma TmpScratch(paths: seq<Path>, i: nat)
    requires i < |paths|
    ensures paths[i] + ROLLBACK_TMP in RollbackScratch(paths)
  {
    assert paths[i] in paths;
  }
}
