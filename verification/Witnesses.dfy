/** For each exact condition of the other modules, an input on the failing side: the theorem's hypotheses
    hold of it and the condition does not. */
module Witnesses {
  import opened Options
  import opened Octal
  import opened Disks
  import opened Tasks
  import opened Rollbacks
  import opened Compositions
  import opened Histories
  import opened Plans
  import L = Locks
  import Q = Quoting

  const FINE := Io(NoFault, "", {}, map[])

  /** A path with no separator lies in no directory. */
  lemma TopLevel(env: Env, d: Disk, p: Path)
    requires '/' !in p && p in d && !d[p].Link?
    ensures Ancestors(p) == {} && !Blocked(d, p) && Stat(env, d, p) == Found(p, d[p])
  {
    StatIsLstat(env, d, p);
  }

  lemma OneTask(env: Env, cfg: Config, w: World, t: Task, io: Io)
    ensures var (w1, e) := Execute(env, cfg, w, t, io); RunTasks(env, cfg, w, [t], [io]) == (w1, [e])
  {
    hide Execute;
    var (w1, e) := Execute(env, cfg, w, t, io);
    assert [t][1..] == [] && [io][1..] == [] && [e] + [] == [e];
    assert RunTasks(env, cfg, w1, [], []) == (w1, []);
  }

  lemma OneTaskTrail(env: Env, cfg: Config, g: Trail, t: Task, io: Io)
    ensures AfterTasks(env, cfg, g, [t], [io]) == AfterTask(env, cfg, g, t, io)
  {
    hide AfterTask;
    assert [t][1..] == [] && [io][1..] == [];
  }

  lemma ThreeDigits(s: string)
    requires |s| == 3 && forall i :: 0 <= i < 3 ==> IsOctal(s[i])
    ensures ParseUint(s) == Some(64 * (s[0] as int - 48) + 8 * (s[1] as int - 48) + (s[2] as int - 48))
  {
    var a, b := s[1..], s[2..];
    assert a[1..] == b && b[1..] == "";
    var n0 := s[0] as int - 48;
    var n1 := 8 * n0 + (a[0] as int - 48);
    var n2 := 8 * n1 + (b[0] as int - 48);
    assert Digits("", n2) == Some(n2);
    assert Digits(b, n1) == Some(n2);
    assert Digits(a, n0) == Some(n2);
    assert Digits(s, 0) == Some(n2);
  }

  // ---------- chmod 1777: runs without error, and again, and again ----------

  const SHARED := Task("chmod", Chmod("shared", "1777"), [])

  function SharedDir(): World {
    World(map["shared" := Dir(493, 0, 0)], map[], map[], {})
  }

  lemma WideModeRepeats(env: Env)
    ensures var cfg, w, ts := Config(false, 0, ""), SharedDir(), [SHARED];
      var (w1, es) := Deploy(env, cfg, w, ts, [FINE]);
      && Unrelated(ts) && Shaped(SHARED) && AllNoAlias(w.disk, ts)
      && Harmless(env, cfg, w.(changed := {}), ts, [FINE], ts)
      && ErrorFree(es) && !PermMode(SHARED.op)
      && !AllSkipped(Deploy(env, cfg, w1, ts, [FINE]).1)
  {
    var cfg, w, ts := Config(false, 0, ""), SharedDir(), [SHARED];
    var op := SHARED.op;
    DigitsOfFour("1777");
    assert ParseUint(op.mode) == Some(1023);
    TopLevel(env, w.disk, "shared");
    assert Judge(env, w.disk, op).Dirty?;
    var (w1, e) := Execute(env, cfg, w, SHARED, FINE);
    assert e.status == Changed && w1.disk == map["shared" := Dir(511, 0, 0)];
    OneTask(env, cfg, w, ts[0], FINE);
    PlanConverges(env, cfg, w, ts, [FINE], [FINE]);
  }

  // ---------- mode "755": deployed, and reported as drifted ----------

  const LOOSE := Task("copy", Copy("f", Some([]), "", "755"), [])
  const NOTHING := World(map[], map[], map[], {})

  function Copied(env: Env): World {
    World(map["f" := File([], 493, env.uid, env.gid)], map[], map["f" := FileRec(env.sha([]), "755", [])], {"f"})
  }

  lemma LooseCopies(env: Env)
    ensures Execute(env, Config(false, 0, ""), NOTHING, LOOSE, FINE)
         == (Copied(env), Event(TaskId("copy"), Changed, "f"))
  {
    ThreeDigits("755");
    assert ParseUint(LOOSE.op.mode) == Some(493);
    StatIsLstat(env, NOTHING.disk, "f");
    assert Ancestors("f") == {};
    assert Judge(env, NOTHING.disk, LOOSE.op).Dirty?;
    assert MakeDirs(env, NOTHING.disk, {}, DEFAULT_DIR_MODE) == map[];
    assert NOTHING.disk - {"f" + DEPLOY_TMP} == map[];
    assert Effect(env, NOTHING.disk, LOOSE.op) == Some(Copied(env).disk);
    assert NOTHING.files["f" := Copied(env).files["f"]] == Copied(env).files && NOTHING.changed + {"f"} == {"f"};
  }

  lemma CopiedDrifts(env: Env)
    ensures StatusOf(env, Copied(env), "f") == Drift
  {
    TopLevel(env, Copied(env).disk, "f");
    assert |FmtMode(493)| == 4;
  }

  lemma ThreeDigitModeDrifts(env: Env)
    ensures var cfg, ts := Config(false, 0, ""), [LOOSE];
      var (w1, es) := Deploy(env, cfg, NOTHING, ts, [FINE]);
      && Unrelated(ts) && Shaped(LOOSE) && AllNoAlias(NOTHING.disk, ts)
      && Harmless(env, cfg, NOTHING.(changed := {}), ts, [FINE], ts)
      && ErrorFree(es) && "f" in w1.files && StatusOf(env, w1, "f") == Drift
  {
    hide Execute, StatusOf;
    LooseCopies(env);
    CopiedDrifts(env);
    OneTask(env, Config(false, 0, ""), NOTHING, LOOSE, FINE);
  }

  // ---------- a write that fails after archiving ----------

  const OLD: Disk := map["f" := File([], 420, 0, 0)]
  const LOCK_DOWN := Task("copy", Copy("f", Some([]), "", "0600"), [])

  lemma LockDownOverwrites(env: Env, w: World, io: Io)
    requires w.disk == OLD && !io.fault.AtInspect? && !io.fault.AtArchive?
    ensures Overwrites(env, Config(false, 1, ""), w, LOCK_DOWN, io)
    ensures Stat(env, w.disk, "f") == Found("f", OLD["f"])
  {
    DigitsOfFour("0600");
    assert ParseUint("0600") == Some(384);
    TopLevel(env, OLD, "f");
  }

  lemma FailedWriteLeavesOrphan(env: Env)
    ensures var acts := [Deployed(Config(false, 1, ""), [LOCK_DOWN], [Io(AtEffect, "a", {}, OLD)])];
      PossibleRun(env, Untouched(OLD), acts) && !Exact(env, Run(env, Untouched(OLD), acts).w)
  {
    var cfg, io := Config(false, 1, ""), Io(AtEffect, "a", {}, OLD);
    var act := Deployed(cfg, [LOCK_DOWN], [io]);
    var g := Untouched(OLD);
    LockDownOverwrites(env, g.w, io);
    assert g.(w := g.w.(changed := {})) == g;
    OneTaskTrail(env, cfg, g, LOCK_DOWN, io);
    assert [LOCK_DOWN][1..] == [] && [io][1..] == [] && [act][1..] == [];
    assert Possible(env, g.w, act);
    assert After(env, g, act) == AfterTask(env, cfg, g, LOCK_DOWN, io);
    assert !Run(env, g, [act]).clean;
    EveryRun(env, OLD, [act]);
  }

  // ---------- a preview that promises what the archive store no longer has ----------

  /** A file with one archived version, in a tidy store. */
  function Backup(env: Env): World {
    World(OLD, map["a" := []], map["f" := FileRec(env.sha([]), "0600", [Entry(env.sha([]), "0644", "a", "")])], {})
  }

  lemma ArchiveGone(env: Env)
    ensures var (w1, e) := Execute(env, Config(false, 1, ""), Backup(env), LOCK_DOWN, Io(AtEffect, "b", {}, OLD));
      Exact(env, Backup(env)) && e.status == Error && w1.files == Backup(env).files && "a" !in w1.archives
  {
    hide Execute;
    var w, cfg, io := Backup(env), Config(false, 1, ""), Io(AtEffect, "b", {}, OLD);
    LockDownOverwrites(env, w, io);
    assert HasEntry(w.files, "f", 0) && ArchiveAt(w.files, "f", 0) == "a";
    assert Exact(env, w);
    TaskLoud(env, cfg, w, LOCK_DOWN, io);
    FailedWriteKeepsNewest(env, cfg, w, LOCK_DOWN, io, 0);
  }

  /** With one version kept, an overwrite whose write fails has already deleted the only archive: the preview
      promises a restore and the rollback reports an error. */
  lemma PreviewPromisesTooMuch(env: Env)
    ensures var w1 := Execute(env, Config(false, 1, ""), Backup(env), LOCK_DOWN, Io(AtEffect, "b", {}, OLD)).0;
      && Lists(["f"], w1.files) && Distinct(w1.files) && NoTmpClash(w1.files)
      && PreviewFrom(w1.files, ["f"], 0, 1, "") == [Event(RollbackId(1), WouldChange, "f")]
      && RollbackFrom(env, w1, ["f"], 0, 1, "", [FINE]).1 == [Event(RollbackId(1), Error, "f")]
  {
    hide Execute, Exact, Restorable;
    ArchiveGone(env);
    var w1 := Execute(env, Config(false, 1, ""), Backup(env), LOCK_DOWN, Io(AtEffect, "b", {}, OLD)).0;
    assert !Backed(w1, "f", 1);
    assert PreviewFrom(w1.files, ["f"], 1, 1, "") == [];
    assert RollbackFrom(env, w1, ["f"], 1, 1, "", [FINE]) == (w1, []);
  }

  // ---------- two steps back where there is only one ----------

  /** A quiet rollback of the one tracked file. */
  function Alone(d: Disk): Sweep { Sweep(["f"], [Io(NoFault, "", {}, d)]) }

  lemma AloneIsQuiet(env: Env, w: World, k: nat)
    requires k >= 1 && w.files.Keys == {"f"}
    ensures Quiet(env, w, k, "", Alone(w.disk))
  {
    hide Turn;
    var s := Alone(w.disk);
    assert s.order[0] in w.files && forall p :: p in s.order <==> p in w.files;
    TurnRows(env, w, "f", k, "", s.ios[0]);
    assert Tidy(env, Turn(env, w, "f", k, "", s.ios[0]).0, s.order, 1, k, "", s.ios);
  }

  /** One version and two steps: the first step restores it and the second fails, while two at once fail and
      restore nothing. */
  lemma TwoStepsAreNotOne(env: Env)
    ensures var w := Backup(env);
      && Apart(w) && Readable(w, "") && Restorable(w.disk, "f") && Quiet(env, w, 1, "", Alone(w.disk))
      && Quiet(env, w, 2, "", Alone(w.disk))
      && var w1 := Swept(env, w, 1, "", Alone(w.disk));
      && Quiet(env, w1, 1, "", Alone(w1.disk))
      && Swept(env, w1, 1, "", Alone(w1.disk)).files != Swept(env, w, 2, "", Alone(w.disk)).files
  {
    hide Swept, Quiet, Execute, Run;
    var w := Backup(env);
    TopLevel(env, OLD, "f");
    assert Apart(w) by { ArchiveGone(env); }
    assert Readable(w, "") by { DigitsOfFour("0644"); }
    AloneIsQuiet(env, w, 1);
    AloneIsQuiet(env, w, 2);
    SweptWhole(env, w, 1, "", Alone(w.disk));
    var w1 := Swept(env, w, 1, "", Alone(w.disk));
    AloneIsQuiet(env, w1, 1);
    ComposesByDepth(w, 1, 1, "");
    RulebookComposes(env, w, 1, 1, "", Alone(w.disk), Alone(w1.disk), Alone(w.disk));
  }

  // ---------- two versions of one dependency ----------

  lemma TwoVersionsNeverSettle(remote: L.Remote)
    requires L.WellFormed(remote)
    ensures var deps := [L.Dep("a", "g", "1111111"), L.Dep("a", "g", "2222222")];
      && L.Pins(deps, [], remote).Some?
      && L.Pins(deps, L.Entries(L.Pins(deps, [], remote).value), remote) == None
  {
    var deps := [L.Dep("a", "g", "1111111"), L.Dep("a", "g", "2222222")];
    assert L.IsSha("1111111") && L.IsSha("2222222");
    assert L.PinFor(deps[0], [], remote).Some? && L.PinFor(deps[1], [], remote).Some?;
    assert L.Pins(deps, [], remote).Some?;
    assert !L.Agree(deps) by {
      assert deps[0].name == deps[1].name && deps[0].version[0] != deps[1].version[0];
    }
    L.ReconcileFixpoint(deps, [], remote);
  }

  // ---------- a byte that is not UTF-8 ----------

  lemma InvalidByteIsLost()
    ensures Q.MyLiteral([Q.QUOTE] + Q.MyEscapeAll([Q.Invalid(0x80)]) + [Q.QUOTE]) == Some(([Q.REPLACEMENT], []))
  {
    var s := [Q.Invalid(0x80)];
    assert s[1..] == [] && Q.MyEscapeAll(s) == [Q.REPLACEMENT] + [];
    var text := [Q.QUOTE] + Q.MyEscapeAll(s) + [Q.QUOTE];
    assert text == [Q.QUOTE, Q.REPLACEMENT, Q.QUOTE];
    assert text[1..] == [Q.REPLACEMENT, Q.QUOTE] && text[1..][1..] == [Q.QUOTE] && [Q.QUOTE][1..] == [];
    assert Q.MyRest([Q.QUOTE]) == Some(([], []));
    assert [Q.REPLACEMENT] + [] == [Q.REPLACEMENT];
  }
}
