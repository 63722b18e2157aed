/** What `use:` expansion computes, and what it means. */
module Expansions {
  import opened Options
  import opened Rulebooks

  // ---------- rendering ----------

  predicate Templated(s: string) {
    exists i :: 0 <= i < |s| - 1 && s[i] == '{' && s[i + 1] == '{'
  }

  /** `renderString`: a string without `{{` is left alone. */
  function Render(pj: Project, s: string, vars: Vars): Option<string> {
    if Templated(s) then pj.engine(s, vars) else Some(s)
  }

  function RenderAll(pj: Project, ss: seq<string>, vars: Vars): (r: Option<seq<string>>)
    ensures r.Some? ==> |r.value| == |ss| && forall i :: 0 <= i < |ss| ==> Render(pj, ss[i], vars) == Some(r.value[i])
    ensures r.None? ==> exists i :: 0 <= i < |ss| && Render(pj, ss[i], vars) == None
  {
    if ss == [] then Some([])
    else match (Render(pj, ss[0], vars), RenderAll(pj, ss[1..], vars))
      case (Some(x), Some(xs)) => Some([x] + xs)
      case _ => None
  }

  /** The value `use.vars` hands down: strings are rendered against the caller's variables. */
  function PreValue(pj: Project, v: Value, vars: Vars): Option<Value> {
    match v
    case Other(_) => Some(v)
    case Text(s) =>
      match Render(pj, s, vars)
      case Some(r) => Some(Text(r))
      case None => None
  }

  function PreRender(pj: Project, use: Vars, vars: Vars): Option<Vars> {
    if forall k | k in use :: PreValue(pj, use[k], vars).Some? then
      Some(map k | k in use :: PreValue(pj, use[k], vars).value)
    else None
  }

  /** Module defaults, then the caller's variables, then the pre-rendered `use.vars`; later wins. */
  function Merged(module_: Vars, caller: Vars, use: Vars): Vars { module_ + caller + use }

  function Abs(pj: Project, dir: string, p: string): string {
    if p == "" || IsAbs(p) then p else pj.join(dir, p)
  }

  function AbsAll(pj: Project, dir: string, ps: seq<string>): (r: seq<string>)
    ensures |r| == |ps|
  {
    seq(|ps|, i requires 0 <= i < |ps| => Abs(pj, dir, ps[i]))
  }

  /** A spliced task: paths absolute, then every string rendered, then the variables stamped. */
  function Finish(pj: Project, t: Task, dir: string, vars: Vars): Option<Task> {
    match (RenderAll(pj, AbsAll(pj, dir, t.paths), vars), RenderAll(pj, t.texts, vars))
    case (Some(ps), Some(ts)) =>
      Some(t.(paths := ps, texts := ts, effective := if t.effective.None? then Some(vars) else t.effective))
    case _ => None
  }

  function FinishAll(pj: Project, ts: seq<Task>, dir: string, vars: Vars): (r: Option<seq<Task>>)
    ensures r.Some? ==> |r.value| == |ts| && forall i :: 0 <= i < |ts| ==>
      Finish(pj, ts[i], dir, vars) == Some(r.value[i])
    ensures r.None? ==> exists i :: 0 <= i < |ts| && Finish(pj, ts[i], dir, vars) == None
  {
    if ts == [] then Some([])
    else match (Finish(pj, ts[0], dir, vars), FinishAll(pj, ts[1..], dir, vars))
      case (Some(x), Some(xs)) => Some([x] + xs)
      case _ => None
  }

  // ---------- expansion with the visited set ----------

  function Prepend(xs: seq<Task>, r: Option<seq<Task>>): Option<seq<Task>> {
    match r
    case Some(ys) => Some(xs + ys)
    case None => None
  }

  /** `expandUseTasks`; None stands for every error. */
  function Expand(pj: Project, tasks: seq<Task>, dir: string, phase: string, vars: Vars,
                  visited: set<string>): Option<seq<Task>>
    decreases Keys(pj) - visited, |tasks|
  {
    if tasks == [] then Some([])
    else
      match ExpandTask(pj, tasks[0], dir, phase, vars, visited)
      case Some(xs) => Prepend(xs, Expand(pj, tasks[1..], dir, phase, vars, visited))
      case None => None
  }

  lemma ResolveInKeys(pj: Project, use: string, dir: string, phase: string)
    ensures Resolve(pj, use, dir, phase).Some? ==>
      Reachable(pj, Resolve(pj, use, dir, phase).value) && Resolve(pj, use, dir, phase).value.key in Keys(pj)
  {
    if Resolve(pj, use, dir, phase).Some? {
      ReachableInKeys(pj, Resolve(pj, use, dir, phase).value);
    }
  }

  function ExpandTask(pj: Project, t: Task, dir: string, phase: string, vars: Vars,
                      visited: set<string>): Option<seq<Task>>
    decreases Keys(pj) - visited, 0
  {
    if t.use == "" then (if t.vars == map[] then Some([t]) else None)
    else
      match Resolve(pj, t.use, dir, phase)
      case None => None
      case Some(m) =>
        if m.key in visited then None
        else
          match PreRender(pj, t.vars, vars)
          case None => None
          case Some(u) =>
            var merged := Merged(m.vars, vars, u);
            ResolveInKeys(pj, t.use, dir, phase);
            match Expand(pj, m.tasks, m.dir, ExtractPhase(m.key), merged, visited + {m.key})
            case None => None
            case Some(xs) => FinishAll(pj, xs, m.dir, merged)
  }

  // ---------- plain unfolding, no visited set ----------

  /** The in-order unfolding of the use-graph, n levels deep at most. */
  function Unfold(pj: Project, tasks: seq<Task>, dir: string, phase: string, vars: Vars, n: nat): Option<seq<Task>>
    decreases n, |tasks|
  {
    if tasks == [] then Some([])
    else
      match UnfoldTask(pj, tasks[0], dir, phase, vars, n)
      case Some(xs) => Prepend(xs, Unfold(pj, tasks[1..], dir, phase, vars, n))
      case None => None
  }

  function UnfoldTask(pj: Project, t: Task, dir: string, phase: string, vars: Vars, n: nat): Option<seq<Task>>
    decreases n, 0
  {
    if t.use == "" then (if t.vars == map[] then Some([t]) else None)
    else if n == 0 then None
    else
      match Resolve(pj, t.use, dir, phase)
      case None => None
      case Some(m) =>
        match PreRender(pj, t.vars, vars)
        case None => None
        case Some(u) =>
          var merged := Merged(m.vars, vars, u);
          match Unfold(pj, m.tasks, m.dir, ExtractPhase(m.key), merged, n - 1)
          case None => None
          case Some(xs) => FinishAll(pj, xs, m.dir, merged)
  }

  /** The use-graph below a task list bottoms out within n levels: nothing about it depends on variables. */
  predicate Closes(pj: Project, tasks: seq<Task>, dir: string, phase: string, n: nat)
    decreases n, 1
  {
    forall i | 0 <= i < |tasks| :: ClosesTask(pj, tasks[i], dir, phase, n)
  }

  predicate ClosesTask(pj: Project, t: Task, dir: string, phase: string, n: nat)
    decreases n, 0
  {
    if t.use == "" then t.vars == map[]
    else n > 0 && Resolve(pj, t.use, dir, phase).Some? && ClosesTarget(pj, Resolve(pj, t.use, dir, phase).value, n - 1)
  }

  predicate ClosesTarget(pj: Project, m: Target, n: nat)
    decreases n, 2
  {
    Closes(pj, m.tasks, m.dir, ExtractPhase(m.key), n)
  }

  lemma {:induction false} ClosesMore(pj: Project, tasks: seq<Task>, dir: string, phase: string, n: nat, k: nat)
    requires n <= k && Closes(pj, tasks, dir, phase, n)
    ensures Closes(pj, tasks, dir, phase, k)
    decreases n
  {
    hide Resolve, ExtractPhase;
    forall i | 0 <= i < |tasks| ensures ClosesTask(pj, tasks[i], dir, phase, k) {
      assert ClosesTask(pj, tasks[i], dir, phase, n);
      if tasks[i].use != "" {
        var m := Resolve(pj, tasks[i].use, dir, phase).value;
        assert ClosesTarget(pj, m, n - 1);
        ClosesMore(pj, m.tasks, m.dir, ExtractPhase(m.key), n - 1, k - 1);
      }
    }
  }

  lemma ClosesTail(pj: Project, tasks: seq<Task>, dir: string, phase: string, n: nat)
    requires tasks != []
    ensures Closes(pj, tasks, dir, phase, n) <==>
      ClosesTask(pj, tasks[0], dir, phase, n) && Closes(pj, tasks[1..], dir, phase, n)
  {
    hide Resolve, ExtractPhase;
    if ClosesTask(pj, tasks[0], dir, phase, n) && Closes(pj, tasks[1..], dir, phase, n) {
      forall i | 0 <= i < |tasks| ensures ClosesTask(pj, tasks[i], dir, phase, n) {
        if i > 0 { assert ClosesTask(pj, tasks[1..][i - 1], dir, phase, n); }
      }
    }
    if Closes(pj, tasks, dir, phase, n) {
      forall i | 0 <= i < |tasks[1..]| ensures ClosesTask(pj, tasks[1..][i], dir, phase, n) {
        assert ClosesTask(pj, tasks[i + 1], dir, phase, n);
      }
    }
  }

  /** Beyond the depth at which a list closes, unfolding deeper changes nothing. */
  lemma {:induction false} UnfoldStable(pj: Project, tasks: seq<Task>, dir: string, phase: string, vars: Vars, n: nat,
                                        k: nat)
    requires n <= k && Closes(pj, tasks, dir, phase, n)
    ensures Unfold(pj, tasks, dir, phase, vars, n) == Unfold(pj, tasks, dir, phase, vars, k)
    decreases n, |tasks|
  {
    hide Resolve, ExtractPhase, PreRender, FinishAll, Keys, Closes, Merged;
    if tasks != [] {
      ClosesTail(pj, tasks, dir, phase, n);
      UnfoldStable(pj, tasks[1..], dir, phase, vars, n, k);
      var t := tasks[0];
      if t.use != "" {
        var m := Resolve(pj, t.use, dir, phase).value;
        match PreRender(pj, t.vars, vars)
        case None =>
        case Some(u) => UnfoldStable(pj, m.tasks, m.dir, ExtractPhase(m.key), Merged(m.vars, vars, u), n - 1, k - 1);
      }
    }
  }

  lemma {:induction false} UnfoldCloses(pj: Project, tasks: seq<Task>, dir: string, phase: string, vars: Vars, n: nat)
    requires Unfold(pj, tasks, dir, phase, vars, n).Some?
    ensures Closes(pj, tasks, dir, phase, n)
    decreases n, |tasks|
  {
    hide Resolve, ExtractPhase, PreRender, FinishAll, Keys;
    if tasks != [] {
      var t := tasks[0];
      if t.use != "" {
        var m := Resolve(pj, t.use, dir, phase).value;
        var u := PreRender(pj, t.vars, vars).value;
        UnfoldCloses(pj, m.tasks, m.dir, ExtractPhase(m.key), Merged(m.vars, vars, u), n - 1);
      }
      UnfoldCloses(pj, tasks[1..], dir, phase, vars, n);
      ClosesTail(pj, tasks, dir, phase, n);
    }
  }

  /** A successful expansion has met every key at most once on any path, so it closes within the unused keys. */
  lemma {:induction false} ExpandCloses(pj: Project, tasks: seq<Task>, dir: string, phase: string, vars: Vars,
                                        visited: set<string>)
    requires Expand(pj, tasks, dir, phase, vars, visited).Some?
    ensures Closes(pj, tasks, dir, phase, |Keys(pj) - visited|)
    decreases Keys(pj) - visited, |tasks|
  {
    hide Resolve, ExtractPhase, PreRender, FinishAll, Keys, Merged;
    if tasks != [] {
      var n := |Keys(pj) - visited|;
      var t := tasks[0];
      if t.use != "" {
        var m := Resolve(pj, t.use, dir, phase).value;
        var u := PreRender(pj, t.vars, vars).value;
        ResolveInKeys(pj, t.use, dir, phase);
        var rest := Keys(pj) - (visited + {m.key});
        assert Keys(pj) - visited == rest + {m.key} && |Keys(pj) - visited| == |rest| + 1;
        ExpandCloses(pj, m.tasks, m.dir, ExtractPhase(m.key), Merged(m.vars, vars, u), visited + {m.key});
      }
      ExpandCloses(pj, tasks[1..], dir, phase, vars, visited);
      ClosesTail(pj, tasks, dir, phase, n);
    }
  }

  function StackKeys(stack: seq<Target>): set<string> {
    set i | 0 <= i < |stack| :: stack[i].key
  }

  /** No module on the stack closes in fewer than n levels: none can turn up below a list that does. */
  ghost predicate Barred(pj: Project, stack: seq<Target>, n: nat) {
    forall i | 0 <= i < |stack| :: Reachable(pj, stack[i]) && (n > 0 ==> !ClosesTarget(pj, stack[i], n - 1))
  }

  lemma {:induction false} Least(pj: Project, m: Target, n: nat) returns (k: nat)
    requires ClosesTarget(pj, m, n)
    ensures k <= n && ClosesTarget(pj, m, k) && (k > 0 ==> !ClosesTarget(pj, m, k - 1))
  {
    if n > 0 && ClosesTarget(pj, m, n - 1) {
      k := Least(pj, m, n - 1);
    } else {
      k := n;
    }
  }

  lemma BarredBelow(pj: Project, stack: seq<Target>, n: nat, m: Target, k: nat)
    requires Barred(pj, stack, n) && Reachable(pj, m) && k < n && (k > 0 ==> !ClosesTarget(pj, m, k - 1))
    ensures Barred(pj, stack + [m], k) && StackKeys(stack + [m]) == StackKeys(stack) + {m.key}
  {
    hide Resolve, ExtractPhase, PreRender, FinishAll, Keys;
    forall i | 0 <= i < |stack| ensures k > 0 ==> !ClosesTarget(pj, stack[i], k - 1) {
      if k > 0 && ClosesTarget(pj, stack[i], k - 1) {
        ClosesMore(pj, stack[i].tasks, stack[i].dir, ExtractPhase(stack[i].key), k - 1, n - 1);
      }
    }
    var s := stack + [m];
    assert StackKeys(s) == StackKeys(stack) + {m.key} by {
      forall x ensures x in StackKeys(s) <==> x in StackKeys(stack) + {m.key} {
        if x in StackKeys(stack) { var i :| 0 <= i < |stack| && stack[i].key == x; assert s[i].key == x; }
        if x == m.key { assert s[|stack|].key == x; }
      }
    }
  }

  lemma NotOnStack(pj: Project, stack: seq<Target>, n: nat, m: Target)
    requires n > 0 && Barred(pj, stack, n) && Reachable(pj, m) && ClosesTarget(pj, m, n - 1)
    ensures m.key !in StackKeys(stack)
  {
    hide Resolve, ExtractPhase, PreRender, FinishAll, Keys;
    if m.key in StackKeys(stack) {
      var i :| 0 <= i < |stack| && stack[i].key == m.key;
      KeyDetermines(pj, stack[i], m);
    }
  }

  /** Where the use-graph closes, expansion never meets a visited key and is plain unfolding. */
  lemma {:induction false} ExpandIsUnfold(pj: Project, tasks: seq<Task>, dir: string, phase: string, vars: Vars,
                                          stack: seq<Target>, n: nat)
    requires Closes(pj, tasks, dir, phase, n) && Barred(pj, stack, n)
    ensures Expand(pj, tasks, dir, phase, vars, StackKeys(stack)) == Unfold(pj, tasks, dir, phase, vars, n)
    decreases n, |tasks|
  {
    hide Resolve, ExtractPhase, PreRender, FinishAll, Keys, Closes, StackKeys, Barred, Reachable, Merged;
    if tasks != [] {
      ClosesTail(pj, tasks, dir, phase, n);
      ExpandIsUnfold(pj, tasks[1..], dir, phase, vars, stack, n);
      var t := tasks[0];
      if t.use != "" {
        var m := Resolve(pj, t.use, dir, phase).value;
        ResolveInKeys(pj, t.use, dir, phase);
        NotOnStack(pj, stack, n, m);
        match PreRender(pj, t.vars, vars)
        case None =>
        case Some(u) =>
          var merged := Merged(m.vars, vars, u);
          var k := Least(pj, m, n - 1);
          BarredBelow(pj, stack, n, m, k);
          ExpandIsUnfold(pj, m.tasks, m.dir, ExtractPhase(m.key), merged, stack + [m], k);
          UnfoldStable(pj, m.tasks, m.dir, ExtractPhase(m.key), merged, k, n - 1);
      }
    }
  }

  /** Expansion succeeds exactly when some finite unfolding does, and with the same tasks; the number of
      visit keys is depth enough. */
  lemma ExpandMeansUnfolding(pj: Project, tasks: seq<Task>, dir: string, phase: string, vars: Vars, x: seq<Task>)
    ensures Expand(pj, tasks, dir, phase, vars, {}) == Some(x) <==>
      exists n :: Unfold(pj, tasks, dir, phase, vars, n) == Some(x)
    ensures Expand(pj, tasks, dir, phase, vars, {}) == Some(x) ==>
      Unfold(pj, tasks, dir, phase, vars, |Keys(pj)|) == Some(x)
  {
    hide Resolve, ExtractPhase, PreRender, FinishAll, Keys;
    assert StackKeys([]) == {};
    if Expand(pj, tasks, dir, phase, vars, {}) == Some(x) {
      ExpandCloses(pj, tasks, dir, phase, vars, {});
      assert Keys(pj) - {} == Keys(pj);
      ExpandIsUnfold(pj, tasks, dir, phase, vars, [], |Keys(pj)|);
    }
    if n :| Unfold(pj, tasks, dir, phase, vars, n) == Some(x) {
      UnfoldCloses(pj, tasks, dir, phase, vars, n);
      ExpandIsUnfold(pj, tasks, dir, phase, vars, [], n);
    }
  }

  // ---------- paths in the use-graph ----------

  ghost predicate Edge(pj: Project, tasks: seq<Task>, dir: string, phase: string, m: Target) {
    exists i :: 0 <= i < |tasks| && tasks[i].use != "" && Resolve(pj, tasks[i].use, dir, phase) == Some(m)
  }

  /** ms is a path of modules, each used by the one before, the first by the given task list. */
  ghost predicate Path(pj: Project, tasks: seq<Task>, dir: string, phase: string, ms: seq<Target>)
    decreases |ms|
  {
    ms == [] || (Edge(pj, tasks, dir, phase, ms[0])
      && Path(pj, ms[0].tasks, ms[0].dir, ExtractPhase(ms[0].key), ms[1..]))
  }

  /** Every `use:` of the list resolves, and `vars:` stands on `use:` tasks only. */
  predicate Sound(pj: Project, tasks: seq<Task>, dir: string, phase: string) {
    forall t | t in tasks :: if t.use == "" then t.vars == map[] else Resolve(pj, t.use, dir, phase).Some?
  }

  /** The list at the end of a path. */
  ghost predicate SoundAfter(pj: Project, tasks: seq<Task>, dir: string, phase: string, ms: seq<Target>) {
    if ms == [] then Sound(pj, tasks, dir, phase)
    else Sound(pj, ms[|ms| - 1].tasks, ms[|ms| - 1].dir, ExtractPhase(ms[|ms| - 1].key))
  }

  ghost predicate NoRepeat(ms: seq<Target>) {
    forall i, j | 0 <= i < j < |ms| :: ms[i].key != ms[j].key
  }

  /** Everything reachable resolves and no path meets a visit key twice. Diamonds are fine. */
  ghost predicate WellFounded(pj: Project, tasks: seq<Task>, dir: string, phase: string) {
    forall ms :: Path(pj, tasks, dir, phase, ms) ==> NoRepeat(ms) && SoundAfter(pj, tasks, dir, phase, ms)
  }

  lemma {:induction false} PathReachable(pj: Project, tasks: seq<Task>, dir: string, phase: string, ms: seq<Target>,
                                         i: nat)
    requires Path(pj, tasks, dir, phase, ms) && i < |ms|
    ensures Reachable(pj, ms[i]) && Path(pj, ms[i].tasks, ms[i].dir, ExtractPhase(ms[i].key), ms[i + 1..])
    decreases |ms|
  {
    hide Resolve, ExtractPhase;
    if i > 0 {
      PathReachable(pj, ms[0].tasks, ms[0].dir, ExtractPhase(ms[0].key), ms[1..], i - 1);
      assert ms[1..][i..] == ms[i + 1..];
    }
  }

  lemma {:induction false} PathTake(pj: Project, tasks: seq<Task>, dir: string, phase: string, ms: seq<Target>, i: nat)
    requires Path(pj, tasks, dir, phase, ms) && i <= |ms|
    ensures Path(pj, tasks, dir, phase, ms[..i])
    decreases |ms|
  {
    hide Resolve, ExtractPhase;
    if i > 0 {
      PathTake(pj, ms[0].tasks, ms[0].dir, ExtractPhase(ms[0].key), ms[1..], i - 1);
      assert ms[..i][1..] == ms[1..][..i - 1];
    }
  }

  lemma {:induction false} PathSnoc(pj: Project, tasks: seq<Task>, dir: string, phase: string, ms: seq<Target>,
                                    m: Target)
    requires Path(pj, tasks, dir, phase, ms)
    ensures ms == [] && Edge(pj, tasks, dir, phase, m) ==> Path(pj, tasks, dir, phase, ms + [m])
    ensures ms != [] && Edge(pj, ms[|ms| - 1].tasks, ms[|ms| - 1].dir, ExtractPhase(ms[|ms| - 1].key), m) ==>
      Path(pj, tasks, dir, phase, ms + [m])
    decreases |ms|
  {
    hide Resolve, ExtractPhase;
    if ms == [] {
      assert [m][1..] == [];
    } else {
      PathSnoc(pj, ms[0].tasks, ms[0].dir, ExtractPhase(ms[0].key), ms[1..], m);
      assert (ms + [m])[1..] == ms[1..] + [m];
    }
  }

  lemma ClosesAt(pj: Project, tasks: seq<Task>, dir: string, phase: string, n: nat, i: nat)
    requires Closes(pj, tasks, dir, phase, n) && i < |tasks|
    ensures ClosesTask(pj, tasks[i], dir, phase, n)
  {
  }

  /** Each step along a path uses up one level. */
  lemma {:induction false} PathDescends(pj: Project, tasks: seq<Task>, dir: string, phase: string, ms: seq<Target>,
                                        n: nat)
    requires Path(pj, tasks, dir, phase, ms) && Closes(pj, tasks, dir, phase, n)
    ensures |ms| <= n
    ensures ms != [] ==> ClosesTarget(pj, ms[|ms| - 1], n - |ms|)
    decreases |ms|
  {
    hide Resolve, ExtractPhase, Closes;
    if ms != [] {
      var i :| 0 <= i < |tasks| && tasks[i].use != "" && Resolve(pj, tasks[i].use, dir, phase) == Some(ms[0]);
      ClosesAt(pj, tasks, dir, phase, n, i);
      PathDescends(pj, ms[0].tasks, ms[0].dir, ExtractPhase(ms[0].key), ms[1..], n - 1);
    }
  }

  lemma ClosesSound(pj: Project, tasks: seq<Task>, dir: string, phase: string, n: nat)
    requires Closes(pj, tasks, dir, phase, n)
    ensures Sound(pj, tasks, dir, phase)
  {
    hide Resolve;
    forall t | t in tasks ensures if t.use == "" then t.vars == map[] else Resolve(pj, t.use, dir, phase).Some? {
      var i :| 0 <= i < |tasks| && tasks[i] == t;
      assert ClosesTask(pj, tasks[i], dir, phase, n);
    }
  }

  lemma ClosedPairDiffers(pj: Project, tasks: seq<Task>, dir: string, phase: string, ms: seq<Target>, i: nat, j: nat,
                          n: nat)
    requires Path(pj, tasks, dir, phase, ms) && Closes(pj, tasks, dir, phase, n)
    ensures i < j < |ms| ==> ms[i].key != ms[j].key
  {
    hide Resolve, ExtractPhase, Path, Closes;
    if i < j < |ms| {
      PathReachable(pj, tasks, dir, phase, ms, i);
      PathReachable(pj, tasks, dir, phase, ms, j);
      PathTake(pj, tasks, dir, phase, ms, i + 1);
      PathDescends(pj, tasks, dir, phase, ms[..i + 1], n);
      var k := Least(pj, ms[i], n - (i + 1));
      var loop := ms[i + 1..][..j - i];
      PathTake(pj, ms[i].tasks, ms[i].dir, ExtractPhase(ms[i].key), ms[i + 1..], j - i);
      PathDescends(pj, ms[i].tasks, ms[i].dir, ExtractPhase(ms[i].key), loop, k);
      assert loop[|loop| - 1] == ms[j];
      if ms[i].key == ms[j].key {
        KeyDetermines(pj, ms[i], ms[j]);
        ClosesMore(pj, ms[i].tasks, ms[i].dir, ExtractPhase(ms[i].key), k - (j - i), k - 1);
      }
    }
  }

  /** A module met twice on one path would close in fewer levels than the fewest it closes in. */
  lemma {:induction false} ClosedPathNoRepeat(pj: Project, tasks: seq<Task>, dir: string, phase: string,
                                              ms: seq<Target>, n: nat)
    requires Path(pj, tasks, dir, phase, ms) && Closes(pj, tasks, dir, phase, n)
    ensures NoRepeat(ms)
  {
    hide Path, Closes;
    forall i, j | 0 <= i < j < |ms| ensures ms[i].key != ms[j].key {
      ClosedPairDiffers(pj, tasks, dir, phase, ms, i, j, n);
    }
  }

  lemma {:induction false} ClosesWellFounded(pj: Project, tasks: seq<Task>, dir: string, phase: string, n: nat)
    requires Closes(pj, tasks, dir, phase, n)
    ensures WellFounded(pj, tasks, dir, phase)
  {
    hide Resolve, ExtractPhase;
    forall ms: seq<Target> | Path(pj, tasks, dir, phase, ms)
      ensures NoRepeat(ms) && SoundAfter(pj, tasks, dir, phase, ms)
    {
      PathDescends(pj, tasks, dir, phase, ms, n);
      if ms == [] {
        ClosesSound(pj, tasks, dir, phase, n);
      } else {
        ClosesSound(pj, ms[|ms| - 1].tasks, ms[|ms| - 1].dir, ExtractPhase(ms[|ms| - 1].key), n - |ms|);
      }
      ClosedPathNoRepeat(pj, tasks, dir, phase, ms, n);
    }
  }

  /** A path without repetition is no longer than there are keys. */
  lemma {:induction false} PathBounded(pj: Project, ms: seq<Target>, keys: set<string>)
    requires NoRepeat(ms) && forall i :: 0 <= i < |ms| ==> ms[i].key in keys
    ensures |ms| <= |keys|
    decreases |ms|
  {
    if ms != [] {
      var last := ms[|ms| - 1].key;
      PathBounded(pj, ms[..|ms| - 1], keys - {last});
    }
  }

  lemma {:induction false} PathInKeys(pj: Project, tasks: seq<Task>, dir: string, phase: string, ms: seq<Target>)
    requires WellFounded(pj, tasks, dir, phase) && Path(pj, tasks, dir, phase, ms)
    ensures |ms| <= |Keys(pj)|
  {
    hide Resolve, ExtractPhase, Keys;
    forall i | 0 <= i < |ms| ensures ms[i].key in Keys(pj) {
      PathReachable(pj, tasks, dir, phase, ms, i);
      ReachableInKeys(pj, ms[i]);
    }
    PathBounded(pj, ms, Keys(pj));
  }

  /** Where every path is sound and without repetition, what lies after a path closes in the remaining levels. */
  lemma {:induction false} WellFoundedCloses(pj: Project, tasks: seq<Task>, dir: string, phase: string, ms: seq<Target>)
    requires WellFounded(pj, tasks, dir, phase) && Path(pj, tasks, dir, phase, ms)
    ensures |ms| <= |Keys(pj)|
    ensures ms == [] ==> Closes(pj, tasks, dir, phase, |Keys(pj)|)
    ensures ms != [] ==> ClosesTarget(pj, ms[|ms| - 1], |Keys(pj)| - |ms|)
    decreases |Keys(pj)| - |ms|
  {
    hide Resolve, ExtractPhase, Keys;
    PathInKeys(pj, tasks, dir, phase, ms);
    var (ts, d, ph) :=
      if ms == [] then (tasks, dir, phase)
      else (ms[|ms| - 1].tasks, ms[|ms| - 1].dir, ExtractPhase(ms[|ms| - 1].key));
    assert Sound(pj, ts, d, ph);
    var n := |Keys(pj)| - |ms|;
    forall i | 0 <= i < |ts| ensures ClosesTask(pj, ts[i], d, ph, n) {
      assert ts[i] in ts;
      if ts[i].use != "" {
        var m := Resolve(pj, ts[i].use, d, ph).value;
        assert Edge(pj, ts, d, ph, m);
        PathSnoc(pj, tasks, dir, phase, ms, m);
        PathInKeys(pj, tasks, dir, phase, ms + [m]);
        WellFoundedCloses(pj, tasks, dir, phase, ms + [m]);
      }
    }
  }

  /** The template engine never fails. */
  ghost predicate EngineTotal(pj: Project) {
    forall s, v :: pj.engine(s, v).Some?
  }

  lemma TotalRenders(pj: Project, ss: seq<string>, vars: Vars)
    requires EngineTotal(pj)
    ensures RenderAll(pj, ss, vars).Some?
  {
  }

  lemma TotalFinishes(pj: Project, ts: seq<Task>, dir: string, vars: Vars)
    requires EngineTotal(pj)
    ensures FinishAll(pj, ts, dir, vars).Some?
  {
    if FinishAll(pj, ts, dir, vars).None? {
      var i :| 0 <= i < |ts| && Finish(pj, ts[i], dir, vars) == None;
      TotalRenders(pj, AbsAll(pj, dir, ts[i].paths), vars);
      TotalRenders(pj, ts[i].texts, vars);
    }
  }

  lemma {:induction false} TotalUnfolds(pj: Project, tasks: seq<Task>, dir: string, phase: string, vars: Vars, n: nat)
    requires EngineTotal(pj) && Closes(pj, tasks, dir, phase, n)
    ensures Unfold(pj, tasks, dir, phase, vars, n).Some?
    decreases n, |tasks|
  {
    hide Resolve, ExtractPhase, FinishAll;
    if tasks != [] {
      ClosesTail(pj, tasks, dir, phase, n);
      TotalUnfolds(pj, tasks[1..], dir, phase, vars, n);
      var t := tasks[0];
      if t.use != "" {
        var m := Resolve(pj, t.use, dir, phase).value;
        var merged := Merged(m.vars, vars, PreRender(pj, t.vars, vars).value);
        TotalUnfolds(pj, m.tasks, m.dir, ExtractPhase(m.key), merged, n - 1);
        TotalFinishes(pj, Unfold(pj, m.tasks, m.dir, ExtractPhase(m.key), merged, n - 1).value, m.dir, merged);
      }
    }
  }

  /** With rendering total, expansion succeeds exactly when every reachable `use:` resolves, no `vars:`
      stands on another task, and no path of the use-graph repeats a visit key. */
  lemma ExpandSucceedsIff(pj: Project, tasks: seq<Task>, dir: string, phase: string, vars: Vars)
    requires EngineTotal(pj)
    ensures Expand(pj, tasks, dir, phase, vars, {}).Some? <==> WellFounded(pj, tasks, dir, phase)
  {
    hide Resolve, ExtractPhase, Keys;
    assert StackKeys([]) == {};
    if Expand(pj, tasks, dir, phase, vars, {}).Some? {
      ExpandCloses(pj, tasks, dir, phase, vars, {});
      ClosesWellFounded(pj, tasks, dir, phase, |Keys(pj) - {}|);
    }
    if WellFounded(pj, tasks, dir, phase) {
      WellFoundedCloses(pj, tasks, dir, phase, []);
      ExpandIsUnfold(pj, tasks, dir, phase, vars, [], |Keys(pj)|);
      TotalUnfolds(pj, tasks, dir, phase, vars, |Keys(pj)|);
    }
  }
}
