/** Where a spliced task's paths, strings and variables come from: the module that wrote it. */
module Origins {
  import opened Options
  import opened Rulebooks
  import opened Expansions

  /** One step down the use chain: the module's own defaults and the pre-rendered `use.vars`. */
  datatype Level = Level(defaults: Vars, use: Vars)

  /** A module a task was spliced from, and the variables merged for it there. */
  datatype Home = Home(dir: string, vars: Vars)

  /** A task as written and the chain of modules it was spliced through, outermost first; both lists are
      empty for the rulebook's own tasks. */
  datatype Leaf = Leaf(task: Task, homes: seq<Home>, trail: seq<Level>)

  function Adopt(l: Leaf, home: Home, level: Level): Leaf {
    Leaf(l.task, [home] + l.homes, [level] + l.trail)
  }

  function AdoptAll(ls: seq<Leaf>, home: Home, level: Level): (r: seq<Leaf>)
    ensures |r| == |ls| && forall i :: 0 <= i < |ls| ==> r[i] == Adopt(ls[i], home, level)
  {
    seq(|ls|, i requires 0 <= i < |ls| => Adopt(ls[i], home, level))
  }

  /** The leaves of the use-graph in order, untouched; each remembers the modules on the way to it. */
  function Leaves(pj: Project, tasks: seq<Task>, dir: string, phase: string, vars: Vars, n: nat): Option<seq<Leaf>>
    decreases n, |tasks|
  {
    if tasks == [] then Some([])
    else
      match (LeavesOf(pj, tasks[0], dir, phase, vars, n), Leaves(pj, tasks[1..], dir, phase, vars, n))
      case (Some(xs), Some(ys)) => Some(xs + ys)
      case _ => None
  }

  function LeavesOf(pj: Project, t: Task, dir: string, phase: string, vars: Vars, n: nat): Option<seq<Leaf>>
    decreases n, 0
  {
    if t.use == "" then (if t.vars == map[] then Some([Leaf(t, [], [])]) else None)
    else if n == 0 then None
    else
      match Resolve(pj, t.use, dir, phase)
      case None => None
      case Some(m) =>
        match PreRender(pj, t.vars, vars)
        case None => None
        case Some(u) =>
          var merged := Merged(m.vars, vars, u);
          match Leaves(pj, m.tasks, m.dir, ExtractPhase(m.key), merged, n - 1)
          case None => None
          case Some(ls) => Some(AdoptAll(ls, Home(m.dir, merged), Level(m.vars, u)))
  }

  /** A task finished in its own module, then again in each module around it, going outward. */
  function Place(pj: Project, t: Task, homes: seq<Home>): Option<Task> {
    if homes == [] then Some(t)
    else
      match Place(pj, t, homes[1..])
      case None => None
      case Some(y) => Finish(pj, y, homes[0].dir, homes[0].vars)
  }

  function PlaceAll(pj: Project, ls: seq<Leaf>): (r: Option<seq<Task>>)
    ensures r.Some? ==> |r.value| == |ls| && forall i :: 0 <= i < |ls| ==>
      Place(pj, ls[i].task, ls[i].homes) == Some(r.value[i])
    ensures r.None? ==> exists i :: 0 <= i < |ls| && Place(pj, ls[i].task, ls[i].homes) == None
  {
    if ls == [] then Some([])
    else
      match (Place(pj, ls[0].task, ls[0].homes), PlaceAll(pj, ls[1..]))
      case (Some(x), Some(xs)) => Some([x] + xs)
      case _ => None
  }

  lemma PrependNothing(r: Option<seq<Task>>)
    ensures Prepend([], r) == r
  {
    if r.Some? { assert [] + r.value == r.value; }
  }

  lemma PrependCons(x: Task, xs: seq<Task>, r: Option<seq<Task>>)
    ensures Prepend([x] + xs, r) == match Prepend(xs, r) { case Some(zs) => Some([x] + zs) case None => None }
  {
    if r.Some? { assert ([x] + xs) + r.value == [x] + (xs + r.value); }
  }

  lemma {:induction false} PlaceAllConcat(pj: Project, a: seq<Leaf>, b: seq<Leaf>)
    ensures PlaceAll(pj, a + b) ==
      if PlaceAll(pj, a).Some? then Prepend(PlaceAll(pj, a).value, PlaceAll(pj, b)) else None
  {
    hide Place, Prepend;
    if a == [] {
      assert a + b == b;
      PrependNothing(PlaceAll(pj, b));
    } else {
      assert (a + b)[0] == a[0] && (a + b)[1..] == a[1..] + b;
      PlaceAllConcat(pj, a[1..], b);
      var x, xs := Place(pj, a[0].task, a[0].homes), PlaceAll(pj, a[1..]);
      if x.Some? && xs.Some? { PrependCons(x.value, xs.value, PlaceAll(pj, b)); }
    }
  }

  /** One more module around the leaves is one more finishing pass. */
  lemma {:induction false} PlaceAllAdopted(pj: Project, ls: seq<Leaf>, home: Home, level: Level)
    ensures PlaceAll(pj, AdoptAll(ls, home, level)) ==
      if PlaceAll(pj, ls).Some? then FinishAll(pj, PlaceAll(pj, ls).value, home.dir, home.vars) else None
  {
    hide Finish;
    if ls != [] {
      var outer := AdoptAll(ls, home, level);
      assert outer[1..] == AdoptAll(ls[1..], home, level);
      assert outer[0].homes[1..] == ls[0].homes;
      PlaceAllAdopted(pj, ls[1..], home, level);
      if PlaceAll(pj, ls).Some? {
        var ys := PlaceAll(pj, ls).value;
        assert ys[1..] == PlaceAll(pj, ls[1..]).value;
      }
    }
  }

  lemma NothingPlaced(pj: Project)
    ensures PlaceAll(pj, []) == Some([])
  {
  }

  /** The unfolding, rewriting and rendering at every level, is the leaves in order, each placed outward
      through its own chain of modules; it fails exactly when a leaf cannot be reached or placed. */
  lemma {:induction false} UnfoldPlaces(pj: Project, tasks: seq<Task>, dir: string, phase: string, vars: Vars, n: nat)
    ensures Unfold(pj, tasks, dir, phase, vars, n) ==
      match Leaves(pj, tasks, dir, phase, vars, n) { case Some(ls) => PlaceAll(pj, ls) case None => None }
    decreases n, |tasks|, 1
  {
    hide Resolve, ExtractPhase, PreRender, FinishAll, PlaceAll, Merged;
    if tasks != [] {
      TaskPlaces(pj, tasks[0], dir, phase, vars, n);
      UnfoldPlaces(pj, tasks[1..], dir, phase, vars, n);
      var first, rest := LeavesOf(pj, tasks[0], dir, phase, vars, n), Leaves(pj, tasks[1..], dir, phase, vars, n);
      if first.Some? && rest.Some? { PlaceAllConcat(pj, first.value, rest.value); }
    } else {
      NothingPlaced(pj);
    }
  }

  lemma PlacedAsWritten(pj: Project, t: Task)
    ensures PlaceAll(pj, [Leaf(t, [], [])]) == Some([t])
  {
    NothingPlaced(pj);
    var l := Leaf(t, [], []);
    assert [l][1..] == [] && Place(pj, l.task, l.homes) == Some(t) && [t] + [] == [t];
  }

  lemma {:induction false} TaskPlaces(pj: Project, t: Task, dir: string, phase: string, vars: Vars, n: nat)
    ensures UnfoldTask(pj, t, dir, phase, vars, n) ==
      match LeavesOf(pj, t, dir, phase, vars, n) { case Some(ls) => PlaceAll(pj, ls) case None => None }
    decreases n, 0, 0
  {
    hide Resolve, ExtractPhase, PreRender, FinishAll, PlaceAll, Merged;
    PlacedAsWritten(pj, t);
    if t.use != "" && n > 0 && Resolve(pj, t.use, dir, phase).Some? && PreRender(pj, t.vars, vars).Some? {
      var m, u := Resolve(pj, t.use, dir, phase).value, PreRender(pj, t.vars, vars).value;
      var merged := Merged(m.vars, vars, u);
      UnfoldPlaces(pj, m.tasks, m.dir, ExtractPhase(m.key), merged, n - 1);
      var inner := Leaves(pj, m.tasks, m.dir, ExtractPhase(m.key), merged, n - 1);
      if inner.Some? { PlaceAllAdopted(pj, inner.value, Home(m.dir, merged), Level(m.vars, u)); }
    }
  }

  // ---------- the innermost module decides ----------

  predicate PathsRooted(t: Task) {
    forall p | p in t.paths :: p == "" || IsAbs(p)
  }

  /** `filepath.Join` of an absolute directory is absolute, the engine copies a leading slash through,
      and deps are cloned under absolute directories. */
  ghost predicate RootKept(pj: Project) {
    && (forall d, p :: IsAbs(d) ==> IsAbs(pj.join(d, p)))
    && (forall s, v :: IsAbs(s) && pj.engine(s, v).Some? ==> IsAbs(pj.engine(s, v).value))
    && (forall k | k in pj.depPaths :: IsAbs(pj.depPaths[k]))
  }

  lemma ResolveRooted(pj: Project, use: string, dir: string, phase: string)
    requires RootKept(pj) && IsAbs(dir) && Resolve(pj, use, dir, phase).Some?
    ensures IsAbs(Resolve(pj, use, dir, phase).value.dir)
  {
  }

  /** A finished task's paths are absolute. */
  lemma FinishRooted(pj: Project, t: Task, dir: string, vars: Vars)
    requires RootKept(pj) && IsAbs(dir) && Finish(pj, t, dir, vars).Some?
    ensures PathsRooted(Finish(pj, t, dir, vars).value) && Finish(pj, t, dir, vars).value.effective.Some?
  {
    var y := Finish(pj, t, dir, vars).value;
    forall p | p in y.paths ensures p == "" || IsAbs(p) {
      var i :| 0 <= i < |y.paths| && y.paths[i] == p;
      assert Render(pj, AbsAll(pj, dir, t.paths)[i], vars) == Some(p);
    }
  }

  function InnermostOf(l: Leaf): Home
    requires l.homes != []
  {
    l.homes[|l.homes| - 1]
  }

  /** The variables at the end of a use chain, merged level by level. */
  function Down(vars: Vars, trail: seq<Level>): Vars
    decreases |trail|
  {
    if trail == [] then vars else Down(Merged(trail[0].defaults, vars, trail[0].use), trail[1..])
  }

  /** What reaches a leaf: a task with no `use:` and no `vars:`, through absolute directories, and the
      variables at its home are those its chain merges. */
  ghost predicate Reached(l: Leaf, vars: Vars) {
    && l.task.use == "" && l.task.vars == map[] && |l.homes| == |l.trail|
    && (forall i | 0 <= i < |l.homes| :: IsAbs(l.homes[i].dir))
    && (l.homes != [] ==> InnermostOf(l).vars == Down(vars, l.trail))
  }

  ghost predicate AllReached(ls: seq<Leaf>, vars: Vars) {
    forall i | 0 <= i < |ls| :: Reached(ls[i], vars)
  }

  lemma {:induction false} LeavesReached(pj: Project, tasks: seq<Task>, dir: string, phase: string, vars: Vars, n: nat)
    requires RootKept(pj) && IsAbs(dir) && Leaves(pj, tasks, dir, phase, vars, n).Some?
    ensures AllReached(Leaves(pj, tasks, dir, phase, vars, n).value, vars)
    decreases n, |tasks|, 1
  {
    hide Resolve, ExtractPhase, PreRender, Merged, RootKept, Reached;
    if tasks != [] {
      LeavesOfReached(pj, tasks[0], dir, phase, vars, n);
      LeavesReached(pj, tasks[1..], dir, phase, vars, n);
    }
  }

  lemma ReachedAdopted(l: Leaf, home: Home, level: Level, vars: Vars)
    requires Reached(l, home.vars) && IsAbs(home.dir) && home.vars == Merged(level.defaults, vars, level.use)
    ensures Reached(Adopt(l, home, level), vars)
  {
    var o := Adopt(l, home, level);
    assert o.trail[1..] == l.trail;
    if l.homes == [] {
      assert l.trail == [];
    } else {
      assert InnermostOf(o) == InnermostOf(l);
    }
  }

  lemma {:induction false} LeavesOfReached(pj: Project, t: Task, dir: string, phase: string, vars: Vars, n: nat)
    requires RootKept(pj) && IsAbs(dir) && LeavesOf(pj, t, dir, phase, vars, n).Some?
    ensures AllReached(LeavesOf(pj, t, dir, phase, vars, n).value, vars)
    decreases n, 0, 0
  {
    hide Resolve, ExtractPhase, PreRender, RootKept;
    if t.use != "" {
      hide Reached;
      var m, u := Resolve(pj, t.use, dir, phase).value, PreRender(pj, t.vars, vars).value;
      var merged := Merged(m.vars, vars, u);
      ResolveRooted(pj, t.use, dir, phase);
      LeavesReached(pj, m.tasks, m.dir, ExtractPhase(m.key), merged, n - 1);
      var inner := Leaves(pj, m.tasks, m.dir, ExtractPhase(m.key), merged, n - 1).value;
      forall i | 0 <= i < |inner| ensures Reached(Adopt(inner[i], Home(m.dir, merged), Level(m.vars, u)), vars) {
        ReachedAdopted(inner[i], Home(m.dir, merged), Level(m.vars, u), vars);
      }
    }
  }

  /** A field that rendered to s: it is s for good if s holds no `{{`. */
  predicate Final(rendered: Option<string>, field: string) {
    rendered.Some? && (!Templated(rendered.value) ==> field == rendered.value)
  }

  /** y is t as the module `home` finished it, field by field: each path under that module, rendered there
      and absolute; each string rendered there; the module's variables stamped. */
  ghost predicate DecidedBy(pj: Project, t: Task, home: Home, y: Task) {
    && y.use == t.use && y.vars == t.vars && |y.paths| == |t.paths| && |y.texts| == |t.texts| && PathsRooted(y)
    && y.effective == (if t.effective.None? then Some(home.vars) else t.effective)
    && (forall j | 0 <= j < |t.paths| :: Final(Render(pj, Abs(pj, home.dir, t.paths[j]), home.vars), y.paths[j]))
    && (forall j | 0 <= j < |t.texts| :: Final(Render(pj, t.texts[j], home.vars), y.texts[j]))
  }

  lemma FinishDecides(pj: Project, t: Task, home: Home)
    requires RootKept(pj) && IsAbs(home.dir) && Finish(pj, t, home.dir, home.vars).Some?
    ensures DecidedBy(pj, t, home, Finish(pj, t, home.dir, home.vars).value)
  {
    hide RootKept, Render, Templated;
    FinishRooted(pj, t, home.dir, home.vars);
    var y := Finish(pj, t, home.dir, home.vars).value;
    assert forall j :: 0 <= j < |t.paths| ==> AbsAll(pj, home.dir, t.paths)[j] == Abs(pj, home.dir, t.paths[j]);
  }

  /** Rendering leaves a final field alone, with whatever variables. */
  lemma FinalStays(pj: Project, rendered: Option<string>, field: string, vars: Vars, field': string)
    requires Final(rendered, field) && Render(pj, field, vars) == Some(field')
    ensures Final(rendered, field')
  {
  }

  /** A module further out changes nothing that is decided. */
  lemma OuterFinishKeeps(pj: Project, t: Task, home: Home, y: Task, outer: Home)
    requires RootKept(pj) && DecidedBy(pj, t, home, y) && IsAbs(outer.dir) && Finish(pj, y, outer.dir, outer.vars).Some?
    ensures DecidedBy(pj, t, home, Finish(pj, y, outer.dir, outer.vars).value)
  {
    hide RootKept, Render, Final;
    FinishRooted(pj, y, outer.dir, outer.vars);
    var z := Finish(pj, y, outer.dir, outer.vars).value;
    forall j | 0 <= j < |t.paths| ensures Final(Render(pj, Abs(pj, home.dir, t.paths[j]), home.vars), z.paths[j]) {
      assert y.paths[j] in y.paths;
      assert AbsAll(pj, outer.dir, y.paths)[j] == Abs(pj, outer.dir, y.paths[j]) == y.paths[j];
      FinalStays(pj, Render(pj, Abs(pj, home.dir, t.paths[j]), home.vars), y.paths[j], outer.vars, z.paths[j]);
    }
    forall j | 0 <= j < |t.texts| ensures Final(Render(pj, t.texts[j], home.vars), z.texts[j]) {
      FinalStays(pj, Render(pj, t.texts[j], home.vars), y.texts[j], outer.vars, z.texts[j]);
    }
  }

  lemma {:induction false} PlaceDecides(pj: Project, t: Task, homes: seq<Home>)
    requires RootKept(pj) && homes != []
    requires (forall i | 0 <= i < |homes| :: IsAbs(homes[i].dir)) && Place(pj, t, homes).Some?
    ensures DecidedBy(pj, t, homes[|homes| - 1], Place(pj, t, homes).value)
  {
    hide RootKept, DecidedBy, Finish;
    if |homes| == 1 {
      FinishDecides(pj, t, homes[0]);
    } else {
      PlaceDecides(pj, t, homes[1..]);
      OuterFinishKeeps(pj, t, homes[|homes| - 1], Place(pj, t, homes[1..]).value, homes[0]);
    }
  }

  /** The pass over the whole rulebook that runs after expansion, with the rulebook's variables. */
  function RootRender(pj: Project, t: Task, vars: Vars): (r: Option<Task>)
    ensures r.Some? <==> (forall p :: p in t.paths + t.texts ==> Render(pj, p, vars).Some?)
    ensures r.Some? ==>
      && r.value == t.(paths := r.value.paths, texts := r.value.texts)
      && |r.value.paths| == |t.paths| && |r.value.texts| == |t.texts|
      && (forall j :: 0 <= j < |t.paths| ==> Render(pj, t.paths[j], vars) == Some(r.value.paths[j]))
      && (forall j :: 0 <= j < |t.texts| ==> Render(pj, t.texts[j], vars) == Some(r.value.texts[j]))
  {
    match (RenderAll(pj, t.paths, vars), RenderAll(pj, t.texts, vars))
    case (Some(ps), Some(ts)) => Some(t.(paths := ps, texts := ts))
    case _ => None
  }

  lemma RootRenderKeeps(pj: Project, t: Task, home: Home, y: Task, vars: Vars)
    requires RootKept(pj) && DecidedBy(pj, t, home, y) && RootRender(pj, y, vars).Some?
    ensures DecidedBy(pj, t, home, RootRender(pj, y, vars).value)
  {
    hide Final;
    var z := RootRender(pj, y, vars).value;
    forall j | 0 <= j < |t.paths|
      ensures Final(Render(pj, Abs(pj, home.dir, t.paths[j]), home.vars), z.paths[j])
      ensures (z.paths[j] == "" || IsAbs(z.paths[j]))
    {
      assert y.paths[j] in y.paths;
      FinalStays(pj, Render(pj, Abs(pj, home.dir, t.paths[j]), home.vars), y.paths[j], vars, z.paths[j]);
    }
    forall j | 0 <= j < |t.texts| ensures Final(Render(pj, t.texts[j], home.vars), z.texts[j]) {
      FinalStays(pj, Render(pj, t.texts[j], home.vars), y.texts[j], vars, z.texts[j]);
    }
  }

  /** The leaf's task as the innermost module decides it; a task of the rulebook itself is as written. */
  ghost predicate Settled(pj: Project, l: Leaf, y: Task) {
    if l.homes == [] then y == l.task else DecidedBy(pj, l.task, InnermostOf(l), y)
  }

  lemma {:induction false} PlaceKeepsUse(pj: Project, t: Task, homes: seq<Home>)
    requires Place(pj, t, homes).Some?
    ensures Place(pj, t, homes).value.use == t.use
  {
    if homes != [] { PlaceKeepsUse(pj, t, homes[1..]); }
  }

  lemma PlacedSettles(pj: Project, l: Leaf, y: Task, vars: Vars)
    requires RootKept(pj) && Reached(l, vars) && Place(pj, l.task, l.homes) == Some(y)
    ensures y.use == "" && Settled(pj, l, y)
    ensures l.homes != [] && RootRender(pj, y, vars).Some? ==> Settled(pj, l, RootRender(pj, y, vars).value)
  {
    hide RootKept, RootRender, Down, DecidedBy;
    PlaceKeepsUse(pj, l.task, l.homes);
    if l.homes != [] {
      PlaceDecides(pj, l.task, l.homes);
      if RootRender(pj, y, vars).Some? { RootRenderKeeps(pj, l.task, InnermostOf(l), y, vars); }
    }
  }

  /** The innermost module decides. Expansion yields one task for every leaf of the use-graph, in order and
      with no `use:` left. Each path is absolute under the module that wrote the task, the stamped variables
      are that module's merged map, and a field whose render there holds no `{{` is that render, whatever
      the modules around it and the final root pass do. */
  lemma InnermostModuleDecides(pj: Project, tasks: seq<Task>, dir: string, phase: string, vars: Vars, ys: seq<Task>)
    requires RootKept(pj) && IsAbs(dir) && Expand(pj, tasks, dir, phase, vars, {}) == Some(ys)
    ensures Leaves(pj, tasks, dir, phase, vars, |Keys(pj)|).Some?
    ensures var ls := Leaves(pj, tasks, dir, phase, vars, |Keys(pj)|).value;
      |ys| == |ls| && AllReached(ls, vars) && forall i :: 0 <= i < |ls| ==>
        && ys[i].use == "" && Settled(pj, ls[i], ys[i])
        && (ls[i].homes != [] && RootRender(pj, ys[i], vars).Some? ==>
           Settled(pj, ls[i], RootRender(pj, ys[i], vars).value))
  {
    hide RootKept, Expand, Unfold, Leaves, Place, DecidedBy, RootRender, Keys;
    var n := |Keys(pj)|;
    ExpandMeansUnfolding(pj, tasks, dir, phase, vars, ys);
    UnfoldPlaces(pj, tasks, dir, phase, vars, n);
    LeavesReached(pj, tasks, dir, phase, vars, n);
    var ls := Leaves(pj, tasks, dir, phase, vars, n).value;
    forall i | 0 <= i < |ls|
      ensures ys[i].use == "" && Settled(pj, ls[i], ys[i])
      ensures ls[i].homes != [] && RootRender(pj, ys[i], vars).Some? ==>
        Settled(pj, ls[i], RootRender(pj, ys[i], vars).value)
    {
      PlacedSettles(pj, ls[i], ys[i], vars);
    }
  }

  lemma {:induction false} RenderAllIdentity(pj: Project, ss: seq<string>, vars: Vars)
    requires forall s | s in ss :: !Templated(s)
    ensures RenderAll(pj, ss, vars) == Some(ss)
  {
    if ss != [] {
      assert ss[0] in ss;
      RenderAllIdentity(pj, ss[1..], vars);
      assert [ss[0]] + ss[1..] == ss;
    }
  }

  /** When every field renders there to text without `{{`, the task is finished exactly once, at home, and
      the root pass is the identity. */
  lemma SettledIsFinishedOnce(pj: Project, t: Task, home: Home, y: Task, vars: Vars)
    requires DecidedBy(pj, t, home, y)
    requires forall j | 0 <= j < |t.paths| :: !Templated(Render(pj, Abs(pj, home.dir, t.paths[j]), home.vars).value)
    requires forall j | 0 <= j < |t.texts| :: !Templated(Render(pj, t.texts[j], home.vars).value)
    ensures Finish(pj, t, home.dir, home.vars) == Some(y) && RootRender(pj, y, vars) == Some(y)
  {
    hide Templated, Abs;
    var ps := AbsAll(pj, home.dir, t.paths);
    assert forall j :: 0 <= j < |t.paths| ==> Render(pj, ps[j], home.vars) == Some(y.paths[j]);
    assert RenderAll(pj, ps, home.vars).Some? && RenderAll(pj, ps, home.vars).value == y.paths;
    assert RenderAll(pj, t.texts, home.vars).Some? && RenderAll(pj, t.texts, home.vars).value == y.texts;
    RenderAllIdentity(pj, y.paths, vars);
    RenderAllIdentity(pj, y.texts, vars);
  }

  // ---------- variables ----------

  function Get(m: Vars, x: string): Option<Value> {
    if x in m then Some(m[x]) else None
  }

  /** The first map of the list that has x. */
  function FirstHit(ms: seq<Vars>, x: string): Option<Value> {
    if ms == [] then None else if x in ms[0] then Some(ms[0][x]) else FirstHit(ms[1..], x)
  }

  function UsesInnermostFirst(trail: seq<Level>): seq<Vars> {
    if trail == [] then [] else UsesInnermostFirst(trail[1..]) + [trail[0].use]
  }

  function DefaultsOutermostFirst(trail: seq<Level>): seq<Vars> {
    if trail == [] then [] else [trail[0].defaults] + DefaultsOutermostFirst(trail[1..])
  }

  lemma FirstHitConcat(a: seq<Vars>, b: seq<Vars>, x: string)
    ensures FirstHit(a + b, x) == if FirstHit(a, x).Some? then FirstHit(a, x) else FirstHit(b, x)
  {
    if a == [] {
      assert a + b == b;
    } else {
      assert (a + b)[1..] == a[1..] + b;
    }
  }

  /** Look-up after any number of merges: innermost `use.vars` outward, the base, then module defaults
      from the outermost in. */
  lemma {:induction false} DownLookup(vars: Vars, trail: seq<Level>, x: string)
    ensures Get(Down(vars, trail), x) == FirstHit(UsesInnermostFirst(trail) + [vars] + DefaultsOutermostFirst(trail), x)
    decreases |trail|
  {
    var us, ds := UsesInnermostFirst(trail), DefaultsOutermostFirst(trail);
    FirstHitConcat(us + [vars], ds, x);
    FirstHitConcat(us, [vars], x);
    if trail != [] {
      var l := trail[0];
      var merged := Merged(l.defaults, vars, l.use);
      DownLookup(merged, trail[1..], x);
      var us1, ds1 := UsesInnermostFirst(trail[1..]), DefaultsOutermostFirst(trail[1..]);
      FirstHitConcat(us1 + [merged], ds1, x);
      FirstHitConcat(us1, [merged], x);
      FirstHitConcat(us1, [l.use], x);
      FirstHitConcat([l.defaults], ds1, x);
    }
  }

  /** What `loadInternal` leaves in rb.Vars: host vars over the vars file over the rulebook's own
      variables over git facts. */
  function RootVars(git: Vars, own: Vars, file: Vars, host: Vars): Vars { git + own + file + host }

  lemma RootLookup(git: Vars, own: Vars, file: Vars, host: Vars, x: string)
    ensures Get(RootVars(git, own, file, host), x) == FirstHit([host, file, own, git], x)
    ensures FirstHit([RootVars(git, own, file, host)], x) == FirstHit([host, file, own, git], x)
  {
    assert [host, file, own, git] == [host] + ([file] + ([own] + [git]));
    FirstHitConcat([host], [file] + ([own] + [git]), x);
    FirstHitConcat([file], [own] + [git], x);
    FirstHitConcat([own], [git], x);
  }

  lemma ChainLookup(trail: seq<Level>, x: string, git: Vars, own: Vars, file: Vars, host: Vars)
    ensures Get(Down(RootVars(git, own, file, host), trail), x)
         == FirstHit(UsesInnermostFirst(trail) + [host, file, own, git] + DefaultsOutermostFirst(trail), x)
  {
    var root := RootVars(git, own, file, host);
    DownLookup(root, trail, x);
    var us, ds := UsesInnermostFirst(trail), DefaultsOutermostFirst(trail);
    FirstHitConcat(us + [root], ds, x);
    FirstHitConcat(us, [root], x);
    FirstHitConcat(us + [host, file, own, git], ds, x);
    FirstHitConcat(us, [host, file, own, git], x);
    RootLookup(git, own, file, host, x);
  }

  /** The variables expansion stamps on a spliced task, at any depth of nesting, in closed form. */
  lemma VariablePrecedence(pj: Project, tasks: seq<Task>, dir: string, phase: string, ys: seq<Task>, i: nat, x: string,
                           git: Vars, own: Vars, file: Vars, host: Vars)
    requires RootKept(pj) && IsAbs(dir)
    requires Expand(pj, tasks, dir, phase, RootVars(git, own, file, host), {}) == Some(ys) && i < |ys|
    ensures Leaves(pj, tasks, dir, phase, RootVars(git, own, file, host), |Keys(pj)|).Some?
    ensures var ls := Leaves(pj, tasks, dir, phase, RootVars(git, own, file, host), |Keys(pj)|).value;
      |ls| == |ys| && (ls[i].homes != [] && ls[i].task.effective.None? ==>
        ys[i].effective.Some? && Get(ys[i].effective.value, x)
          == FirstHit(UsesInnermostFirst(ls[i].trail) + [host, file, own, git]
                      + DefaultsOutermostFirst(ls[i].trail), x))
  {
    hide RootKept, Expand, Leaves, Keys, RootVars;
    hide Down, UsesInnermostFirst, DefaultsOutermostFirst, FirstHit, RootRender;
    var root := RootVars(git, own, file, host);
    InnermostModuleDecides(pj, tasks, dir, phase, root, ys);
    var l := Leaves(pj, tasks, dir, phase, root, |Keys(pj)|).value[i];
    ChainLookup(l.trail, x, git, own, file, host);
  }
}
