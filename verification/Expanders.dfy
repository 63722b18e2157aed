/** The expander as it runs: one visited set shared by the whole recursion, maps filled key by key,
    task fields overwritten in place. */
module Expanders {
  import opened Options
  import opened Rulebooks
  import opened Expansions
  import opened Origins

  /** The visited map, shared by reference between a context and its children. */
  class Visited {
    var keys: set<string>

    constructor ()
      ensures keys == {}
    {
      keys := {};
    }
  }

  class ExpandCtx {
    const callerDir: string
    const callerVars: Vars
    const visited: Visited
    const phase: string

    constructor (callerDir: string, callerVars: Vars, visited: Visited, phase: string)
      ensures this.callerDir == callerDir && this.callerVars == callerVars
      ensures this.visited == visited && this.phase == phase
    {
      this.callerDir, this.callerVars, this.visited, this.phase := callerDir, callerVars, visited, phase;
    }
  }

  /** Overwrite `into` with every entry of m, in whatever order the keys come. */
  method CopyEntries(into: Vars, m: Vars) returns (out: Vars)
    ensures out == into + m
  {
    out := into;
    var todo := m.Keys;
    while todo != {}
      invariant todo <= m.Keys
      invariant out == into + (m - todo)
    {
      var k :| k in todo;
      out := out[k := m[k]];
      todo := todo - {k};
    }
    assert m - {} == m;
  }

  function Reversed(ms: seq<Vars>): seq<Vars> {
    if ms == [] then [] else Reversed(ms[1..]) + [ms[0]]
  }

  lemma {:induction false} ReversedSnoc(ms: seq<Vars>, m: Vars)
    ensures Reversed(ms + [m]) == [m] + Reversed(ms)
  {
    if ms == [] {
      assert [m][1..] == [];
    } else {
      assert (ms + [m])[1..] == ms[1..] + [m];
      ReversedSnoc(ms[1..], m);
    }
  }

  /** Later maps win. */
  method MergeMaps(maps: seq<Vars>) returns (out: Vars)
    ensures forall x :: Get(out, x) == FirstHit(Reversed(maps), x)
  {
    out := map[];
    for i := 0 to |maps|
      invariant forall x :: Get(out, x) == FirstHit(Reversed(maps[..i]), x)
    {
      var before := out;
      out := CopyEntries(out, maps[i]);
      assert maps[..i + 1] == maps[..i] + [maps[i]];
      ReversedSnoc(maps[..i], maps[i]);
    }
    assert maps[..|maps|] == maps;
  }

  /** Look-up decides a map of variables. */
  lemma SameLookup(a: Vars, b: Vars)
    requires forall x :: Get(a, x) == Get(b, x)
    ensures a == b
  {
    forall x ensures x in a <==> x in b { assert Get(a, x) == Get(b, x); }
    forall x | x in a ensures a[x] == b[x] { assert Get(a, x) == Get(b, x); }
    assert a.Keys == b.Keys;
  }

  lemma MergeOfThree(out: Vars, a: Vars, b: Vars, c: Vars)
    requires forall x :: Get(out, x) == FirstHit(Reversed([a, b, c]), x)
    ensures out == Merged(a, b, c)
  {
    assert [a, b, c] == [a, b] + [c] && [a, b] == [a] + [b] && [a] == [] + [a];
    ReversedSnoc([a, b], c);
    ReversedSnoc([a], b);
    ReversedSnoc([], a);
    assert Reversed([a, b, c]) == [c] + ([b] + [a]);
    forall x ensures Get(out, x) == Get(Merged(a, b, c), x) {
      FirstHitConcat([c], [b] + [a], x);
      FirstHitConcat([b], [a], x);
    }
    SameLookup(out, Merged(a, b, c));
  }

  /** Render the string values of `use.vars`; the first that fails is the result. */
  method PreRenderVars(pj: Project, use: Vars, caller: Vars) returns (r: Option<Vars>)
    ensures r == PreRender(pj, use, caller)
  {
    if use == map[] { return Some(use); }
    var out: Vars := map[];
    var todo := use.Keys;
    while todo != {}
      invariant todo <= use.Keys && out.Keys == use.Keys - todo
      invariant forall k :: k in out ==> PreValue(pj, use[k], caller) == Some(out[k])
    {
      var k :| k in todo;
      match use[k] {
        case Text(s) =>
          var rendered := Render(pj, s, caller);
          if rendered == None { return None; }
          out := out[k := Text(rendered.value)];
        case Other(_) => out := out[k := use[k]];
      }
      todo := todo - {k};
    }
    r := Some(out);
    assert out == PreRender(pj, use, caller).value;
  }

  /** Make the source paths absolute against the module's directory. */
  method RewriteRelativePaths(pj: Project, t: Task, moduleDir: string) returns (t': Task)
    ensures t' == t.(paths := AbsAll(pj, moduleDir, t.paths))
  {
    t' := t;
    for i := 0 to |t.paths|
      invariant t' == t.(paths := t'.paths) && |t'.paths| == |t.paths|
      invariant forall j :: 0 <= j < i ==> t'.paths[j] == Abs(pj, moduleDir, t.paths[j])
      invariant forall j :: i <= j < |t.paths| ==> t'.paths[j] == t.paths[j]
    {
      var p := t'.paths[i];
      if p != "" && !IsAbs(p) { t' := t'.(paths := t'.paths[i := pj.join(moduleDir, p)]); }
    }
    assert t'.paths == AbsAll(pj, moduleDir, t.paths);
  }

  /** Render a list of fields one by one; the first failure ends it. */
  method RenderStringFields(pj: Project, fields: seq<string>, vars: Vars) returns (r: Option<seq<string>>)
    ensures r == RenderAll(pj, fields, vars)
  {
    var out := fields;
    for i := 0 to |fields|
      invariant |out| == |fields|
      invariant forall j :: 0 <= j < i ==> Render(pj, fields[j], vars) == Some(out[j])
      invariant forall j :: i <= j < |fields| ==> out[j] == fields[j]
    {
      if out[i] != "" {
        var s := Render(pj, out[i], vars);
        if s == None {
          assert Render(pj, fields[i], vars) == None;
          return None;
        }
        out := out[i := s.value];
      }
    }
    r := Some(out);
    assert RenderAll(pj, fields, vars).Some? && RenderAll(pj, fields, vars).value == out;
  }

  method ExpandTaskStrings(pj: Project, t: Task, vars: Vars) returns (r: Option<Task>)
    ensures r == RootRender(pj, t, vars)
  {
    var ps := RenderStringFields(pj, t.paths, vars);
    if ps == None { return None; }
    var ts := RenderStringFields(pj, t.texts, vars);
    if ts == None { return None; }
    r := Some(t.(paths := ps.value, texts := ts.value));
  }

  /** Finish the tasks one module contributes, in place. */
  method SpliceAll(pj: Project, tasks: seq<Task>, moduleDir: string, merged: Vars) returns (r: Option<seq<Task>>)
    ensures r == FinishAll(pj, tasks, moduleDir, merged)
  {
    var expanded := tasks;
    for i := 0 to |tasks|
      invariant |expanded| == |tasks|
      invariant forall j :: 0 <= j < i ==> Finish(pj, tasks[j], moduleDir, merged) == Some(expanded[j])
      invariant forall j :: i <= j < |tasks| ==> expanded[j] == tasks[j]
    {
      var t := RewriteRelativePaths(pj, expanded[i], moduleDir);
      var rendered := ExpandTaskStrings(pj, t, merged);
      if rendered == None {
        assert Finish(pj, tasks[i], moduleDir, merged) == None;
        return None;
      }
      t := rendered.value;
      if t.effective == None { t := t.(effective := Some(merged)); }
      expanded := expanded[i := t];
    }
    r := Some(expanded);
    assert FinishAll(pj, tasks, moduleDir, merged).Some? && FinishAll(pj, tasks, moduleDir, merged).value == expanded;
  }

  lemma PrependAssoc(a: seq<Task>, b: seq<Task>, r: Option<seq<Task>>)
    ensures Prepend(a, Prepend(b, r)) == Prepend(a + b, r)
  {
    if r.Some? { assert a + (b + r.value) == (a + b) + r.value; }
  }

  /** Splice every `use:` task. The visited set is shared: a module is marked while its own tasks are being
      expanded, and on every way out, error or not, the set is what it was. */
  method ExpandUseTasks(pj: Project, tasks: seq<Task>, ctx: ExpandCtx) returns (r: Option<seq<Task>>)
    modifies ctx.visited
    ensures ctx.visited.keys == old(ctx.visited.keys)
    ensures r == Expand(pj, tasks, ctx.callerDir, ctx.phase, ctx.callerVars, old(ctx.visited.keys))
    decreases Keys(pj) - ctx.visited.keys
  {
    hide Resolve, PreRender, FinishAll, Merged, ExtractPhase, Keys;
    ghost var visited := ctx.visited.keys;
    ghost var spec := Expand(pj, tasks, ctx.callerDir, ctx.phase, ctx.callerVars, visited);
    var out := [];
    assert spec.Some? ==> [] + spec.value == spec.value;
    for ti := 0 to |tasks|
      invariant ctx.visited.keys == visited
      invariant spec == Prepend(out, Expand(pj, tasks[ti..], ctx.callerDir, ctx.phase, ctx.callerVars, visited))
    {
      var t := tasks[ti];
      assert tasks[ti..][0] == t && tasks[ti..][1..] == tasks[ti + 1..];
      ghost var rest := Expand(pj, tasks[ti + 1..], ctx.callerDir, ctx.phase, ctx.callerVars, visited);
      if t.use == "" {
        if t.vars != map[] { return None; }
        PrependAssoc(out, [t], rest);
        out := out + [t];
        continue;
      }
      var target := Resolve(pj, t.use, ctx.callerDir, ctx.phase);
      if target == None { return None; }
      var m := target.value;
      if m.key in ctx.visited.keys { return None; }
      var preUseVars := PreRenderVars(pj, t.vars, ctx.callerVars);
      if preUseVars == None { return None; }
      var merged := MergeMaps([m.vars, ctx.callerVars, preUseVars.value]);
      MergeOfThree(merged, m.vars, ctx.callerVars, preUseVars.value);

      ResolveInKeys(pj, t.use, ctx.callerDir, ctx.phase);
      ctx.visited.keys := ctx.visited.keys + {m.key};
      var child := new ExpandCtx(m.dir, merged, ctx.visited, ExtractPhase(m.key));
      var inner := ExpandUseTasks(pj, m.tasks, child);
      ctx.visited.keys := ctx.visited.keys - {m.key};
      assert ctx.visited.keys == visited;
      if inner == None { return None; }
      var expanded := SpliceAll(pj, inner.value, m.dir, merged);
      if expanded == None { return None; }
      PrependAssoc(out, expanded.value, rest);
      out := out + expanded.value;
    }
    assert tasks[|tasks|..] == [] && out + [] == out;
    r := Some(out);
  }

  /** rb.Vars as `loadInternal` builds it: git facts fill gaps, the vars file and the host override. */
  method LoadVars(git: Vars, own: Vars, file: Vars, host: Vars) returns (vars: Vars)
    ensures vars == RootVars(git, own, file, host)
  {
    vars := own;
    var todo := git.Keys;
    while todo != {}
      invariant todo <= git.Keys
      invariant vars == (git - todo) + own
    {
      var k :| k in todo;
      if k !in vars { vars := vars[k := git[k]]; }
      todo := todo - {k};
    }
    assert git - {} == git;
    vars := CopyEntries(vars, file);
    vars := CopyEntries(vars, host);
  }

  /** Every phase is expanded on its own, each with a fresh visited set. */
  method ExpandPhases(pj: Project, dir: string, vars: Vars, phases: map<string, seq<Task>>)
    returns (r: Option<map<string, seq<Task>>>)
    ensures r.Some? <==> forall p :: p in phases ==> Expand(pj, phases[p], dir, p, vars, {}).Some?
    ensures r.Some? ==> r.value.Keys == phases.Keys
    ensures r.Some? ==> forall p :: p in phases ==> Expand(pj, phases[p], dir, p, vars, {}) == Some(r.value[p])
  {
    var out := phases;
    var todo := phases.Keys;
    while todo != {}
      invariant todo <= phases.Keys && out.Keys == phases.Keys
      invariant forall p :: p in todo ==> out[p] == phases[p]
      invariant forall p :: p in phases && p !in todo ==> Expand(pj, phases[p], dir, p, vars, {}) == Some(out[p])
    {
      var p :| p in todo;
      var visited := new Visited();
      var ctx := new ExpandCtx(dir, vars, visited, p);
      var expanded := ExpandUseTasks(pj, out[p], ctx);
      if expanded == None { return None; }
      out := out[p := expanded.value];
      todo := todo - {p};
    }
    r := Some(out);
  }
}
