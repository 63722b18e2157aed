/** What one `use:` line means: which task list it names, and what it splices in its place. */
module References {
  import opened Options
  import opened Texts
  import opened Rulebooks
  import opened Expansions
  import Pieces

  // ---------- words ----------

  /** A reference that begins like this is a path in the file system; any other names a git dep. */
  predicate IsPath(use: string) { "./" <= use || "../" <= use || "/" <= use }

  function From(pj: Project, dir: string, p: string): string {
    if p != "" && p[0] == '/' then p else pj.join(dir, p)
  }

  predicate AllSlashes(s: string) { forall i :: 0 <= i < |s| ==> s[i] == '/' }

  predicate NameChar(c: char) { 'a' <= c <= 'z' || '0' <= c <= '9' || c in "_-" }

  predicate PhaseName(p: string) {
    && p != "" && 'a' <= p[0] <= 'z' && (forall i :: 0 <= i < |p| ==> NameChar(p[i]))
    && p != "status" && p != "tasks" && p != "services" && p != "logs" && p != "history" && p != "rollback"
  }

  /** The rulebook at d, if it can be used in place of one of its phases. */
  predicate Phased(pj: Project, d: string) {
    d in pj.books && pj.books[d].Some? &&
    var b := pj.books[d].value;
    && b.name != "" && b.tasks == [] && b.phases != map[] && b.deps == 0
    && forall p :: p in b.phases ==> PhaseName(p)
  }

  /** The rulebook at d, if it is a plain list of tasks. */
  predicate Listed(pj: Project, d: string) {
    d in pj.books && pj.books[d].Some? &&
    var b := pj.books[d].value;
    b.name != "" && b.tasks != [] && b.phases == map[] && b.deps == 0
  }

  ghost predicate Marked(s: string) { exists a, b :: s == a + "{{" + b }

  /** A string under vars; None when the template fails. */
  ghost function Show(pj: Project, s: string, vars: Vars): Option<string> {
    if Marked(s) then pj.engine(s, vars) else Some(s)
  }

  ghost predicate Shows(pj: Project, use: Vars, vars: Vars) {
    forall x :: x in use && use[x].Text? ==> Show(pj, use[x].s, vars).Some?
  }

  /** What a module sees: the values on the `use:` line, rendered for the caller, before the caller's variables,
      before the module's own. */
  ghost function Handed(pj: Project, own: Vars, vars: Vars, use: Vars): Vars
    requires Shows(pj, use, vars)
  {
    map x | x in own.Keys + vars.Keys + use.Keys ::
      if x in use then (if use[x].Text? then Text(Show(pj, use[x].s, vars).value) else use[x])
      else if x in vars then vars[x]
      else own[x]
  }

  /** y is x as a module in d hands it up: source paths seen from d, every field rendered, variables stamped. */
  ghost predicate HandedUp(pj: Project, x: Task, y: Task, d: string, vars: Vars) {
    && y.use == x.use && y.vars == x.vars && |y.paths| == |x.paths| && |y.texts| == |x.texts|
    && (forall j :: 0 <= j < |x.paths| ==>
          Show(pj, if x.paths[j] == "" then "" else From(pj, d, x.paths[j]), vars) == Some(y.paths[j]))
    && (forall j :: 0 <= j < |x.texts| ==> Show(pj, x.texts[j], vars) == Some(y.texts[j]))
    && y.effective == if x.effective == None then Some(vars) else x.effective
  }

  /** r is `tasks`, expanded from d in phase ph with the variables handed down, and handed up; it fails when the
      key is being expanded already, or a value, the expansion or a field fails. */
  ghost predicate Spliced(pj: Project, r: Option<seq<Task>>, use: Vars, vars: Vars, visited: set<string>,
                          key: string, d: string, ph: string, own: Vars, tasks: seq<Task>) {
    if key in visited || !Shows(pj, use, vars) then r == None
    else
      var merged := Handed(pj, own, vars, use);
      match Expand(pj, tasks, d, ph, merged, visited + {key})
      case None => r == None
      case Some(xs) =>
        && (r.Some? ==>
              |r.value| == |xs| && forall i :: 0 <= i < |xs| ==> HandedUp(pj, xs[i], r.value[i], d, merged))
        && (r == None ==> exists i :: 0 <= i < |xs| && forall y :: !HandedUp(pj, xs[i], y, d, merged))
  }

  // ---------- the words mean what expansion does ----------

  lemma MarkedIsTemplated(s: string)
    ensures Marked(s) <==> Templated(s)
  {
    if a, b :| s == a + "{{" + b { assert s[|a|] == '{' && s[|a| + 1] == '{'; }
    if i :| 0 <= i < |s| - 1 && s[i] == '{' && s[i + 1] == '{' { assert s == s[..i] + "{{" + s[i + 2..]; }
  }

  lemma ShowIsRender(pj: Project, s: string, vars: Vars)
    ensures Show(pj, s, vars) == Render(pj, s, vars)
  {
    MarkedIsTemplated(s);
  }

  lemma HandedIsMerged(pj: Project, own: Vars, vars: Vars, use: Vars)
    ensures PreRender(pj, use, vars).Some? <==> Shows(pj, use, vars)
    ensures Shows(pj, use, vars) ==> Merged(own, vars, PreRender(pj, use, vars).value) == Handed(pj, own, vars, use)
  {
    hide Render, Show;
    forall x | x in use && use[x].Text? ensures Show(pj, use[x].s, vars) == Render(pj, use[x].s, vars) {
      ShowIsRender(pj, use[x].s, vars);
    }
    assert forall k :: k in use ==> (PreValue(pj, use[k], vars).Some? <==>
      (use[k].Text? ==> Show(pj, use[k].s, vars).Some?));
  }

  lemma HandedUpIsFinish(pj: Project, x: Task, d: string, vars: Vars)
    ensures forall y :: HandedUp(pj, x, y, d, vars) <==> Finish(pj, x, d, vars) == Some(y)
  {
    hide Show, Render;
    forall s ensures Show(pj, s, vars) == Render(pj, s, vars) { ShowIsRender(pj, s, vars); }
    var ps := AbsAll(pj, d, x.paths);
    assert forall j :: 0 <= j < |ps| ==> ps[j] == (if x.paths[j] == "" then "" else From(pj, d, x.paths[j]));
    forall y ensures HandedUp(pj, x, y, d, vars) <==> Finish(pj, x, d, vars) == Some(y) {
      var rs, ts := RenderAll(pj, ps, vars), RenderAll(pj, x.texts, vars);
      if HandedUp(pj, x, y, d, vars) {
        assert rs.Some? && rs.value == y.paths;
        assert ts.Some? && ts.value == y.texts;
      }
    }
  }

  lemma SplicedIsFinished(pj: Project, t: Task, dir: string, phase: string, vars: Vars, visited: set<string>, m: Target)
    requires t.use != "" && Resolve(pj, t.use, dir, phase) == Some(m)
    ensures Spliced(pj, ExpandTask(pj, t, dir, phase, vars, visited), t.vars, vars, visited,
                    m.key, m.dir, ExtractPhase(m.key), m.vars, m.tasks)
  {
    hide Resolve, PreRender, Finish, Handed, HandedUp, Shows, Keys, ExtractPhase;
    HandedIsMerged(pj, m.vars, vars, t.vars);
    if m.key !in visited && Shows(pj, t.vars, vars) {
      var merged := Handed(pj, m.vars, vars, t.vars);
      ResolveInKeys(pj, t.use, dir, phase);
      match Expand(pj, m.tasks, m.dir, ExtractPhase(m.key), merged, visited + {m.key})
      case None =>
      case Some(xs) =>
        forall i | 0 <= i < |xs|
          ensures forall y :: HandedUp(pj, xs[i], y, m.dir, merged) <==> Finish(pj, xs[i], m.dir, merged) == Some(y)
        {
          HandedUpIsFinish(pj, xs[i], m.dir, merged);
        }
    }
  }

  lemma OneTask(pj: Project, t: Task, dir: string, phase: string, vars: Vars, visited: set<string>)
    ensures Expand(pj, [t], dir, phase, vars, visited) == ExpandTask(pj, t, dir, phase, vars, visited)
  {
    var r := ExpandTask(pj, t, dir, phase, vars, visited);
    assert [t][1..] == [];
    if r.Some? { assert r.value + [] == r.value; }
  }

  // ---------- reading a reference ----------

  lemma {:induction false} TrimmedRight(clean: string, tail: string)
    requires AllSlashes(tail) && (clean == "" || clean[|clean| - 1] != '/')
    ensures TrimRight(clean + tail, '/') == clean
    decreases |tail|
  {
    if tail == "" {
      assert clean + tail == clean;
    } else {
      assert (clean + tail)[..|clean + tail| - 1] == clean + tail[..|tail| - 1];
      TrimmedRight(clean, tail[..|tail| - 1]);
    }
  }

  lemma PhaseOfKey(pj: Project, d: string, ph: string)
    requires Phased(pj, d) && ph in pj.books[d].value.phases
    ensures ExtractPhase(LocalKey(d, ph)) == ph
  {
    assert '#' !in ph;
    ExtractPhaseOfKey(d, ph);
  }

  lemma PhaseNamesAlike(p: string)
    ensures PhaseName(p) <==> PhaseNameOk(p) && p !in RESERVED_PHASES
  {
  }

  lemma PhasedIsSubmodule(pj: Project, d: string)
    ensures Phased(pj, d) <==> d in pj.books && pj.books[d].Some? && IsSubmodule(pj.books[d].value)
  {
    hide PhaseName, PhaseNameOk, RESERVED_PHASES;
    if d in pj.books && pj.books[d].Some? {
      forall p | p in pj.books[d].value.phases
        ensures PhaseName(p) <==> PhaseNameOk(p) && p !in RESERVED_PHASES
      {
        PhaseNamesAlike(p);
      }
    }
  }

  /** The caller's list with this one task: what `use:` puts there once the reference is read as phase ph of d. */
  lemma NamesPhase(pj: Project, t: Task, dir: string, phase: string, vars: Vars, visited: set<string>, d: string,
                   ph: string)
    requires IsPath(t.use) && ResolveLocalUseRef(pj, t.use, dir, phase) == Some((d, ph))
    ensures var r := Expand(pj, [t], dir, phase, vars, visited);
      if Phased(pj, d) && ph in pj.books[d].value.phases then
        Spliced(pj, r, t.vars, vars, visited, d + "#" + ph, d, ph, pj.books[d].value.vars,
                pj.books[d].value.phases[ph])
      else r == None
  {
    hide Spliced, ResolveLocalUseRef, Keys, ExtractPhase, Phased, IsSubmodule;
    OneTask(pj, t, dir, phase, vars, visited);
    PhasedIsSubmodule(pj, d);
    if Phased(pj, d) && ph in pj.books[d].value.phases {
      PhaseOfKey(pj, d, ph);
      SplicedIsFinished(pj, t, dir, phase, vars, visited, Resolve(pj, t.use, dir, phase).value);
    }
  }

  lemma NotPhased(pj: Project, d: string)
    requires d !in pj.books
    ensures !Phased(pj, d)
  {
  }

  // ---------- the four kinds ----------

  /** A path that is itself a rulebook's directory, trailing slashes or not: its phase of the caller's name. */
  lemma WholePathTakesCallersPhase(pj: Project, t: Task, dir: string, phase: string, vars: Vars, visited: set<string>,
                                   path: string, slashes: string)
    requires t.use == path + slashes && AllSlashes(slashes) && IsPath(t.use)
    requires path != "" && path[|path| - 1] != '/' && From(pj, dir, path) in pj.books
    ensures var r, d := Expand(pj, [t], dir, phase, vars, visited), From(pj, dir, path);
      if phase != "" && Phased(pj, d) && phase in pj.books[d].value.phases then
        Spliced(pj, r, t.vars, vars, visited, d + "#" + phase, d, phase, pj.books[d].value.vars,
                pj.books[d].value.phases[phase])
      else r == None
  {
    hide Expand, Spliced, Phased;
    TrimmedRight(path, slashes);
    if phase == "" {
      OneTask(pj, t, dir, phase, vars, visited);
    } else {
      NamesPhase(pj, t, dir, phase, vars, visited, From(pj, dir, path), phase);
    }
  }

  lemma FromIsJoin(pj: Project, dir: string, p: string)
    ensures JoinIfRel(pj, p, dir) == From(pj, dir, p)
  {
  }

  lemma ReadsLastSegment(pj: Project, use: string, dir: string, phase: string, head: string, ph: string,
                         slashes: string)
    requires use == head + "/" + ph + slashes && AllSlashes(slashes)
    requires head != "" && ph != "" && '/' !in ph && From(pj, dir, head + "/" + ph) !in pj.books
    ensures ResolveLocalUseRef(pj, use, dir, phase)
         == if From(pj, dir, head) in pj.books then Some((From(pj, dir, head), ph)) else None
  {
    hide From, JoinIfRel, TrimRight, LastIndex;
    var path := head + "/" + ph;
    assert path[|path| - 1] == ph[|ph| - 1];
    TrimmedRight(path, slashes);
    assert path[|head| + 1..] == ph && path[..|head|] == head;
    LastIndexAt(path, '/', |head|);
    FromIsJoin(pj, dir, path);
    FromIsJoin(pj, dir, head);
  }

  /** Otherwise the last segment is the phase, whatever phase the caller is in. */
  lemma LastSegmentIsPhase(pj: Project, t: Task, dir: string, phase: string, vars: Vars, visited: set<string>,
                           head: string, ph: string, slashes: string)
    requires t.use == head + "/" + ph + slashes && AllSlashes(slashes) && IsPath(t.use)
    requires head != "" && ph != "" && '/' !in ph && From(pj, dir, head + "/" + ph) !in pj.books
    ensures var r, d := Expand(pj, [t], dir, phase, vars, visited), From(pj, dir, head);
      if Phased(pj, d) && ph in pj.books[d].value.phases then
        Spliced(pj, r, t.vars, vars, visited, d + "#" + ph, d, ph, pj.books[d].value.vars,
                pj.books[d].value.phases[ph])
      else r == None
  {
    hide Expand, Spliced, Phased, From, ResolveLocalUseRef;
    ReadsLastSegment(pj, t.use, dir, phase, head, ph, slashes);
    var d := From(pj, dir, head);
    if d in pj.books {
      NamesPhase(pj, t, dir, phase, vars, visited, d, ph);
    } else {
      OneTask(pj, t, dir, phase, vars, visited);
      NotPhased(pj, d);
    }
  }

  lemma SplitsAtFirstSlash(use: string, dep: string, path: string)
    requires TrimSpace(use) == dep + "/" + path && dep != "" && '/' !in dep && path != ""
    ensures use != "" && SplitUseRef(use) == Some((dep, path))
  {
    hide TrimSpace;
    var s := TrimSpace(use);
    assert s[..|dep|] == dep && s[|dep| + 1..] == path;
    Pieces.IndexAt(s, '/', |dep|);
    var _, _ := TrimCuts(use);
  }

  lemma ModuleKeyHolds(d: string)
    ensures ModuleKey(d) == d + "/rulebook.yaml#tasks" && ExtractPhase(ModuleKey(d)) == "tasks"
  {
    assert d + "/rulebook.yaml#tasks" == (d + "/rulebook.yaml") + "#" + "tasks";
    ExtractPhaseOfKey(d + "/rulebook.yaml", "tasks");
  }

  /** `dep/path`: the task list of the rulebook at that path in the dep's clone. */
  lemma DepPathNamesTaskList(pj: Project, t: Task, dir: string, phase: string, vars: Vars, visited: set<string>,
                             dep: string, path: string)
    requires !IsPath(t.use) && TrimSpace(t.use) == dep + "/" + path && dep != "" && '/' !in dep && path != ""
    ensures var r := Expand(pj, [t], dir, phase, vars, visited);
      if dep in pj.depPaths && Listed(pj, pj.join(pj.depPaths[dep], path)) then
        var d := pj.join(pj.depPaths[dep], path);
        Spliced(pj, r, t.vars, vars, visited, d + "/rulebook.yaml#tasks", d, "tasks", pj.books[d].value.vars,
                pj.books[d].value.tasks)
      else r == None
  {
    hide Expand, Spliced, Keys, ExtractPhase, SplitUseRef, ModuleKey, ResolveLocalUseRef;
    SplitsAtFirstSlash(t.use, dep, path);
    OneTask(pj, t, dir, phase, vars, visited);
    if dep in pj.depPaths && Listed(pj, pj.join(pj.depPaths[dep], path)) {
      var d := pj.join(pj.depPaths[dep], path);
      ModuleKeyHolds(d);
      SplicedIsFinished(pj, t, dir, phase, vars, visited, Resolve(pj, t.use, dir, phase).value);
    }
  }

  /** A path with no segment to be a phase, where no rulebook is, is refused. */
  lemma BarePathIsRefused(pj: Project, t: Task, dir: string, phase: string, vars: Vars, visited: set<string>,
                          path: string, slashes: string)
    requires t.use == path + slashes && AllSlashes(slashes) && IsPath(t.use)
    requires path == "" || (path[|path| - 1] != '/' && From(pj, dir, path) !in pj.books && '/' !in path[1..])
    ensures Expand(pj, [t], dir, phase, vars, visited) == None
  {
    hide Expand, TrimRight, LastIndex, LocalKey, ExtractPhase;
    OneTask(pj, t, dir, phase, vars, visited);
    TrimmedRight(path, slashes);
    forall j | path != "" && 0 < j < |path| ensures path[j] != '/' { assert path[1..][j - 1] == path[j]; }
  }

  /** A name with no dep, no path or no slash between them is refused. */
  lemma NameWithoutPathIsRefused(pj: Project, t: Task, dir: string, phase: string, vars: Vars, visited: set<string>)
    requires t.use != "" && !IsPath(t.use)
    requires forall dep, path :: dep != "" && '/' !in dep && path != "" ==> TrimSpace(t.use) != dep + "/" + path
    ensures Expand(pj, [t], dir, phase, vars, visited) == None
  {
    hide Expand, TrimSpace, ModuleKey, ExtractPhase;
    OneTask(pj, t, dir, phase, vars, visited);
    var s := TrimSpace(t.use);
    var i := Pieces.IndexOf(s, '/');
    var dep, path := s[..i], if i < |s| then s[i + 1..] else "";
    assert i < |s| ==> s == dep + "/" + path;
  }

  lemma {:induction false} CutSlashes(s: string) returns (path: string, slashes: string)
    requires !AllSlashes(s)
    ensures s == path + slashes && AllSlashes(slashes) && path != "" && path[|path| - 1] != '/'
  {
    if s[|s| - 1] == '/' {
      path, slashes := CutSlashes(s[..|s| - 1]);
      slashes := slashes + "/";
    } else {
      path, slashes := s, "";
    }
  }

  /** Every reference is of one of these kinds. */
  lemma EveryReference(pj: Project, use: string, dir: string)
    requires use != ""
    ensures
      || (IsPath(use) && AllSlashes(use))
      || (IsPath(use) && exists path, slashes ::
            && use == path + slashes && AllSlashes(slashes) && path != "" && path[|path| - 1] != '/'
            && (From(pj, dir, path) in pj.books || '/' !in path[1..]))
      || (IsPath(use) && exists head, ph, slashes ::
            && use == head + "/" + ph + slashes && AllSlashes(slashes) && head != "" && ph != "" && '/' !in ph
            && From(pj, dir, head + "/" + ph) !in pj.books)
      || (!IsPath(use) && exists dep, path ::
            TrimSpace(use) == dep + "/" + path && dep != "" && '/' !in dep && path != "")
      || (!IsPath(use) && forall dep, path :: dep != "" && '/' !in dep && path != "" ==>
            TrimSpace(use) != dep + "/" + path)
  {
    hide TrimSpace;
    if IsPath(use) && !AllSlashes(use) {
      var path, slashes := CutSlashes(use);
      if From(pj, dir, path) !in pj.books && '/' in path[1..] {
        var i := LastIndex(path, '/').value;
        assert path == path[..i] + "/" + path[i + 1..];
        assert use == path[..i] + "/" + path[i + 1..] + slashes;
      }
    }
  }

  // ---------- lists ----------

  /** A task without `use:` stays as it is, and may not carry `vars:`. */
  lemma PlainTaskStays(pj: Project, t: Task, dir: string, phase: string, vars: Vars, visited: set<string>)
    requires t.use == ""
    ensures Expand(pj, [t], dir, phase, vars, visited) == if t.vars == map[] then Some([t]) else None
  {
    OneTask(pj, t, dir, phase, vars, visited);
  }

  /** A list expands task by task, in order, and each on its own. */
  lemma {:induction false} ListsConcatenate(pj: Project, a: seq<Task>, b: seq<Task>, dir: string, phase: string,
                                            vars: Vars, visited: set<string>)
    ensures var x, y := Expand(pj, a, dir, phase, vars, visited), Expand(pj, b, dir, phase, vars, visited);
      Expand(pj, a + b, dir, phase, vars, visited) ==
        if x.Some? && y.Some? then Some(x.value + y.value) else None
    ensures Expand(pj, [], dir, phase, vars, visited) == Some([])
  {
    hide ExpandTask;
    if a == [] {
      assert a + b == b;
      var y := Expand(pj, b, dir, phase, vars, visited);
      if y.Some? { assert [] + y.value == y.value; }
    } else {
      assert (a + b)[1..] == a[1..] + b;
      ListsConcatenate(pj, a[1..], b, dir, phase, vars, visited);
      var h, x, y := ExpandTask(pj, a[0], dir, phase, vars, visited),
        Expand(pj, a[1..], dir, phase, vars, visited), Expand(pj, b, dir, phase, vars, visited);
      if h.Some? && x.Some? && y.Some? { assert h.value + (x.value + y.value) == (h.value + x.value) + y.value; }
    }
  }
}
