/** Rulebooks on disk and how a `use:` reference finds the module it names. */
module Rulebooks {
  import opened Options
  import opened Texts
  import Pieces

  datatype Value = Text(s: string) | Other(n: int)
  type Vars = map<string, Value>

  /** One entry of a task list. `paths` are the fields made absolute against the module's directory
      (copy.src, template.src, docker_build.context and .dockerfile, docker_login.creds_file and
      .password_file); `texts` are all other templated fields, when_changed included. */
  datatype Task = Task(use: string, vars: Vars, paths: seq<string>, texts: seq<string>, effective: Option<Vars>)

  datatype Book = Book(name: string, vars: Vars, tasks: seq<Task>, phases: map<string, seq<Task>>, deps: nat)

  /** The tree of rulebooks: what `<dir>/rulebook.yaml` decodes to (None: it exists and does not decode),
      where each declared git dep is cloned, lexical path joining, and the template engine. */
  datatype Project = Project(
    books: map<string, Option<Book>>,
    depPaths: map<string, string>,
    join: (string, string) -> string,
    engine: (string, Vars) -> Option<string>)

  predicate IsAbs(p: string) { HasPrefix(p, "/") }

  function JoinIfRel(pj: Project, p: string, dir: string): string {
    if IsAbs(p) then p else pj.join(dir, p)
  }

  /** `strings.LastIndex(s, string(c))`, as an option. */
  function LastIndex(s: string, c: char): (r: Option<nat>)
    ensures r.Some? ==> r.value < |s| && s[r.value] == c && c !in s[r.value + 1..]
    ensures r.None? ==> c !in s
  {
    if s == "" then None
    else if s[|s| - 1] == c then Some(|s| - 1)
    else LastIndex(s[..|s| - 1], c)
  }

  function TrimRight(s: string, c: char): string {
    if s != "" && s[|s| - 1] == c then TrimRight(s[..|s| - 1], c) else s
  }

  predicate IsLocalUseRef(s: string) {
    HasPrefix(s, "./") || HasPrefix(s, "../") || HasPrefix(s, "/")
  }

  /** The directory and phase a local reference names. A reference that is itself a rulebook directory
      takes the caller's phase; otherwise its last segment is the phase. */
  function ResolveLocalUseRef(pj: Project, ref: string, callerDir: string, parentPhase: string)
    : Option<(string, string)>
  {
    var clean := TrimRight(ref, '/');
    if clean == "" then None
    else
      var full := JoinIfRel(pj, clean, callerDir);
      if full in pj.books then
        if parentPhase == "" then None else Some((full, parentPhase))
      else match LastIndex(clean, '/')
        case None => None
        case Some(i) =>
          if i == 0 then None
          else
            var head := JoinIfRel(pj, clean[..i], callerDir);
            if head in pj.books then Some((head, clean[i + 1..])) else None
  }

  function SplitUseRef(ref: string): Option<(string, string)> {
    var s := TrimSpace(ref);
    var i := Pieces.IndexOf(s, '/');
    if i == 0 || i >= |s| - 1 then None else Some((s[..i], s[i + 1..]))
  }

  predicate PhaseChar(c: char) { 'a' <= c <= 'z' || '0' <= c <= '9' || c == '_' || c == '-' }

  /** `^[a-z][a-z0-9_-]*$`. */
  predicate PhaseNameOk(s: string) {
    s != "" && 'a' <= s[0] <= 'z' && forall i :: 0 <= i < |s| ==> PhaseChar(s[i])
  }

  const RESERVED_PHASES := {"status", "tasks", "services", "logs", "history", "rollback"}

  /** `loadLocalSubmodule` accepts the book. */
  predicate IsSubmodule(b: Book) {
    b.name != "" && b.tasks == [] && b.phases != map[] && b.deps == 0
    && forall p :: p in b.phases ==> PhaseNameOk(p) && p !in RESERVED_PHASES
  }

  /** `loadModule` accepts the book. */
  predicate IsModule(b: Book) {
    b.name != "" && b.tasks != [] && b.phases == map[] && b.deps == 0
  }

  /** What a `use:` splices: the module's directory and variables, the tasks picked, and the visit key. */
  datatype Target = Target(key: string, dir: string, vars: Vars, tasks: seq<Task>)

  function LocalKey(dir: string, phase: string): string { dir + "#" + phase }

  function ModuleKey(dir: string): string { dir + "/rulebook.yaml" + "#" + "tasks" }

  function Resolve(pj: Project, use: string, callerDir: string, phase: string): Option<Target> {
    if IsLocalUseRef(use) then
      match ResolveLocalUseRef(pj, use, callerDir, phase)
      case None => None
      case Some((dir, ph)) =>
        if dir in pj.books && pj.books[dir].Some? && IsSubmodule(pj.books[dir].value)
          && ph in pj.books[dir].value.phases then
          Some(Target(LocalKey(dir, ph), dir, pj.books[dir].value.vars, pj.books[dir].value.phases[ph]))
        else None
    else
      match SplitUseRef(use)
      case None => None
      case Some((dep, path)) =>
        if dep !in pj.depPaths then None
        else
          var dir := pj.join(pj.depPaths[dep], path);
          if dir in pj.books && pj.books[dir].Some? && IsModule(pj.books[dir].value) then
            Some(Target(ModuleKey(dir), dir, pj.books[dir].value.vars, pj.books[dir].value.tasks))
          else None
  }

  /** The phase is read back from the visit key. */
  function ExtractPhase(key: string): string {
    match LastIndex(key, '#')
    case Some(i) => key[i + 1..]
    case None => ""
  }

  lemma {:induction false} LastIndexAt(s: string, c: char, i: nat)
    requires i < |s| && s[i] == c && c !in s[i + 1..]
    ensures LastIndex(s, c) == Some(i)
  {
    if i < |s| - 1 {
      var t := s[..|s| - 1];
      assert s[|s| - 1] == s[i + 1..][|s| - i - 2];
      assert t[i + 1..] == s[i + 1..][..|s| - i - 2];
      LastIndexAt(t, c, i);
    }
  }

  /** The child phase recovered from a key is exactly the phase spliced, since phase names have no '#'. */
  lemma ExtractPhaseOfKey(dir: string, phase: string)
    requires '#' !in phase
    ensures ExtractPhase(dir + "#" + phase) == phase
  {
    var key := dir + "#" + phase;
    assert key[|dir| + 1..] == phase;
    LastIndexAt(key, '#', |dir|);
  }

  lemma PhaseHasNoHash(p: string)
    requires PhaseNameOk(p)
    ensures '#' !in p
  {
  }

  lemma KeyParts(dir: string, phase: string, dir': string, phase': string)
    requires '#' !in phase && '#' !in phase' && dir + "#" + phase == dir' + "#" + phase'
    ensures dir == dir' && phase == phase'
  {
    ExtractPhaseOfKey(dir, phase);
    ExtractPhaseOfKey(dir', phase');
    assert |dir| == |dir'|;
    assert dir == (dir + "#" + phase)[..|dir|];
    assert dir' == (dir' + "#" + phase')[..|dir'|];
  }

  /** The target a visit key stands for. */
  ghost predicate Reachable(pj: Project, m: Target) {
    exists use, dir, phase :: Resolve(pj, use, dir, phase) == Some(m)
  }

  ghost predicate LocalTarget(pj: Project, m: Target, ph: string) {
    && m.dir in pj.books && pj.books[m.dir].Some? && IsSubmodule(pj.books[m.dir].value)
    && ph in pj.books[m.dir].value.phases
    && m == Target(LocalKey(m.dir, ph), m.dir, pj.books[m.dir].value.vars, pj.books[m.dir].value.phases[ph])
    && '#' !in ph && ph != "tasks"
  }

  ghost predicate ModuleTarget(pj: Project, m: Target) {
    && m.dir in pj.books && pj.books[m.dir].Some? && IsModule(pj.books[m.dir].value)
    && m == Target(ModuleKey(m.dir), m.dir, pj.books[m.dir].value.vars, pj.books[m.dir].value.tasks)
  }

  lemma ReachableKinds(pj: Project, m: Target)
    requires Reachable(pj, m)
    ensures ModuleTarget(pj, m) || exists ph :: LocalTarget(pj, m, ph)
  {
    var use, dir, phase :| Resolve(pj, use, dir, phase) == Some(m);
    if IsLocalUseRef(use) {
      var (d, ph) := ResolveLocalUseRef(pj, use, dir, phase).value;
      PhaseHasNoHash(ph);
      assert LocalTarget(pj, m, ph);
    }
  }

  /** A visit key determines everything a `use:` splices. */
  lemma KeyDetermines(pj: Project, m: Target, m': Target)
    requires Reachable(pj, m) && Reachable(pj, m') && m.key == m'.key
    ensures m == m'
  {
    ReachableKinds(pj, m);
    ReachableKinds(pj, m');
    var ph := if ModuleTarget(pj, m) then "tasks" else var ph :| LocalTarget(pj, m, ph); ph;
    var ph' := if ModuleTarget(pj, m') then "tasks" else var ph :| LocalTarget(pj, m', ph); ph;
    var d := if ModuleTarget(pj, m) then m.dir + "/rulebook.yaml" else m.dir;
    var d' := if ModuleTarget(pj, m') then m'.dir + "/rulebook.yaml" else m'.dir;
    KeyParts(d, ph, d', ph');
    if ModuleTarget(pj, m) {
      assert m.dir == d[..|d| - 14] && m'.dir == d'[..|d'| - 14];
    }
  }

  function Keys(pj: Project): set<string> {
    (set d, ph | d in pj.books && pj.books[d].Some? && ph in pj.books[d].value.phases :: LocalKey(d, ph))
    + (set d | d in pj.books :: ModuleKey(d))
  }

  lemma ReachableInKeys(pj: Project, m: Target)
    requires Reachable(pj, m)
    ensures m.key in Keys(pj)
  {
    ReachableKinds(pj, m);
  }
}
