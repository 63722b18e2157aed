/** The lock file: declared deps reconciled with the pins recorded for them. */
module Locks {
  import opened Options
  import opened Texts

  datatype Dep = Dep(name: string, git: string, version: string)
  datatype LockedDep = LockedDep(name: string, git: string, version: string, sha: string)

  predicate IsHex(c: char) { '0' <= c <= '9' || 'a' <= c <= 'f' || 'A' <= c <= 'F' }

  /** `^[0-9a-fA-F]{7,40}$`. */
  predicate IsSha(s: string) {
    7 <= |s| <= 40 && forall i :: 0 <= i < |s| ==> IsHex(s[i])
  }

  function LowerChar(c: char): char {
    if 'A' <= c <= 'Z' then (c as int + 32) as char else c
  }

  /** `strings.ToLower` on the ASCII a sha is made of. */
  function Lower(s: string): (r: string)
    ensures |r| == |s|
  {
    seq(|s|, i requires 0 <= i < |s| => LowerChar(s[i]))
  }

  lemma LowerSha(s: string)
    ensures Lower(Lower(s)) == Lower(s)
    ensures IsSha(s) ==> IsSha(Lower(s))
  {
  }

  predicate HasSuffix(s: string, p: string) {
    |p| <= |s| && s[|s| - |p|..] == p
  }

  function NormalizedURL(git: string): string {
    var g := TrimSpace(git);
    if HasPrefix(g, "https://") || HasPrefix(g, "http://") || HasPrefix(g, "ssh://") || HasPrefix(g, "file://")
       || HasPrefix(g, "git@") then g
    else "https://" + (if HasSuffix(g, ".git") then g else g + ".git")
  }

  /** What the remote answers to `git ls-remote` for a reference. */
  type Remote = (string, string) -> Option<string>

  /** `ResolveRef`: a sha stands for itself, anything else is asked for. */
  function Resolution(remote: Remote, url: string, version: string): Option<string> {
    if IsSha(version) then Some(Lower(version))
    else match remote(url, version)
      case Some(s) => Some(Lower(s))
      case None => None
  }

  class Resolver {
    const remote: Remote
    /** The references it was asked to resolve, in order. */
    var asked: seq<(string, string)>

    constructor (remote: Remote)
      ensures this.remote == remote && asked == []
    {
      this.remote, this.asked := remote, [];
    }

    method ResolveRef(url: string, version: string) returns (sha: Option<string>)
      modifies this
      ensures sha == Resolution(remote, url, version) && asked == old(asked) + [(url, version)]
    {
      asked := asked + [(url, version)];
      sha := Resolution(remote, url, version);
    }
  }

  function Find(lock: seq<LockedDep>, name: string): (r: Option<LockedDep>)
    ensures r.Some? ==> r.value in lock && r.value.name == name
    ensures r.None? ==> forall e :: e in lock ==> e.name != name
  {
    if lock == [] then None else if lock[0].name == name then Some(lock[0]) else Find(lock[1..], name)
  }

  /** One dep settled: the entry for the new lock, the sha to use, and whether it was resolved afresh. */
  datatype Pin = Pin(entry: LockedDep, sha: string, isNew: bool)

  /** A declared dep keeps its pin, or gets one; None is every refusal. */
  function PinFor(d: Dep, lock: seq<LockedDep>, remote: Remote): Option<Pin> {
    if d.name == "" || d.git == "" || d.version == "" then None
    else match Find(lock, d.name)
      case Some(e) =>
        if e.git != d.git || e.version != d.version || !IsSha(e.sha) then None else Some(Pin(e, Lower(e.sha), false))
      case None =>
        match Resolution(remote, NormalizedURL(d.git), d.version)
        case Some(sha) => Some(Pin(LockedDep(d.name, d.git, d.version, sha), sha, true))
        case None => None
  }

  function Pins(deps: seq<Dep>, lock: seq<LockedDep>, remote: Remote): (r: Option<seq<Pin>>)
    ensures r.Some? ==> |r.value| == |deps| && forall i :: 0 <= i < |deps| ==>
      PinFor(deps[i], lock, remote) == Some(r.value[i])
    ensures r.None? ==> exists i :: 0 <= i < |deps| && PinFor(deps[i], lock, remote) == None
  {
    if deps == [] then Some([])
    else match (PinFor(deps[0], lock, remote), Pins(deps[1..], lock, remote))
      case (Some(p), Some(ps)) => Some([p] + ps)
      case _ => None
  }

  function Entries(pins: seq<Pin>): (es: seq<LockedDep>)
    ensures |es| == |pins|
  {
    seq(|pins|, i requires 0 <= i < |pins| => pins[i].entry)
  }

  predicate AnyNew(pins: seq<Pin>) { exists i :: 0 <= i < |pins| && pins[i].isNew }

  /** Each dep name with its sha; a later dep of the same name wins. */
  function Resolved(pins: seq<Pin>): map<string, string> {
    if pins == [] then map[] else Resolved(pins[..|pins| - 1])[pins[|pins| - 1].entry.name := pins[|pins| - 1].sha]
  }

  /** The references asked for: those of the new pins, in order. */
  function Questions(deps: seq<Dep>, pins: seq<Pin>): seq<(string, string)>
    requires |pins| == |deps|
  {
    if deps == [] then []
    else Questions(deps[..|deps| - 1], pins[..|deps| - 1])
         + (if pins[|deps| - 1].isNew then [(NormalizedURL(deps[|deps| - 1].git), deps[|deps| - 1].version)] else [])
  }

  lemma OneMorePin(deps: seq<Dep>, pins: seq<Pin>, d: Dep, p: Pin)
    requires |pins| == |deps|
    ensures Resolved(pins + [p]) == Resolved(pins)[p.entry.name := p.sha]
    ensures AnyNew(pins + [p]) == (AnyNew(pins) || p.isNew)
    ensures Entries(pins + [p]) == Entries(pins) + [p.entry]
    ensures Questions(deps + [d], pins + [p]) ==
      Questions(deps, pins) + if p.isNew then [(NormalizedURL(d.git), d.version)] else []
  {
    assert (pins + [p])[..|pins|] == pins && (deps + [d])[..|deps|] == deps;
    if AnyNew(pins) { var j :| 0 <= j < |pins| && pins[j].isNew; assert (pins + [p])[j].isNew; }
    if p.isNew { assert (pins + [p])[|pins|].isNew; }
  }

  lemma NoPins()
    ensures Resolved([]) == map[] && !AnyNew([]) && Entries([]) == [] && Questions([], []) == []
  {
  }

  method Reconcile(deps: seq<Dep>, lock: seq<LockedDep>, resolver: Resolver)
    returns (ok: bool, resolved: map<string, string>, changed: bool, newLock: seq<LockedDep>)
    modifies resolver
    ensures ok <==> Pins(deps, lock, resolver.remote).Some?
    ensures ok ==> var pins := Pins(deps, lock, resolver.remote).value;
      && resolved == Resolved(pins) && changed == AnyNew(pins) && newLock == Entries(pins)
      && resolver.asked == old(resolver.asked) + Questions(deps, pins)
  {
    hide NormalizedURL, IsSha, Lower, Resolved, AnyNew, Entries, Questions;
    NoPins();
    ok, resolved, changed, newLock := true, map[], false, [];
    ghost var pins: seq<Pin> := [];
    for i := 0 to |deps|
      invariant ok && |pins| == i
      invariant forall j :: 0 <= j < i ==> PinFor(deps[j], lock, resolver.remote) == Some(pins[j])
      invariant resolved == Resolved(pins) && changed == AnyNew(pins) && newLock == Entries(pins)
      invariant resolver.asked == old(resolver.asked) + Questions(deps[..i], pins)
    {
      var d := deps[i];
      ghost var pin := PinFor(d, lock, resolver.remote);
      if d.name == "" || d.git == "" || d.version == "" { return false, map[], false, []; }
      var url := NormalizedURL(d.git);
      var entry := Find(lock, d.name);
      var sha;
      if entry.Some? {
        if entry.value.git != d.git || entry.value.version != d.version { return false, map[], false, []; }
        if !IsSha(entry.value.sha) { return false, map[], false, []; }
        sha := Lower(entry.value.sha);
        newLock := newLock + [entry.value];
      } else {
        var answer := resolver.ResolveRef(url, d.version);
        if answer == None { return false, map[], false, []; }
        sha := answer.value;
        newLock := newLock + [LockedDep(d.name, d.git, d.version, sha)];
        changed := true;
      }
      resolved := resolved[d.name := sha];
      assert deps[..i + 1] == deps[..i] + [d];
      OneMorePin(deps[..i], pins, d, pin.value);
      pins := pins + [pin.value];
    }
    assert deps[..|deps|] == deps;
    assert Pins(deps, lock, resolver.remote).Some? && Pins(deps, lock, resolver.remote).value == pins;
  }

  /** `axup deps tidy`: every dep resolved from scratch is reconciling against no lock at all. */
  method RefreshAll(deps: seq<Dep>, resolver: Resolver) returns (ok: bool, lock: seq<LockedDep>)
    modifies resolver
    ensures ok <==> Pins(deps, [], resolver.remote).Some?
    ensures ok ==> lock == Entries(Pins(deps, [], resolver.remote).value)
  {
    ok, lock := true, [];
    ghost var pins: seq<Pin> := [];
    for i := 0 to |deps|
      invariant ok && |pins| == i && lock == Entries(pins)
      invariant forall j :: 0 <= j < i ==> PinFor(deps[j], [], resolver.remote) == Some(pins[j])
    {
      var d := deps[i];
      if d.name == "" || d.git == "" || d.version == "" { return false, []; }
      var sha := resolver.ResolveRef(NormalizedURL(d.git), d.version);
      if sha == None { return false, []; }
      lock := lock + [LockedDep(d.name, d.git, d.version, sha.value)];
      pins := pins + [PinFor(d, [], resolver.remote).value];
    }
    assert Pins(deps, [], resolver.remote).Some? && Pins(deps, [], resolver.remote).value == pins;
  }

  // ---------- what a pin is ----------

  predicate HexSha(s: string) { 7 <= |s| <= 40 && forall i :: 0 <= i < |s| ==> s[i] in "0123456789abcdefABCDEF" }

  /** s is t with its capital letters made small. */
  predicate Lowered(s: string, t: string) {
    |s| == |t| && forall i :: 0 <= i < |t| ==>
      s[i] as int == t[i] as int + if 'A' <= t[i] <= 'Z' then 32 else 0
  }

  /** Where a dep is fetched from: a full address as it stands, a short one over https with `.git` at its end. */
  function Address(git: string): string {
    var g := TrimSpace(git);
    if "https://" <= g || "http://" <= g || "ssh://" <= g || "file://" <= g || "git@" <= g then g
    else if |g| >= 4 && g[|g| - 4..] == ".git" then "https://" + g
    else "https://" + g + ".git"
  }

  /** e is the first entry of its name. */
  ghost predicate FirstNamed(lock: seq<LockedDep>, e: LockedDep, name: string) {
    exists j :: 0 <= j < |lock| && lock[j] == e && e.name == name && forall m :: 0 <= m < j ==> lock[m].name != name
  }

  lemma {:induction false} FindsFirst(lock: seq<LockedDep>, name: string)
    ensures Find(lock, name).Some? <==> exists e :: e in lock && e.name == name
    ensures Find(lock, name).Some? ==> FirstNamed(lock, Find(lock, name).value, name)
  {
    if lock != [] {
      if lock[0].name == name {
        assert lock[0] in lock;
      } else {
        FindsFirst(lock[1..], name);
        if Find(lock[1..], name).Some? {
          var e := Find(lock[1..], name).value;
          var j :| 0 <= j < |lock[1..]| && lock[1..][j] == e && forall m :: 0 <= m < j ==> lock[1..][m].name != name;
          assert lock[j + 1] == e && forall m :: 0 < m < j + 1 ==> lock[m] == lock[1..][m - 1];
        }
      }
    }
  }

  lemma WordsMean(s: string)
    ensures IsSha(s) <==> HexSha(s)
    ensures forall t :: Lower(s) == t <==> Lowered(t, s)
    ensures NormalizedURL(s) == Address(s)
  {
    hide TrimSpace;
    forall t ensures Lower(s) == t <==> Lowered(t, s) {
      if Lowered(t, s) { assert forall i :: 0 <= i < |s| ==> Lower(s)[i] == t[i]; }
    }
    var g := TrimSpace(s);
    assert "https://" + (g + ".git") == "https://" + g + ".git";
  }

  /** A dep named in the lock keeps the first entry of its name, if that agrees with it and holds a sha; any other is
      given the sha it is declared at, or what the remote answers for the version declared, in small letters. All
      else is refused. */
  lemma PinMeans(d: Dep, lock: seq<LockedDep>, remote: Remote)
    ensures var pin := PinFor(d, lock, remote);
      if d.name == "" || d.git == "" || d.version == "" then pin == None
      else if exists e :: FirstNamed(lock, e, d.name) then
        forall e | FirstNamed(lock, e, d.name) ::
          && (pin.Some? <==> e.git == d.git && e.version == d.version && HexSha(e.sha))
          && (pin.Some? ==> pin.value.entry == e && Lowered(pin.value.sha, e.sha) && !pin.value.isNew)
      else
        var answer := if HexSha(d.version) then Some(d.version) else remote(Address(d.git), d.version);
        && (pin.Some? <==> answer.Some?)
        && (pin.Some? ==>
              && pin.value.isNew && Lowered(pin.value.sha, answer.value)
              && pin.value.entry == LockedDep(d.name, d.git, d.version, pin.value.sha))
  {
    hide NormalizedURL, Address, IsSha, HexSha, Lower, Lowered;
    WordsMean(d.git);
    WordsMean(d.version);
    FindsFirst(lock, d.name);
    match Find(lock, d.name)
    case Some(e) => WordsMean(e.sha);
    case None =>
      if remote(Address(d.git), d.version).Some? { WordsMean(remote(Address(d.git), d.version).value); }
  }

  /** Each name resolves to the sha of the last dep that bears it. */
  lemma {:induction false} ResolvesLast(deps: seq<Dep>, pins: seq<Pin>, i: nat)
    requires |pins| == |deps| && i < |deps|
    requires forall j :: 0 <= j < |deps| ==> pins[j].entry.name == deps[j].name
    requires forall j :: i < j < |deps| ==> deps[j].name != deps[i].name
    ensures deps[i].name in Resolved(pins) && Resolved(pins)[deps[i].name] == pins[i].sha
    decreases |deps|
  {
    var n := |deps| - 1;
    if i < n { ResolvesLast(deps[..n], pins[..n], i); }
  }

  /** A dep that is in no entry of the lock is asked for, at its address and the version declared; no other is. */
  lemma AsksForNew(deps: seq<Dep>, pins: seq<Pin>, lock: seq<LockedDep>, remote: Remote, d: Dep, pin: Pin)
    requires |pins| == |deps| && PinFor(d, lock, remote) == Some(pin)
    ensures Questions([], []) == []
    ensures Questions(deps + [d], pins + [pin]) == Questions(deps, pins)
      + if forall e :: e in lock ==> e.name != d.name then [(Address(d.git), d.version)] else []
  {
    hide Address, NormalizedURL, IsSha, Lower, Questions;
    NoPins();
    WordsMean(d.git);
    OneMorePin(deps, pins, d, pin);
  }

  // ---------- fixpoint ----------

  /** The remote answers with well-formed shas. */
  ghost predicate WellFormed(remote: Remote) {
    forall u, v :: remote(u, v).Some? ==> IsSha(remote(u, v).value)
  }

  /** Deps declared under one name agree on repository and version; distinct names always do. */
  predicate Agree(deps: seq<Dep>) {
    forall i, j :: 0 <= i < j < |deps| && deps[i].name == deps[j].name ==>
      deps[i].git == deps[j].git && deps[i].version == deps[j].version
  }

  /** The pin of an earlier dep of the same name is what a later look-up finds. */
  lemma FindEntry(pins: seq<Pin>, name: string)
    ensures Find(Entries(pins), name).Some? <==> exists i :: 0 <= i < |pins| && pins[i].entry.name == name
    ensures Find(Entries(pins), name).Some? ==>
      exists i :: 0 <= i < |pins| && pins[i].entry == Find(Entries(pins), name).value
  {
    var es := Entries(pins);
    if Find(es, name).Some? {
      var e := Find(es, name).value;
      var i :| 0 <= i < |es| && es[i] == e;
      assert pins[i].entry == e;
    }
    if i :| 0 <= i < |pins| && pins[i].entry.name == name {
      assert es[i] in es && es[i].name == name;
    }
  }

  lemma PinShape(d: Dep, lock: seq<LockedDep>, remote: Remote)
    requires WellFormed(remote) && PinFor(d, lock, remote).Some?
    ensures var p := PinFor(d, lock, remote).value;
      p.entry.name == d.name && p.entry.git == d.git && p.entry.version == d.version && IsSha(p.entry.sha)
        && Lower(p.entry.sha) == p.sha
  {
    if Find(lock, d.name).None? {
      var sha := Resolution(remote, NormalizedURL(d.git), d.version).value;
      if IsSha(d.version) { LowerSha(d.version); } else { LowerSha(remote(NormalizedURL(d.git), d.version).value); }
    }
  }

  /** Two agreeing deps of one name are pinned alike. */
  lemma SamePin(d: Dep, d': Dep, lock: seq<LockedDep>, remote: Remote)
    requires d.name == d'.name && d.git == d'.git && d.version == d'.version
    ensures PinFor(d, lock, remote) == PinFor(d', lock, remote)
  {
  }

  /** Against the lock just produced, each dep either finds its own pin again or is refused. */
  lemma {:induction false} PinAgain(deps: seq<Dep>, lock: seq<LockedDep>, remote: Remote, i: nat)
    requires WellFormed(remote) && Pins(deps, lock, remote).Some? && i < |deps|
    ensures var pins := Pins(deps, lock, remote).value;
      var again := PinFor(deps[i], Entries(pins), remote);
      (again.Some? ==> again == Some(pins[i].(isNew := false))) && (Agree(deps) ==> again.Some?)
  {
    var pins := Pins(deps, lock, remote).value;
    PinShape(deps[i], lock, remote);
    FindEntry(pins, deps[i].name);
    assert pins[i].entry.name == deps[i].name;
    var e := Find(Entries(pins), deps[i].name).value;
    var j :| 0 <= j < |pins| && pins[j].entry == e;
    PinShape(deps[j], lock, remote);
    if deps[j].git == deps[i].git && deps[j].version == deps[i].version {
      SamePin(deps[i], deps[j], lock, remote);
    }
    if Agree(deps) {
      assert deps[i].name == deps[j].name;
      if i != j { assert deps[i].git == deps[j].git && deps[i].version == deps[j].version; }
    }
  }

  lemma {:induction false} ResolvedAlike(ps: seq<Pin>, qs: seq<Pin>)
    requires |ps| == |qs| && forall i :: 0 <= i < |ps| ==> qs[i] == ps[i].(isNew := false)
    ensures Resolved(ps) == Resolved(qs) && Entries(ps) == Entries(qs) && !AnyNew(qs)
  {
    if ps != [] {
      ResolvedAlike(ps[..|ps| - 1], qs[..|qs| - 1]);
    }
  }

  lemma {:induction false} NothingAsked(deps: seq<Dep>, pins: seq<Pin>)
    requires |pins| == |deps| && !AnyNew(pins)
    ensures Questions(deps, pins) == []
  {
    if deps != [] {
      NothingAsked(deps[..|deps| - 1], pins[..|deps| - 1]);
    }
  }

  lemma FoundAgree(deps: seq<Dep>, pins: seq<Pin>, lock: seq<LockedDep>, remote: Remote, i: nat)
    requires WellFormed(remote) && Pins(deps, lock, remote) == Some(pins) && i < |deps|
    requires PinFor(deps[i], Entries(pins), remote).Some?
    ensures Find(Entries(pins), deps[i].name).Some?
    ensures var e := Find(Entries(pins), deps[i].name).value; e.git == deps[i].git && e.version == deps[i].version
  {
    PinShape(deps[i], lock, remote);
    FindEntry(pins, deps[i].name);
    assert pins[i].entry.name == deps[i].name;
  }

  /** Reconciling again with the lock it produced (or that a refresh produced: reconcile against no lock)
      goes through exactly when deps of one name agree; it then asks nothing, reports no change, and gives
      the same resolution and the same lock in the same order. */
  lemma {:induction false} ReconcileFixpoint(deps: seq<Dep>, lock: seq<LockedDep>, remote: Remote)
    requires WellFormed(remote) && Pins(deps, lock, remote).Some?
    ensures var pins := Pins(deps, lock, remote).value;
      var again := Pins(deps, Entries(pins), remote);
      && (again.Some? <==> Agree(deps))
      && (again.Some? ==>
            !AnyNew(again.value) && Questions(deps, again.value) == []
            && Entries(again.value) == Entries(pins) && Resolved(again.value) == Resolved(pins))
  {
    hide PinFor, Find, Entries, Resolved, AnyNew, Questions, WellFormed;
    var pins := Pins(deps, lock, remote).value;
    var again := Pins(deps, Entries(pins), remote);
    forall i | 0 <= i < |deps|
      ensures var p := PinFor(deps[i], Entries(pins), remote); p.Some? ==> p == Some(pins[i].(isNew := false))
    {
      PinAgain(deps, lock, remote, i);
    }
    if again.Some? {
      ResolvedAlike(pins, again.value);
      NothingAsked(deps, again.value);
      forall i, j | 0 <= i < j < |deps| && deps[i].name == deps[j].name
        ensures deps[i].git == deps[j].git && deps[i].version == deps[j].version
      {
        FoundAgree(deps, pins, lock, remote, i);
        FoundAgree(deps, pins, lock, remote, j);
      }
    }
    if Agree(deps) && again.None? {
      var i :| 0 <= i < |deps| && PinFor(deps[i], Entries(pins), remote) == None;
      PinAgain(deps, lock, remote, i);
    }
  }

  /** A dep already in the lock keeps its entry, whatever else is declared. */
  lemma PinsKept(deps: seq<Dep>, lock: seq<LockedDep>, remote: Remote, i: nat)
    requires Pins(deps, lock, remote).Some? && i < |deps| && Find(lock, deps[i].name).Some?
    ensures Entries(Pins(deps, lock, remote).value)[i] == Find(lock, deps[i].name).value
  {
    assert PinFor(deps[i], lock, remote) == Some(Pins(deps, lock, remote).value[i]);
  }

  /** Adding deps to a reconciled, agreeing list never alters a pin. */
  lemma AddingKeepsPins(deps: seq<Dep>, more: seq<Dep>, lock: seq<LockedDep>, remote: Remote)
    requires WellFormed(remote) && Pins(deps, lock, remote).Some? && Agree(deps)
    requires Pins(deps + more, Entries(Pins(deps, lock, remote).value), remote).Some?
    ensures var old_ := Entries(Pins(deps, lock, remote).value);
      Entries(Pins(deps + more, old_, remote).value)[..|deps|] == old_
  {
    var pins := Pins(deps, lock, remote).value;
    var all := Pins(deps + more, Entries(pins), remote).value;
    forall i | 0 <= i < |deps| ensures all[i].entry == pins[i].entry {
      assert (deps + more)[i] == deps[i];
      assert PinFor((deps + more)[i], Entries(pins), remote) == Some(all[i]);
      PinAgain(deps, lock, remote, i);
    }
  }
}
