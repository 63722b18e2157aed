/** Rollback: restoring tracked files from their archived history. */
module Rollbacks {
  import opened Options
  import opened Octal
  import opened ByteStrings
  import opened Disks
  import opened Tasks

  predicate Restorable(d: Disk, p: Path) {
    && (forall a :: a in Ancestors(p) ==> IsDir(d, a))
    && TmpFree(d, p + ROLLBACK_TMP)
    && !IsDir(d, p)
  }

  /** The entry asked for exists, its mode parses and its archive can be opened. */
  predicate EntryBacked(archives: map<Path, Bytes>, e: Entry) {
    ModeOr(e.mode, DEFAULT_FILE_MODE).Some? && e.archive in archives
  }

  predicate Backed(w: World, p: Path, k: nat)
    requires p in w.files && k >= 1
  {
    var h := w.files[p].history;
    k <= |h| && EntryBacked(w.archives, h[k - 1])
  }

  predicate Succeeds(w: World, p: Path, k: nat)
    requires p in w.files && k >= 1
  {
    Backed(w, p, k) && Restorable(w.disk, p)
  }

  function RestoredFile(env: Env, w: World, p: Path, k: nat): Node
    requires p in w.files && k >= 1 && Backed(w, p, k)
  {
    var e := w.files[p].history[k - 1];
    NewFile(env, w.disk, p + ROLLBACK_TMP, w.archives[e.archive], ModeOr(e.mode, DEFAULT_FILE_MODE).value % 512)
  }

  /** The live file replaced, and the temporary sibling renamed away. */
  function Restored(env: Env, w: World, p: Path, k: nat): Disk
    requires p in w.files && k >= 1 && Backed(w, p, k)
  {
    (w.disk - {p + ROLLBACK_TMP})[p := RestoredFile(env, w, p, k)]
  }

  function Dropped(r: FileRec, k: nat): FileRec
    requires 1 <= k <= |r.history|
  {
    FileRec(r.history[k - 1].sha, r.history[k - 1].mode, r.history[k..])
  }

  /** A successful rollback of one file. */
  function Undo(env: Env, w: World, p: Path, k: nat): World
    requires p in w.files && k >= 1 && Backed(w, p, k)
  {
    World(Restored(env, w, p, k), w.archives - Names(w.files[p].history[..k]), w.files[p := Dropped(w.files[p], k)],
      w.changed)
  }

  function RollbackOne(env: Env, w: World, p: Path, k: nat, io: Io): (World, Status)
    requires p in w.files && k >= 1
  {
    if !Backed(w, p, k) || io.fault.AtInspect? then (w, Error)
    else if io.fault.AtEffect? || !Restorable(w.disk, p) then (w.(disk := io.residue), Error)
    else
      (Undo(env, w, p, k).(archives := w.archives - (Names(w.files[p].history[..k]) - io.sticky)), Changed)
  }

  predicate Selected(filter: Path, p: Path) {
    filter == "" || filter == p
  }

  /** One selected file; without a filter a file that never had a version is passed over in silence. */
  function Turn(env: Env, w: World, p: Path, k: nat, filter: Path, io: Io): (World, Status)
    requires p in w.files && k >= 1
  {
    if w.files[p].history == [] && filter == "" then (w, Skipped) else RollbackOne(env, w, p, k, io)
  }

  function Foretold(r: FileRec, k: nat, filter: Path): Status {
    if r.history == [] && filter == "" then Skipped else if |r.history| < k then Error else WouldChange
  }

  /** The loop over tracked files, from position i of the listing on. */
  function RollbackFrom(env: Env, w: World, order: seq<Path>, i: nat, k: nat, filter: Path, ios: seq<Io>)
    : (World, seq<Event>)
    requires i <= |order| == |ios| && k >= 1
    requires forall p :: p in order ==> p in w.files
    decreases |order| - i
  {
    if i == |order| then (w, [])
    else
      var p := order[i];
      if !Selected(filter, p) then RollbackFrom(env, w, order, i + 1, k, filter, ios)
      else
        var (w1, s) := Turn(env, w, p, k, filter, ios[i]);
        var (w2, es) := RollbackFrom(env, w1, order, i + 1, k, filter, ios);
        (w2, [Event(RollbackId(i + 1), s, p)] + es)
  }

  function PreviewFrom(files: map<Path, FileRec>, order: seq<Path>, i: nat, k: nat, filter: Path): seq<Event>
    requires i <= |order| && forall p :: p in order ==> p in files
    decreases |order| - i
  {
    if i == |order| then []
    else
      var p := order[i];
      var rest := PreviewFrom(files, order, i + 1, k, filter);
      if !Selected(filter, p) then rest
      else [Event(RollbackId(i + 1), Foretold(files[p], k, filter), p)] + rest
  }

  ghost predicate Lists(order: seq<Path>, files: map<Path, FileRec>) {
    (forall p :: p in order <==> p in files) && (forall i, j :: 0 <= i < j < |order| ==> order[i] != order[j])
  }

  /** No call on the way to putting a file back fails. */
  predicate Lets(io: Io) { !io.fault.AtInspect? && !io.fault.AtEffect? }

  predicate Calm(io: Io) { io.fault.NoFault? && io.sticky == {} }

  /** Between two counts of the host's failed calls: a fault is put down to a call that failed. */
  predicate Honest(before: nat, after: nat, io: Io) {
    before <= after && (after == before ==> Calm(io))
  }

  /** The places where a call failed or a deletion was refused. */
  function Faulty(ios: seq<Io>): set<nat> {
    set j: nat | j < |ios| && !Calm(ios[j])
  }

  lemma FaultySnoc(ios: seq<Io>, io: Io, count: nat, before: nat, after: nat)
    requires |Faulty(ios)| <= count && Honest(before, after, io)
    ensures |Faulty(ios + [io])| <= count + (after - before)
  {
    var all := ios + [io];
    assert forall j :: 0 <= j < |ios| ==> all[j] == ios[j];
    assert Faulty(all) == Faulty(ios) + if Calm(io) then {} else {|ios|};
  }

  predicate HasEntry(files: map<Path, FileRec>, p: Path, i: int) {
    p in files && 0 <= i < |files[p].history|
  }

  function ArchiveAt(files: map<Path, FileRec>, p: Path, i: int): Path
    requires HasEntry(files, p, i)
  {
    files[p].history[i].archive
  }

  /** No two entries share an archive. */
  ghost predicate Distinct(files: map<Path, FileRec>) {
    forall p, i, q, j | HasEntry(files, p, i) && HasEntry(files, q, j) ::
      ArchiveAt(files, p, i) == ArchiveAt(files, q, j) ==> p == q && i == j
  }

  /** No tracked path is the temporary sibling of another. */
  predicate NoTmpClash(files: map<Path, FileRec>) {
    forall p :: p in files ==> p + ROLLBACK_TMP !in files
  }

  // ---------- one rollback, all or nothing ----------

  /** A rollback that does not report a change has touched no row, no archive and no path but its temporary
      sibling; one that does leaves the archived version, whole, and records it. */
  ghost predicate AllOrNothing(w: World, w': World, p: Path, k: nat, s: Status)
    requires p in w.files && k >= 1
  {
    && (s != Changed ==> w' == w.(disk := w'.disk) && OnlyTmp(w.disk, w'.disk, p + ROLLBACK_TMP))
    && (s == Changed ==>
          && Backed(w, p, k) && p in w'.files && p in w'.disk && w'.disk[p].File?
          && w'.disk[p].body == w.archives[w.files[p].history[k - 1].archive]
          && w'.files[p].sha == w.files[p].history[k - 1].sha
          && ModeOr(w.files[p].history[k - 1].mode, DEFAULT_FILE_MODE) == ModeOr(w'.files[p].mode, DEFAULT_FILE_MODE)
          && w'.disk[p].mode == ModeOr(w'.files[p].mode, DEFAULT_FILE_MODE).value % 512)
  }

  lemma RollbackAllOrNothing(env: Env, w: World, p: Path, k: nat, io: Io)
    requires p in w.files && k >= 1 && OnlyTmp(w.disk, io.residue, p + ROLLBACK_TMP)
    ensures var (w', s) := RollbackOne(env, w, p, k, io); AllOrNothing(w, w', p, k, s)
  {
    hide ParseUint, Restorable, Names;
  }

  lemma NamesSplit(h: seq<Entry>, a: nat, b: nat)
    requires a + b <= |h|
    ensures Names(h[..a]) + Names(h[a..][..b]) == Names(h[..a + b])
  {
    forall n ensures n in Names(h[..a]) + Names(h[a..][..b]) <==> n in Names(h[..a + b]) {
      if n in Names(h[..a + b]) {
        var i :| 0 <= i < a + b && h[..a + b][i].archive == n;
        if i < a { assert h[..a][i].archive == n; } else { assert h[a..][..b][i - a].archive == n; }
      }
      if n in Names(h[..a]) { var i :| 0 <= i < a && h[..a][i].archive == n; assert h[..a + b][i].archive == n; }
      if n in Names(h[a..][..b]) {
        var i :| 0 <= i < b && h[a..][..b][i].archive == n;
        assert h[..a + b][a + i].archive == n;
      }
    }
  }

  lemma CalmRollback(env: Env, w: World, p: Path, k: nat, io: Io)
    requires p in w.files && k >= 1 && Succeeds(w, p, k) && Calm(io)
    ensures RollbackOne(env, w, p, k, io) == (Undo(env, w, p, k), Changed)
  {
    assert Names(w.files[p].history[..k]) - {} == Names(w.files[p].history[..k]);
  }

  /** After rolling back a versions, the b-th of what remains is still there to be restored. */
  lemma StillBacked(env: Env, w: World, p: Path, a: nat, b: nat)
    requires p in w.files && a >= 1 && b >= 1 && a + b <= |w.files[p].history|
    requires Distinct(w.files) && Succeeds(w, p, a) && Backed(w, p, a + b)
    ensures Succeeds(Undo(env, w, p, a), p, b)
  {
    var h := w.files[p].history;
    assert h[a..][b - 1] == h[a + b - 1];
    forall i | 0 <= i < a ensures h[i].archive != h[a + b - 1].archive {
      assert ArchiveAt(w.files, p, i) == h[i].archive && ArchiveAt(w.files, p, a + b - 1) == h[a + b - 1].archive;
    }
    assert h[a + b - 1].archive !in Names(h[..a]);
    assert p !in Ancestors(p) && p + ROLLBACK_TMP !in Ancestors(p);
  }

  lemma UndoComposes(env: Env, w: World, p: Path, a: nat, b: nat)
    requires p in w.files && a >= 1 && b >= 1 && a + b <= |w.files[p].history|
    requires Backed(w, p, a) && Backed(w, p, a + b) && Backed(Undo(env, w, p, a), p, b)
    ensures var w2, w3 := Undo(env, Undo(env, w, p, a), p, b), Undo(env, w, p, a + b);
      && w2.files == w3.files && w2.archives == w3.archives
      && w2.disk == (w.disk - {p + ROLLBACK_TMP})[p := w2.disk[p]]
      && w3.disk == (w.disk - {p + ROLLBACK_TMP})[p := w3.disk[p]]
      && w2.disk[p].File? && w3.disk[p].File? && w2.disk[p].body == w3.disk[p].body
      && w2.disk[p].mode == w3.disk[p].mode
      && (p + ROLLBACK_TMP !in w.disk ==> w2.disk[p] == w3.disk[p])
  {
    var h := w.files[p].history;
    assert h[a..][b - 1] == h[a + b - 1];
    assert h[a..][b..] == h[a + b..];
    NamesSplit(h, a, b);
    assert w.archives - Names(h[..a]) - Names(h[a..][..b]) == w.archives - (Names(h[..a]) + Names(h[a..][..b]));
  }

  /** Rolling back a versions and then b lands where rolling back a + b does. */
  lemma RollbackComposes(env: Env, w: World, p: Path, a: nat, b: nat, io1: Io, io2: Io, io: Io)
    returns (w1: World, w2: World, w3: World)
    requires p in w.files && a >= 1 && b >= 1 && a + b <= |w.files[p].history|
    requires Distinct(w.files) && Restorable(w.disk, p) && Backed(w, p, a) && Backed(w, p, a + b)
    requires Calm(io1) && Calm(io2) && Calm(io)
    ensures RollbackOne(env, w, p, a, io1) == (w1, Changed)
    ensures p in w1.files && RollbackOne(env, w1, p, b, io2) == (w2, Changed)
    ensures RollbackOne(env, w, p, a + b, io) == (w3, Changed)
    ensures w2.files == w3.files && w2.archives == w3.archives && w2.changed == w3.changed
    ensures p in w2.disk && p in w3.disk && w2.disk == w3.disk[p := w2.disk[p]]
    ensures w2.disk[p].File? && w3.disk[p].File?
    ensures w2.disk[p].body == w3.disk[p].body && w2.disk[p].mode == w3.disk[p].mode
    ensures p + ROLLBACK_TMP !in w.disk ==> w2 == w3
  {
    var h := w.files[p].history;
    StillBacked(env, w, p, a, b);
    UndoComposes(env, w, p, a, b);
    CalmRollback(env, w, p, a, io1);
    w1 := Undo(env, w, p, a);
    CalmRollback(env, w1, p, b, io2);
    w2 := Undo(env, w1, p, b);
    CalmRollback(env, w, p, a + b, io);
    w3 := Undo(env, w, p, a + b);
  }

  // ---------- the whole rulebook ----------

  /** Where an entry of the rows after k versions of p are dropped stood before. */
  lemma Remains(w: World, w': World, p: Path, k: nat, q: Path, i: int)
    requires p in w.files && 1 <= k <= |w.files[p].history| && p in w'.files
    requires w'.files == w.files[p := w'.files[p]] && w'.files[p].history == w.files[p].history[k..]
    requires HasEntry(w'.files, q, i)
    ensures var j := if q == p then i + k else i;
      && HasEntry(w.files, q, j) && w'.files[q].history[i] == w.files[q].history[j]
      && ArchiveAt(w'.files, q, i) == ArchiveAt(w.files, q, j)
  {
  }

  lemma DropDistinct(w: World, w': World, p: Path, k: nat)
    requires Distinct(w.files) && p in w.files && 1 <= k <= |w.files[p].history| && p in w'.files
    requires w'.files == w.files[p := w'.files[p]] && w'.files[p].history == w.files[p].history[k..]
    ensures Distinct(w'.files)
  {
    forall q, i, r, j | HasEntry(w'.files, q, i) && HasEntry(w'.files, r, j)
      && ArchiveAt(w'.files, q, i) == ArchiveAt(w'.files, r, j)
      ensures q == r && i == j
    {
      Remains(w, w', p, k, q, i);
      Remains(w, w', p, k, r, j);
    }
  }

  ghost predicate SameDirs(d: Disk, d': Disk) { forall a :: IsDir(d', a) == IsDir(d, a) }

  ghost predicate FewerArchives(w: World, w': World) {
    forall n :: n in w'.archives ==> n in w.archives && w'.archives[n] == w.archives[n]
  }

  /** A turn keeps to its own row, its own path and its own temporary sibling, and turns no path into or
      out of a directory. */
  lemma TurnAlone(env: Env, w: World, q: Path, k: nat, filter: Path, io: Io)
    requires q in w.files && k >= 1 && OnlyTmp(w.disk, io.residue, q + ROLLBACK_TMP)
    ensures var (w', s) := Turn(env, w, q, k, filter, io);
      && q in w'.files && w'.files == w.files[q := w'.files[q]] && w'.changed == w.changed
      && FewerArchives(w, w') && SameDirs(w.disk, w'.disk)
      && (forall r :: r != q && r != q + ROLLBACK_TMP ==> At(w'.disk, r) == At(w.disk, r))
  {
    hide Ancestors, ParseUint, Names;
    var (w', s) := Turn(env, w, q, k, filter, io);
    var tmp := q + ROLLBACK_TMP;
    assert q != tmp && (s != Changed ==> At(w'.disk, q) == At(w.disk, q));
    forall a ensures IsDir(w'.disk, a) == IsDir(w.disk, a) {
      if a != q && a != tmp { assert At(w'.disk, a) == At(w.disk, a); }
      if a == tmp { assert At(w'.disk, tmp) == At(w.disk, tmp) || (TmpFree(w.disk, tmp) && TmpFree(w'.disk, tmp)); }
    }
  }

  /** What one turn did to its own file: the archived version put back whole, or nothing. */
  ghost predicate Outcome(env: Env, w: World, w': World, p: Path, k: nat, s: Status)
    requires p in w.files && k >= 1
  {
    p in w'.files &&
    if s == Changed then
      && Backed(w, p, k) && w'.files[p] == Dropped(w.files[p], k)
      && At(w'.disk, p) == Some(RestoredFile(env, w, p, k)) && p + ROLLBACK_TMP !in w'.disk
      && (forall a :: a in Ancestors(p) ==> IsDir(w'.disk, a))
    else
      && w'.files[p] == w.files[p] && At(w'.disk, p) == At(w.disk, p) && TmpTouched(w.disk, w'.disk, p + ROLLBACK_TMP)
      && (!Backed(w, p, k) ==> At(w'.disk, p + ROLLBACK_TMP) == At(w.disk, p + ROLLBACK_TMP))
  }

  lemma TurnOutcome(env: Env, w: World, p: Path, k: nat, filter: Path, io: Io)
    requires p in w.files && k >= 1 && OnlyTmp(w.disk, io.residue, p + ROLLBACK_TMP)
    ensures var (w', s) := Turn(env, w, p, k, filter, io);
      && Outcome(env, w, w', p, k, s) && (s == Changed || s == Skipped || s == Error)
      && (s == Changed <==> Lets(io) && Succeeds(w, p, k))
      && (s != Changed ==> w'.archives == w.archives)
      && (s == Changed ==> w'.archives == w.archives - (Names(w.files[p].history[..k]) - io.sticky))
  {
    hide ParseUint, Names;
    assert p !in Ancestors(p) && p + ROLLBACK_TMP !in Ancestors(p);
  }

  lemma RestorableAlike(d: Disk, d': Disk, p: Path)
    requires SameDirs(d, d') && At(d', p) == At(d, p) && At(d', p + ROLLBACK_TMP) == At(d, p + ROLLBACK_TMP)
    ensures Restorable(d', p) == Restorable(d, p)
  {
    hide Ancestors, IsDir;
  }

  /** With distinct archives, none of another file's entries goes when q's newest k are dropped. */
  lemma NotAmongDropped(w: World, q: Path, k: nat, p: Path, i: nat)
    requires Distinct(w.files) && p != q && q in w.files && HasEntry(w.files, p, i)
    ensures k <= |w.files[q].history| ==> ArchiveAt(w.files, p, i) !in Names(w.files[q].history[..k])
  {
    if k <= |w.files[q].history| {
      forall j | 0 <= j < k ensures w.files[q].history[..k][j].archive != ArchiveAt(w.files, p, i) {
        assert HasEntry(w.files, q, j) && ArchiveAt(w.files, q, j) == w.files[q].history[..k][j].archive;
      }
    }
  }

  lemma TmpInjective(p: Path, q: Path)
    ensures p + ROLLBACK_TMP == q + ROLLBACK_TMP ==> p == q
  {
    if p + ROLLBACK_TMP == q + ROLLBACK_TMP {
      assert |p| == |q|;
      assert p == (p + ROLLBACK_TMP)[..|p|];
    }
  }

  /** A turn on one file neither helps nor hinders restoring another, and does not change what would be restored. */
  lemma TurnKeepsOthers(env: Env, w: World, q: Path, k: nat, filter: Path, io: Io, p: Path)
    requires q in w.files && p in w.files && p != q && k >= 1 && OnlyTmp(w.disk, io.residue, q + ROLLBACK_TMP)
    requires Distinct(w.files) && NoTmpClash(w.files)
    ensures var w' := Turn(env, w, q, k, filter, io).0;
      && p in w'.files && w'.files[p] == w.files[p] && At(w'.disk, p) == At(w.disk, p)
      && At(w'.disk, p + ROLLBACK_TMP) == At(w.disk, p + ROLLBACK_TMP)
      && Backed(w', p, k) == Backed(w, p, k) && Succeeds(w', p, k) == Succeeds(w, p, k)
      && (Backed(w, p, k) ==> RestoredFile(env, w', p, k) == RestoredFile(env, w, p, k))
  {
    hide Ancestors, ParseUint;
    var (w', s) := Turn(env, w, q, k, filter, io);
    TurnAlone(env, w, q, k, filter, io);
    TurnOutcome(env, w, q, k, filter, io);
    TmpInjective(p, q);
    assert p + ROLLBACK_TMP !in w.files && q + ROLLBACK_TMP !in w.files;
    assert At(w'.disk, p) == At(w.disk, p) && At(w'.disk, p + ROLLBACK_TMP) == At(w.disk, p + ROLLBACK_TMP);
    if |w.files[p].history| >= k {
      NotAmongDropped(w, q, k, p, k - 1);
    }
    RestorableAlike(w.disk, w'.disk, p);
  }

  /** A turn that fails touches its temporary sibling at most. */
  ghost predicate Tidy(env: Env, w: World, order: seq<Path>, i: nat, k: nat, filter: Path, ios: seq<Io>)
    requires i <= |order| == |ios| && k >= 1 && forall p :: p in order ==> p in w.files
    decreases |order| - i
  {
    if i == |order| then true
    else if !Selected(filter, order[i]) then Tidy(env, w, order, i + 1, k, filter, ios)
    else
      && OnlyTmp(w.disk, ios[i].residue, order[i] + ROLLBACK_TMP)
      && Tidy(env, Turn(env, w, order[i], k, filter, ios[i]).0, order, i + 1, k, filter, ios)
  }

  /** What an event says is what happened to its file; it says Changed exactly when no call of its turn failed
      and the file could be restored at the start. */
  ghost predicate Truthful(env: Env, w: World, w': World, order: seq<Path>, i: nat, k: nat, filter: Path, ios: seq<Io>,
                           e: Event)
    requires |order| == |ios| && k >= 1 && forall p :: p in order ==> p in w.files
  {
    && e.id.RollbackId? && i < e.id.n <= |order| && e.path == order[e.id.n - 1] && Selected(filter, e.path)
    && Outcome(env, w, w', e.path, k, e.status)
    && (e.status == Changed <==> Lets(ios[e.id.n - 1]) && Succeeds(w, e.path, k))
  }

  ghost predicate LeftAlone(w: World, w': World, p: Path)
    requires p in w.files
  {
    p in w'.files && w'.files[p] == w.files[p] && At(w'.disk, p) == At(w.disk, p)
  }

  ghost predicate Heard(es: seq<Event>, j: nat) {
    exists e :: e in es && e.id == RollbackId(j + 1)
  }

  /** r is a selected path of the listing, or the temporary sibling of one. */
  ghost predicate Reaches(order: seq<Path>, filter: Path, r: Path) {
    exists p :: p in order && Selected(filter, p) && (r == p || r == p + ROLLBACK_TMP)
  }

  lemma ReachesCons(order: seq<Path>, i: nat, filter: Path, r: Path)
    requires i < |order|
    ensures Reaches(order[i..], filter, r) <==>
      Reaches(order[i + 1..], filter, r) || (Selected(filter, order[i])
        && (r == order[i] || r == order[i] + ROLLBACK_TMP))
  {
    assert order[i..] == [order[i]] + order[i + 1..];
  }

  /** Nothing but the selected files from position i on, and their temporary siblings, has changed. */
  ghost predicate Contained(w: World, w': World, order: seq<Path>, i: nat, filter: Path)
    requires i <= |order|
  {
    && w'.files.Keys == w.files.Keys && w'.changed == w.changed && FewerArchives(w, w') && SameDirs(w.disk, w'.disk)
    && (forall p | p in w.files && (p in order[..i] || !Selected(filter, p)) :: LeftAlone(w, w', p))
    && (forall r | !Reaches(order[i..], filter, r) :: At(w'.disk, r) == At(w.disk, r))
  }

  /** Every event is true, and every selected file has one. */
  ghost predicate Told(env: Env, w: World, w': World, order: seq<Path>, i: nat, k: nat, filter: Path, ios: seq<Io>,
                       es: seq<Event>)
    requires |order| == |ios| && k >= 1 && forall p :: p in order ==> p in w.files
  {
    && (forall e | e in es :: Truthful(env, w, w', order, i, k, filter, ios, e))
    && (forall j | i <= j < |order| && Selected(filter, order[j]) :: Heard(es, j))
  }

  /** The loop from position i on, whatever fails in it. */
  ghost predicate PerFile(env: Env, w: World, order: seq<Path>, i: nat, k: nat, filter: Path, ios: seq<Io>)
    requires i <= |order| == |ios| && k >= 1 && forall p :: p in order ==> p in w.files
  {
    var (w', es) := RollbackFrom(env, w, order, i, k, filter, ios);
    Contained(w, w', order, i, filter) && Told(env, w, w', order, i, k, filter, ios, es)
  }

  lemma TurnDistinct(env: Env, w: World, q: Path, k: nat, filter: Path, io: Io)
    requires q in w.files && k >= 1 && Distinct(w.files)
    ensures Distinct(Turn(env, w, q, k, filter, io).0.files)
  {
    var (w', s) := Turn(env, w, q, k, filter, io);
    if s == Changed { DropDistinct(w, w', q, k); }
  }

  /** Whatever is said of a file from after another file's turn holds from before it. */
  lemma OutcomeBefore(env: Env, w: World, q: Path, k: nat, filter: Path, io: Io, w': World, p: Path, s: Status)
    requires q in w.files && p in w.files && p != q && k >= 1 && OnlyTmp(w.disk, io.residue, q + ROLLBACK_TMP)
    requires Distinct(w.files) && NoTmpClash(w.files)
    requires p in Turn(env, w, q, k, filter, io).0.files && Outcome(env, Turn(env, w, q, k, filter, io).0, w', p, k, s)
    ensures Outcome(env, w, w', p, k, s)
  {
    hide Turn, Restorable, RestoredFile, Ancestors, Distinct, NoTmpClash, OnlyTmp;
    TurnKeepsOthers(env, w, q, k, filter, io, p);
  }

  /** The first turn's outcome is still there when the rest of the loop, which leaves p alone, is done. */
  lemma OutcomeLasts(env: Env, w: World, w1: World, w': World, p: Path, k: nat, s: Status)
    requires p in w.files && k >= 1 && Outcome(env, w, w1, p, k, s)
    requires LeftAlone(w1, w', p)
    requires SameDirs(w1.disk, w'.disk) && At(w'.disk, p + ROLLBACK_TMP) == At(w1.disk, p + ROLLBACK_TMP)
    ensures Outcome(env, w, w', p, k, s)
  {
    hide Backed, RestoredFile, Dropped, Ancestors;
  }

  lemma SameClash(w: World, w': World)
    requires w'.files.Keys == w.files.Keys && NoTmpClash(w.files)
    ensures NoTmpClash(w'.files)
  {
    forall p | p in w'.files ensures p + ROLLBACK_TMP !in w'.files {
      assert p in w.files.Keys && p + ROLLBACK_TMP !in w.files.Keys;
    }
  }

  lemma PerFileSkips(env: Env, w: World, order: seq<Path>, i: nat, k: nat, filter: Path, ios: seq<Io>)
    requires i < |order| == |ios| && k >= 1 && (forall p :: p in order ==> p in w.files) && !Selected(filter, order[i])
    requires PerFile(env, w, order, i + 1, k, filter, ios)
    ensures PerFile(env, w, order, i, k, filter, ios)
  {
    hide Turn, Outcome, Succeeds, Selected, Reaches;
    assert order[..i + 1] == order[..i] + [order[i]];
    forall r
      ensures Reaches(order[i..], filter, r) == Reaches(order[i + 1..], filter, r)
    {
      ReachesCons(order, i, filter, r);
    }
  }

  lemma HeardCons(e0: Event, es: seq<Event>, j: nat)
    requires e0.id == RollbackId(j + 1) || Heard(es, j)
    ensures Heard([e0] + es, j)
  {
    if e0.id == RollbackId(j + 1) {
      assert e0 in [e0] + es;
    } else {
      var e :| e in es && e.id == RollbackId(j + 1);
      assert e in [e0] + es;
    }
  }

  lemma NotMyTmp(w: World, p: Path, q: Path)
    requires p in w.files && q in w.files && NoTmpClash(w.files)
    ensures q != p + ROLLBACK_TMP
  {
  }

  lemma TruthfulFirst(env: Env, w: World, w': World, order: seq<Path>, i: nat, k: nat, filter: Path, ios: seq<Io>,
                      s: Status)
    requires i < |order| == |ios| && k >= 1 && (forall p :: p in order ==> p in w.files) && Selected(filter, order[i])
    requires Outcome(env, w, w', order[i], k, s) && (s == Changed <==> Lets(ios[i]) && Succeeds(w, order[i], k))
    ensures Truthful(env, w, w', order, i, k, filter, ios, Event(RollbackId(i + 1), s, order[i]))
  {
    hide Outcome, Succeeds;
  }

  lemma FirstTruthful(env: Env, w: World, order: seq<Path>, i: nat, k: nat, filter: Path, ios: seq<Io>)
    requires i < |order| == |ios| && k >= 1 && Lists(order, w.files) && Selected(filter, order[i])
    requires NoTmpClash(w.files) && OnlyTmp(w.disk, ios[i].residue, order[i] + ROLLBACK_TMP)
    requires var w1 := Turn(env, w, order[i], k, filter, ios[i]).0;
      w1.files.Keys == w.files.Keys && PerFile(env, w1, order, i + 1, k, filter, ios)
    ensures var (w1, s) := Turn(env, w, order[i], k, filter, ios[i]);
      var w' := RollbackFrom(env, w1, order, i + 1, k, filter, ios).0;
      Truthful(env, w, w', order, i, k, filter, ios, Event(RollbackId(i + 1), s, order[i]))
  {
    hide Turn, OnlyTmp, Outcome, Succeeds, RollbackFrom, Truthful, Heard;
    var p, io := order[i], ios[i];
    var (w1, s) := Turn(env, w, p, k, filter, io);
    var w' := RollbackFrom(env, w1, order, i + 1, k, filter, ios).0;
    TurnOutcome(env, w, p, k, filter, io);
    assert order[i] == order[..i + 1][i] && LeftAlone(w1, w', p);
    forall q | q in order[i + 1..] ensures p + ROLLBACK_TMP != q && p + ROLLBACK_TMP != q + ROLLBACK_TMP {
      NotMyTmp(w, p, q);
      TmpInjective(p, q);
    }
    assert !Reaches(order[i + 1..], filter, p + ROLLBACK_TMP);
    OutcomeLasts(env, w, w1, w', p, k, s);
    TruthfulFirst(env, w, w', order, i, k, filter, ios, s);
  }

  lemma LaterTruthful(env: Env, w: World, order: seq<Path>, i: nat, k: nat, filter: Path, ios: seq<Io>, e: Event)
    requires i < |order| == |ios| && k >= 1 && Lists(order, w.files)
    requires Distinct(w.files) && NoTmpClash(w.files) && OnlyTmp(w.disk, ios[i].residue, order[i] + ROLLBACK_TMP)
    requires var w1 := Turn(env, w, order[i], k, filter, ios[i]).0;
      w1.files.Keys == w.files.Keys
      && Truthful(env, w1, RollbackFrom(env, w1, order, i + 1, k, filter, ios).0, order, i + 1, k, filter, ios, e)
    ensures var w1 := Turn(env, w, order[i], k, filter, ios[i]).0;
      Truthful(env, w, RollbackFrom(env, w1, order, i + 1, k, filter, ios).0, order, i, k, filter, ios, e)
  {
    hide Turn, OnlyTmp, Outcome, Succeeds, RollbackFrom, Distinct, NoTmpClash;
    var w1 := Turn(env, w, order[i], k, filter, ios[i]).0;
    assert e.path == order[e.id.n - 1] && e.path != order[i];
    TurnKeepsOthers(env, w, order[i], k, filter, ios[i], e.path);
    OutcomeBefore(env, w, order[i], k, filter, ios[i], RollbackFrom(env, w1, order, i + 1, k, filter, ios).0, e.path,
      e.status);
  }

  lemma ToldCons(env: Env, w: World, order: seq<Path>, i: nat, k: nat, filter: Path, ios: seq<Io>)
    requires i < |order| == |ios| && k >= 1 && Lists(order, w.files) && Selected(filter, order[i])
    requires Distinct(w.files) && NoTmpClash(w.files) && OnlyTmp(w.disk, ios[i].residue, order[i] + ROLLBACK_TMP)
    requires var w1 := Turn(env, w, order[i], k, filter, ios[i]).0;
      w1.files.Keys == w.files.Keys && PerFile(env, w1, order, i + 1, k, filter, ios)
    ensures var (w1, s) := Turn(env, w, order[i], k, filter, ios[i]);
      var (w', es1) := RollbackFrom(env, w1, order, i + 1, k, filter, ios);
      Told(env, w, w', order, i, k, filter, ios, [Event(RollbackId(i + 1), s, order[i])] + es1)
  {
    hide Turn, Distinct, OnlyTmp, NoTmpClash, Truthful, Heard, Contained, RollbackFrom;
    var (w1, s) := Turn(env, w, order[i], k, filter, ios[i]);
    var (w', es1) := RollbackFrom(env, w1, order, i + 1, k, filter, ios);
    var e0 := Event(RollbackId(i + 1), s, order[i]);
    FirstTruthful(env, w, order, i, k, filter, ios);
    forall e | e in es1 ensures Truthful(env, w, w', order, i, k, filter, ios, e) {
      LaterTruthful(env, w, order, i, k, filter, ios, e);
    }
    forall j | i <= j < |order| && Selected(filter, order[j]) ensures Heard([e0] + es1, j) { HeardCons(e0, es1, j); }
  }

  lemma BothTransitive(w: World, w1: World, w': World)
    requires FewerArchives(w, w1) && FewerArchives(w1, w') && SameDirs(w.disk, w1.disk) && SameDirs(w1.disk, w'.disk)
    ensures FewerArchives(w, w') && SameDirs(w.disk, w'.disk)
  {
  }

  lemma LeftAloneBefore(w: World, w1: World, w': World, p: Path, q: Path)
    requires p in w.files && q in w.files && q != p && NoTmpClash(w.files)
    requires q in w1.files && w1.files[q] == w.files[q]
    requires forall r :: r != p && r != p + ROLLBACK_TMP ==> At(w1.disk, r) == At(w.disk, r)
    requires LeftAlone(w1, w', q)
    ensures LeftAlone(w, w', q)
  {
    NotMyTmp(w, p, q);
  }

  lemma NotYetReached(order: seq<Path>, i: nat, filter: Path, files: map<Path, FileRec>, q: Path)
    requires i < |order| && Lists(order, files) && Selected(filter, order[i])
    requires q in order[..i] || !Selected(filter, q)
    ensures q != order[i] && (q in order[..i + 1] || !Selected(filter, q))
  {
    assert order[..i + 1] == order[..i] + [order[i]];
  }

  lemma ContainedCons(w: World, w1: World, w': World, order: seq<Path>, i: nat, filter: Path)
    requires i < |order| && Lists(order, w.files) && NoTmpClash(w.files) && Selected(filter, order[i])
    requires order[i] in w1.files && w1.files == w.files[order[i] := w1.files[order[i]]] && w1.changed == w.changed
    requires FewerArchives(w, w1) && SameDirs(w.disk, w1.disk)
    requires forall r :: r != order[i] && r != order[i] + ROLLBACK_TMP ==> At(w1.disk, r) == At(w.disk, r)
    requires Contained(w1, w', order, i + 1, filter)
    ensures Contained(w, w', order, i, filter)
  {
    assert order[i] in w.files;
    hide NoTmpClash, LeftAlone, Reaches, SameDirs, FewerArchives, At, Lists;
    BothTransitive(w, w1, w');
    forall q | q in w.files && (q in order[..i] || !Selected(filter, q)) ensures LeftAlone(w, w', q) {
      NotYetReached(order, i, filter, w.files, q);
      LeftAloneBefore(w, w1, w', order[i], q);
    }
    forall r | !Reaches(order[i..], filter, r)
      ensures At(w'.disk, r) == At(w.disk, r)
    {
      ReachesCons(order, i, filter, r);
    }
  }

  lemma PerFileCons(env: Env, w: World, order: seq<Path>, i: nat, k: nat, filter: Path, ios: seq<Io>)
    requires i < |order| == |ios| && k >= 1 && Lists(order, w.files) && Selected(filter, order[i])
    requires Distinct(w.files) && NoTmpClash(w.files) && OnlyTmp(w.disk, ios[i].residue, order[i] + ROLLBACK_TMP)
    requires var w1 := Turn(env, w, order[i], k, filter, ios[i]).0;
      w1.files.Keys == w.files.Keys && PerFile(env, w1, order, i + 1, k, filter, ios)
    ensures PerFile(env, w, order, i, k, filter, ios)
  {
    hide Turn, Distinct, OnlyTmp, NoTmpClash, Contained, Told;
    var p, io := order[i], ios[i];
    var (w1, s) := Turn(env, w, p, k, filter, io);
    var (w', es1) := RollbackFrom(env, w1, order, i + 1, k, filter, ios);
    assert RollbackFrom(env, w, order, i, k, filter, ios) == (w', [Event(RollbackId(i + 1), s, p)] + es1);
    TurnAlone(env, w, p, k, filter, io);
    ContainedCons(w, w1, w', order, i, filter);
    ToldCons(env, w, order, i, k, filter, ios);
  }

  /** Rolling back the rulebook is rolling back each selected file on its own, whatever the listing order
      and whatever fails: every event is true of its file, and nothing else changes. */
  lemma {:induction false} RollbackIsPerFile(env: Env, w: World, order: seq<Path>, i: nat, k: nat, filter: Path,
                                             ios: seq<Io>)
    requires i <= |order| == |ios| && k >= 1 && Lists(order, w.files)
    requires Distinct(w.files) && NoTmpClash(w.files) && Tidy(env, w, order, i, k, filter, ios)
    ensures PerFile(env, w, order, i, k, filter, ios)
    decreases |order| - i
  {
    hide Turn, Distinct, NoTmpClash, OnlyTmp;
    if i == |order| {
      assert order[..i] == order && order[i..] == [];
    } else if !Selected(filter, order[i]) {
      RollbackIsPerFile(env, w, order, i + 1, k, filter, ios);
      PerFileSkips(env, w, order, i, k, filter, ios);
    } else {
      var p, io := order[i], ios[i];
      var w1 := Turn(env, w, p, k, filter, io).0;
      TurnAlone(env, w, p, k, filter, io);
      TurnDistinct(env, w, p, k, filter, io);
      SameClash(w, w1);
      RollbackIsPerFile(env, w1, order, i + 1, k, filter, ios);
      PerFileCons(env, w, order, i, k, filter, ios);
    }
  }

  // ---------- the closed form ----------

  predicate AllSucceed(w: World, hits: set<Path>, k: nat)
    requires k >= 1
  {
    forall p :: p in hits ==> p in w.files && Succeeds(w, p, k)
  }

  function Hits(w: World, order: seq<Path>, k: nat, filter: Path): (hits: set<Path>)
    requires k >= 1 && forall p :: p in order ==> p in w.files
    ensures AllSucceed(w, hits, k) && forall p :: p in hits <==> p in order && Selected(filter, p) && Succeeds(w, p, k)
  {
    set p | p in order && Selected(filter, p) && Succeeds(w, p, k)
  }

  function Freed(w: World, hits: set<Path>, k: nat): set<Path>
    requires k >= 1 && AllSucceed(w, hits, k)
  {
    set p, i | p in hits && 0 <= i < k :: w.files[p].history[i].archive
  }

  function PointDisk(env: Env, w: World, hits: set<Path>, k: nat): Disk
    requires k >= 1 && AllSucceed(w, hits, k)
  {
    var tmps := set p | p in hits :: p + ROLLBACK_TMP;
    map q | q in w.disk.Keys + hits && (q in hits || q !in tmps) ::
      if q in hits then RestoredFile(env, w, q, k) else w.disk[q]
  }

  function PointFiles(w: World, hits: set<Path>, k: nat): map<Path, FileRec>
    requires k >= 1 && AllSucceed(w, hits, k)
  {
    map q | q in w.files :: if q in hits then Dropped(w.files[q], k) else w.files[q]
  }

  /** Every file that can be restored is; nothing else changes. There is no order here. */
  function Pointwise(env: Env, w: World, hits: set<Path>, k: nat): World
    requires k >= 1 && AllSucceed(w, hits, k)
  {
    World(PointDisk(env, w, hits, k), w.archives - Freed(w, hits, k), PointFiles(w, hits, k), w.changed)
  }

  lemma FreedGrows(w: World, hits: set<Path>, p: Path, k: nat)
    requires k >= 1 && AllSucceed(w, hits + {p}, k)
    ensures Freed(w, hits + {p}, k) == Freed(w, hits, k) + Names(w.files[p].history[..k])
  {
    var h := w.files[p].history;
    forall n ensures n in Names(h[..k]) <==> exists i :: 0 <= i < k && h[i].archive == n {
      if n in Names(h[..k]) { var i :| 0 <= i < k && h[..k][i].archive == n; assert h[i].archive == n; }
      if i :| 0 <= i < k && h[i].archive == n { assert h[..k][i].archive == n; }
    }
  }

  lemma HitsCons(w: World, order: seq<Path>, i: nat, k: nat, filter: Path)
    requires i < |order| && k >= 1 && forall p :: p in order ==> p in w.files
    ensures Hits(w, order[i..], k, filter)
      == Hits(w, order[i + 1..], k, filter)
         + (if Selected(filter, order[i]) && Succeeds(w, order[i], k) then {order[i]} else {})
  {
    hide Succeeds;
    assert order[i..] == [order[i]] + order[i + 1..];
  }

  lemma NothingFreed(w: World, order: seq<Path>, k: nat, filter: Path)
    requires k >= 1 && forall p :: p in order ==> p in w.files
    ensures Freed(w, Hits(w, order[|order|..], k, filter), k) == {} && w.archives - {} == w.archives
  {
  }

  lemma HitsAlike(env: Env, w: World, order: seq<Path>, i: nat, k: nat, filter: Path, io: Io)
    requires i < |order| && k >= 1 && Lists(order, w.files) && Distinct(w.files) && NoTmpClash(w.files)
    requires OnlyTmp(w.disk, io.residue, order[i] + ROLLBACK_TMP)
    ensures var w1 := Turn(env, w, order[i], k, filter, io).0;
      && (forall p :: p in order ==> p in w1.files)
      && Hits(w1, order[i + 1..], k, filter) == Hits(w, order[i + 1..], k, filter)
      && Freed(w1, Hits(w, order[i + 1..], k, filter), k) == Freed(w, Hits(w, order[i + 1..], k, filter), k)
  {
    hide Turn, Distinct, NoTmpClash, OnlyTmp, Succeeds;
    var w1 := Turn(env, w, order[i], k, filter, io).0;
    TurnAlone(env, w, order[i], k, filter, io);
    forall p | p in order[i + 1..]
      ensures p in w1.files && w1.files[p] == w.files[p] && Succeeds(w1, p, k) == Succeeds(w, p, k)
    {
      TurnKeepsOthers(env, w, order[i], k, filter, io, p);
    }
  }

  lemma FreedOnce(env: Env, w: World, order: seq<Path>, i: nat, k: nat, filter: Path, io: Io)
    requires i < |order| && k >= 1
    requires (forall p :: p in order ==> p in w.files) && Selected(filter, order[i]) && Calm(io)
    requires OnlyTmp(w.disk, io.residue, order[i] + ROLLBACK_TMP)
    ensures Turn(env, w, order[i], k, filter, io).0.archives - Freed(w, Hits(w, order[i + 1..], k, filter), k)
         == w.archives - Freed(w, Hits(w, order[i..], k, filter), k)
  {
    hide Turn, OnlyTmp, Succeeds, Freed, Names;
    var p, rest := order[i], Hits(w, order[i + 1..], k, filter);
    TurnOutcome(env, w, p, k, filter, io);
    HitsCons(w, order, i, k, filter);
    if Succeeds(w, p, k) {
      FreedGrows(w, rest, p, k);
      var gone := Names(w.files[p].history[..k]);
      assert gone - {} == gone;
      assert w.archives - gone - Freed(w, rest, k) == w.archives - (Freed(w, rest, k) + gone);
    } else {
      assert rest + {} == rest;
    }
  }

  lemma {:induction false} ArchivesLeft(env: Env, w: World, order: seq<Path>, i: nat, k: nat, filter: Path,
                                        ios: seq<Io>)
    requires i <= |order| == |ios| && k >= 1 && Lists(order, w.files)
    requires Distinct(w.files) && NoTmpClash(w.files) && Tidy(env, w, order, i, k, filter, ios)
    requires forall j :: 0 <= j < |ios| ==> Calm(ios[j])
    ensures RollbackFrom(env, w, order, i, k, filter, ios).0.archives
         == w.archives - Freed(w, Hits(w, order[i..], k, filter), k)
    decreases |order| - i
  {
    hide Turn, Distinct, NoTmpClash, OnlyTmp, Succeeds, Freed, Hits;
    if i == |order| {
      NothingFreed(w, order, k, filter);
    } else if !Selected(filter, order[i]) {
      ArchivesLeft(env, w, order, i + 1, k, filter, ios);
      HitsCons(w, order, i, k, filter);
      assert Hits(w, order[i + 1..], k, filter) + {} == Hits(w, order[i + 1..], k, filter);
    } else {
      var p, io := order[i], ios[i];
      var (w1, s) := Turn(env, w, p, k, filter, io);
      TurnAlone(env, w, p, k, filter, io);
      TurnDistinct(env, w, p, k, filter, io);
      SameClash(w, w1);
      ArchivesLeft(env, w1, order, i + 1, k, filter, ios);
      HitsAlike(env, w, order, i, k, filter, io);
      FreedOnce(env, w, order, i, k, filter, io);
    }
  }

  lemma PointwiseParts(env: Env, w: World, hits: set<Path>, k: nat)
    requires k >= 1 && AllSucceed(w, hits, k)
    ensures Pointwise(env, w, hits, k)
         == World(PointDisk(env, w, hits, k), w.archives - Freed(w, hits, k), PointFiles(w, hits, k), w.changed)
  {
  }

  ghost predicate LeftOver(w: World, k: nat, filter: Path, q: Path)
    requires k >= 1
  {
    exists p :: p in w.files && Selected(filter, p) && Backed(w, p, k) && !Restorable(w.disk, p)
      && q == p + ROLLBACK_TMP
  }

  lemma NotReached(order: seq<Path>, filter: Path, q: Path)
    requires forall p :: p in order ==> q != p && q != p + ROLLBACK_TMP
    ensures !Reaches(order[0..], filter, q)
  {
  }

  lemma PointDiskAt(env: Env, w: World, hits: set<Path>, k: nat, q: Path)
    requires k >= 1 && AllSucceed(w, hits, k)
    ensures At(PointDisk(env, w, hits, k), q) ==
      if q in hits then Some(RestoredFile(env, w, q, k))
      else if exists p :: p in hits && q == p + ROLLBACK_TMP then None
      else At(w.disk, q)
  {
    hide RestoredFile, Restorable;
  }

  lemma TruthfulSays(env: Env, w: World, w': World, order: seq<Path>, k: nat, filter: Path, ios: seq<Io>, e: Event)
    requires |order| == |ios| && k >= 1 && (forall p :: p in order ==> p in w.files)
    requires forall j :: 0 <= j < |ios| ==> Calm(ios[j])
    requires Truthful(env, w, w', order, 0, k, filter, ios, e)
    ensures e.id.RollbackId? && 0 < e.id.n <= |order| && e.path == order[e.id.n - 1]
    ensures Outcome(env, w, w', e.path, k, e.status) && (e.status == Changed <==> Succeeds(w, e.path, k))
  {
    hide Outcome, Succeeds;
  }

  lemma SelectedOutcome(env: Env, w: World, order: seq<Path>, k: nat, filter: Path, ios: seq<Io>, p: Path)
    returns (s: Status)
    requires |order| == |ios| && k >= 1 && Lists(order, w.files) && p in w.files && Selected(filter, p)
    requires forall j :: 0 <= j < |ios| ==> Calm(ios[j])
    requires PerFile(env, w, order, 0, k, filter, ios)
    ensures Outcome(env, w, RollbackFrom(env, w, order, 0, k, filter, ios).0, p, k, s)
    ensures s == Changed <==> Succeeds(w, p, k)
  {
    hide RollbackFrom, Contained, Outcome, Succeeds, Truthful, Selected;
    var (w', es) := RollbackFrom(env, w, order, 0, k, filter, ios);
    var j :| 0 <= j < |order| && order[j] == p;
    assert Heard(es, j);
    var e :| e in es && e.id == RollbackId(j + 1);
    TruthfulSays(env, w, w', order, k, filter, ios, e);
    s := e.status;
  }

  lemma TmpUnreached(w: World, order: seq<Path>, filter: Path, p: Path)
    requires Lists(order, w.files) && NoTmpClash(w.files) && p in w.files && !Selected(filter, p)
    ensures !Reaches(order[0..], filter, p + ROLLBACK_TMP)
  {
    forall q | q in order && Selected(filter, q) ensures p + ROLLBACK_TMP != q && p + ROLLBACK_TMP != q + ROLLBACK_TMP {
      NotMyTmp(w, p, q);
      TmpInjective(p, q);
    }
  }

  lemma PathPoints(env: Env, w: World, order: seq<Path>, k: nat, filter: Path, ios: seq<Io>, p: Path)
    requires |order| == |ios| && k >= 1 && Lists(order, w.files) && NoTmpClash(w.files) && p in w.files
    requires forall j :: 0 <= j < |ios| ==> Calm(ios[j])
    requires PerFile(env, w, order, 0, k, filter, ios)
    ensures var w' := RollbackFrom(env, w, order, 0, k, filter, ios).0;
      && p in w'.files
      && (if p in Hits(w, order, k, filter) then
            && w'.files[p] == Dropped(w.files[p], k) && At(w'.disk, p) == Some(RestoredFile(env, w, p, k))
            && p + ROLLBACK_TMP !in w'.disk
          else
            && w'.files[p] == w.files[p] && At(w'.disk, p) == At(w.disk, p)
            && TmpTouched(w.disk, w'.disk, p + ROLLBACK_TMP)
            && (At(w'.disk, p + ROLLBACK_TMP) == At(w.disk, p + ROLLBACK_TMP)
               || LeftOver(w, k, filter, p + ROLLBACK_TMP)))
  {
    hide RollbackFrom, Restorable, Ancestors, FewerArchives, SameDirs, RestoredFile, Reaches, Told, Hits;
    var w' := RollbackFrom(env, w, order, 0, k, filter, ios).0;
    if Selected(filter, p) {
      var s := SelectedOutcome(env, w, order, k, filter, ios, p);
    } else {
      assert LeftAlone(w, w', p);
      TmpUnreached(w, order, filter, p);
    }
  }

  lemma PerFilePoints(env: Env, w: World, order: seq<Path>, k: nat, filter: Path, ios: seq<Io>)
    requires |order| == |ios| && k >= 1 && Lists(order, w.files) && NoTmpClash(w.files)
    requires forall j :: 0 <= j < |ios| ==> Calm(ios[j])
    requires PerFile(env, w, order, 0, k, filter, ios)
    ensures var w' := RollbackFrom(env, w, order, 0, k, filter, ios).0;
      var hits := Hits(w, order, k, filter);
      && w'.files == PointFiles(w, hits, k) && w'.changed == w.changed
      && forall q :: At(w'.disk, q) == At(PointDisk(env, w, hits, k), q) || LeftOver(w, k, filter, q)
  {
    hide RollbackFrom, Restorable, RestoredFile, Dropped, LeftOver, EntryBacked;
    hide Selected, PointDisk, Hits, Told, Reaches, Calm;
    var w', hits := RollbackFrom(env, w, order, 0, k, filter, ios).0, Hits(w, order, k, filter);
    forall p | p in w.files
      ensures p in w'.files && w'.files[p] == if p in hits then Dropped(w.files[p], k) else w.files[p]
    {
      PathPoints(env, w, order, k, filter, ios, p);
    }
    forall q ensures At(w'.disk, q) == At(PointDisk(env, w, hits, k), q) || LeftOver(w, k, filter, q) {
      PointDiskAt(env, w, hits, k, q);
      if q in w.files {
        forall p | p in hits ensures q != p + ROLLBACK_TMP { NotMyTmp(w, p, q); }
        PathPoints(env, w, order, k, filter, ios, q);
      } else if p :| p in w.files && q == p + ROLLBACK_TMP {
        forall p' | p' in hits && q == p' + ROLLBACK_TMP ensures p' == p { TmpInjective(p, p'); }
        PathPoints(env, w, order, k, filter, ios, p);
      } else {
        NotReached(order, filter, q);
      }
    }
  }

  /** When no call fails and no deletion is refused: rows and archives are exactly the pointwise ones, and so
      is the disk, but for the temporary sibling of a file that had the version and could not be written. */
  lemma RollbackIsPointwise(env: Env, w: World, order: seq<Path>, k: nat, filter: Path, ios: seq<Io>)
    requires |order| == |ios| && k >= 1 && Lists(order, w.files)
    requires Distinct(w.files) && NoTmpClash(w.files) && Tidy(env, w, order, 0, k, filter, ios)
    requires forall j :: 0 <= j < |ios| ==> Calm(ios[j])
    ensures var w' := RollbackFrom(env, w, order, 0, k, filter, ios).0;
      var point := Pointwise(env, w, (set p | p in w.files && Selected(filter, p) && Succeeds(w, p, k)), k);
      && w'.files == point.files && w'.archives == point.archives && w'.changed == point.changed
      && forall q :: At(w'.disk, q) == At(point.disk, q) || LeftOver(w, k, filter, q)
  {
    hide RollbackFrom, Pointwise, Freed, Succeeds, Distinct, NoTmpClash, Tidy, PerFile, LeftOver;
    var hits := set p | p in w.files && Selected(filter, p) && Succeeds(w, p, k);
    assert Hits(w, order, k, filter) == hits && order[0..] == order;
    ArchivesLeft(env, w, order, 0, k, filter, ios);
    RollbackIsPerFile(env, w, order, 0, k, filter, ios);
    PerFilePoints(env, w, order, k, filter, ios);
    PointwiseParts(env, w, hits, k);
  }

  // ---------- preview ----------

  function ApplyStatus(s: Status): Status {
    if s == WouldChange then Changed else s
  }

  /** A previewed change becomes a change. */
  function Applied(es: seq<Event>): (r: seq<Event>)
    ensures |r| == |es|
  {
    seq(|es|, i requires 0 <= i < |es| => es[i].(status := ApplyStatus(es[i].status)))
  }

  lemma ConsAgrees(e: Event, es: seq<Event>, f: Event, fs: seq<Event>)
    requires e.id == f.id && e.path == f.path && e.history == f.history
    ensures [e] + es == Applied([f] + fs) <==> e.status == ApplyStatus(f.status) && es == Applied(fs)
  {
    var l, r := [e] + es, Applied([f] + fs);
    assert r == [f.(status := ApplyStatus(f.status))] + Applied(fs);
    assert l[1..] == es && r[1..] == Applied(fs);
  }

  /** The preview's promise for one file can be kept. */
  predicate Foreseen(w: World, p: Path, k: nat, filter: Path)
    requires p in w.files && k >= 1
  {
    Selected(filter, p) && k <= |w.files[p].history| ==> Succeeds(w, p, k)
  }

  /** A turn with no failing call ends as foretold exactly when the promise could be kept, and then it does
      not matter what a failing restore would have left. */
  lemma TurnAsForetold(env: Env, w: World, p: Path, k: nat, filter: Path, io: Io)
    requires p in w.files && k >= 1 && Selected(filter, p) && io.fault.NoFault?
    ensures Turn(env, w, p, k, filter, io).1 == ApplyStatus(Foretold(w.files[p], k, filter)) <==>
      Foreseen(w, p, k, filter)
    ensures Foreseen(w, p, k, filter) ==>
      Turn(env, w, p, k, filter, io) == Turn(env, w, p, k, filter, io.(residue := w.disk))
  {
    hide ParseUint, Restorable, Names;
  }

  lemma {:induction false} PreviewSame(files: map<Path, FileRec>, files': map<Path, FileRec>, order: seq<Path>, i: nat,
                                       k: nat, filter: Path)
    requires i <= |order| && (forall p :: p in order ==> p in files && p in files')
    requires forall j :: i <= j < |order| ==> files'[order[j]] == files[order[j]]
    ensures PreviewFrom(files', order, i, k, filter) == PreviewFrom(files, order, i, k, filter)
    decreases |order| - i
  {
    if i < |order| { PreviewSame(files, files', order, i + 1, k, filter); }
  }

  lemma TurnRows(env: Env, w: World, q: Path, k: nat, filter: Path, io: Io)
    requires q in w.files && k >= 1
    ensures var w' := Turn(env, w, q, k, filter, io).0; q in w'.files && w'.files == w.files[q := w'.files[q]]
  {
    hide Backed, Restorable;
  }

  /** A promise that is kept leaves the later ones as they were. */
  lemma ForesightStays(env: Env, w: World, order: seq<Path>, i: nat, k: nat, filter: Path, io: Io)
    requires i < |order| && k >= 1 && Lists(order, w.files) && Distinct(w.files) && NoTmpClash(w.files)
    requires Selected(filter, order[i]) && Foreseen(w, order[i], k, filter) && io.fault.NoFault?
    ensures var w1 := Turn(env, w, order[i], k, filter, io).0;
      && w1.files.Keys == w.files.Keys && Distinct(w1.files) && NoTmpClash(w1.files)
      && forall j | i < j < |order| ::
           w1.files[order[j]] == w.files[order[j]]
             && Foreseen(w1, order[j], k, filter) == Foreseen(w, order[j], k, filter)
  {
    hide Turn, Succeeds, Distinct, NoTmpClash, Foretold;
    var p, w1 := order[i], Turn(env, w, order[i], k, filter, io).0;
    TurnAsForetold(env, w, p, k, filter, io);
    TurnRows(env, w, p, k, filter, io);
    TurnDistinct(env, w, p, k, filter, io);
    SameClash(w, w1);
    forall j | i < j < |order| ensures Foreseen(w1, order[j], k, filter) == Foreseen(w, order[j], k, filter) {
      TurnKeepsOthers(env, w, p, k, filter, io.(residue := w.disk), order[j]);
    }
  }

  lemma {:induction false} PreviewFromAgrees(env: Env, w: World, order: seq<Path>, i: nat, k: nat, filter: Path,
                                             ios: seq<Io>)
    requires i <= |order| == |ios| && k >= 1 && Lists(order, w.files)
    requires Distinct(w.files) && NoTmpClash(w.files)
    requires forall j :: 0 <= j < |ios| ==> ios[j].fault.NoFault?
    ensures RollbackFrom(env, w, order, i, k, filter, ios).1 == Applied(PreviewFrom(w.files, order, i, k, filter))
       <==> forall j :: i <= j < |order| ==> Foreseen(w, order[j], k, filter)
    decreases |order| - i
  {
    hide Turn, Succeeds, Distinct, NoTmpClash, Foretold, Applied;
    if i < |order| {
      var p, io := order[i], ios[i];
      if !Selected(filter, p) {
        PreviewFromAgrees(env, w, order, i + 1, k, filter, ios);
      } else {
        var (w1, s) := Turn(env, w, p, k, filter, io);
        TurnAsForetold(env, w, p, k, filter, io);
        TurnRows(env, w, p, k, filter, io);
        ConsAgrees(Event(RollbackId(i + 1), s, p), RollbackFrom(env, w1, order, i + 1, k, filter, ios).1,
                   Event(RollbackId(i + 1), Foretold(w.files[p], k, filter), p),
                   PreviewFrom(w.files, order, i + 1, k, filter));
        if Foreseen(w, p, k, filter) {
          ForesightStays(env, w, order, i, k, filter, io);
          PreviewFromAgrees(env, w1, order, i + 1, k, filter, ios);
          PreviewSame(w.files, w1.files, order, i + 1, k, filter);
        }
      }
    }
  }

  /** When no call fails, the preview's task_end events are the real run's exactly when every file it
      promises to restore can be: the archive is there and the path can be written. */
  lemma RollbackPreviewAgrees(env: Env, w: World, order: seq<Path>, k: nat, filter: Path, ios: seq<Io>)
    requires |order| == |ios| && k >= 1 && Lists(order, w.files)
    requires Distinct(w.files) && NoTmpClash(w.files)
    requires forall j :: 0 <= j < |ios| ==> ios[j].fault.NoFault?
    ensures RollbackFrom(env, w, order, 0, k, filter, ios).1 == Applied(PreviewFrom(w.files, order, 0, k, filter))
       <==> forall p :: p in w.files && Selected(filter, p) && k <= |w.files[p].history| ==> Succeeds(w, p, k)
  {
    hide Succeeds, RollbackFrom, PreviewFrom, Applied, Distinct, NoTmpClash;
    PreviewFromAgrees(env, w, order, 0, k, filter, ios);
    forall p | p in w.files ensures exists j :: 0 <= j < |order| && order[j] == p { assert p in order; }
    assert forall j :: 0 <= j < |order| ==> order[j] in w.files;
  }

  lemma RollbackFromKeys(env: Env, w: World, order: seq<Path>, i: nat, k: nat, filter: Path, ios: seq<Io>)
    requires i <= |order| == |ios| && k >= 1 && forall p :: p in order ==> p in w.files
    ensures RollbackFrom(env, w, order, i, k, filter, ios).0.files.Keys == w.files.Keys
    decreases |order| - i
  {
  }

  lemma {:induction false} RollbackFromSnoc(env: Env, w: World, order: seq<Path>, i: nat, k: nat, filter: Path,
                                            ios: seq<Io>, p: Path, io: Io)
    requires i <= |order| == |ios| && k >= 1 && (forall q :: q in order ==> q in w.files) && p in w.files
    ensures RollbackFrom(env, w, order, i, k, filter, ios).0.files.Keys == w.files.Keys
    ensures var (w1, es) := RollbackFrom(env, w, order, i, k, filter, ios);
      RollbackFrom(env, w, order + [p], i, k, filter, ios + [io]) ==
        if !Selected(filter, p) then (w1, es)
        else
          var (w2, s) := Turn(env, w1, p, k, filter, io);
          (w2, es + [Event(RollbackId(|order| + 1), s, p)])
    ensures RollbackFrom(env, w, order + [p], i, k, filter, ios + [io]).0.files.Keys == w.files.Keys
    decreases |order| - i
  {
    RollbackFromKeys(env, w, order, i, k, filter, ios);
    RollbackFromKeys(env, w, order + [p], i, k, filter, ios + [io]);
    if i == |order| {
      assert (order + [p])[i] == p && (ios + [io])[i] == io;
      if Selected(filter, p) {
        var (w2, s) := Turn(env, w, p, k, filter, io);
        assert RollbackFrom(env, w2, order + [p], i + 1, k, filter, ios + [io]) == (w2, []);
        assert RollbackFrom(env, w, order + [p], i, k, filter, ios + [io])
          == (w2, [Event(RollbackId(i + 1), s, p)] + []);
        assert [Event(RollbackId(i + 1), s, p)] + [] == [] + [Event(RollbackId(i + 1), s, p)];
      } else {
        assert RollbackFrom(env, w, order + [p], i + 1, k, filter, ios + [io]) == (w, []);
      }
    } else {
      assert (order + [p])[i] == order[i] && (ios + [io])[i] == ios[i];
      if Selected(filter, order[i]) {
        var (w1, s1) := Turn(env, w, order[i], k, filter, ios[i]);
        RollbackFromSnoc(env, w1, order, i + 1, k, filter, ios, p, io);
        var es := RollbackFrom(env, w1, order, i + 1, k, filter, ios).1;
        var e1 := Event(RollbackId(i + 1), s1, order[i]);
        assert forall e: Event :: [e1] + (es + [e]) == ([e1] + es) + [e];
      } else {
        RollbackFromSnoc(env, w, order, i + 1, k, filter, ios, p, io);
      }
    }
  }

  lemma NothingTidy(env: Env, w: World, k: nat, filter: Path)
    requires k >= 1
    ensures Tidy(env, w, [], 0, k, filter, [])
  {
  }

  lemma {:induction false} TidySnoc(env: Env, w: World, order: seq<Path>, i: nat, k: nat, filter: Path, ios: seq<Io>,
                                    p: Path, io: Io)
    requires i <= |order| == |ios| && k >= 1 && (forall q :: q in order ==> q in w.files) && p in w.files
    requires Tidy(env, w, order, i, k, filter, ios)
    requires Selected(filter, p) ==>
      OnlyTmp(RollbackFrom(env, w, order, i, k, filter, ios).0.disk, io.residue, p + ROLLBACK_TMP)
    ensures Tidy(env, w, order + [p], i, k, filter, ios + [io])
    decreases |order| - i
  {
    hide Turn, OnlyTmp, Selected;
    if i == |order| {
      assert (order + [p])[i] == p && (ios + [io])[i] == io;
    } else {
      assert (order + [p])[i] == order[i] && (ios + [io])[i] == ios[i];
      if Selected(filter, order[i]) {
        TurnRows(env, w, order[i], k, filter, ios[i]);
        TidySnoc(env, Turn(env, w, order[i], k, filter, ios[i]).0, order, i + 1, k, filter, ios, p, io);
      } else {
        TidySnoc(env, w, order, i + 1, k, filter, ios, p, io);
      }
    }
  }
}
