/** What `--task` selects: the one file named, or every tracked file. */
module Filters {
  import opened Options
  import opened Octal
  import opened Disks
  import opened Tasks
  import opened Rollbacks

  /** Where a listing without repetitions holds p. */
  predicate HeldAt(order: seq<Path>, j: nat, p: Path) { j < |order| && order[j] == p }

  // ---------- one file ----------

  lemma {:induction false} NobodySelected(env: Env, w: World, order: seq<Path>, i: nat, k: nat, f: Path, ios: seq<Io>)
    requires i <= |order| == |ios| && k >= 1 && (forall p :: p in order ==> p in w.files)
    requires f != "" && forall j :: i <= j < |order| ==> order[j] != f
    ensures RollbackFrom(env, w, order, i, k, f, ios) == (w, []) && PreviewFrom(w.files, order, i, k, f) == []
    decreases |order| - i
  {
    if i < |order| { NobodySelected(env, w, order, i + 1, k, f, ios); }
  }

  lemma {:induction false} OneSelected(env: Env, w: World, order: seq<Path>, i: nat, k: nat, f: Path, ios: seq<Io>,
                                       j: nat)
    requires i <= |order| == |ios| && k >= 1 && Lists(order, w.files) && f != "" && i <= j && HeldAt(order, j, f)
    ensures var (w', s) := RollbackOne(env, w, f, k, ios[j]);
      && RollbackFrom(env, w, order, i, k, f, ios) == (w', [Event(RollbackId(j + 1), s, f)])
      && PreviewFrom(w.files, order, i, k, f)
           == [Event(RollbackId(j + 1), if |w.files[f].history| < k then Error else WouldChange, f)]
    decreases |order| - i
  {
    hide RollbackOne;
    assert order[i] in order;
    if i < j {
      OneSelected(env, w, order, i + 1, k, f, ios, j);
    } else {
      var (w', s) := RollbackOne(env, w, f, k, ios[j]);
      assert Turn(env, w, f, k, f, ios[j]) == (w', s);
      var e := Event(RollbackId(j + 1), s, f);
      assert [e] + [] == [e];
      TurnRows(env, w, f, k, f, ios[j]);
      NobodySelected(env, w', order, i + 1, k, f, ios);
      NobodySelected(env, w, order, i + 1, k, f, ios);
    }
  }

  lemma {:induction false} TidyAt(env: Env, w: World, order: seq<Path>, i: nat, k: nat, f: Path, ios: seq<Io>, j: nat)
    requires i <= |order| == |ios| && k >= 1 && Lists(order, w.files) && f != "" && i <= j && HeldAt(order, j, f)
    requires Tidy(env, w, order, i, k, f, ios)
    ensures OnlyTmp(w.disk, ios[j].residue, f + ROLLBACK_TMP)
    decreases |order| - i
  {
    hide Turn, OnlyTmp;
    if i < j { TidyAt(env, w, order, i + 1, k, f, ios, j); }
  }

  ghost predicate SameArchive(w: World, w': World, n: Path) {
    (n in w'.archives <==> n in w.archives) && (n in w.archives ==> w'.archives[n] == w.archives[n])
  }

  lemma OthersKeepArchives(env: Env, w: World, f: Path, k: nat, io: Io)
    requires f in w.files && k >= 1 && Distinct(w.files)
    ensures forall p, i | p != f && HasEntry(w.files, p, i) ::
      SameArchive(w, RollbackOne(env, w, f, k, io).0, ArchiveAt(w.files, p, i))
  {
    hide Distinct, Restorable, EntryBacked, Names;
    forall p, i | p != f && HasEntry(w.files, p, i)
      ensures SameArchive(w, RollbackOne(env, w, f, k, io).0, ArchiveAt(w.files, p, i))
    {
      NotAmongDropped(w, f, k, p, i);
    }
  }

  /** With a file named, rolling back the rulebook is rolling back that file, and no other file's row, archives or
      path is touched; a name that is not tracked does nothing. */
  lemma NamedFileAlone(env: Env, w: World, order: seq<Path>, k: nat, f: Path, ios: seq<Io>)
    requires |order| == |ios| && k >= 1 && Lists(order, w.files) && f != ""
    ensures var (w', es) := RollbackFrom(env, w, order, 0, k, f, ios);
      && (f !in w.files ==> w' == w && es == [])
      && (f in w.files ==> exists j: nat ::
            && HeldAt(order, j, f) && es == [Event(RollbackId(j + 1), RollbackOne(env, w, f, k, ios[j]).1, f)]
            && w' == RollbackOne(env, w, f, k, ios[j]).0)
      && w'.files.Keys == w.files.Keys
      && (forall p | p in w.files && p != f :: w'.files[p] == w.files[p])
      && (Distinct(w.files) ==> forall p, i | p != f && HasEntry(w.files, p, i) ::
            SameArchive(w, w', ArchiveAt(w.files, p, i)))
      && (Tidy(env, w, order, 0, k, f, ios) ==> forall q | q != f && q != f + ".rollback.tmp" ::
            At(w'.disk, q) == At(w.disk, q))
  {
    hide Distinct, Tidy, RollbackFrom, RollbackOne;
    if f in w.files {
      assert f in order;
      var j :| 0 <= j < |order| && order[j] == f;
      OneSelected(env, w, order, 0, k, f, ios, j);
      assert HeldAt(order, j, f);
      TurnRows(env, w, f, k, f, ios[j]);
      if Distinct(w.files) { OthersKeepArchives(env, w, f, k, ios[j]); }
      if Tidy(env, w, order, 0, k, f, ios) {
        TidyAt(env, w, order, 0, k, f, ios, j);
        TurnAlone(env, w, f, k, f, ios[j]);
      }
    } else {
      NobodySelected(env, w, order, 0, k, f, ios);
    }
  }

  /** The preview of a named file: one event, about it. */
  lemma NamedFileForetold(files: map<Path, FileRec>, order: seq<Path>, k: nat, f: Path)
    requires k >= 1 && Lists(order, files) && f != ""
    ensures var es := PreviewFrom(files, order, 0, k, f);
      && (f !in files ==> es == [])
      && (f in files ==> exists j: nat ::
            && HeldAt(order, j, f)
            && es == [Event(RollbackId(j + 1), if |files[f].history| < k then Error else WouldChange, f)])
  {
    hide PreviewFrom, RollbackFrom, RollbackOne;
    var w := World(map[], map[], files, {});
    var ios := seq(|order|, i => Io(NoFault, "", {}, map[]));
    var env: Env :| true;
    if f in files {
      assert f in order;
      var j :| 0 <= j < |order| && order[j] == f;
      OneSelected(env, w, order, 0, k, f, ios, j);
      assert HeldAt(order, j, f);
    } else {
      NobodySelected(env, w, order, 0, k, f, ios);
    }
  }

  // ---------- every file ----------

  /** The event of the j-th file: a file with no version at all is passed over, any other restored or in error. */
  predicate Attempted(e: Event, files: map<Path, FileRec>, order: seq<Path>, j: nat) {
    && j < |order| && order[j] in files && e.id == RollbackId(j + 1) && e.path == order[j]
    && (e.status == Skipped <==> files[order[j]].history == [])
    && (e.status == Skipped || e.status == Changed || e.status == Error)
  }

  /** The same event as the preview has it: the depth of the history decides. */
  predicate Promised(e: Event, files: map<Path, FileRec>, order: seq<Path>, j: nat, k: nat) {
    j < |order| && order[j] in files &&
    var n := |files[order[j]].history|;
    e == Event(RollbackId(j + 1), if n == 0 then Skipped else if n < k then Error else WouldChange, order[j])
  }

  lemma NeverSkips(env: Env, w: World, p: Path, k: nat, io: Io)
    requires p in w.files && k >= 1
    ensures RollbackOne(env, w, p, k, io).1 == Changed || RollbackOne(env, w, p, k, io).1 == Error
  {
  }

  /** Without a name there is one event for each tracked file, in the listing's order. */
  lemma {:induction false} EveryFileOnce(env: Env, w: World, order: seq<Path>, i: nat, k: nat, ios: seq<Io>)
    requires i <= |order| == |ios| && k >= 1 && Lists(order, w.files)
    ensures var es := RollbackFrom(env, w, order, i, k, "", ios).1;
      |es| == |order| - i && forall m | 0 <= m < |es| :: Attempted(es[m], w.files, order, i + m)
    decreases |order| - i
  {
    hide RollbackOne;
    if i < |order| {
      var p := order[i];
      assert p in order;
      var (w1, s) := Turn(env, w, p, k, "", ios[i]);
      TurnRows(env, w, p, k, "", ios[i]);
      NeverSkips(env, w, p, k, ios[i]);
      EveryFileOnce(env, w1, order, i + 1, k, ios);
      var rest := RollbackFrom(env, w1, order, i + 1, k, "", ios).1;
      var es := [Event(RollbackId(i + 1), s, p)] + rest;
      assert RollbackFrom(env, w, order, i, k, "", ios).1 == es;
      forall m | 0 <= m < |es| ensures Attempted(es[m], w.files, order, i + m) {
        if m > 0 { assert es[m] == rest[m - 1] && Attempted(rest[m - 1], w1.files, order, i + 1 + (m - 1)); }
      }
    }
  }

  lemma FirstPromised(files: map<Path, FileRec>, order: seq<Path>, i: nat, k: nat)
    requires i < |order| && order[i] in files
    ensures Promised(Event(RollbackId(i + 1), Foretold(files[order[i]], k, ""), order[i]), files, order, i, k)
  {
  }

  lemma {:induction false} EveryFileForetold(files: map<Path, FileRec>, order: seq<Path>, i: nat, k: nat)
    requires i <= |order| && k >= 1 && forall p :: p in order ==> p in files
    ensures var es := PreviewFrom(files, order, i, k, "");
      |es| == |order| - i && forall m | 0 <= m < |es| :: Promised(es[m], files, order, i + m, k)
    decreases |order| - i
  {
    hide Promised;
    if i < |order| {
      EveryFileForetold(files, order, i + 1, k);
      var rest := PreviewFrom(files, order, i + 1, k, "");
      var e := Event(RollbackId(i + 1), Foretold(files[order[i]], k, ""), order[i]);
      assert PreviewFrom(files, order, i, k, "") == [e] + rest;
      forall m | 0 <= m < |order| - i ensures Promised(([e] + rest)[m], files, order, i + m, k) {
        if m > 0 {
          assert Promised(rest[m - 1], files, order, i + 1 + (m - 1), k);
        } else {
          FirstPromised(files, order, i, k);
        }
      }
    }
  }

  lemma PathsForetold(files: map<Path, FileRec>, order: seq<Path>, k: nat, filter: Path)
    requires k >= 1 && Lists(order, files)
    ensures var es := PreviewFrom(files, order, 0, k, filter);
      && (filter == "" ==> |es| == |order| && forall j :: 0 <= j < |order| ==> es[j].path == order[j])
      && (filter != "" ==> |es| == (if filter in files then 1 else 0) && forall e :: e in es ==> e.path == filter)
  {
    hide PreviewFrom;
    if filter == "" {
      EveryFileForetold(files, order, 0, k);
      var es := PreviewFrom(files, order, 0, k, filter);
      forall j | 0 <= j < |order| ensures es[j].path == order[j] { assert Promised(es[j], files, order, 0 + j, k); }
    } else {
      NamedFileForetold(files, order, k, filter);
    }
  }

  lemma AttemptedAt(e: Event, files: map<Path, FileRec>, order: seq<Path>, j: nat)
    requires Attempted(e, files, order, j)
    ensures e.path == order[j]
  {
  }

  lemma PathsRolledBack(env: Env, w: World, order: seq<Path>, k: nat, filter: Path, ios: seq<Io>)
    requires |order| == |ios| && k >= 1 && Lists(order, w.files)
    ensures var (w', es) := RollbackFrom(env, w, order, 0, k, filter, ios);
      && (filter == "" ==> |es| == |order| && forall j :: 0 <= j < |order| ==> es[j].path == order[j])
      && (filter != "" ==>
            && |es| == (if filter in w.files then 1 else 0) && (forall e :: e in es ==> e.path == filter)
            && forall p :: p in w.files && p != filter ==> p in w'.files && w'.files[p] == w.files[p])
  {
    hide RollbackFrom, Attempted, RollbackOne;
    if filter == "" {
      EveryFileOnce(env, w, order, 0, k, ios);
      var es := RollbackFrom(env, w, order, 0, k, filter, ios).1;
      forall j | 0 <= j < |order| ensures es[j].path == order[j] { AttemptedAt(es[j], w.files, order, 0 + j); }
    } else {
      NamedFileAlone(env, w, order, k, filter, ios);
    }
  }
}
