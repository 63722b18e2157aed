/** Rolling back the whole rulebook twice, against doing it once. */
module Compositions {
  import opened Options
  import opened Octal
  import opened ByteStrings
  import opened Disks
  import opened Tasks
  import opened Rollbacks

  /** One rollback of the rulebook: its listing, and how the host answered for each place in it. */
  datatype Sweep = Sweep(order: seq<Path>, ios: seq<Io>)

  /** No call fails, no deletion is refused. */
  ghost predicate Quiet(env: Env, w: World, k: nat, filter: Path, s: Sweep)
    requires k >= 1
  {
    && |s.order| == |s.ios| && Lists(s.order, w.files)
    && Tidy(env, w, s.order, 0, k, filter, s.ios) && forall j :: 0 <= j < |s.ios| ==> Calm(s.ios[j])
  }

  ghost function Swept(env: Env, w: World, k: nat, filter: Path, s: Sweep): World
    requires k >= 1 && Quiet(env, w, k, filter, s)
  {
    RollbackFrom(env, w, s.order, 0, k, filter, s.ios).0
  }

  ghost predicate Apart(w: World) { Distinct(w.files) && NoTmpClash(w.files) }

  lemma {:induction false} FromDistinct(env: Env, w: World, order: seq<Path>, i: nat, k: nat, filter: Path,
                                        ios: seq<Io>)
    requires i <= |order| == |ios| && k >= 1 && (forall p :: p in order ==> p in w.files) && Distinct(w.files)
    ensures Distinct(RollbackFrom(env, w, order, i, k, filter, ios).0.files)
    decreases |order| - i
  {
    hide Turn, Distinct;
    if i < |order| {
      var w1 := if Selected(filter, order[i]) then Turn(env, w, order[i], k, filter, ios[i]).0 else w;
      if Selected(filter, order[i]) {
        TurnRows(env, w, order[i], k, filter, ios[i]);
        TurnDistinct(env, w, order[i], k, filter, ios[i]);
      }
      FromDistinct(env, w1, order, i + 1, k, filter, ios);
    }
  }

  predicate Hit(w: World, p: Path, k: nat, filter: Path)
    requires p in w.files && k >= 1
  {
    Selected(filter, p) && Succeeds(w, p, k)
  }

  lemma SweptWhole(env: Env, w: World, k: nat, filter: Path, s: Sweep)
    requires k >= 1 && Apart(w) && Quiet(env, w, k, filter, s)
    ensures var w' := Swept(env, w, k, filter, s);
      && Apart(w') && w'.files.Keys == w.files.Keys && w'.changed == w.changed
      && FewerArchives(w, w') && SameDirs(w.disk, w'.disk)
      && w'.archives == w.archives - Freed(w, Hits(w, s.order, k, filter), k)
      && forall q | !Reaches(s.order, filter, q) :: At(w'.disk, q) == At(w.disk, q)
  {
    hide RollbackFrom, Distinct, NoTmpClash, Tidy, Freed, Hits, Told, Reaches;
    RollbackIsPerFile(env, w, s.order, 0, k, filter, s.ios);
    ArchivesLeft(env, w, s.order, 0, k, filter, s.ios);
    FromDistinct(env, w, s.order, 0, k, filter, s.ios);
    SameClash(w, Swept(env, w, k, filter, s));
    assert s.order[0..] == s.order;
  }

  lemma SweptRow(env: Env, w: World, k: nat, filter: Path, s: Sweep, p: Path)
    requires k >= 1 && Apart(w) && Quiet(env, w, k, filter, s) && p in w.files
    ensures var w' := Swept(env, w, k, filter, s);
      p in w'.files &&
      if Hit(w, p, k, filter) then
        && w'.files[p] == Dropped(w.files[p], k) && At(w'.disk, p) == Some(RestoredFile(env, w, p, k))
        && p + ROLLBACK_TMP !in w'.disk
      else
        && w'.files[p] == w.files[p] && At(w'.disk, p) == At(w.disk, p)
        && TmpTouched(w.disk, w'.disk, p + ROLLBACK_TMP)
        && (At(w'.disk, p + ROLLBACK_TMP) == At(w.disk, p + ROLLBACK_TMP)
           || LeftOver(w, k, filter, p + ROLLBACK_TMP))
  {
    hide RollbackFrom, Distinct, NoTmpClash, Tidy, PerFile, Succeeds, RestoredFile, LeftOver, TmpTouched, Selected;
    RollbackIsPerFile(env, w, s.order, 0, k, filter, s.ios);
    PathPoints(env, w, s.order, k, filter, s.ios, p);
    assert p in s.order;
  }

  /** An entry that was not rolled over keeps its archive. */
  lemma KeepsArchive(env: Env, w: World, k: nat, filter: Path, s: Sweep, p: Path, i: nat)
    requires k >= 1 && Apart(w) && Quiet(env, w, k, filter, s) && HasEntry(w.files, p, i)
    requires Hit(w, p, k, filter) ==> k <= i
    ensures var n := ArchiveAt(w.files, p, i);
      n in Swept(env, w, k, filter, s).archives <==> n in w.archives
  {
    hide RollbackFrom, Tidy, Restorable, EntryBacked;
    SweptWhole(env, w, k, filter, s);
    var hits := Hits(w, s.order, k, filter);
    forall q, j | q in hits && HasEntry(w.files, q, j) && j < k
      ensures w.files[q].history[j].archive != ArchiveAt(w.files, p, i)
    {
      assert HasEntry(w.files, q, j) && ArchiveAt(w.files, q, j) == w.files[q].history[j].archive;
    }
  }

  /** What a second rollback finds for one file. */
  lemma SecondChance(env: Env, w: World, a: nat, b: nat, filter: Path, s: Sweep, p: Path)
    requires a >= 1 && b >= 1 && Apart(w) && Quiet(env, w, a, filter, s) && p in w.files && Selected(filter, p)
    ensures var w1 := Swept(env, w, a, filter, s);
      && p in w1.files && Restorable(w1.disk, p) == Restorable(w.disk, p)
      && Backed(w1, p, b) == if Succeeds(w, p, a) then Backed(w, p, a + b) else Backed(w, p, b)
  {
    hide Swept, Apart, Quiet, Ancestors, LeftOver;
    var w1, h := Swept(env, w, a, filter, s), w.files[p].history;
    SweptWhole(env, w, a, filter, s);
    SweptRow(env, w, a, filter, s, p);
    var j := if Succeeds(w, p, a) then a + b - 1 else b - 1;
    if j < |h| { KeepsArchive(env, w, a, filter, s, p, j); }
  }

  /** One file ends where it would have ended: it cannot be written at all, or both entries can be restored,
      or none that is asked for on the way can. */
  predicate Composes(w: World, p: Path, a: nat, b: nat)
    requires p in w.files && a >= 1 && b >= 1
  {
    !Restorable(w.disk, p) ||
      if Backed(w, p, a) then Backed(w, p, a + b) else !Backed(w, p, b) && !Backed(w, p, a + b)
  }

  lemma RowComposes(env: Env, w: World, a: nat, b: nat, filter: Path, s1: Sweep, s2: Sweep, s: Sweep, p: Path)
    requires a >= 1 && b >= 1 && Apart(w) && Quiet(env, w, a, filter, s1) && Quiet(env, w, a + b, filter, s)
    requires Quiet(env, Swept(env, w, a, filter, s1), b, filter, s2) && p in w.files
    ensures var w2 := Swept(env, Swept(env, w, a, filter, s1), b, filter, s2);
      var w3 := Swept(env, w, a + b, filter, s);
      && p in w2.files && p in w3.files
      && (w2.files[p] == w3.files[p] <==> (Selected(filter, p) ==> Composes(w, p, a, b)))
  {
    hide Swept, Quiet, Apart, Restorable, EntryBacked, LeftOver, TmpTouched, RestoredFile;
    var w1 := Swept(env, w, a, filter, s1);
    SweptWhole(env, w, a, filter, s1);
    SweptRow(env, w, a, filter, s1, p);
    SweptRow(env, w1, b, filter, s2, p);
    SweptRow(env, w, a + b, filter, s, p);
    if Selected(filter, p) { SecondChance(env, w, a, b, filter, s1, p); }
  }

  ghost predicate AllCompose(w: World, a: nat, b: nat, filter: Path)
    requires a >= 1 && b >= 1
  {
    forall p | p in w.files && Selected(filter, p) :: Composes(w, p, a, b)
  }

  /** When every file composes, the three rollbacks restore the same files. */
  lemma SameHits(env: Env, w: World, a: nat, b: nat, filter: Path, s1: Sweep, p: Path)
    requires a >= 1 && b >= 1 && Apart(w) && Quiet(env, w, a, filter, s1) && p in w.files
    requires Selected(filter, p) ==> Composes(w, p, a, b)
    ensures p in Swept(env, w, a, filter, s1).files
    ensures Hit(w, p, a, filter) == Hit(Swept(env, w, a, filter, s1), p, b, filter) == Hit(w, p, a + b, filter)
  {
    hide Swept, Quiet, Apart, Restorable, EntryBacked;
    SweptWhole(env, w, a, filter, s1);
    if Selected(filter, p) { SecondChance(env, w, a, b, filter, s1, p); }
  }

  lemma FreedTwice(w: World, w1: World, hits: set<Path>, a: nat, b: nat)
    requires a >= 1 && b >= 1 && AllSucceed(w, hits, a) && AllSucceed(w1, hits, b) && AllSucceed(w, hits, a + b)
    requires forall p :: p in hits ==> w1.files[p].history == w.files[p].history[a..]
    ensures Freed(w, hits, a) + Freed(w1, hits, b) == Freed(w, hits, a + b)
  {
    hide Restorable, EntryBacked;
    assert forall p :: p in hits ==> p in w.files && p in w1.files && a + b <= |w.files[p].history|;
    hide Succeeds;
    forall n | n in Freed(w, hits, a + b) ensures n in Freed(w, hits, a) + Freed(w1, hits, b) {
      var p, i :| p in hits && 0 <= i < a + b && w.files[p].history[i].archive == n;
      if i >= a { assert w1.files[p].history[i - a] == w.files[p].history[i]; }
    }
    forall n | n in Freed(w1, hits, b) ensures n in Freed(w, hits, a + b) {
      var p, i :| p in hits && 0 <= i < b && w1.files[p].history[i].archive == n;
      assert w1.files[p].history[i] == w.files[p].history[i + a];
    }
  }

  lemma ArchivesCompose(env: Env, w: World, a: nat, b: nat, filter: Path, s1: Sweep, s2: Sweep, s: Sweep)
    requires a >= 1 && b >= 1 && Apart(w) && Quiet(env, w, a, filter, s1) && Quiet(env, w, a + b, filter, s)
    requires Quiet(env, Swept(env, w, a, filter, s1), b, filter, s2) && AllCompose(w, a, b, filter)
    ensures Swept(env, Swept(env, w, a, filter, s1), b, filter, s2).archives == Swept(env, w, a + b, filter, s).archives
  {
    hide Swept, Tidy, Apart, Composes, Restorable, EntryBacked, Freed, FewerArchives, SameDirs, Reaches;
    var w1, hits := Swept(env, w, a, filter, s1), Hits(w, s1.order, a, filter);
    SweptWhole(env, w, a, filter, s1);
    SweptWhole(env, w1, b, filter, s2);
    SweptWhole(env, w, a + b, filter, s);
    forall p | p in w.files
      ensures p in w1.files
      ensures Hit(w, p, a, filter) == Hit(w1, p, b, filter) == Hit(w, p, a + b, filter)
      ensures Hit(w, p, a, filter) ==> w1.files[p].history == w.files[p].history[a..]
    {
      SameHits(env, w, a, b, filter, s1, p);
      SweptRow(env, w, a, filter, s1, p);
    }
    assert hits == Hits(w1, s2.order, b, filter) == Hits(w, s.order, a + b, filter);
    FreedTwice(w, w1, hits, a, b);
    assert w.archives - Freed(w, hits, a) - Freed(w1, hits, b) == w.archives - (Freed(w, hits, a) + Freed(w1, hits, b));
  }

  /** q holds the same in both disks; or the same restored file with, it may be, another owner, where a stale
      temporary sibling lent it one; or q is the temporary sibling of a file that could not be written. */
  ghost predicate Alike(w: World, d2: Disk, d3: Disk, filter: Path, q: Path) {
    || At(d2, q) == At(d3, q)
    || (&& q in d2 && q in d3 && d2[q].File? && d3[q].File? && d2[q].body == d3[q].body && d2[q].mode == d3[q].mode
        && q in w.files && q + ROLLBACK_TMP in w.disk)
    || exists p :: p in w.files && Selected(filter, p) && !Restorable(w.disk, p) && q == p + ROLLBACK_TMP
  }

  lemma StuckOnes(w: World, k: nat, filter: Path, p: Path)
    requires k >= 1 && p in w.files && LeftOver(w, k, filter, p + ROLLBACK_TMP)
    ensures Selected(filter, p) && !Restorable(w.disk, p)
  {
    hide Restorable, Backed, Selected;
    var p' :| p' in w.files && Selected(filter, p') && !Restorable(w.disk, p') && p + ROLLBACK_TMP == p' + ROLLBACK_TMP;
    TmpInjective(p, p');
  }

  lemma SameRestored(env: Env, w: World, w1: World, p: Path, a: nat, b: nat)
    requires p in w.files && a >= 1 && b >= 1 && p in w1.files && FewerArchives(w, w1)
    requires Backed(w, p, a) && Backed(w, p, a + b) && w1.files[p] == Dropped(w.files[p], a) && Backed(w1, p, b)
    requires p + ROLLBACK_TMP !in w1.disk
    ensures var n2, n3 := RestoredFile(env, w1, p, b), RestoredFile(env, w, p, a + b);
      && n2.File? && n3.File? && n2.body == n3.body && n2.mode == n3.mode
      && (p + ROLLBACK_TMP !in w.disk ==> n2 == n3)
  {
    var h := w.files[p].history;
    assert h[a..][b - 1] == h[a + b - 1];
  }

  lemma FileComposes(env: Env, w: World, a: nat, b: nat, filter: Path, s1: Sweep, s2: Sweep, s: Sweep, p: Path)
    requires a >= 1 && b >= 1 && Apart(w) && Quiet(env, w, a, filter, s1) && Quiet(env, w, a + b, filter, s)
    requires Quiet(env, Swept(env, w, a, filter, s1), b, filter, s2) && AllCompose(w, a, b, filter) && p in w.files
    ensures var w2 := Swept(env, Swept(env, w, a, filter, s1), b, filter, s2);
      var w3 := Swept(env, w, a + b, filter, s);
      Alike(w, w2.disk, w3.disk, filter, p) && Alike(w, w2.disk, w3.disk, filter, p + ROLLBACK_TMP)
  {
    hide Swept, Quiet, Apart, Composes, Restorable, EntryBacked, TmpTouched, RestoredFile, LeftOver, Selected, Dropped;
    var w1 := Swept(env, w, a, filter, s1);
    SweptWhole(env, w, a, filter, s1);
    SameHits(env, w, a, b, filter, s1, p);
    SweptRow(env, w, a, filter, s1, p);
    SweptRow(env, w1, b, filter, s2, p);
    SweptRow(env, w, a + b, filter, s, p);
    if Hit(w, p, a, filter) {
      SameRestored(env, w, w1, p, a, b);
    } else {
      if Selected(filter, p) { SecondChance(env, w, a, b, filter, s1, p); }
      if LeftOver(w1, b, filter, p + ROLLBACK_TMP) { StuckOnes(w1, b, filter, p); }
      if LeftOver(w, a, filter, p + ROLLBACK_TMP) { StuckOnes(w, a, filter, p); }
      if LeftOver(w, a + b, filter, p + ROLLBACK_TMP) { StuckOnes(w, a + b, filter, p); }
    }
  }

  lemma Elsewhere(env: Env, w: World, a: nat, b: nat, filter: Path, s1: Sweep, s2: Sweep, s: Sweep, q: Path)
    requires a >= 1 && b >= 1 && Apart(w) && Quiet(env, w, a, filter, s1) && Quiet(env, w, a + b, filter, s)
    requires Quiet(env, Swept(env, w, a, filter, s1), b, filter, s2)
    requires forall p :: p in w.files ==> q != p && q != p + ROLLBACK_TMP
    ensures At(Swept(env, Swept(env, w, a, filter, s1), b, filter, s2).disk, q)
         == At(Swept(env, w, a + b, filter, s).disk, q)
  {
    hide Swept, Tidy, Apart;
    var w1 := Swept(env, w, a, filter, s1);
    SweptWhole(env, w, a, filter, s1);
    assert forall p :: p in w1.files ==> p in w.files by { assert w1.files.Keys == w.files.Keys; }
    SweptWhole(env, w1, b, filter, s2);
    SweptWhole(env, w, a + b, filter, s);
  }

  lemma DisksCompose(env: Env, w: World, a: nat, b: nat, filter: Path, s1: Sweep, s2: Sweep, s: Sweep, q: Path)
    requires a >= 1 && b >= 1 && Apart(w) && Quiet(env, w, a, filter, s1) && Quiet(env, w, a + b, filter, s)
    requires Quiet(env, Swept(env, w, a, filter, s1), b, filter, s2) && AllCompose(w, a, b, filter)
    ensures Alike(w, Swept(env, Swept(env, w, a, filter, s1), b, filter, s2).disk, Swept(env, w, a + b, filter, s).disk,
                  filter, q)
  {
    hide Swept, Quiet, Apart, Composes, Restorable;
    if q in w.files {
      FileComposes(env, w, a, b, filter, s1, s2, s, q);
    } else if p :| p in w.files && q == p + ROLLBACK_TMP {
      FileComposes(env, w, a, b, filter, s1, s2, s, p);
    } else {
      Elsewhere(env, w, a, b, filter, s1, s2, s, q);
    }
  }

  /** Rolling the rulebook back by a and then by b records what rolling it back by a + b does exactly when every
      selected file composes; and then the archives are the same too, and the disk as far as Alike says. The
      listings of the three runs need not agree. */
  lemma RulebookComposes(env: Env, w: World, a: nat, b: nat, filter: Path, s1: Sweep, s2: Sweep, s: Sweep)
    requires a >= 1 && b >= 1 && Apart(w) && Quiet(env, w, a, filter, s1) && Quiet(env, w, a + b, filter, s)
    requires Quiet(env, Swept(env, w, a, filter, s1), b, filter, s2)
    ensures var w2 := Swept(env, Swept(env, w, a, filter, s1), b, filter, s2);
      var w3 := Swept(env, w, a + b, filter, s);
      && (w2.files == w3.files <==> AllCompose(w, a, b, filter))
      && (w2.files == w3.files ==>
            w2.archives == w3.archives && w2.changed == w3.changed
              && forall q :: Alike(w, w2.disk, w3.disk, filter, q))
  {
    hide Swept, Quiet, Apart, Composes, Alike, Freed, FewerArchives, SameDirs, Reaches;
    var w1 := Swept(env, w, a, filter, s1);
    var w2, w3 := Swept(env, w1, b, filter, s2), Swept(env, w, a + b, filter, s);
    SweptWhole(env, w, a, filter, s1);
    SweptWhole(env, w1, b, filter, s2);
    SweptWhole(env, w, a + b, filter, s);
    forall p | p in w.files
      ensures p in w2.files && p in w3.files
      ensures w2.files[p] == w3.files[p] <==> (Selected(filter, p) ==> Composes(w, p, a, b))
    {
      RowComposes(env, w, a, b, filter, s1, s2, s, p);
    }
    assert w2.files.Keys == w3.files.Keys == w.files.Keys;
    if AllCompose(w, a, b, filter) {
      assert w2.files == w3.files;
      ArchivesCompose(env, w, a, b, filter, s1, s2, s);
      forall q ensures Alike(w, w2.disk, w3.disk, filter, q) { DisksCompose(env, w, a, b, filter, s1, s2, s, q); }
    } else {
      var p :| p in w.files && Selected(filter, p) && !Composes(w, p, a, b);
      assert w2.files[p] != w3.files[p];
    }
  }

  /** Every entry of every selected file can be read back. */
  ghost predicate Readable(w: World, filter: Path) {
    forall p, k | p in w.files && Selected(filter, p) && 1 <= k <= |w.files[p].history| :: Backed(w, p, k)
  }

  /** Each selected file that can be written has all a + b versions, or too few for either step. */
  ghost predicate DepthsAgree(w: World, a: nat, b: nat, filter: Path) {
    forall p | p in w.files && Selected(filter, p) && Restorable(w.disk, p) ::
      var n := |w.files[p].history|; a + b <= n || (n < a && n < b)
  }

  /** With nothing unreadable, the depths of the histories decide. */
  lemma ComposesByDepth(w: World, a: nat, b: nat, filter: Path)
    requires a >= 1 && b >= 1 && Readable(w, filter)
    ensures AllCompose(w, a, b, filter) <==> DepthsAgree(w, a, b, filter)
  {
    hide Restorable, EntryBacked, Selected;
    forall p | p in w.files && Selected(filter, p) && Restorable(w.disk, p)
      ensures var n := |w.files[p].history|; Composes(w, p, a, b) <==> a + b <= n || (n < a && n < b)
    {
      forall k | 1 <= k ensures Backed(w, p, k) <==> k <= |w.files[p].history| {}
    }
  }
}
