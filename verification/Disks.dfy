/** The managed host's file system, as the agent's system calls see it. */
module Disks {
  import opened Options
  import opened Octal
  import opened ByteStrings

  type Path = string

  datatype Node =
    | File(body: Bytes, mode: Perm, uid: int, gid: int)
    | Dir(mode: Perm, uid: int, gid: int)
    | Link(target: Path, uid: int, gid: int)

  type Disk = map<Path, Node>

  /** What the host supplies and the agent cannot choose: the digest, the umask, the agent's own ids,
      where the kernel looks for a link's target and how many links it follows (40 on Linux), and the
      passwd and group tables. */
  datatype Env = Env(
    sha: Bytes -> string,
    mask: int -> Perm,
    uid: int,
    gid: int,
    follow: (Path, Path) -> Path,
    maxLinks: nat,
    userId: string -> Option<int>,
    groupId: string -> Option<int>)

  function At(d: Disk, p: Path): Option<Node> {
    if p in d then Some(d[p]) else None
  }

  /** p lies strictly below the directory q. */
  predicate Under(p: Path, q: Path) {
    |q| < |p| && p[..|q|] == q && p[|q|] == '/'
  }

  function Ancestors(p: Path): (dirs: set<Path>)
    ensures forall a :: a in dirs <==> a != "" && Under(p, a)
  {
    var dirs := set i | 0 < i < |p| && p[i] == '/' :: p[..i];
    assert forall a :: a != "" && Under(p, a) ==> a == p[..|a|];
    dirs
  }

  /** An ancestor is a regular file: every look-up below it fails with ENOTDIR. */
  predicate Blocked(d: Disk, p: Path) {
    exists a :: a in Ancestors(p) && a in d && d[a].File?
  }

  predicate IsDir(d: Disk, a: Path) { a in d && d[a].Dir? }

  datatype Look = Missing | Broken | Found(at: Path, node: Node)

  function Lstat(d: Disk, p: Path): Look {
    if Blocked(d, p) then Broken else if p in d then Found(p, d[p]) else Missing
  }

  function Follow(env: Env, d: Disk, p: Path, hops: nat): (r: Look)
    ensures r.Found? ==> At(d, r.at) == Some(r.node) && !r.node.Link?
    decreases hops
  {
    if Lstat(d, p).Found? && d[p].Link? then
      if hops == 0 then Broken else Follow(env, d, env.follow(p, d[p].target), hops - 1)
    else Lstat(d, p)
  }

  /** `os.Stat`: the node at the end of the links. */
  function Stat(env: Env, d: Disk, p: Path): (r: Look)
    ensures r.Found? ==> At(d, r.at) == Some(r.node) && !r.node.Link?
  {
    Follow(env, d, p, env.maxLinks)
  }

  /** A path of links, each leading to the next. */
  predicate Links(env: Env, d: Disk, qs: seq<Path>) {
    forall i | 0 <= i < |qs| - 1 ::
      !Blocked(d, qs[i]) && qs[i] in d && d[qs[i]].Link? && env.follow(qs[i], d[qs[i]].target) == qs[i + 1]
  }

  /** Links are followed to the end, up to so many of them. */
  lemma {:induction false} FollowsLinks(env: Env, d: Disk, qs: seq<Path>, hops: nat)
    requires qs != [] && Links(env, d, qs)
    ensures |qs| - 1 <= hops ==> Follow(env, d, qs[0], hops) == Follow(env, d, qs[|qs| - 1], hops - (|qs| - 1))
    ensures |qs| - 1 > hops ==> Follow(env, d, qs[0], hops) == Broken
    decreases hops
  {
    if |qs| > 1 && hops > 0 {
      assert forall i :: 0 <= i < |qs| - 1 ==> qs[1..][i] == qs[i + 1];
      FollowsLinks(env, d, qs[1..], hops - 1);
    }
  }

  lemma StatIsLstat(env: Env, d: Disk, p: Path)
    requires p in d ==> !d[p].Link?
    ensures Stat(env, d, p) == Lstat(d, p)
  {
  }

  /** Every directory in `dirs` exists or can be created. */
  predicate CanMake(d: Disk, dirs: set<Path>) {
    forall a :: a in dirs && a in d ==> d[a].Dir?
  }

  function MakeDirs(env: Env, d: Disk, dirs: set<Path>, mode: int): Disk {
    d + map a | a in dirs && a !in d :: Dir(env.mask(mode), env.uid, env.gid)
  }

  /** `os.RemoveAll`. */
  function RemoveTree(d: Disk, p: Path): Disk {
    map q | q in d && q != p && !Under(q, p) :: d[q]
  }

  predicate HasChildren(d: Disk, p: Path) {
    exists q :: q in d && Under(q, p)
  }

  function Owned(n: Node, uid: Option<int>, gid: Option<int>): Node {
    var u := if uid.Some? then uid.value else n.uid;
    var g := if gid.Some? then gid.value else n.gid;
    match n
    case File(b, m, _, _) => File(b, m, u, g)
    case Dir(m, _, _) => Dir(m, u, g)
    case Link(t, _, _) => Link(t, u, g)
  }

  function Moded(n: Node, mode: Perm): Node {
    match n
    case File(b, _, u, g) => File(b, mode, u, g)
    case Dir(_, u, g) => Dir(mode, u, g)
    case Link(_, _, _) => n
  }

  /** `chown -R`: the walk enters directories only. */
  function OwnTree(d: Disk, p: Path, uid: Option<int>, gid: Option<int>): Disk {
    map q | q in d ::
      if q == p || (p in d && d[p].Dir? && Under(q, p)) then Owned(d[q], uid, gid) else d[q]
  }

  const DEPLOY_TMP := ".deploy.tmp"
  const ROLLBACK_TMP := ".rollback.tmp"

  /** A temporary sibling can be opened for writing. */
  predicate TmpFree(d: Disk, tmp: Path) {
    tmp in d ==> d[tmp].File?
  }

  /** The complete new file; a stale temporary sibling keeps its owner when it is truncated. */
  function NewFile(env: Env, d: Disk, tmp: Path, body: Bytes, mode: Perm): Node {
    if tmp in d then File(body, mode, d[tmp].uid, d[tmp].gid) else File(body, mode, env.uid, env.gid)
  }

  /** What a successful write, chmod and rename leave: the new file at p, nothing at tmp. */
  function Replaced(env: Env, d: Disk, p: Path, tmp: Path, body: Bytes, mode: Perm): Disk {
    (d - {tmp})[p := NewFile(env, d, tmp, body, mode)]
  }

  /** A temporary sibling that changed was no more than a file, and is no more than a file. */
  predicate TmpTouched(d: Disk, d': Disk, tmp: Path) {
    At(d', tmp) != At(d, tmp) ==> TmpFree(d, tmp) && TmpFree(d', tmp)
  }

  /** All a failed replacement of p may have touched: its temporary sibling, and missing ancestors. */
  ghost predicate OnlyScratch(d: Disk, d': Disk, p: Path, tmp: Path) {
    && TmpTouched(d, d', tmp)
    && forall q :: q != tmp && At(d', q) != At(d, q) ==> q in Ancestors(p) && q !in d && d'[q].Dir?
  }

  /** All a failed restore may have touched: the temporary sibling. */
  ghost predicate OnlyTmp(d: Disk, d': Disk, tmp: Path) {
    TmpTouched(d, d', tmp) && forall q :: q != tmp ==> At(d', q) == At(d, q)
  }

  /** Changing the attributes of what a path leads to does not change where it leads. */
  lemma {:induction false} FollowOfUpdate(env: Env, d: Disk, p: Path, n: Node, hops: nat)
    requires Follow(env, d, p, hops).Found? && !n.Link? && n.File? == Follow(env, d, p, hops).node.File?
    ensures Follow(env, d[Follow(env, d, p, hops).at := n], p, hops) == Found(Follow(env, d, p, hops).at, n)
    decreases hops
  {
    var q := Follow(env, d, p, hops).at;
    forall x ensures Blocked(d, x) == Blocked(d[q := n], x) {
      if Blocked(d, x) {
        var a :| a in Ancestors(x) && a in d && d[a].File?;
        assert a in d[q := n] && d[q := n][a].File?;
      }
    }
    if d[p].Link? {
      FollowOfUpdate(env, d, env.follow(p, d[p].target), n, hops - 1);
    }
  }
}
