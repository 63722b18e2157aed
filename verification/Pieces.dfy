/** Cutting a sequence at a separator, and putting it together again. */
module Pieces {
  /** `IndexByte(s, sep)`, |s| when there is none. */
  function IndexOf<T(==)>(s: seq<T>, sep: T): (i: nat)
    ensures i <= |s| && sep !in s[..i] && (i < |s| ==> s[i] == sep)
  {
    if s == [] || s[0] == sep then 0 else 1 + IndexOf(s[1..], sep)
  }

  /** The pieces between separators; always at least one. */
  function Split<T(==)>(s: seq<T>, sep: T): (ps: seq<seq<T>>)
    ensures ps != []
    decreases |s|
  {
    var i := IndexOf(s, sep);
    if i == |s| then [s] else [s[..i]] + Split(s[i + 1..], sep)
  }

  function Join<T>(ps: seq<seq<T>>, sep: T): seq<T> {
    if ps == [] then [] else if |ps| == 1 then ps[0] else ps[0] + [sep] + Join(ps[1..], sep)
  }

  function Last<T>(ps: seq<seq<T>>): seq<T>
    requires ps != []
  {
    ps[|ps| - 1]
  }

  function ButLast<T>(ps: seq<seq<T>>): seq<seq<T>>
    requires ps != []
  {
    ps[..|ps| - 1]
  }

  lemma {:induction false} IndexAt<T>(s: seq<T>, sep: T, i: nat)
    requires i <= |s| && sep !in s[..i] && (i < |s| ==> s[i] == sep)
    ensures IndexOf(s, sep) == i
  {
    if i > 0 {
      assert s[0] == s[..i][0];
      assert s[1..][..i - 1] == s[..i][1..];
      IndexAt(s[1..], sep, i - 1);
    }
  }

  /** Split is the one way to cut a sequence at its separators: it undoes Join on separator-free pieces. */
  lemma {:induction false} SplitOfJoin<T>(ps: seq<seq<T>>, sep: T)
    requires ps != [] && forall p :: p in ps ==> sep !in p
    ensures Split(Join(ps, sep), sep) == ps
  {
    var p := ps[0];
    assert p in ps;
    if |ps| == 1 {
      assert p[..|p|] == p;
      IndexAt(p, sep, |p|);
    } else {
      var s := Join(ps, sep);
      assert s == p + [sep] + Join(ps[1..], sep);
      assert s[..|p|] == p && s[|p| + 1..] == Join(ps[1..], sep);
      IndexAt(s, sep, |p|);
      SplitOfJoin(ps[1..], sep);
    }
  }

  lemma {:induction false} JoinOfSplit<T>(s: seq<T>, sep: T)
    ensures Join(Split(s, sep), sep) == s && forall p :: p in Split(s, sep) ==> sep !in p
    decreases |s|
  {
    var i := IndexOf(s, sep);
    if i < |s| {
      JoinOfSplit(s[i + 1..], sep);
      assert s == s[..i] + [sep] + s[i + 1..];
    } else {
      assert s[..i] == s;
    }
  }

  /** Appending only reopens the last piece. */
  lemma {:induction false} SplitConcat<T>(a: seq<T>, b: seq<T>, sep: T)
    ensures Split(a + b, sep) == ButLast(Split(a, sep)) + Split(Last(Split(a, sep)) + b, sep)
    decreases |a|
  {
    var i := IndexOf(a, sep);
    if i < |a| {
      var rest := a[i + 1..];
      assert (a + b)[..i] == a[..i] && (a + b)[i + 1..] == rest + b;
      IndexAt(a + b, sep, i);
      SplitConcat(rest, b, sep);
      var head, x, y := [a[..i]], Split(rest, sep), Split(Last(Split(rest, sep)) + b, sep);
      assert Split(a, sep) == head + x && Split(a + b, sep) == head + Split(rest + b, sep);
      assert ButLast(head + x) == head + ButLast(x) && Last(head + x) == Last(x);
      assert head + (ButLast(x) + y) == (head + ButLast(x)) + y;
    } else {
      assert Split(a, sep) == [a];
    }
  }
}
