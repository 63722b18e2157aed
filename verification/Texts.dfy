/** The few of Go's `strings` helpers used throughout. */
module Texts {
  predicate HasPrefix(s: string, p: string) { p <= s }

  predicate IsSpace(c: char) {
    c in " \t\n\r" || c as int in {11, 12, 0x85, 0xA0, 0x1680, 0x2028, 0x2029, 0x202F, 0x205F, 0x3000}
      || 0x2000 <= c as int <= 0x200A
  }

  function TrimLeftSpace(s: string): string {
    if s != "" && IsSpace(s[0]) then TrimLeftSpace(s[1..]) else s
  }

  function TrimRightSpace(s: string): string {
    if s != "" && IsSpace(s[|s| - 1]) then TrimRightSpace(s[..|s| - 1]) else s
  }

  function TrimSpace(s: string): string { TrimRightSpace(TrimLeftSpace(s)) }

  predicate Trimmed(s: string) {
    s == "" || (!IsSpace(s[0]) && !IsSpace(s[|s| - 1]))
  }

  lemma {:induction false} TrimLeftCuts(s: string) returns (i: nat)
    ensures i <= |s| && TrimLeftSpace(s) == s[i..]
    ensures i == |s| || !IsSpace(s[i])
    ensures s == "" || !IsSpace(s[0]) ==> i == 0
  {
    hide IsSpace;
    if s != "" && IsSpace(s[0]) {
      i := TrimLeftCuts(s[1..]);
      assert s[1..][i..] == s[i + 1..];
      i := i + 1;
    } else {
      i := 0;
      assert s[0..] == s;
    }
  }

  lemma {:induction false} TrimRightCuts(s: string) returns (j: nat)
    ensures j <= |s| && TrimRightSpace(s) == s[..j]
    ensures j == 0 || !IsSpace(s[j - 1])
    ensures s == "" || !IsSpace(s[|s| - 1]) ==> j == |s|
  {
    hide IsSpace;
    if s != "" && IsSpace(s[|s| - 1]) {
      j := TrimRightCuts(s[..|s| - 1]);
      assert s[..|s| - 1][..j] == s[..j];
    } else {
      j := |s|;
      assert s[..|s|] == s;
    }
  }

  /** Trimming keeps a middle stretch, and leaves alone exactly the strings with no blank at either end. */
  lemma TrimCuts(s: string) returns (i: nat, j: nat)
    ensures i <= j <= |s| && TrimSpace(s) == s[i..j]
    ensures Trimmed(TrimSpace(s)) && (TrimSpace(s) == s <==> Trimmed(s))
  {
    hide IsSpace, TrimLeftSpace, TrimRightSpace;
    i := TrimLeftCuts(s);
    var n := TrimRightCuts(s[i..]);
    j := i + n;
    assert s[i..][..n] == s[i..j];
  }

  lemma {:induction false} TrimLeftAll(pre: string, s: string)
    requires (forall i :: 0 <= i < |pre| ==> IsSpace(pre[i])) && (s == "" || !IsSpace(s[0]))
    ensures TrimLeftSpace(pre + s) == s
  {
    hide IsSpace;
    if pre == "" {
      assert pre + s == s;
    } else {
      assert (pre + s)[1..] == pre[1..] + s;
      TrimLeftAll(pre[1..], s);
    }
  }

  lemma {:induction false} TrimRightAll(s: string, post: string)
    requires (forall i :: 0 <= i < |post| ==> IsSpace(post[i])) && (s == "" || !IsSpace(s[|s| - 1]))
    ensures TrimRightSpace(s + post) == s
    decreases |post|
  {
    hide IsSpace;
    if post == "" {
      assert s + post == s;
    } else {
      assert (s + post)[..|s + post| - 1] == s + post[..|post| - 1];
      TrimRightAll(s, post[..|post| - 1]);
    }
  }

  /** Blanks around a text without any at its ends are what trimming takes away. */
  lemma TrimBetween(pre: string, s: string, post: string)
    requires (forall i :: 0 <= i < |pre| ==> IsSpace(pre[i])) && (forall i :: 0 <= i < |post| ==> IsSpace(post[i]))
    requires Trimmed(s)
    ensures TrimSpace(pre + s + post) == s
  {
    hide IsSpace, TrimLeftSpace, TrimRightSpace;
    if s == "" {
      var all := pre + s + post;
      assert forall i :: 0 <= i < |all| ==> IsSpace(all[i]);
      assert all + "" == all;
      TrimLeftAll(all, "");
      TrimRightAll("", "");
      assert "" + "" == "";
    } else {
      assert pre + s + post == pre + (s + post);
      TrimLeftAll(pre, s + post);
      TrimRightAll(s, post);
    }
  }
}
