/** `ensureGitignored`: `.gitignore` as an append-only set of lines. */
module Gitignore {
  import opened Options
  import opened Pieces
  import opened Texts

  // Each comment is one line of the file. It is written in two halves because the verifier looks only so
  // far into a string literal.
  const BANNER := "# Plaintext working copies " + "of axup secrets — never commit."
  const OWNER := "# (axup secrets " + "unseal manages this block.)"
  const HEADER := "\n" + BANNER + "\n" + OWNER + "\n"

  /** The trimmed lines of a text. */
  function Lines(s: string): set<string> {
    set p | p in Split(s, '\n') :: TrimSpace(p)
  }

  /** What the file holds; a missing file reads as no text, and has no lines, not one empty line. */
  function Text(body: Option<string>): string {
    if body.Some? then body.value else ""
  }

  function Have(body: Option<string>): set<string> {
    if body.Some? then Lines(body.value) else {}
  }

  predicate Listed(have: set<string>, rel: string) { rel in have || "/" + rel in have }

  function Missing(have: set<string>, rels: seq<string>): (m: seq<string>)
    ensures forall r :: r in m <==> r in rels && !Listed(have, r)
  {
    if rels == [] then []
    else (if Listed(have, rels[0]) then [] else [rels[0]]) + Missing(have, rels[1..])
  }

  lemma {:induction false} MissingSnoc(have: set<string>, rels: seq<string>, rel: string)
    ensures Missing(have, rels + [rel]) == Missing(have, rels) + if Listed(have, rel) then [] else [rel]
  {
    hide Listed;
    if rels != [] {
      assert (rels + [rel])[1..] == rels[1..] + [rel];
      MissingSnoc(have, rels[1..], rel);
    }
  }

  method CollectMissing(have: set<string>, rels: seq<string>) returns (added: seq<string>)
    ensures added == Missing(have, rels)
  {
    added := [];
    for i := 0 to |rels|
      invariant added == Missing(have, rels[..i])
    {
      MissingSnoc(have, rels[..i], rels[i]);
      assert rels[..i + 1] == rels[..i] + [rels[i]];
      if !(rels[i] in have || "/" + rels[i] in have) { added := added + [rels[i]]; }
    }
    assert rels[..|rels|] == rels;
  }

  function Rows(added: seq<string>): string {
    if added == [] then "" else added[0] + "\n" + Rows(added[1..])
  }

  function Gap(s: string): string { if s != "" && s[|s| - 1] != '\n' then "\n" else "" }

  /** The file after an error-free call. */
  function Ensured(body: Option<string>, rels: seq<string>): Option<string> {
    var added := Missing(Have(body), rels);
    if added == [] then body
    else Some(Text(body) + Gap(Text(body)) + HEADER + Rows(added))
  }

  /** An entry a line can hold: no newline, no blank at either end. */
  predicate Clean(rel: string) { '\n' !in rel && TrimSpace(rel) == rel }

  class GitignoreFile {
    var body: Option<string>
    /** How many writes have failed. */
    ghost var failures: nat

    /** A write to the file opened for appending; a failed one may leave a part of `text` behind. */
    method WriteString(text: string) returns (ok: bool)
      modifies this
      ensures body.Some? && Text(old(body)) <= body.value
      ensures ok ==> body == Some(Text(old(body)) + text)
      ensures failures == old(failures) + (if ok then 0 else 1)
    {
      var part: string :| part <= text;
      ok := part == text;
      body := Some(Text(body) + part);
      if !ok { failures := failures + 1; }
    }

    method WriteRows(added: seq<string>) returns (ok: bool)
      modifies this
      ensures Text(old(body)) <= Text(body)
      ensures ok ==> Text(body) == Text(old(body)) + Rows(added) && (added != [] ==> body.Some?)
      ensures failures == old(failures) + (if ok then 0 else 1)
    {
      for i := 0 to |added|
        invariant (i > 0 ==> body.Some?) && failures == old(failures)
        invariant Text(old(body)) <= Text(body)
        invariant Text(body) + Rows(added[i..]) == Text(old(body)) + Rows(added)
      {
        ghost var rest := added[i + 1..];
        assert added[i..][0] == added[i] && added[i..][1..] == rest;
        assert Text(body) + (added[i] + "\n" + Rows(rest)) == Text(body) + (added[i] + "\n") + Rows(rest);
        ok := WriteString(added[i] + "\n");
        if !ok { return; }
      }
      ok := true;
    }

    method AppendBlock(added: seq<string>) returns (ok: bool)
      requires added != []
      modifies this
      ensures Text(old(body)) <= Text(body)
      ensures ok ==> body == Some(Text(old(body)) + Gap(Text(old(body))) + HEADER + Rows(added))
      ensures failures == old(failures) + (if ok then 0 else 1)
    {
      hide HEADER, Rows;
      var text := Text(body);
      if |text| > 0 && text[|text| - 1] != '\n' {
        ok := WriteString("\n");
        if !ok { return; }
      } else {
        assert text + "" == text;
      }
      ok := WriteString(HEADER);
      if !ok { return; }
      ok := WriteRows(added);
    }

    /** `readable`: the file can be read, or is missing; `writable`: it can be opened for appending. */
    method EnsureGitignored(rels: seq<string>, readable: bool, writable: bool) returns (r: Option<seq<string>>)
      modifies this
      ensures Text(old(body)) <= Text(body)
      ensures r.Some? ==> body == Ensured(old(body), rels) && r.value == Missing(Have(old(body)), rels)
      ensures r.None? <==>
        !readable || (Missing(Have(old(body)), rels) != [] && (!writable || failures > old(failures)))
      ensures !readable ==> body == old(body)
      ensures Missing(Have(old(body)), rels) == [] ==> body == old(body) && r.Some? == readable
    {
      hide Lines, HEADER, Rows, Gap, Missing;
      if !readable { return None; }
      var added := CollectMissing(Have(body), rels);
      if |added| == 0 { return Some([]); }
      if !writable { return None; }
      var ok := AppendBlock(added);
      if !ok { return None; }
      return Some(added);
    }
  }

  // ---- What a text's lines are made of.

  lemma {:induction false} JoinOfConcat(ps: seq<string>, qs: seq<string>)
    requires ps != [] && qs != []
    ensures Join(ps + qs, '\n') == Join(ps, '\n') + "\n" + Join(qs, '\n')
  {
    assert (ps + qs)[1..] == ps[1..] + qs;
    if |ps| > 1 {
      JoinOfConcat(ps[1..], qs);
    }
  }

  lemma SplitOfJoined(a: string, b: string)
    ensures Split(a + "\n" + b, '\n') == Split(a, '\n') + Split(b, '\n')
  {
    hide Split, IndexOf;
    var ps, qs := Split(a, '\n'), Split(b, '\n');
    JoinOfSplit(a, '\n');
    JoinOfSplit(b, '\n');
    JoinOfConcat(ps, qs);
    SplitOfJoin(ps + qs, '\n');
  }

  lemma LinesOfJoined(a: string, b: string)
    ensures Lines(a + "\n" + b) == Lines(a) + Lines(b)
  {
    hide Split, TrimSpace;
    SplitOfJoined(a, b);
  }

  lemma SplitOfOne(s: string)
    requires '\n' !in s
    ensures Split(s, '\n') == [s]
  {
    IndexAt(s, '\n', |s|);
    assert s[..|s|] == s;
  }

  lemma LinesOfOne(s: string)
    requires '\n' !in s
    ensures Lines(s) == {TrimSpace(s)}
  {
    SplitOfOne(s);
  }

  lemma LinesOfEmpty()
    ensures Lines("") == {""}
  {
    LinesOfOne("");
  }

  lemma LinesOfGapped(t: string, block: string)
    ensures Lines(t + Gap(t) + "\n" + block) <= Lines(t) + {""} + Lines(block)
    ensures Lines(t + Gap(t) + "\n" + block) >= Lines(t) + Lines(block)
  {
    hide Lines;
    LinesOfEmpty();
    LinesOfJoined(t + Gap(t), block);
    if Gap(t) == "" {
      assert t + Gap(t) == t;
    } else {
      LinesOfJoined(t, "");
      assert t + "\n" + "" == t + Gap(t);
    }
  }

  lemma {:induction false} PieceFits(ps: seq<string>, p: string)
    requires p in ps
    ensures |p| <= |Join(ps, '\n')|
  {
    if |ps| > 1 && p != ps[0] {
      PieceFits(ps[1..], p);
    }
  }

  lemma LinesAreClean(s: string, x: string)
    requires x in Lines(s)
    ensures Clean(x) && |x| <= |s|
  {
    var p :| p in Split(s, '\n') && x == TrimSpace(p);
    JoinOfSplit(s, '\n');
    PieceFits(Split(s, '\n'), p);
    var _, _ := TrimCuts(p);
    var _, _ := TrimCuts(x);
  }

  lemma {:induction false} LinesOfRows(added: seq<string>, x: string)
    ensures x in Lines(Rows(added)) <==> x == "" || exists q :: q in added && x in Lines(q)
  {
    if added == [] {
      LinesOfOne("");
    } else {
      LinesOfRows(added[1..], x);
      LinesOfJoined(added[0], Rows(added[1..]));
    }
  }

  lemma BannerIsOneLine()
    ensures '\n' !in BANNER && Trimmed(BANNER)
  {
    assert BANNER[0] == '#' && BANNER[|BANNER| - 1] == '.';
  }

  lemma OwnerIsOneLine()
    ensures '\n' !in OWNER && Trimmed(OWNER)
  {
    assert OWNER[0] == '#' && OWNER[|OWNER| - 1] == ')';
  }

  lemma LinesOfHeader()
    ensures Lines(BANNER) == {BANNER} && Lines(OWNER) == {OWNER} && Clean(BANNER) && Clean(OWNER)
  {
    hide TrimSpace, Lines, Trimmed, BANNER, OWNER;
    BannerIsOneLine();
    OwnerIsOneLine();
    var _, _ := TrimCuts(BANNER);
    var _, _ := TrimCuts(OWNER);
    LinesOfOne(BANNER);
    LinesOfOne(OWNER);
  }

  lemma BlockText(text: string, tail: string)
    ensures text + HEADER + tail == text + "\n" + (BANNER + "\n" + (OWNER + "\n" + tail))
  {
    hide BANNER, OWNER;
    assert "\n" + BANNER + "\n" + OWNER + "\n" + tail == "\n" + (BANNER + "\n" + (OWNER + "\n" + tail));
  }

  /** Exactly which lines the file has afterwards. */
  lemma {:induction false} LinesAfter(body: Option<string>, rels: seq<string>, x: string)
    requires Missing(Have(body), rels) != []
    ensures x in Have(Ensured(body, rels)) <==>
      x in Have(body) || x in {"", BANNER, OWNER} || exists q :: q in Missing(Have(body), rels) && x in Lines(q)
  {
    hide Lines, Rows, BANNER, OWNER, Missing;
    var t, tail := Text(body), Rows(Missing(Have(body), rels));
    LinesOfRows(Missing(Have(body), rels), x);
    LinesOfHeader();
    LinesOfEmpty();
    LinesOfJoined(OWNER, tail);
    LinesOfJoined(BANNER, OWNER + "\n" + tail);
    LinesOfGapped(t, BANNER + "\n" + (OWNER + "\n" + tail));
    BlockText(t + Gap(t), tail);
  }

  lemma {:induction false} SplitOfRows(added: seq<string>)
    requires forall r :: r in added ==> '\n' !in r
    ensures Split(Rows(added), '\n') == added + [""]
  {
    hide Split;
    if added == [] {
      SplitOfOne("");
    } else {
      assert added[0] in added && forall r :: r in added[1..] ==> r in added;
      SplitOfRows(added[1..]);
      SplitOfJoined(added[0], Rows(added[1..]));
      SplitOfOne(added[0]);
      assert [added[0]] + (added[1..] + [""]) == added + [""];
    }
  }

  /** The lines of a text, not counting the empty one after its last newline. */
  function WholeLines(s: string): seq<string> {
    if s == "" || s[|s| - 1] == '\n' then ButLast(Split(s, '\n')) else Split(s, '\n')
  }

  lemma GapCloses(s: string)
    ensures Split(s + Gap(s), '\n') == WholeLines(s) + [""]
  {
    hide Split;
    if s == "" {
      SplitOfOne("");
    } else if s[|s| - 1] == '\n' {
      var t := s[..|s| - 1];
      assert s == t + "\n" + "" && s + Gap(s) == s;
      SplitOfJoined(t, "");
      SplitOfOne("");
    } else {
      assert s + Gap(s) == s + "\n" + "";
      SplitOfJoined(s, "");
      SplitOfOne("");
    }
  }

  /** The file line by line: what was there, a blank line, the two comments, the entries in order. */
  lemma LinesInOrder(body: Option<string>, rels: seq<string>)
    requires Missing(Have(body), rels) != [] && forall r :: r in rels ==> '\n' !in r
    ensures Ensured(body, rels).Some?
    ensures Split(Ensured(body, rels).value, '\n')
         == WholeLines(Text(body)) + ["", BANNER, OWNER] + Missing(Have(body), rels) + [""]
  {
    hide Split, BANNER, OWNER, Missing, Rows, Have, Gap, WholeLines;
    var t, added := Text(body), Missing(Have(body), rels);
    var tail := Rows(added);
    BannerIsOneLine();
    OwnerIsOneLine();
    SplitOfRows(added);
    SplitOfJoined(OWNER, tail);
    SplitOfJoined(BANNER, OWNER + "\n" + tail);
    SplitOfOne(OWNER);
    SplitOfOne(BANNER);
    GapCloses(t);
    SplitOfJoined(t + Gap(t), BANNER + "\n" + (OWNER + "\n" + tail));
    BlockText(t + Gap(t), tail);
    var w := WholeLines(t);
    assert (w + [""]) + ([BANNER] + ([OWNER] + (added + [""]))) == w + ["", BANNER, OWNER] + added + [""];
  }

  predicate Blanks(s: string) { forall i :: 0 <= i < |s| ==> s[i] in " \t\r" }

  lemma BlanksAreSpace(s: string)
    requires Blanks(s)
    ensures forall i :: 0 <= i < |s| ==> IsSpace(s[i])
  {
  }

  lemma SlashIsNoBlank(rel: string)
    requires Trimmed(rel)
    ensures Trimmed("/" + rel)
  {
    var s := "/" + rel;
    assert s[0] == '/' && s[|s| - 1] == if rel == "" then '/' else rel[|rel| - 1];
  }

  /** An entry is found on its line whatever blanks surround it: the lines of a file with CRLF endings count. */
  lemma BlanksDoNotHide(body: string, rel: string, pre: string, post: string)
    requires Blanks(pre) && Blanks(post) && Trimmed(rel)
    requires pre + rel + post in Split(body, '\n') || pre + "/" + rel + post in Split(body, '\n')
    ensures Listed(Have(Some(body)), rel) && rel !in Missing(Have(Some(body)), [rel])
  {
    hide Split, IsSpace;
    BlanksAreSpace(pre);
    BlanksAreSpace(post);
    TrimBetween(pre, rel, post);
    SlashIsNoBlank(rel);
    assert pre + ("/" + rel) + post == pre + "/" + rel + post;
    TrimBetween(pre, "/" + rel, post);
  }

  // ---- Append-only and idempotent.

  /** Some entry written on this call has "/rel" among its lines. */
  ghost predicate Anchored(added: seq<string>, rel: string) {
    exists q :: q in added && "/" + rel in Lines(q)
  }

  lemma SlashIsNotHash(rel: string)
    ensures "/" + rel !in {"", BANNER, OWNER}
  {
    assert ("/" + rel)[0] == '/' && BANNER[0] == '#' && OWNER[0] == '#';
  }

  lemma ListedAfter(body: Option<string>, rels: seq<string>, rel: string)
    requires rel in Missing(Have(body), rels)
    ensures Listed(Have(Ensured(body, rels)), rel) <==> Clean(rel) || Anchored(Missing(Have(body), rels), rel)
  {
    hide Lines, Ensured, Missing, TrimSpace;
    LinesAfter(body, rels, rel);
    LinesAfter(body, rels, "/" + rel);
    LinesOfHeader();
    SlashIsNotHash(rel);
    var _, _ := TrimCuts("");
    if Clean(rel) {
      LinesOfOne(rel);
    } else if q :| q in Missing(Have(body), rels) && rel in Lines(q) {
      LinesAreClean(q, rel);
    }
  }

  lemma OldLinesStay(body: Option<string>, rels: seq<string>, rel: string)
    ensures Text(body) <= Text(Ensured(body, rels))
    ensures Listed(Have(body), rel) ==> Listed(Have(Ensured(body, rels)), rel)
  {
    if Missing(Have(body), rels) != [] {
      LinesAfter(body, rels, rel);
      LinesAfter(body, rels, "/" + rel);
    }
  }

  /** Calling again with the same entries adds nothing exactly when every entry written is one a line can
      hold, or is covered by an anchored form written beside it. */
  lemma {:induction false} SecondCallAddsNothing(body: Option<string>, rels: seq<string>)
    ensures Missing(Have(Ensured(body, rels)), rels) == [] <==>
      forall r :: r in Missing(Have(body), rels) ==> Clean(r) || Anchored(Missing(Have(body), rels), r)
  {
    hide Lines, Listed, Clean, Anchored;
    var first, again := Missing(Have(body), rels), Missing(Have(Ensured(body, rels)), rels);
    forall r | r in rels
      ensures r in again <==> r in first && !Clean(r) && !Anchored(first, r)
    {
      if r in first {
        ListedAfter(body, rels, r);
      } else {
        OldLinesStay(body, rels, r);
      }
    }
    if again != [] {
      assert again[0] in again;
    }
  }

  /** For entries without newlines or blanks at their ends: the old file is a prefix of the new one, every
      entry is then listed, and a second call finds nothing to add and leaves the file alone. */
  lemma CleanEntriesSettle(body: Option<string>, rels: seq<string>)
    requires forall r :: r in rels ==> Clean(r)
    ensures Text(body) <= Text(Ensured(body, rels))
    ensures forall r :: r in rels ==> Listed(Have(Ensured(body, rels)), r)
    ensures Ensured(Ensured(body, rels), rels) == Ensured(body, rels)
  {
    hide Lines, Listed, Clean, Anchored;
    OldLinesStay(body, rels, "");
    SecondCallAddsNothing(body, rels);
  }

  /** One entry settles exactly when it was listed already or is one a line can hold: a trailing blank, say,
      is written again on every call. */
  lemma OneEntrySettles(body: Option<string>, rel: string)
    ensures Missing(Have(Ensured(body, [rel])), [rel]) == [] <==> Listed(Have(body), rel) || Clean(rel)
  {
    hide Lines, Listed, Clean;
    var first := Missing(Have(body), [rel]);
    SecondCallAddsNothing(body, [rel]);
    if q :| q in first && "/" + rel in Lines(q) {
      LinesAreClean(q, "/" + rel);
    }
  }

  lemma {:induction false} TrailingBlankNeverSettles()
    ensures Missing(Have(Ensured(None, ["a "])), ["a "]) == ["a "]
  {
    var _, _ := TrimCuts("a ");
    OneEntrySettles(None, "a ");
  }
}
