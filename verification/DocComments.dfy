/** The comments above a script (executor/src/session.rs), found by one scan from the end of
    the file. */
module DocComments {
  import opened Wrappers
  import opened Location

  /** A comment and the position where it starts. */
  datatype Comment = Comment(start: nat, text: string)

  predicate IsSpace(c: char) {
    c == ' ' || ('\t' <= c <= '\r')
  }

  function TrimStart(s: string): string {
    if s != [] && IsSpace(s[0]) then TrimStart(s[1..]) else s
  }

  function TrimEnd(s: string): string {
    if s != [] && IsSpace(s[|s| - 1]) then TrimEnd(s[..|s| - 1]) else s
  }

  function Trim(s: string): string {
    TrimEnd(TrimStart(s))
  }

  ghost predicate IsWhite(c: char) {
    c as int in {9, 10, 11, 12, 13, 32}
  }

  ghost predicate White(s: string) {
    forall i :: 0 <= i < |s| ==> IsWhite(s[i])
  }

  lemma {:induction false} TrimmedStart(s: string) returns (a: nat)
    ensures a <= |s| && TrimStart(s) == s[a..] && White(s[..a]) && (a < |s| ==> !IsWhite(s[a]))
  {
    a := 0;
    if s != [] {
      if IsSpace(s[0]) {
        a := TrimmedStart(s[1..]);
        assert forall i :: 0 < i < a + 1 ==> s[i] == s[1..][..a][i - 1];
        a := a + 1;
      }
    }
  }

  lemma {:induction false} TrimmedEnd(s: string) returns (b: nat)
    ensures b <= |s| && TrimEnd(s) == s[..b] && White(s[b..]) && (0 < b ==> !IsWhite(s[b - 1]))
  {
    b := |s|;
    if s != [] {
      if IsSpace(s[|s| - 1]) {
        var front := s[..|s| - 1];
        b := TrimmedEnd(front);
        assert front[..b] == s[..b] && s[b..] == front[b..] + [s[|s| - 1]];
      }
    }
  }

  /** Trimming cuts off white space at both ends and nothing else, and all of it: what is left
      neither starts nor ends with white space. */
  lemma TrimIsExact(s: string) returns (a: nat, b: nat)
    ensures a <= b <= |s| && Trim(s) == s[a..b] && White(s[..a]) && White(s[b..])
    ensures a < b ==> !IsWhite(s[a]) && !IsWhite(s[b - 1])
  {
    hide White, IsWhite, TrimStart, TrimEnd;
    a := TrimmedStart(s);
    var n := TrimmedEnd(s[a..]);
    b := a + n;
    assert s[a..][..n] == s[a..b] && s[a..][n..] == s[b..];
    if a < b {
      StillNotWhite(s, a, b);
    }
  }

  lemma StillNotWhite(s: string, a: nat, b: nat)
    requires a < b <= |s|
    ensures s[a..][b - a - 1] == s[b - 1]
  {
  }

  /** The comments of a file are ordered by their positions. */
  ghost predicate Ordered(comments: seq<Comment>, source: string) {
    (forall i :: 0 <= i < |comments| ==> comments[i].start <= |source|)
    && forall i, j :: 0 <= i < j < |comments| ==> comments[i].start < comments[j].start
  }

  ghost function LineOf(source: string, comments: seq<Comment>, i: nat): nat
    requires i < |comments| && comments[i].start <= |source|
  {
    LineBreaks(source, comments[i].start)
  }

  lemma {:induction false} LinesIncrease(source: string, a: nat, b: nat)
    requires a <= b <= |source|
    ensures LineBreaks(source, a) <= LineBreaks(source, b)
    decreases b
  {
    if a < b {
      LinesIncrease(source, a, b - 1);
    }
  }

  /** The chosen comments lie on the lines right above the given line, one on each, and each is
      the last that starts on its line. */
  ghost predicate Chosen(source: string, comments: seq<Comment>, line: nat, ks: seq<nat>)
    requires Ordered(comments, source)
  {
    |ks| <= line
    && (forall i :: 0 <= i < |ks| ==> ks[i] < |comments|)
    && (forall i, j :: 0 <= i < j < |ks| ==> ks[i] < ks[j])
    && (forall i :: 0 <= i < |ks| ==> LineOf(source, comments, ks[i]) == line - |ks| + i)
    && (forall i, j :: 0 <= i < |ks| && ks[i] < j < |comments| ==> LineOf(source, comments, ks[i]) < LineOf(source, comments, j))
  }

  /** There is no comment on the line above them. */
  ghost predicate Complete(source: string, comments: seq<Comment>, line: nat, ks: seq<nat>, from: nat)
    requires Ordered(comments, source)
  {
    |ks| < line ==> forall j :: from <= j < |comments| ==> LineOf(source, comments, j) != line - |ks| - 1
  }

  /** The texts of the comments on the longest run of commented lines right above a line. */
  ghost predicate AreAbove(source: string, comments: seq<Comment>, line: nat, docs: seq<string>)
    requires Ordered(comments, source)
  {
    exists ks ::
      Chosen(source, comments, line, ks) && Complete(source, comments, line, ks, 0)
      && |docs| == |ks| && forall i :: 0 <= i < |ks| ==> docs[i] == Trim(comments[ks[i]].text)
  }

  lemma OnLine(source: string, comments: seq<Comment>, line: nat, ks: seq<nat>, i: nat)
    requires Ordered(comments, source) && Chosen(source, comments, line, ks) && i < |ks|
    ensures ks[i] < |comments| && LineOf(source, comments, ks[i]) == line - |ks| + i
  {
  }

  lemma NoLonger(source: string, comments: seq<Comment>, line: nat, ks: seq<nat>, more: seq<nat>)
    requires Ordered(comments, source) && Chosen(source, comments, line, ks) && Chosen(source, comments, line, more)
    requires Complete(source, comments, line, ks, 0)
    ensures |more| <= |ks|
  {
    hide LineBreaks;
    if |more| > |ks| {
      OnLine(source, comments, line, more, |more| - |ks| - 1);
      assert false;
    }
  }

  /** They are determined by this. */
  lemma OneAnswer(source: string, comments: seq<Comment>, line: nat, a: seq<string>, b: seq<string>)
    requires Ordered(comments, source) && AreAbove(source, comments, line, a) && AreAbove(source, comments, line, b)
    ensures a == b
  {
    hide LineBreaks, Trim;
    var ks :| Chosen(source, comments, line, ks) && Complete(source, comments, line, ks, 0)
      && |a| == |ks| && forall i :: 0 <= i < |ks| ==> a[i] == Trim(comments[ks[i]].text);
    var js :| Chosen(source, comments, line, js) && Complete(source, comments, line, js, 0)
      && |b| == |js| && forall i :: 0 <= i < |js| ==> b[i] == Trim(comments[js[i]].text);
    NoLonger(source, comments, line, ks, js);
    NoLonger(source, comments, line, js, ks);
    forall i | 0 <= i < |ks| ensures ks[i] == js[i] {
      assert LineOf(source, comments, ks[i]) == LineOf(source, comments, js[i]);
    }
  }

  // A comment of the line above is the last there, if no later one is.
  lemma NoneBelow(source: string, comments: seq<Comment>, line: nat, ks: seq<nat>, k: nat)
    requires Ordered(comments, source) && k < |comments| && |ks| < line
    requires LineOf(source, comments, k) == line - |ks| - 1 && Complete(source, comments, line, ks, k + 1)
    ensures forall j :: k < j < |comments| ==> LineOf(source, comments, k) < LineOf(source, comments, j)
  {
    hide LineBreaks;
    forall j | k < j < |comments| ensures LineOf(source, comments, k) < LineOf(source, comments, j) {
      LinesIncrease(source, comments[k].start, comments[j].start);
    }
  }

  lemma ChooseNext(source: string, comments: seq<Comment>, line: nat, ks: seq<nat>, k: nat)
    requires Ordered(comments, source) && k < |comments| && Chosen(source, comments, line, ks)
    requires |ks| < line && LineOf(source, comments, k) == line - |ks| - 1
    requires Complete(source, comments, line, ks, k + 1) && forall i :: 0 <= i < |ks| ==> k < ks[i]
    ensures Chosen(source, comments, line, [k] + ks) && Complete(source, comments, line, [k] + ks, k)
  {
    hide LineOf;
    NoneBelow(source, comments, line, ks, k);
    var all := [k] + ks;
    forall i | 0 <= i < |all| ensures LineOf(source, comments, all[i]) == line - |all| + i {
      assert i > 0 ==> all[i] == ks[i - 1];
    }
    forall i, j | 0 <= i < |all| && all[i] < j < |comments|
      ensures LineOf(source, comments, all[i]) < LineOf(source, comments, j)
    {
      assert i > 0 ==> all[i] == ks[i - 1];
    }
  }

  /** The comments on the longest run of lines right above the script that each have one, in
      the order of the file: of each line the last comment that starts there. */
  method ExtractScriptDocComments(scriptStart: nat, source: string, comments: seq<Comment>)
    returns (docComments: seq<string>)
    requires scriptStart <= |source| && Ordered(comments, source)
    ensures AreAbove(source, comments, LineBreaks(source, scriptStart), docComments)
  {
    hide LineBreaks, Chosen, Complete, Trim, PositionOf, LineStartBefore;
    var file := FileOf(source);
    PositionIsRight(source, scriptStart);
    var scriptStartLine := PositionOf(file, scriptStart).value.line;
    NothingChosen(source, comments, scriptStartLine);
    ghost var ks: seq<nat> := [];
    if scriptStartLine == 0 {
      return [];
    }
    var candidateLine := scriptStartLine - 1;
    var found := [];
    var k := |comments|;
    while k > 0
      invariant 0 <= k <= |comments| && |ks| < scriptStartLine && candidateLine == scriptStartLine - 1 - |ks|
      invariant Chosen(source, comments, scriptStartLine, ks) && Complete(source, comments, scriptStartLine, ks, k)
      invariant forall i :: 0 <= i < |ks| ==> k <= ks[i] < |comments|
      invariant |found| == |ks| && forall i :: 0 <= i < |ks| ==> found[i] == Trim(comments[ks[|ks| - 1 - i]].text)
    {
      k := k - 1;
      PositionIsRight(source, comments[k].start);
      var commentStartLine := PositionOf(file, comments[k].start).value.line;
      if commentStartLine == candidateLine {
        ChooseNext(source, comments, scriptStartLine, ks, k);
        found := found + [Trim(comments[k].text)];
        ks := [k] + ks;
        if candidateLine == 0 {
          AllLinesChosen(source, comments, scriptStartLine, ks);
          break;
        }
        candidateLine := candidateLine - 1;
      } else {
        SkipComment(source, comments, scriptStartLine, ks, k);
      }
    }
    docComments := seq(|found|, i requires 0 <= i < |found| => found[|found| - 1 - i]);
  }

  lemma NothingChosen(source: string, comments: seq<Comment>, line: nat)
    requires Ordered(comments, source)
    ensures Chosen(source, comments, line, []) && Complete(source, comments, line, [], |comments|)
    ensures line == 0 ==> Complete(source, comments, line, [], 0)
  {
  }

  lemma AllLinesChosen(source: string, comments: seq<Comment>, line: nat, ks: seq<nat>)
    requires Ordered(comments, source) && |ks| == line
    ensures Complete(source, comments, line, ks, 0)
  {
  }

  lemma SkipComment(source: string, comments: seq<Comment>, line: nat, ks: seq<nat>, k: nat)
    requires Ordered(comments, source) && k < |comments| && |ks| < line && LineOf(source, comments, k) != line - |ks| - 1
    requires Complete(source, comments, line, ks, k + 1)
    ensures Complete(source, comments, line, ks, k)
  {
  }
}
