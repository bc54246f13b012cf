/** The pure helpers behind failed-test indexing: the test name, the embedding
    text, and the normalisation of error messages and stack traces that makes a
    failure signature stable across runs. */
module TextHelpers {
  import opened Wrappers
  import opened Strings
  import opened Models

  // ---------------------------------------------------------------- test name

  const UnknownTest := "<unknown-test>"

  /** `PickTestName`: the automated test name, else the test case title, else a
      placeholder; blank names are skipped. */
  function PickTestName(r: TestCaseResult): (name: string)
    ensures !IsBlank(name)
    ensures !IsNullOrWhiteSpace(r.automatedTestName) ==> name == r.automatedTestName.value
    ensures IsNullOrWhiteSpace(r.automatedTestName) && !IsNullOrWhiteSpace(r.testCaseTitle) ==> name == r.testCaseTitle.value
    ensures IsNullOrWhiteSpace(r.automatedTestName) && IsNullOrWhiteSpace(r.testCaseTitle) ==> name == UnknownTest
  {
    if !IsNullOrWhiteSpace(r.automatedTestName) then r.automatedTestName.value
    else if !IsNullOrWhiteSpace(r.testCaseTitle) then r.testCaseTitle.value
    else assert !IsWhiteSpace(UnknownTest[0]); UnknownTest
  }

  // ---------------------------------------------------------------- embedding text

  /** `StringBuilder.AppendLine` over a list of lines: every line is terminated. */
  function AppendLines(lines: seq<string>): string
    decreases |lines|
  {
    if |lines| == 0 then "" else lines[0] + "\n" + AppendLines(lines[1..])
  }

  /** The five header lines of the embedding text. */
  function HeaderLines(env: FailedTestEnvelope, testName: string): seq<string> {
    [ "Project: " + env.projectName,
      "Definition: " + env.definitionName,
      "Build: " + env.buildName + " (" + IntToString(env.buildId) + ")",
      "Test: " + testName,
      "Outcome: " + env.result.outcome.GetOr("") ]
  }

  /** `BuildEmbeddingText`: the header, a blank line, the error message, a blank
      line and the stack trace, each line terminated; a null message or trace
      contributes an empty line. */
  function BuildEmbeddingText(env: FailedTestEnvelope, testName: string): string {
    AppendLines(HeaderLines(env, testName) + ["", env.result.errorMessage.GetOr(""), "", env.result.stackTrace.GetOr("")])
  }

  /** Read line by line, the text of terminated lines is each line's own lines
      followed by one final empty segment. */
  lemma {:induction false} SplitAppendLines(lines: seq<string>)
    ensures Split(AppendLines(lines), '\n') == SplitEach(lines) + [""]
    decreases |lines|
  {
    if |lines| > 0 {
      SplitAppendLines(lines[1..]);
      SplitConcat(lines[0], AppendLines(lines[1..]), '\n');
      assert AppendLines(lines) == lines[0] + ['\n'] + AppendLines(lines[1..]);
    }
  }

  /** The segments of each line in turn. */
  function SplitEach(lines: seq<string>): seq<string>
    decreases |lines|
  {
    if |lines| == 0 then [] else Split(lines[0], '\n') + SplitEach(lines[1..])
  }

  /** No line contains a line break. */
  predicate SingleLines(lines: seq<string>) {
    forall i :: 0 <= i < |lines| ==> '\n' !in lines[i]
  }

  lemma {:induction false} SplitEachPlain(lines: seq<string>)
    requires SingleLines(lines)
    ensures SplitEach(lines) == lines
    decreases |lines|
  {
    if |lines| > 0 {
      SplitNoSeparator(lines[0], '\n');
      SplitEachPlain(lines[1..]);
    }
  }

  lemma {:induction false} SplitEachAppend(a: seq<string>, b: seq<string>)
    ensures SplitEach(a + b) == SplitEach(a) + SplitEach(b)
    decreases |a|
  {
    if |a| > 0 {
      assert (a + b)[0] == a[0] && (a + b)[1..] == a[1..] + b;
      SplitEachAppend(a[1..], b);
    } else {
      assert a + b == b;
    }
  }

  /** The layout of the embedding text: when the header values are single-line,
      its lines are the five header lines, an empty line, the lines of the error
      message, an empty line, the lines of the stack trace, and the empty segment
      after the final terminator. */
  lemma EmbeddingTextLayout(env: FailedTestEnvelope, testName: string)
    requires '\n' !in env.projectName && '\n' !in env.definitionName && '\n' !in env.buildName
    requires '\n' !in testName && '\n' !in env.result.outcome.GetOr("")
    ensures Split(BuildEmbeddingText(env, testName), '\n') ==
      HeaderLines(env, testName) + [""] + Split(env.result.errorMessage.GetOr(""), '\n')
      + [""] + Split(env.result.stackTrace.GetOr(""), '\n') + [""]
  {
    HeaderSingleLine(env, testName);
    TextLayout(HeaderLines(env, testName), env.result.errorMessage.GetOr(""), env.result.stackTrace.GetOr(""));
  }

  /** The layout for any single-line header. */
  lemma TextLayout(header: seq<string>, err: string, stack: string)
    requires SingleLines(header)
    ensures Split(AppendLines(header + ["", err, "", stack]), '\n') ==
      header + [""] + Split(err, '\n') + [""] + Split(stack, '\n') + [""]
  {
    var body := ["", err, "", stack];
    var bodyLines := [""] + Split(err, '\n') + [""] + Split(stack, '\n');
    SplitAppendLines(header + body);
    SplitEachAppend(header, body);
    SplitEachPlain(header);
    SplitEachBody(err, stack);
    Regroup(header, [""], Split(err, '\n'), [""], Split(stack, '\n'), [""]);
  }

  lemma Regroup(a: seq<string>, b: seq<string>, c: seq<string>, d: seq<string>, e: seq<string>, f: seq<string>)
    ensures a + (b + c + d + e) + f == a + b + c + d + e + f
  {
  }

  lemma HeaderSingleLine(env: FailedTestEnvelope, testName: string)
    requires '\n' !in env.projectName && '\n' !in env.definitionName && '\n' !in env.buildName
    requires '\n' !in testName && '\n' !in env.result.outcome.GetOr("")
    ensures SingleLines(HeaderLines(env, testName))
  {
    var n := IntToString(env.buildId);
    assert '\n' !in n by {
      forall k | 0 <= k < |n| ensures n[k] != '\n' {
        assert IsDigit(n[k]) || n[k] == '-';
      }
    }
    var build := "Build: " + env.buildName + " (" + n + ")";
    assert '\n' !in build;
  }

  lemma SplitEachBody(err: string, stack: string)
    ensures SplitEach(["", err, "", stack]) == [""] + Split(err, '\n') + [""] + Split(stack, '\n')
  {
    SplitNoSeparator("", '\n');
    var s1 := [stack];
    assert s1[1..] == [];
    assert SplitEach(s1) == Split(stack, '\n');
    var s2 := ["", stack];
    assert s2[1..] == s1;
    assert SplitEach(s2) == [""] + Split(stack, '\n');
    var s3 := [err, "", stack];
    assert s3[1..] == s2;
    assert SplitEach(s3) == Split(err, '\n') + [""] + Split(stack, '\n');
    var s4 := ["", err, "", stack];
    assert s4[1..] == s3;
  }

  // ---------------------------------------------------------------- whitespace

  /** `Regex.Replace(text, @"\s+", " ")`: every maximal whitespace run becomes one
      space. The regex class `\s` is the same set as `char.IsWhiteSpace`. */
  function CollapseWhiteSpace(s: string): string
    decreases |s|
  {
    if |s| == 0 then ""
    else if IsWhiteSpace(s[0]) then " " + CollapseWhiteSpace(TrimStart(s[1..]))
    else [s[0]] + CollapseWhiteSpace(s[1..])
  }

  /** Whitespace occurs only as single plain spaces. */
  predicate SingleSpaced(s: string) {
    forall i :: 0 <= i < |s| && IsWhiteSpace(s[i]) ==> s[i] == ' ' && (i + 1 < |s| ==> !IsWhiteSpace(s[i + 1]))
  }

  /** No whitespace at either end. */
  predicate NoEdgeWhiteSpace(s: string) {
    |s| > 0 ==> !IsWhiteSpace(s[0]) && !IsWhiteSpace(s[|s| - 1])
  }

  /** The characters of `s` that are not whitespace, in order. */
  function Visible(s: string): string
    decreases |s|
  {
    if |s| == 0 then "" else (if IsWhiteSpace(s[0]) then "" else [s[0]]) + Visible(s[1..])
  }

  /** The first character survives, with whitespace turned into a space. */
  lemma CollapseHead(s: string)
    ensures |CollapseWhiteSpace(s)| > 0 <==> |s| > 0
    ensures |s| > 0 ==> CollapseWhiteSpace(s)[0] == if IsWhiteSpace(s[0]) then ' ' else s[0]
  {
  }

  lemma {:induction false} CollapseSingleSpaced(s: string)
    ensures SingleSpaced(CollapseWhiteSpace(s))
    decreases |s|
  {
    if |s| > 0 {
      var r := CollapseWhiteSpace(s);
      if IsWhiteSpace(s[0]) {
        var t := TrimStart(s[1..]);
        TrimStartSpec(s[1..]);
        CollapseSingleSpaced(t);
        CollapseHead(t);
        assert r == " " + CollapseWhiteSpace(t);
        forall i | 0 <= i < |r| && IsWhiteSpace(r[i]) ensures r[i] == ' ' && (i + 1 < |r| ==> !IsWhiteSpace(r[i + 1])) {
          if i > 0 {
            assert r[i] == CollapseWhiteSpace(t)[i - 1];
          }
        }
      } else {
        CollapseSingleSpaced(s[1..]);
        assert r == [s[0]] + CollapseWhiteSpace(s[1..]);
        forall i | 0 <= i < |r| && IsWhiteSpace(r[i]) ensures r[i] == ' ' && (i + 1 < |r| ==> !IsWhiteSpace(r[i + 1])) {
          assert r[i] == CollapseWhiteSpace(s[1..])[i - 1];
        }
      }
    }
  }

  lemma {:induction false} VisibleTrimStart(s: string)
    ensures Visible(TrimStart(s)) == Visible(s)
    decreases |s|
  {
    if |s| > 0 && IsWhiteSpace(s[0]) {
      VisibleTrimStart(s[1..]);
    }
  }

  /** Collapsing keeps every visible character, in order, and adds none. */
  lemma {:induction false} CollapseKeepsVisible(s: string)
    ensures Visible(CollapseWhiteSpace(s)) == Visible(s)
    decreases |s|
  {
    if |s| > 0 {
      var r := CollapseWhiteSpace(s);
      if IsWhiteSpace(s[0]) {
        var t := TrimStart(s[1..]);
        CollapseKeepsVisible(t);
        VisibleTrimStart(s[1..]);
        assert r[0] == ' ' && r[1..] == CollapseWhiteSpace(t);
      } else {
        CollapseKeepsVisible(s[1..]);
        assert r[0] == s[0] && r[1..] == CollapseWhiteSpace(s[1..]);
      }
    }
  }

  /** Text that is already single-spaced is left alone. */
  lemma {:induction false} CollapseSingleSpacedFixed(s: string)
    requires SingleSpaced(s)
    ensures CollapseWhiteSpace(s) == s
    decreases |s|
  {
    if |s| > 0 {
      assert SingleSpaced(s[1..]) by {
        forall i | 0 <= i < |s[1..]| && IsWhiteSpace(s[1..][i])
          ensures s[1..][i] == ' ' && (i + 1 < |s[1..]| ==> !IsWhiteSpace(s[1..][i + 1]))
        {
          assert s[1..][i] == s[i + 1];
        }
      }
      CollapseSingleSpacedFixed(s[1..]);
      if IsWhiteSpace(s[0]) {
        assert TrimStart(s[1..]) == s[1..];
        assert s == " " + s[1..];
      } else {
        assert s == [s[0]] + s[1..];
      }
    }
  }

  /** Collapsing is idempotent. */
  lemma CollapseIdempotent(s: string)
    ensures CollapseWhiteSpace(CollapseWhiteSpace(s)) == CollapseWhiteSpace(s)
  {
    CollapseSingleSpaced(s);
    CollapseSingleSpacedFixed(CollapseWhiteSpace(s));
  }

  /** A last character that is not whitespace stays last. */
  lemma {:induction false} CollapseLast(s: string)
    requires |s| > 0 && !IsWhiteSpace(s[|s| - 1])
    ensures |CollapseWhiteSpace(s)| > 0 && CollapseWhiteSpace(s)[|CollapseWhiteSpace(s)| - 1] == s[|s| - 1]
    decreases |s|
  {
    var r := CollapseWhiteSpace(s);
    if IsWhiteSpace(s[0]) {
      var t := TrimStart(s[1..]);
      TrimStartSpec(s[1..]);
      assert |s| > 1;
      assert !IsWhiteSpace(s[1..][|s| - 2]);
      assert |t| > 0;
      assert t[|t| - 1] == s[|s| - 1];
      CollapseLast(t);
      assert r == " " + CollapseWhiteSpace(t);
    } else if |s| > 1 {
      assert s[1..][|s| - 2] == s[|s| - 1];
      CollapseLast(s[1..]);
      assert r == [s[0]] + CollapseWhiteSpace(s[1..]);
    }
  }

  lemma CollapseEdges(s: string)
    requires NoEdgeWhiteSpace(s)
    ensures NoEdgeWhiteSpace(CollapseWhiteSpace(s))
  {
    CollapseHead(s);
    if |s| > 0 {
      CollapseLast(s);
    }
  }

  // ---------------------------------------------------------------- message normalisation

  /** `Normalize`: a blank or null message becomes empty; otherwise the message is
      trimmed, `scrub` replaces the GUID and number tokens with `<guid>` and
      `<n>`, and whitespace runs become single spaces. */
  function Normalize(s: Option<string>, scrub: string -> string): string {
    if IsNullOrWhiteSpace(s) then "" else CollapseWhiteSpace(scrub(Trim(s.value)))
  }

  /** The normal form keeps every visible character of the scrubbed, trimmed text
      and has single plain spaces in between; a blank message normalises to the
      empty string. */
  lemma NormalizeShape(s: Option<string>, scrub: string -> string)
    ensures IsNullOrWhiteSpace(s) ==> Normalize(s, scrub) == ""
    ensures !IsNullOrWhiteSpace(s) ==> Visible(Normalize(s, scrub)) == Visible(scrub(Trim(s.value)))
    ensures SingleSpaced(Normalize(s, scrub))
  {
    if !IsNullOrWhiteSpace(s) {
      CollapseKeepsVisible(scrub(Trim(s.value)));
      CollapseSingleSpaced(scrub(Trim(s.value)));
    }
  }

  /** With token replacements that keep the ends of a trimmed text visible (the
      placeholders contain no whitespace), the normal form has no whitespace at
      either end. */
  lemma NormalizeTrimmed(s: Option<string>, scrub: string -> string)
    requires forall t :: NoEdgeWhiteSpace(t) ==> NoEdgeWhiteSpace(scrub(t))
    ensures NoEdgeWhiteSpace(Normalize(s, scrub))
  {
    if !IsNullOrWhiteSpace(s) {
      var t := Trim(s.value);
      TrimSpec(s.value);
      assert NoEdgeWhiteSpace(t);
      CollapseEdges(scrub(t));
    }
  }

  /** Normalising a normal form again, with replacements that leave it alone,
      changes nothing. */
  lemma NormalizeIdempotent(s: Option<string>, scrub: string -> string)
    requires forall t :: NoEdgeWhiteSpace(t) ==> NoEdgeWhiteSpace(scrub(t))
    requires scrub(Trim(Normalize(s, scrub))) == Trim(Normalize(s, scrub))
    ensures Normalize(Some(Normalize(s, scrub)), scrub) == Normalize(s, scrub)
  {
    var n := Normalize(s, scrub);
    NormalizeShape(s, scrub);
    NormalizeTrimmed(s, scrub);
    if !IsBlank(n) {
      TrimEdges(n);
      CollapseSingleSpacedFixed(n);
    }
  }

  /** Trimming text with no whitespace at its ends changes nothing. */
  lemma TrimEdges(s: string)
    requires NoEdgeWhiteSpace(s)
    ensures Trim(s) == s
  {
    TrimSpec(s);
    if |s| > 0 {
      assert !IsBlank(s);
      assert !IsWhiteSpace(s[0]) && !IsWhiteSpace(s[|s| - 1]);
      assert TrimOffset(s) == 0;
      assert |Trim(s)| == |s|;
    }
  }

  // ---------------------------------------------------------------- stack normalisation

  /** The segments that are not empty; whitespace-only segments are kept. */
  function NonEmpty(parts: seq<string>): seq<string>
    decreases |parts|
  {
    if |parts| == 0 then [] else (if parts[0] == "" then [] else [parts[0]]) + NonEmpty(parts[1..])
  }

  /** Every non-empty line of the trace, trimmed and with its line number scrubbed. */
  function Frames(s: string, lineScrub: string -> string): seq<string> {
    var lines := NonEmpty(Split(s, '\n'));
    seq(|lines|, i requires 0 <= i < |lines| => lineScrub(Trim(lines[i])))
  }

  const MaxFrames := 12

  /** `NormalizeStack`: a blank or null trace becomes empty; otherwise the trace is
      split at `'\n'` dropping empty entries, each line is trimmed and `lineScrub`
      replaces `:line <digits>` with `:line <n>`, and the first twelve lines are
      joined with `'\n'`. */
  function NormalizeStack(s: Option<string>, lineScrub: string -> string): string {
    if IsNullOrWhiteSpace(s) then ""
    else
      var frames := Frames(s.value, lineScrub);
      Join(frames[..if |frames| < MaxFrames then |frames| else MaxFrames], "\n")
  }

  /** A joined text with a character other than the separator has a non-empty part. */
  lemma {:induction false} JoinNonSeparator(parts: seq<string>, c: char, k: int)
    requires 0 <= k < |Join(parts, [c])| && Join(parts, [c])[k] != c
    ensures exists i :: 0 <= i < |parts| && parts[i] != ""
    decreases |parts|
  {
    if |parts| == 1 {
      assert parts[0] != "";
    } else if k < |parts[0]| {
      assert parts[0] != "";
    } else {
      var tail := Join(parts[1..], [c]);
      assert Join(parts, [c]) == parts[0] + [c] + tail;
      assert Join(parts, [c])[|parts[0]|] == c;
      JoinNonSeparator(parts[1..], c, k - |parts[0]| - 1);
      var i :| 0 <= i < |parts[1..]| && parts[1..][i] != "";
      assert parts[i + 1] != "";
    }
  }

  lemma {:induction false} NonEmptyKeeps(parts: seq<string>, i: int)
    requires 0 <= i < |parts| && parts[i] != ""
    ensures |NonEmpty(parts)| > 0
    decreases |parts|
  {
    if i > 0 && parts[0] == "" {
      NonEmptyKeeps(parts[1..], i - 1);
    }
  }

  /** A trace that is not blank has at least one frame. */
  lemma FramesOfNonBlank(s: string, lineScrub: string -> string)
    requires !IsBlank(s)
    ensures |Frames(s, lineScrub)| >= 1
  {
    var parts := Split(s, '\n');
    var k :| 0 <= k < |s| && !IsWhiteSpace(s[k]);
    JoinSplit(s, '\n');
    JoinNonSeparator(parts, '\n', k);
    var i :| 0 <= i < |parts| && parts[i] != "";
    NonEmptyKeeps(parts, i);
  }

  /** With line replacements that add no line breaks, the normalised trace reads
      back as exactly the first twelve frames of the trace (all of them when there
      are fewer), in order. */
  lemma NormalizeStackLines(s: Option<string>, lineScrub: string -> string)
    requires !IsNullOrWhiteSpace(s)
    requires forall l :: '\n' !in l ==> '\n' !in lineScrub(l)
    ensures |Split(NormalizeStack(s, lineScrub), '\n')| ==
      (if |Frames(s.value, lineScrub)| < MaxFrames then |Frames(s.value, lineScrub)| else MaxFrames)
    ensures forall k :: 0 <= k < |Split(NormalizeStack(s, lineScrub), '\n')| ==>
      k < |Frames(s.value, lineScrub)| && Split(NormalizeStack(s, lineScrub), '\n')[k] == Frames(s.value, lineScrub)[k]
  {
    var frames := Frames(s.value, lineScrub);
    FramesOfNonBlank(s.value, lineScrub);
    var kept := frames[..if |frames| < MaxFrames then |frames| else MaxFrames];
    var lines := NonEmpty(Split(s.value, '\n'));
    forall i | 0 <= i < |kept| ensures '\n' !in kept[i] {
      NonEmptySegments(Split(s.value, '\n'), '\n');
      TrimKeepsOut(lines[i], '\n');
    }
    SplitJoin(kept, '\n');
  }

  lemma {:induction false} NonEmptySegments(parts: seq<string>, c: char)
    requires forall i :: 0 <= i < |parts| ==> c !in parts[i]
    ensures forall i :: 0 <= i < |NonEmpty(parts)| ==> c !in NonEmpty(parts)[i]
    decreases |parts|
  {
    if |parts| > 0 {
      NonEmptySegments(parts[1..], c);
    }
  }

  /** Trimming keeps a character out that was out. */
  lemma TrimKeepsOut(s: string, c: char)
    requires c !in s
    ensures c !in Trim(s)
  {
    TrimSpec(s);
  }

  /** Frames after the twelfth never matter: appending more lines to a trace that
      already has twelve frames leaves its normal form unchanged. */
  lemma NormalizeStackIgnoresLaterFrames(a: string, b: string, lineScrub: string -> string)
    requires !IsBlank(a) && |Frames(a, lineScrub)| >= MaxFrames
    ensures NormalizeStack(Some(a + "\n" + b), lineScrub) == NormalizeStack(Some(a), lineScrub)
  {
    var fa := Frames(a, lineScrub);
    var fab := Frames(a + "\n" + b, lineScrub);
    SplitConcat(a, b, '\n');
    NonEmptyAppend(Split(a, '\n'), Split(b, '\n'));
    assert |fab| >= MaxFrames;
    assert fab[..MaxFrames] == fa[..MaxFrames];
    assert !IsBlank(a + "\n" + b) by {
      var k :| 0 <= k < |a| && !IsWhiteSpace(a[k]);
      assert (a + "\n" + b)[k] == a[k];
    }
  }

  lemma {:induction false} NonEmptyAppend(p: seq<string>, q: seq<string>)
    ensures NonEmpty(p + q) == NonEmpty(p) + NonEmpty(q)
    decreases |p|
  {
    if |p| > 0 {
      assert (p + q)[0] == p[0] && (p + q)[1..] == p[1..] + q;
      NonEmptyAppend(p[1..], q);
    } else {
      assert p + q == q;
    }
  }
}
