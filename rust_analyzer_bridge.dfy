/**
 The rust-analyzer bridge crate: an analyzer run ends either in success
 (no diagnostics) or in failure, whose stderr text is scraped line by line
 into diagnostics, one canned fix suggestion per error diagnostic, and a
 fixed explanation.

 The process and the file system are not modelled: `AnalyzeOutcome` takes
 the exit status and the decoded stderr text as parameters.
 */
module RustAnalyzerBridge {

  import opened Wrappers
  import opened Sequences
  import opened TextLines

  newtype u32 = x: int | 0 <= x < 0x1_0000_0000

  /** Where to find the analyzer executable and where to run it. */
  datatype RustAnalyzerConfig = RustAnalyzerConfig(executablePath: string, workingDir: Option<string>)

  datatype DiagnosticSeverity = Error | Warning | Information | Hint

  datatype Position = Position(line: u32, character: u32)

  datatype Range = Range(start: Position, end: Position)

  datatype Diagnostic = Diagnostic(
    message: string,
    severity: DiagnosticSeverity,
    range: Option<Range>,
    code: Option<string>,
    source: Option<string>)

  datatype Suggestion = Suggestion(
    title: string,
    description: Option<string>,
    code: string,
    range: Option<Range>)

  datatype AnalysisResult = AnalysisResult(
    diagnostics: seq<Diagnostic>,
    suggestions: seq<Suggestion>,
    explanation: Option<string>)

  const DEFAULT_EXECUTABLE: string := "rust-analyzer"
  const ERROR_MARKER: string := "error:"
  const WARNING_MARKER: string := "warning:"
  const DIAGNOSTIC_SOURCE: string := "rust-analyzer"
  const FIX_TITLE: string := "Fix error"
  const FIX_DESCRIPTION_PREFIX: string := "Suggestion to fix: "
  const FIX_CODE: string := "// TODO: Implement fix"
  const EXPLANATION: string := "Analysis performed by rust-analyzer"

  /** `RustAnalyzerConfig::default()`: the executable is looked up on the path, no working directory. */
  function DefaultConfig(): (c: RustAnalyzerConfig)
    ensures c.executablePath == "rust-analyzer"
    ensures c.workingDir == None
  {
    RustAnalyzerConfig(DEFAULT_EXECUTABLE, None)
  }

  /** A stderr line that the scraper turns into a diagnostic. */
  predicate IsDiagnosticLine(line: string)
  {
    Contains(line, ERROR_MARKER) || Contains(line, WARNING_MARKER)
  }

  /** The diagnostic the scraper records for one marked line. */
  function DiagnosticFor(line: string): (d: Diagnostic)
    ensures d.message == line
    ensures d.severity == Error <==> Contains(line, "error:")
    ensures d.severity == Warning <==> !Contains(line, "error:")
    ensures d.range == None && d.code == None && d.source == Some("rust-analyzer")
  {
    var severity := if Contains(line, ERROR_MARKER) then Error else Warning;
    Diagnostic(line, severity, None, None, Some(DIAGNOSTIC_SOURCE))
  }

  /** `matches!(d.severity, DiagnosticSeverity::Error)`. */
  predicate IsError(d: Diagnostic)
  {
    d.severity == Error
  }

  /** The canned fix suggested for one error diagnostic. */
  function SuggestionFor(d: Diagnostic): Suggestion
  {
    Suggestion(FIX_TITLE, Some(FIX_DESCRIPTION_PREFIX + d.message), FIX_CODE, None)
  }

  /** The `filter`/`map`/`collect` pipeline that derives suggestions from diagnostics. */
  function Suggestions(diagnostics: seq<Diagnostic>): (r: seq<Suggestion>)
    ensures |r| <= |diagnostics|
    ensures forall s :: s in r ==>
              && s.title == "Fix error" && s.code == "// TODO: Implement fix" && s.range == None
              && exists d :: d in diagnostics && d.severity == Error
                             && s.description == Some("Suggestion to fix: " + d.message)
  {
    var errors := Filter(IsError, diagnostics);
    var r := Map(SuggestionFor, errors);
    FilterPositions(IsError, diagnostics);
    assert forall k :: 0 <= k < |r| ==> r[k] == SuggestionFor(errors[k]) && errors[k] in diagnostics;
    r
  }

  /** What `parse_diagnostics` returns for the text `output`. */
  function Parse(output: string): (r: AnalysisResult)
    ensures r.explanation == Some("Analysis performed by rust-analyzer")
    ensures r.suggestions == Suggestions(r.diagnostics)
  {
    var diagnostics := Map(DiagnosticFor, Filter(IsDiagnosticLine, Lines(output)));
    AnalysisResult(diagnostics, Suggestions(diagnostics), Some(EXPLANATION))
  }

  /** `RustAnalyzer::parse_diagnostics`: one pass over the lines, pushing a diagnostic per marked line. */
  method ParseDiagnostics(output: string) returns (result: AnalysisResult)
    ensures result == Parse(output)
  {
    var lines := Lines(output);
    var diagnostics: seq<Diagnostic> := [];
    var i := 0;
    while i < |lines|
      invariant 0 <= i <= |lines|
      invariant diagnostics == Map(DiagnosticFor, Filter(IsDiagnosticLine, lines[..i]))
    {
      var line := lines[i];
      assert lines[..i + 1][..i] == lines[..i];
      if Contains(line, ERROR_MARKER) || Contains(line, WARNING_MARKER) {
        var severity := if Contains(line, ERROR_MARKER) then Error else Warning;
        diagnostics := diagnostics + [Diagnostic(line, severity, None, None, Some(DIAGNOSTIC_SOURCE))];
      }
      i := i + 1;
    }
    assert lines[..i] == lines;
    var suggestions := Suggestions(diagnostics);
    result := AnalysisResult(diagnostics, suggestions, Some(EXPLANATION));
  }

  /**
   The result `analyze_code` returns once the analyzer has run: a zero exit
   means nothing was found; otherwise stderr is scraped.
   */
  function AnalyzeOutcome(exitSucceeded: bool, stderr: string): (r: AnalysisResult)
    ensures exitSucceeded ==> r.diagnostics == [] && r.suggestions == []
    ensures r.explanation.None? <==> exitSucceeded
    ensures !exitSucceeded ==> r == Parse(stderr)
  {
    if !exitSucceeded then Parse(stderr)
    else AnalysisResult([], [], None)
  }

  /**
   Each line of the text containing "error:" or "warning:" gives exactly one
   diagnostic, no other line gives one, the diagnostics follow the order of
   the lines, and each message is its line unchanged.
   */
  lemma DiagnosticsFollowMarkedLines(output: string)
    ensures var lines, ds := Lines(output), Parse(output).diagnostics;
            var idx := Positions(IsDiagnosticLine, lines);
            && |ds| == |idx|
            && (forall k :: 0 <= k < |ds| ==> idx[k] < |lines| && ds[k].message == lines[idx[k]])
            && (forall k, l :: 0 <= k < l < |idx| ==> idx[k] < idx[l])
            && (forall j :: 0 <= j < |lines| ==> (IsDiagnosticLine(lines[j]) <==> j in idx))
  {
    var lines := Lines(output);
    var marked := Filter(IsDiagnosticLine, lines);
    FilterPositions(IsDiagnosticLine, lines);
    assert Parse(output).diagnostics == Map(DiagnosticFor, marked);
  }

  /**
   For stderr written as "\r\n"-terminated lines, the messages are exactly
   the marked lines, in order, without their terminators.
   */
  lemma {:induction false} CrlfStderrMessages(ls: seq<string>)
    requires forall k :: 0 <= k < |ls| ==> '\n' !in ls[k]
    ensures var ds, marked := Parse(Terminated(ls, "\r\n")).diagnostics, Filter(IsDiagnosticLine, ls);
            |ds| == |marked| && forall k :: 0 <= k < |ds| ==> ds[k].message == marked[k]
  {
    LinesOfCrlfTerminated(ls);
  }

  /**
   For stderr written as "\n"-terminated lines, as rust-analyzer writes it
   on Unix, the messages are exactly the marked lines, in order.
   */
  lemma {:induction false} LfStderrMessages(ls: seq<string>)
    requires forall k :: 0 <= k < |ls| ==> '\n' !in ls[k] && !EndsWithCr(ls[k])
    ensures var ds, marked := Parse(Terminated(ls, "\n")).diagnostics, Filter(IsDiagnosticLine, ls);
            |ds| == |marked| && forall k :: 0 <= k < |ds| ==> ds[k].message == marked[k]
  {
    LinesOfLfTerminated(ls);
  }

  /** The number of diagnostics is the number of marked lines. */
  lemma DiagnosticCount(output: string)
    ensures var lines := Lines(output);
            |Parse(output).diagnostics| == |set j | 0 <= j < |lines| && IsDiagnosticLine(lines[j])|
  {
    var lines := Lines(output);
    FilterCount(IsDiagnosticLine, lines);
    assert Matching(IsDiagnosticLine, lines) == set j | 0 <= j < |lines| && IsDiagnosticLine(lines[j]);
  }

  /**
   Every diagnostic comes from a marked line; it is an error exactly when
   its line contains "error:" (so also when it contains both markers), a
   warning otherwise, never information or a hint; range and code are
   absent and the source is "rust-analyzer".
   */
  lemma DiagnosticShape(output: string)
    ensures forall d :: d in Parse(output).diagnostics ==>
              && IsDiagnosticLine(d.message)
              && (d.severity == Error <==> Contains(d.message, "error:"))
              && (d.severity == Warning <==> !Contains(d.message, "error:"))
              && !d.severity.Information? && !d.severity.Hint?
              && d.range == None && d.code == None
              && d.source == Some("rust-analyzer")
  {
    var marked := Filter(IsDiagnosticLine, Lines(output));
    assert forall d :: d in Parse(output).diagnostics ==> exists k :: 0 <= k < |marked| && d == DiagnosticFor(marked[k]);
  }

  /**
   Suggestions correspond one to one, in order, to the error diagnostics:
   warnings give none, and the k-th suggestion is the fixed "Fix error"
   entry whose description quotes the k-th error's message.
   */
  lemma {:induction false} SuggestionsFollowErrors(diagnostics: seq<Diagnostic>)
    ensures var ss, idx := Suggestions(diagnostics), Positions(IsError, diagnostics);
            && |ss| == |idx|
            && (forall k, l :: 0 <= k < l < |idx| ==> idx[k] < idx[l])
            && (forall j :: 0 <= j < |diagnostics| ==> (diagnostics[j].severity == Error <==> j in idx))
            && (forall k :: 0 <= k < |ss| ==>
                  && idx[k] < |diagnostics|
                  && ss[k].title == "Fix error"
                  && ss[k].description == Some("Suggestion to fix: " + diagnostics[idx[k]].message)
                  && ss[k].code == "// TODO: Implement fix"
                  && ss[k].range == None)
  {
    FilterPositions(IsError, diagnostics);
  }

  /** There are as many suggestions as error diagnostics. */
  lemma SuggestionCount(output: string)
    ensures var ds := Parse(output).diagnostics;
            |Parse(output).suggestions| == |set j | 0 <= j < |ds| && IsError(ds[j])|
  {
    var ds := Parse(output).diagnostics;
    FilterCount(IsError, ds);
    assert Matching(IsError, ds) == set j | 0 <= j < |ds| && IsError(ds[j]);
  }

  /** Text without a marked line gives no diagnostics and no suggestions, but still the explanation. */
  lemma UnmarkedTextGivesNothing(output: string)
    requires forall j :: 0 <= j < |Lines(output)| ==> !IsDiagnosticLine(Lines(output)[j])
    ensures Parse(output) == AnalysisResult([], [], Some("Analysis performed by rust-analyzer"))
  {
    FilterNone(IsDiagnosticLine, Lines(output));
  }

  /** Warnings alone give no suggestions. */
  lemma WarningsGiveNoSuggestions(diagnostics: seq<Diagnostic>)
    requires forall j :: 0 <= j < |diagnostics| ==> diagnostics[j].severity == Warning
    ensures Suggestions(diagnostics) == []
  {
    FilterNone(IsError, diagnostics);
  }
}
