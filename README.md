# rust-analyzer bridge: diagnostic scraping

A Dafny model of the decision logic of the `rust-analyzer-bridge` crate.
The crate runs rust-analyzer on a piece of code. A zero exit means that
nothing was found. On a non-zero exit it scrapes the analyzer's stderr
text line by line:

- every line containing `error:` or `warning:` becomes a diagnostic whose
  message is that line;
- the diagnostic is an error when the line contains `error:`, and a
  warning otherwise;
- each error diagnostic then yields one canned "Fix error" suggestion;
- a fixed explanation is attached.

Files:

- `wrappers.dfy` (`Wrappers`): Rust's `Option`.
- `sequences.dfy` (`Sequences`): the iterator adaptors `map` and `filter`,
  with the positions a filter keeps. There are lemmas that a filter keeps
  each satisfying element exactly once, in order, and nothing else, and
  that it keeps as many elements as there are satisfying indices.
- `text_lines.dfy` (`TextLines`): `str::contains` and `str::lines()`,
  with round-trip lemmas for `"\n"`- and `"\r\n"`-terminated text.
- `rust_analyzer_bridge.dfy` (`RustAnalyzerBridge`): the records
  (`RustAnalyzerConfig`, `DiagnosticSeverity`, `Position`, `Range`,
  `Diagnostic`, `Suggestion`, `AnalysisResult`) and the operations:
  - the default configuration;
  - `parse_diagnostics`, in two parts. `ParseDiagnostics` is the method
    with the `for line in output.lines()` loop. `Parse` is the function
    that specifies it;
  - the exit-status branch of `analyze_code` (`AnalyzeOutcome`);
  - the lemmas about all of these.

`parse_diagnostics` takes `&self` but never reads it. So it is modelled
as a module-level method, with no analyzer object around it.

`str::lines()` is modelled as the current Rust standard library defines
it. The text is split after every `'\n'`. The `'\n'` is removed, and
then one `'\r'` directly before it. A final line with no terminator is
kept as it is, so a lone `'\r'` at its end stays in the line. Older
releases of the library also removed that lone `'\r'` from the final
line. A trailing `'\n'` does not produce an empty last line.

## Model

| member | source | states |
|---|---|---|
| `RustAnalyzerBridge.DefaultConfig` | rust-bridge/rust-analyzer-bridge/src/lib.rs:22-29 | the default configuration names the executable `rust-analyzer` and has no working directory (what the test at lines 239-243 asserts) |
| `RustAnalyzerBridge.ParseDiagnostics` | rust-bridge/rust-analyzer-bridge/src/lib.rs:135-172 | the loop over the lines, pushing one diagnostic per marked line, returns exactly `Parse(output)`: the diagnostics of the marked lines, their suggestions and the fixed explanation |
| `RustAnalyzerBridge.Parse` | rust-bridge/rust-analyzer-bridge/src/lib.rs:156-171 | the explanation is always `Some("Analysis performed by rust-analyzer")`, whatever the input, and the suggestions are derived from the diagnostics just parsed |
| `RustAnalyzerBridge.AnalyzeOutcome` | rust-bridge/rust-analyzer-bridge/src/lib.rs:120-131 | a successful exit gives no diagnostics and no suggestions; the explanation is absent exactly when the exit succeeded; a failed exit gives exactly the parse of stderr |
| `RustAnalyzerBridge.DiagnosticsFollowMarkedLines` | rust-bridge/rust-analyzer-bridge/src/lib.rs:138-154 | one diagnostic per line containing `error:` or `warning:` and none for any other line; the diagnostics are in line order and each message is its line unchanged |
| `RustAnalyzerBridge.CrlfStderrMessages` | rust-bridge/rust-analyzer-bridge/src/lib.rs:138-148 | for stderr made of `"\r\n"`-terminated lines, the messages are exactly the marked lines in order, without terminators |
| `RustAnalyzerBridge.LfStderrMessages` | rust-bridge/rust-analyzer-bridge/src/lib.rs:138-148 | for stderr made of `"\n"`-terminated lines (none ending in `'\r'`), the messages are exactly the marked lines in order |
| `RustAnalyzerBridge.DiagnosticFor` | rust-bridge/rust-analyzer-bridge/src/lib.rs:140-152 | the record pushed for one marked line: its message is the line, it is `Error` exactly when the line contains `error:` and `Warning` otherwise, range and code are `None`, source is `Some("rust-analyzer")` |
| `RustAnalyzerBridge.DiagnosticCount` | rust-bridge/rust-analyzer-bridge/src/lib.rs:138-154 | the number of diagnostics equals the number of marked lines |
| `RustAnalyzerBridge.DiagnosticShape` | rust-bridge/rust-analyzer-bridge/src/lib.rs:139-152 | every diagnostic comes from a marked line; it is `Error` exactly when its line contains `error:` (so also when it contains both markers), otherwise `Warning`, never `Information` or `Hint`; range and code are `None`, source is `Some("rust-analyzer")` |
| `RustAnalyzerBridge.SuggestionsFollowErrors` | rust-bridge/rust-analyzer-bridge/src/lib.rs:157-165 | suggestions correspond one to one and in order to the error diagnostics; warnings give none; each suggestion has title `Fix error`, description `Some("Suggestion to fix: " + message)` of its error, code `// TODO: Implement fix` and no range |
| `RustAnalyzerBridge.Suggestions` | rust-bridge/rust-analyzer-bridge/src/lib.rs:157-165 | the `filter`/`map`/`collect` pipeline: never more suggestions than diagnostics; each has title `Fix error`, code `// TODO: Implement fix`, no range, and a description `Some("Suggestion to fix: " + message)` of some error diagnostic; the in-order correspondence is `SuggestionsFollowErrors` |
| `RustAnalyzerBridge.SuggestionCount` | rust-bridge/rust-analyzer-bridge/src/lib.rs:157-165 | the number of suggestions equals the number of error diagnostics |
| `RustAnalyzerBridge.WarningsGiveNoSuggestions` | rust-bridge/rust-analyzer-bridge/src/lib.rs:157-158 | a list of warnings alone yields no suggestion |
| `RustAnalyzerBridge.UnmarkedTextGivesNothing` | rust-bridge/rust-analyzer-bridge/src/lib.rs:135-171 | text with no marked line gives no diagnostics and no suggestions, but still the fixed explanation |
| `TextLines.Lines` | rust-bridge/rust-analyzer-bridge/src/lib.rs:138 | `output.lines()`: split after each `'\n'`, the `'\n'` and then one `'\r'` removed, a final unterminated piece kept as it is; no line contains `'\n'`, and only the empty text has no lines; round trips in `LinesOfLfTerminated`, `LinesOfCrlfTerminated` and `FinalNewlineOptional` |
| `TextLines.Contains` | rust-bridge/rust-analyzer-bridge/src/lib.rs:139-140 | `line.contains(marker)`: the marker occurs at some offset of the line, so it is no longer than the line |
| `TextLines.ContainsInfix` | rust-bridge/rust-analyzer-bridge/src/lib.rs:139-140 | a line with the marker anywhere inside it (and the marker itself) contains the marker |
| `Sequences.Map` | rust-bridge/rust-analyzer-bridge/src/lib.rs:157-165 | the iterator `map(f).collect()`: the result has the input's length and its k-th element is `f` of the k-th input |
| `Sequences.Filter` | rust-bridge/rust-analyzer-bridge/src/lib.rs:157-158 | the iterator `filter(p).collect()`: no longer than the input, and every kept element satisfies `p`; `FilterPositions` shows each satisfying element is kept exactly once, in order |
| `Sequences.FilterPositions` | rust-bridge/rust-analyzer-bridge/src/lib.rs:157-158 | a filter keeps the elements at exactly the satisfying indices, in strictly increasing order, and nothing else |
| `Sequences.FilterCount` | rust-bridge/rust-analyzer-bridge/src/lib.rs:157-158 | a filter keeps as many elements as there are satisfying indices |
| `TextLines.LinesOfLfTerminated` | rust-bridge/rust-analyzer-bridge/src/lib.rs:138 | splitting `"\n"`-terminated lines (none ending in `'\r'`) gives back those lines |
| `TextLines.LinesOfCrlfTerminated` | rust-bridge/rust-analyzer-bridge/src/lib.rs:138 | splitting `"\r\n"`-terminated lines gives back those lines, even lines that end in `'\r'` |
| `TextLines.FinalNewlineOptional` | rust-bridge/rust-analyzer-bridge/src/lib.rs:138 | a final `'\n'` does not change the lines of text that does not already end in `'\n'` or `'\r'`: the last unterminated line is kept and no empty line follows a trailing `'\n'` |

## Left out

- Spawning the analyzer is not modelled. This covers `initialize` with
  `--version` (lib.rs:76-90) and `analyze_code` with `--check`
  (lib.rs:111-115). `AnalyzeOutcome` takes the exit status and the stderr
  text as parameters instead.
- The errors of `initialize` ("Failed to execute rust-analyzer", "not
  found at") come from process I/O and are not modelled.
- The temporary file is not modelled: `env::temp_dir`, `fs::write` and
  `fs::remove_file` (lib.rs:101-118). The "Invalid file path" error
  depends on `PathBuf::file_name`, whose rules are the standard library's
  and are not part of this model.
- `String::from_utf8_lossy` on the stderr bytes is not modelled. Stderr
  is taken as already-decoded text.
- The global configuration is not modelled: the `OnceLock<Mutex<…>>`,
  `get_config` and `set_config` with its JSON parse (lib.rs:208-223). It
  is shared state behind a lock, filled by a serde_json parse.
- `analysis::analyze_code` (lib.rs:195-206) is not modelled. It only
  composes `initialize` (I/O) with the operations above and copies fields.
- The binaries `src/bin/analyze.rs` are not modelled. They only read
  stdin and write stdout as JSON.
- `rust-bridge/src/lib.rs`, `analysis.rs` and `analysis/mod.rs` hold type
  declarations and placeholders that return empty values. There is no
  behaviour there to model.
- `async` is dropped: every operation is sequential, and the parsing has
  no concurrency.
- `Position` and `Range` are declared with their `u32` fields, but no
  modelled operation ever builds one.
