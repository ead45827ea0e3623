/**
 The two string operations the diagnostic scraper relies on: Rust's
 `str::contains` with a string pattern, and `str::lines()`.

 `lines()` is modelled as the current Rust standard library defines it:
 it splits after every line feed (like `split_inclusive('\n')`), then
 removes the line feed and, only when a line feed was removed, one
 carriage return before it. So "\r\n" and "\n" both end a line, a final
 line without a terminator is kept as it is (a lone trailing '\r'
 included), and a trailing line feed does not produce an empty last line.
 Older releases of the library also removed a lone '\r' at the end of the
 final unterminated line.
 */
module TextLines {

  /** `haystack.contains(needle)`: `needle` occurs at some offset of `haystack`. */
  predicate Contains(haystack: string, needle: string)
    ensures Contains(haystack, needle) ==> |needle| <= |haystack|
  {
    exists i :: 0 <= i <= |haystack| && needle <= haystack[i..]
  }

  /** Any text with `needle` somewhere inside it contains `needle`, and so does `needle` itself. */
  lemma ContainsInfix(before: string, needle: string, after: string)
    ensures Contains(before + needle + after, needle)
    ensures Contains(needle, needle)
  {
    var h := before + needle + after;
    assert h[|before|..][..|needle|] == needle;
    assert needle[0..][..|needle|] == needle;
  }

  predicate EndsWithCr(s: string)
  {
    |s| > 0 && s[|s| - 1] == '\r'
  }

  /** The index of the first line feed of `s`, or `|s|` when there is none. */
  function NewlineIndex(s: string): (i: nat)
    ensures i <= |s|
    ensures forall j :: 0 <= j < i ==> s[j] != '\n'
    ensures i < |s| ==> s[i] == '\n'
  {
    if s == [] || s[0] == '\n' then 0 else 1 + NewlineIndex(s[1..])
  }

  /** The carriage-return removal `lines()` applies to a line that ended in a line feed. */
  function StripCr(piece: string): string
  {
    if EndsWithCr(piece) then piece[..|piece| - 1] else piece
  }

  /**
   `s.lines()`, collected. No line contains a line feed, and the empty text
   is the only one without lines.
   */
  function Lines(s: string): (ls: seq<string>)
    ensures ls == [] <==> s == []
    ensures forall k :: 0 <= k < |ls| ==> '\n' !in ls[k]
    decreases |s|
  {
    if s == [] then []
    else
      var i := NewlineIndex(s);
      if i == |s| then [s]
      else [StripCr(s[..i])] + Lines(s[i + 1..])
  }

  /** Every line followed by `terminator`, concatenated. */
  function Terminated(ls: seq<string>, terminator: string): string
  {
    if ls == [] then [] else ls[0] + terminator + Terminated(ls[1..], terminator)
  }

  lemma {:induction false} NewlineIndexAfter(line: string, rest: string)
    requires '\n' !in line
    ensures NewlineIndex(line + "\n" + rest) == |line|
  {
    if line != [] {
      assert (line + "\n" + rest)[1..] == line[1..] + "\n" + rest;
      NewlineIndexAfter(line[1..], rest);
    }
  }

  /** Splitting text whose every line ends in "\n" gives the lines back. */
  lemma {:induction false} LinesOfLfTerminated(ls: seq<string>)
    requires forall k :: 0 <= k < |ls| ==> '\n' !in ls[k] && !EndsWithCr(ls[k])
    ensures Lines(Terminated(ls, "\n")) == ls
  {
    if ls != [] {
      var line, rest := ls[0], Terminated(ls[1..], "\n");
      var s := Terminated(ls, "\n");
      assert s == line + "\n" + rest;
      NewlineIndexAfter(line, rest);
      assert s[..|line|] == line;
      assert s[|line| + 1..] == rest;
      LinesOfLfTerminated(ls[1..]);
    }
  }

  /** Splitting text whose every line ends in "\r\n" gives the lines back, even lines ending in '\r'. */
  lemma {:induction false} LinesOfCrlfTerminated(ls: seq<string>)
    requires forall k :: 0 <= k < |ls| ==> '\n' !in ls[k]
    ensures Lines(Terminated(ls, "\r\n")) == ls
  {
    if ls != [] {
      var line, rest := ls[0], Terminated(ls[1..], "\r\n");
      var s := Terminated(ls, "\r\n");
      assert s == (line + "\r") + "\n" + rest;
      NewlineIndexAfter(line + "\r", rest);
      assert s[..|line| + 1] == line + "\r";
      assert s[|line| + 2..] == rest;
      LinesOfCrlfTerminated(ls[1..]);
    }
  }

  /**
   The final line feed is optional: adding one to text that does not end
   in a line terminator (or a lone '\r') leaves its lines unchanged.
   */
  lemma {:induction false} FinalNewlineOptional(s: string)
    requires s != [] && s[|s| - 1] != '\n' && s[|s| - 1] != '\r'
    ensures Lines(s + "\n") == Lines(s)
    decreases |s|
  {
    var t := s + "\n";
    var i := NewlineIndex(s);
    if i < |s| {
      assert t[i] == '\n';
      assert NewlineIndex(t) == i by {
        NewlineIndexPrefix(s, "\n", i);
      }
      assert t[..i] == s[..i];
      assert t[i + 1..] == s[i + 1..] + "\n";
      FinalNewlineOptional(s[i + 1..]);
    } else {
      NewlineIndexAfter(s, []);
      assert t[..|s|] == s;
      assert t[|s| + 1..] == [];
    }
  }

  /** The first line feed of `s` is still the first one after a suffix is appended. */
  lemma {:induction false} NewlineIndexPrefix(s: string, suffix: string, i: nat)
    requires i == NewlineIndex(s) && i < |s|
    ensures NewlineIndex(s + suffix) == i
  {
    if s[0] != '\n' {
      assert (s + suffix)[1..] == s[1..] + suffix;
      NewlineIndexPrefix(s[1..], suffix, i - 1);
    }
  }
}
