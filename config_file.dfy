// Saving parameters: the field defaults in the body of the configuration
// class are rewritten in the source text of the configuration module, line by
// line (AppController._write_config_values).

module ConfigFile {
  import opened Wrappers
  import opened Text
  import opened ParamText
  import opened ConfigPatterns
  import Config

  // ---------------------------------------------------------------------------
  // The scan over the lines

  /** The scan state when line k is reached. */
  function ScanBefore(lines: seq<string>, k: nat): Scan
    requires k <= |lines|
  {
    if k == 0 then Scan(false, 0) else NextScan(ScanBefore(lines, k - 1), lines[k - 1])
  }

  /** The lines the scan has left when it reaches line k. */
  function Outputs(values: Config.Values, lines: seq<string>, k: nat): (r: seq<string>)
    requires k <= |lines|
    ensures |r| == k
  {
    if k == 0 then []
    else Outputs(values, lines, k - 1) + [OutputLine(ScanBefore(lines, k - 1), values, lines[k - 1])]
  }

  /** Line i of the output is line i of the input as the scan leaves it. */
  lemma {:induction false} OutputsAt(values: Config.Values, lines: seq<string>, k: nat, i: nat)
    requires i < k <= |lines|
    ensures Outputs(values, lines, k)[i] == OutputLine(ScanBefore(lines, i), values, lines[i])
  {
    var prev := Outputs(values, lines, k - 1);
    assert Outputs(values, lines, k) == prev + [OutputLine(ScanBefore(lines, k - 1), values, lines[k - 1])];
    if i < k - 1 {
      OutputsAt(values, lines, k - 1, i);
      assert Outputs(values, lines, k)[i] == prev[i];
    }
  }

  lemma OutputLineKeeps(st: Scan, values: Config.Values, line: string)
    requires !st.inClass || (LStrip(line) != [] && Indent(line) <= st.classIndent)
      || Strip(LStrip(line)) == [] || StartsWith(LStrip(LStrip(line)), "#")
    ensures OutputLine(st, values, line) == line
  {
  }

  lemma OutputLineRewrites(st: Scan, values: Config.Values, line: string)
    requires st.inClass && !(LStrip(line) != [] && Indent(line) <= st.classIndent)
    requires !(Strip(LStrip(line)) == [] || StartsWith(LStrip(LStrip(line)), "#"))
    ensures OutputLine(st, values, line) == RewriteField(values, line)
  {
  }

  /**
   * Only an assignment to a field named in values, inside the class body and
   * indented deeper than its header, is ever changed, and it is changed into
   * the same assignment with the value's literal.
   */
  lemma OutputLineChanges(st: Scan, values: Config.Values, line: string)
    requires OutputLine(st, values, line) != line
    ensures st.inClass && Indent(line) > st.classIndent
    ensures Strip(line) != [] && !StartsWith(LStrip(line), "#")
    ensures FieldMatch(line).Some? && FieldMatch(line).value.name in values
    ensures OutputLine(st, values, line)
      == Rewritten(FieldMatch(line).value, ToLiteral(values[FieldMatch(line).value.name]), EndsWithNewline(line))
  {
    assert LStrip(LStrip(line)) == LStrip(line);
    assert Strip(LStrip(line)) == Strip(line);
  }

  /** Rewrites the defaults of the fields named in values, in place, line by line. */
  method WriteConfigValues(values: Config.Values, lines: seq<string>) returns (out: seq<string>)
    ensures out == Outputs(values, lines, |lines|)
  {
    out := lines;
    var inClass := false;
    var classIndent: nat := 0;
    for idx := 0 to |lines|
      invariant |out| == |lines|
      invariant out[..idx] == Outputs(values, lines, idx)
      invariant out[idx..] == lines[idx..]
      invariant Scan(inClass, classIndent) == ScanBefore(lines, idx)
    {
      var newLine;
      inClass, classIndent, newLine := ScanLine(values, inClass, classIndent, lines[idx]);
      out := out[idx := newLine];
      assert out[..idx + 1] == out[..idx] + [newLine];
    }
    assert out == out[..|lines|];
  }

  /** One pass of the loop over the lines: the scan state after line, and the line left in its place. */
  method ScanLine(values: Config.Values, inClass: bool, classIndent: nat, line: string)
    returns (inClass': bool, classIndent': nat, newLine: string)
    ensures Scan(inClass', classIndent') == NextScan(Scan(inClass, classIndent), line)
    ensures newLine == OutputLine(Scan(inClass, classIndent), values, line)
  {
    ghost var st := Scan(inClass, classIndent);
    inClass', classIndent', newLine := inClass, classIndent, line;
    var stripped := LStrip(line);
    var indent := |line| - |stripped|;
    assert indent == Indent(line);
    if !inClass {
      if StartsWith(stripped, ClassHeader) {
        inClass' := true;
        classIndent' := indent;
      }
      OutputLineKeeps(st, values, line);
      return;
    }
    if stripped != [] && indent <= classIndent {
      inClass' := false;
      OutputLineKeeps(st, values, line);
      return;
    }
    if Strip(stripped) == [] || StartsWith(LStrip(stripped), "#") {
      OutputLineKeeps(st, values, line);
      return;
    }
    OutputLineRewrites(st, values, line);
    newLine := RewriteLine(values, line);
  }

  /** The module text after the class body has been rewritten. */
  function WriteOutput(values: Config.Values, source: string): string {
    Concat(Outputs(values, SplitLines(source), |SplitLines(source)|))
  }

  /** Reads the module text, rewrites the class body and returns the text to write back; a missing file is an error. */
  method WriteConfigText(values: Config.Values, source: Option<string>) returns (r: Result<string, string>)
    ensures source.None? <==> r.Failure?
    ensures source.Some? ==> r.value == WriteOutput(values, source.value)
  {
    if source.None? {
      return Failure("config.py not found");
    }
    var lines := SplitLines(source.value);
    var out := WriteConfigValues(values, lines);
    return Success(Concat(out));
  }

  /** Without the class header the scan never enters a class body. */
  lemma {:induction false} NoHeaderScan(lines: seq<string>, k: nat)
    requires k <= |lines|
    requires forall i :: 0 <= i < |lines| ==> !StartsWith(LStrip(lines[i]), ClassHeader)
    ensures ScanBefore(lines, k) == Scan(false, 0)
  {
    if k > 0 {
      NoHeaderScan(lines, k - 1);
    }
  }

  /** A module without the configuration class is written back unchanged. */
  lemma NoClassNoChange(values: Config.Values, source: string)
    requires forall i :: 0 <= i < |SplitLines(source)| ==> !StartsWith(LStrip(SplitLines(source)[i]), ClassHeader)
    ensures WriteOutput(values, source) == source
  {
    var lines := SplitLines(source);
    var out := Outputs(values, lines, |lines|);
    forall i | 0 <= i < |lines|
      ensures out[i] == lines[i]
    {
      OutputsAt(values, lines, |lines|, i);
      NoHeaderScan(lines, i);
    }
    assert out == lines;
  }

  /** Saving no values writes the module back unchanged. */
  lemma SavingNothingKeepsText(source: string)
    ensures WriteOutput(map[], source) == source
  {
    var lines := SplitLines(source);
    var out := Outputs(map[], lines, |lines|);
    forall i | 0 <= i < |lines|
      ensures out[i] == lines[i]
    {
      OutputsAt(map[], lines, |lines|, i);
      if out[i] != lines[i] {
        OutputLineChanges(ScanBefore(lines, i), map[], lines[i]);
      }
    }
    assert out == lines;
  }
}
