// The two regular expressions that recognise a field assignment in the
// configuration class, written out as functions, and the line the program
// writes in place of a matched assignment (AppController._write_config_values).

module ConfigPatterns {
  import opened Wrappers
  import opened Text
  import opened ParamText
  import Config

  // ---------------------------------------------------------------------------
  // Lines

  /** A line as splitlines(keepends=True) yields it: a '\n' can only end it. */
  predicate IsLine(line: string) {
    forall i :: 0 <= i < |line| - 1 ==> line[i] != '\n'
  }

  predicate EndsWithNewline(line: string) {
    |line| > 0 && line[|line| - 1] == '\n'
  }

  /** The line without its terminating '\n': where the patterns' `$` matches. */
  function Body(line: string): (b: string)
    ensures IsLine(line) ==> '\n' !in b
    ensures line == b + (if EndsWithNewline(line) then "\n" else "")
  {
    if EndsWithNewline(line) then line[..|line| - 1] else line
  }

  /** The length of the first line of text, its '\n' included. */
  function FirstLineLength(text: string): (k: nat)
    requires text != []
    ensures 1 <= k <= |text|
    ensures IsLine(text[..k])
    ensures k < |text| ==> text[k - 1] == '\n'
  {
    if text[0] == '\n' || |text| == 1 then 1 else 1 + FirstLineLength(text[1..])
  }

  /** str.splitlines(keepends=True) for text whose only line break is '\n'. */
  function SplitLines(text: string): (ls: seq<string>)
    ensures forall i :: 0 <= i < |ls| ==> IsLine(ls[i]) && ls[i] != []
    ensures Concat(ls) == text
    decreases |text|
  {
    if text == [] then []
    else
      var k := FirstLineLength(text);
      assert text == text[..k] + text[k..];
      [text[..k]] + SplitLines(text[k..])
  }

  /** "".join(ls) */
  function Concat(ls: seq<string>): string {
    if ls == [] then [] else ls[0] + Concat(ls[1..])
  }

  // ---------------------------------------------------------------------------
  // The two field patterns

  /** The groups of a field line: indent, name, annotation, value and comment. */
  datatype Assignment = Assignment(
    indent: string,
    name: string,
    annotation: Option<string>,
    value: string,
    comment: string)

  /** `\s+#.*`: whitespace, a '#' and anything after it. */
  predicate IsCommentTail(t: string) {
    var k := LeadingSpace(t);
    1 <= k < |t| && t[k] == '#'
  }

  /** The length of the shortest value of at least c characters after which only a comment, or nothing, is left. */
  function ValueEnd(v: string, c: nat): (e: nat)
    requires 1 <= c <= |v|
    ensures c <= e <= |v|
    ensures e == |v| || IsCommentTail(v[e..])
    ensures forall j :: c <= j < e ==> !IsCommentTail(v[j..])
    decreases |v| - c
  {
    if c == |v| || IsCommentTail(v[c..]) then c else ValueEnd(v, c + 1)
  }

  /**
   * `\s*(.+?)(\s+#.*)?$` on the text after '=': the value is the shortest
   * non-empty text after the leading whitespace that leaves only a comment or
   * nothing; when only whitespace follows '=', the value is its last
   * character.
   */
  function ValueAndComment(r: string): (vc: Option<(string, string)>)
    ensures vc.None? <==> r == []
    ensures vc.Some? ==> |vc.value.0| >= 1
    ensures vc.Some? ==> vc.value.1 == [] || IsCommentTail(vc.value.1)
    ensures vc.Some? ==> EndsWith(r, vc.value.0 + vc.value.1)
  {
    var k := LeadingSpace(r);
    if k == |r| then
      if k == 0 then None
      else
        assert r[k - 1..] == r[k - 1..] + "";
        Some((r[k - 1..], ""))
    else
      var v := r[k..];
      var e := ValueEnd(v, 1);
      assert v == v[..e] + v[e..];
      Some((v[..e], v[e..]))
  }

  /** The position of the first c in s. */
  function FirstIndex(s: string, c: char): (r: Option<nat>)
    ensures r.None? <==> c !in s
    ensures r.Some? ==> r.value < |s| && s[r.value] == c && c !in s[..r.value]
  {
    if s == [] then None
    else if s[0] == c then Some(0)
    else match FirstIndex(s[1..], c)
      case None => None
      case Some(i) =>
        assert s[..i + 1] == [s[0]] + s[1..][..i];
        Some(i + 1)
  }

  /** The leading whitespace of a line body, then the field name (a run of \w). */
  function IndentAndName(b: string): (r: Option<(nat, nat)>)
    ensures r.Some? ==> r.value.0 < r.value.1 <= |b|
    ensures r.Some? ==> AllSpace(b[..r.value.0])
  {
    var i := LeadingSpace(b);
    var w := LeadingWord(b[i..]);
    if w == 0 then None else Some((i, i + w))
  }

  /**
   * The assignment is read off the line body: it starts with the
   * indentation (whitespace) and the non-empty name, and ends with the value
   * and the comment.
   */
  predicate ReadOff(b: string, a: Assignment) {
    && AllSpace(a.indent) && a.name != []
    && StartsWith(b, a.indent + a.name)
    && EndsWith(b, a.value + a.comment)
  }

  /** `^(\s*)(\w+)\s*:\s*([^=]+?)\s*=\s*(.+?)(\s+#.*)?$`; the annotation is returned stripped. */
  function MatchAnnotated(line: string): Option<Assignment> {
    var b := Body(line);
    match IndentAndName(b)
    case None => None
    case Some((i, n)) => AnnotatedAfterName(b, i, n)
  }

  /** The annotated pattern after the indentation b[..i] and the name b[i..n]. */
  function AnnotatedAfterName(b: string, i: nat, n: nat): (r: Option<Assignment>)
    requires i < n <= |b| && AllSpace(b[..i])
    ensures r.Some? ==> ReadOff(b, r.value)
  {
    var after := b[n..];
    var j := LeadingSpace(after);
    if j == |after| || after[j] != ':' then None
    else AnnotationAndValue(b, i, n, after[j + 1..])
  }

  /** `([^=]+?)\s*=\s*(.+?)(\s+#.*)?$` on the text rest after the colon, which ends b. */
  function AnnotationAndValue(b: string, i: nat, n: nat, rest: string): (r: Option<Assignment>)
    requires i < n <= |b| && AllSpace(b[..i]) && EndsWith(b[n..], rest)
    ensures r.Some? ==> ReadOff(b, r.value)
  {
    match FirstIndex(rest, '=')
    case None => None
    case Some(e) =>
      if e == 0 then None
      else
        match ValueAndComment(rest[e + 1..])
        case None => None
        case Some((value, comment)) =>
          var annotation := Strip(rest[..e]);
          PiecesReadOff(b, i, n, b[n..], rest, rest[e + 1..], Some(annotation), value, comment);
          Some(Assignment(b[..i], b[i..n], Some(annotation), value, comment))
  }

  /** `^(\s*)(\w+)\s*=\s*(.+?)(\s+#.*)?$` */
  function MatchSimple(line: string): Option<Assignment> {
    var b := Body(line);
    match IndentAndName(b)
    case None => None
    case Some((i, n)) => SimpleAfterName(b, i, n)
  }

  /** The plain pattern after the indentation b[..i] and the name b[i..n]. */
  function SimpleAfterName(b: string, i: nat, n: nat): (r: Option<Assignment>)
    requires i < n <= |b| && AllSpace(b[..i])
    ensures r.Some? ==> ReadOff(b, r.value)
  {
    var after := b[n..];
    var j := LeadingSpace(after);
    if j == |after| || after[j] != '=' then None
    else
      match ValueAndComment(after[j + 1..])
      case None => None
      case Some((value, comment)) =>
        PiecesReadOff(b, i, n, after, after, after[j + 1..], None, value, comment);
        Some(Assignment(b[..i], b[i..n], None, value, comment))
  }

  /** The field line the program writes for an assignment and a new literal. */
  function Rewritten(a: Assignment, literal: string, newline: bool): string {
    a.indent + a.name
    + (match a.annotation case Some(t) => ": " + t + " = " case None => " = ")
    + literal + a.comment
    + (if newline then "\n" else "")
  }

  // ---------------------------------------------------------------------------
  // Rewriting one field line

  /**
   * The assignment a line inside the class body holds: the annotated pattern
   * is tried first, and the plain one only when it does not match.
   */
  function FieldMatch(line: string): Option<Assignment> {
    match MatchAnnotated(line)
    case Some(a) => Some(a)
    case None => MatchSimple(line)
  }

  /**
   * A rewrite keeps the indentation, the field name and the trailing comment
   * of the line it replaces: whichever pattern matched, the line starts with
   * the indentation and the name and ends with the value and the comment.
   */
  lemma FieldMatchFrame(line: string)
    requires FieldMatch(line).Some?
    ensures ReadOff(Body(line), FieldMatch(line).value)
  {
    if MatchAnnotated(line).Some? {
      AnnotatedReadOff(line);
    } else {
      assert FieldMatch(line) == MatchSimple(line);
      SimpleReadOff(line);
    }
  }

  lemma AnnotatedReadOff(line: string)
    requires MatchAnnotated(line).Some?
    ensures ReadOff(Body(line), MatchAnnotated(line).value)
  {
    var b := Body(line);
    var (i, n) := IndentAndName(b).value;
    assert MatchAnnotated(line) == AnnotatedAfterName(b, i, n);
  }

  lemma SimpleReadOff(line: string)
    requires MatchSimple(line).Some?
    ensures ReadOff(Body(line), MatchSimple(line).value)
  {
    var b := Body(line);
    var (i, n) := IndentAndName(b).value;
    assert MatchSimple(line) == SimpleAfterName(b, i, n);
  }

  /**
   * The pieces the patterns cut a body into: the indentation b[..i], the name
   * b[i..n], and a tail of the text after the name that ends with the value
   * and the comment.
   */
  lemma PiecesReadOff(b: string, i: nat, n: nat, after: string, rest: string, tail: string,
                      ann: Option<string>, value: string, comment: string)
    requires i < n <= |b| && AllSpace(b[..i])
    requires after == b[n..] && EndsWith(after, rest) && EndsWith(rest, tail) && EndsWith(tail, value + comment)
    ensures ReadOff(b, Assignment(b[..i], b[i..n], ann, value, comment))
  {
    var suffix := value + comment;
    assert b[..i] + b[i..n] == b[..n];
    assert EndsWith(b, after);
    EndsWithTail(b, after, rest);
    EndsWithTail(b, rest, tail);
    EndsWithTail(b, tail, suffix);
  }

  lemma EndsWithTail(b: string, tail: string, suffix: string)
    requires EndsWith(b, tail) && EndsWith(tail, suffix)
    ensures EndsWith(b, suffix)
  {
    assert b[|b| - |suffix|..] == tail[|tail| - |suffix|..];
  }

  /** What the program writes in place of a line inside the class body. */
  function RewriteField(values: Config.Values, line: string): string {
    match FieldMatch(line)
    case Some(a) =>
      if a.name in values then Rewritten(a, ToLiteral(values[a.name]), EndsWithNewline(line)) else line
    case None => line
  }

  /** Matches one line of the class body and rewrites it when it assigns a field named in values. */
  method RewriteLine(values: Config.Values, line: string) returns (r: string)
    ensures r == RewriteField(values, line)
  {
    r := line;
    var m := MatchAnnotated(line);
    if m.Some? {
      RewriteByMatch(values, line, m);
      if m.value.name in values {
        r := Rewritten(m.value, ToLiteral(values[m.value.name]), EndsWithNewline(line));
      }
      return;
    }
    m := MatchSimple(line);
    RewriteByMatch(values, line, m);
    if m.Some? && m.value.name in values {
      r := Rewritten(m.value, ToLiteral(values[m.value.name]), EndsWithNewline(line));
    }
  }

  /** RewriteField in terms of the assignment the patterns find. */
  lemma RewriteByMatch(values: Config.Values, line: string, m: Option<Assignment>)
    requires m == FieldMatch(line)
    ensures RewriteField(values, line)
      == if m.Some? && m.value.name in values then Rewritten(m.value, ToLiteral(values[m.value.name]), EndsWithNewline(line)) else line
  {
  }

  // ---------------------------------------------------------------------------
  // One step of the scan

  const ClassHeader: string := "class DimsAlgoConfig"

  /** Whether the scan is inside the class body, and the indentation of its header. */
  datatype Scan = Scan(inClass: bool, classIndent: nat)

  function Indent(line: string): nat {
    LeadingSpace(line)
  }

  /** How one line moves the scan: a header opens the body, a non-blank line indented no deeper than the header closes it. */
  function NextScan(st: Scan, line: string): (r: Scan)
    ensures !st.inClass && r.inClass ==> StartsWith(LStrip(line), ClassHeader) && r.classIndent == Indent(line)
    ensures st.inClass && !r.inClass ==> LStrip(line) != [] && Indent(line) <= st.classIndent
  {
    var stripped := LStrip(line);
    if !st.inClass then
      if StartsWith(stripped, ClassHeader) then Scan(true, Indent(line)) else st
    else if stripped != [] && Indent(line) <= st.classIndent then
      Scan(false, st.classIndent)
    else
      st
  }

  /**
   * The line left in place of line when the scan reaches it in state st:
   * only an assignment to a known field, deeper inside the class body than
   * its header and neither blank nor a comment, is rewritten.
   */
  function OutputLine(st: Scan, values: Config.Values, line: string): string {
    var stripped := LStrip(line);
    if !st.inClass then line
    else if stripped != [] && Indent(line) <= st.classIndent then line
    else if Strip(stripped) == [] || StartsWith(LStrip(stripped), "#") then line
    else RewriteField(values, line)
  }
}
