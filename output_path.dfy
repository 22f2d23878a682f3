// Where a recorded point cloud is written (_resolve_output_path in
// src/utility/point_data_record.py): a given name gets the .npz suffix and,
// when it has no directory, is placed under data/; without a name the file is
// data/point_cloud_<UTC time>.npz.  Paths are POSIX pure paths; the clock is a
// parameter, and creating the data directory is left out.

module OutputPath {
  import opened Wrappers
  import opened Text
  import opened ParamText

  // ---------------------------------------------------------------------------
  // Splitting at '/'

  /** The length of the part of s before its first '/'. */
  function UpToSlash(s: string): (k: nat)
    ensures k <= |s|
    ensures forall i :: 0 <= i < k ==> s[i] != '/'
    ensures k < |s| ==> s[k] == '/'
  {
    if s == [] || s[0] == '/' then 0 else 1 + UpToSlash(s[1..])
  }

  /** str.split("/"). */
  function Split(s: string): (r: seq<string>)
    ensures |r| >= 1
    ensures forall i :: 0 <= i < |r| ==> '/' !in r[i]
    decreases |s|
  {
    var k := UpToSlash(s);
    if k == |s| then [s] else [s[..k]] + Split(s[k + 1..])
  }

  /** "/".join(pieces). */
  function JoinSlash(pieces: seq<string>): string
    requires |pieces| >= 1
  {
    if |pieces| == 1 then pieces[0] else pieces[0] + "/" + JoinSlash(pieces[1..])
  }

  /** Splitting at '/' loses nothing: the pieces join back into the string. */
  lemma {:induction false} SplitJoin(s: string)
    ensures JoinSlash(Split(s)) == s
    decreases |s|
  {
    var k := UpToSlash(s);
    if k < |s| {
      var rest := s[k + 1..];
      assert Split(s) == [s[..k]] + Split(rest);
      JoinCons(s[..k], Split(rest));
      SplitJoin(rest);
      assert s == s[..k] + "/" + rest;
    }
  }

  lemma JoinCons(piece: string, pieces: seq<string>)
    requires |pieces| >= 1
    ensures JoinSlash([piece] + pieces) == piece + "/" + JoinSlash(pieces)
  {
    assert ([piece] + pieces)[1..] == pieces;
  }

  // ---------------------------------------------------------------------------
  // Pure paths

  /** A component of a parsed path: not empty, not ".", no '/'. */
  predicate ValidPart(p: string) {
    p != "" && p != "." && '/' !in p
  }

  /** A POSIX pure path: rooted or relative, and its components. */
  datatype PurePath = PurePath(absolute: bool, parts: seq<string>)

  predicate WellFormedPath(p: PurePath) {
    forall i :: 0 <= i < |p.parts| ==> ValidPart(p.parts[i])
  }

  /** The pieces that are path components, in order: empty pieces and "." are dropped. */
  function Components(pieces: seq<string>): (r: seq<string>)
    requires forall i :: 0 <= i < |pieces| ==> '/' !in pieces[i]
    ensures forall i :: 0 <= i < |r| ==> ValidPart(r[i])
    ensures forall p :: p in r <==> p in pieces && ValidPart(p)
  {
    if pieces == [] then []
    else if ValidPart(pieces[0]) then [pieces[0]] + Components(pieces[1..])
    else Components(pieces[1..])
  }

  /** Path(s): a leading '/' makes it absolute; the components are the non-empty, non-"." pieces. */
  function ParsePath(s: string): (p: PurePath)
    ensures WellFormedPath(p)
    ensures p.absolute <==> StartsWith(s, "/")
  {
    PurePath(|s| > 0 && s[0] == '/', Components(Split(s)))
  }

  /** The path "." (and ""). */
  const Here := PurePath(false, [])

  /** The directory records go to. */
  const DataDir := PurePath(false, ["data"])

  /** path.name: the last component, or "" for "." and "/". */
  function Name(p: PurePath): string {
    if p.parts == [] then "" else p.parts[|p.parts| - 1]
  }

  /** path.parent: drops the last component; "." and "/" are their own parents. */
  function Parent(p: PurePath): (r: PurePath)
    ensures r.absolute == p.absolute
    ensures p.parts != [] ==> r.parts + [Name(p)] == p.parts
    ensures p.parts == [] ==> r == p
  {
    if p.parts == [] then p else PurePath(p.absolute, p.parts[..|p.parts| - 1])
  }

  /** a / b: an absolute b replaces a. */
  function Join(a: PurePath, b: PurePath): (r: PurePath)
    ensures b.absolute ==> r == b
    ensures !b.absolute ==> r.absolute == a.absolute && r.parts == a.parts + b.parts
  {
    if b.absolute then b else PurePath(a.absolute, a.parts + b.parts)
  }

  // ---------------------------------------------------------------------------
  // Suffixes

  /** str.rfind("."): the index of the last '.', if any. */
  function LastDot(s: string): (r: Option<nat>)
    ensures r.Some? ==> r.value < |s| && s[r.value] == '.' && forall i :: r.value < i < |s| ==> s[i] != '.'
    ensures r.None? ==> forall i :: 0 <= i < |s| ==> s[i] != '.'
  {
    if s == [] then None
    else if s[|s| - 1] == '.' then Some(|s| - 1)
    else LastDot(s[..|s| - 1])
  }

  /** path.suffix: from the last '.', unless it starts the name or ends it. */
  function Suffix(name: string): (r: string)
    ensures r == [] || (r[0] == '.' && |r| >= 2 && |r| < |name| && r == name[|name| - |r|..])
  {
    match LastDot(name)
    case Some(i) => if 0 < i < |name| - 1 then name[i..] else ""
    case None => ""
  }

  datatype PathError = EmptyName(path: PurePath)   // ValueError of with_suffix

  /** path.with_suffix(suffix): replaces the name's suffix, or appends one; a path without a name is an error. */
  function WithSuffix(p: PurePath, suffix: string): (r: Result<PurePath, PathError>)
    ensures r.Failure? <==> p.parts == []
    ensures r.Success? ==> Parent(r.value) == Parent(p)
    ensures r.Success? ==> Name(r.value) == Stem(Name(p)) + suffix
  {
    if p.parts == [] then Failure(EmptyName(p))
    else Success(PurePath(p.absolute, Parent(p).parts + [Stem(Name(p)) + suffix]))
  }

  /** The name without its suffix; never empty when the name is not. */
  function Stem(name: string): (r: string)
    ensures name != [] ==> r != []
    ensures r + Suffix(name) == name
  {
    name[..|name| - |Suffix(name)|]
  }

  /** A name made of a non-empty stem and ".npz" has the suffix ".npz". */
  lemma NpzSuffix(stem: string)
    requires stem != []
    ensures Suffix(stem + ".npz") == ".npz"
  {
    var s := stem + ".npz";
    var n := |stem|;
    assert s[..n + 3][..n + 2][..n + 1] == stem + ".";
    assert LastDot(s) == LastDot(s[..n + 3]) == LastDot(s[..n + 3][..n + 2]) == Some(n);
    assert s[n..] == ".npz";
  }

  lemma LowerNpz()
    ensures Lower(".npz") == ".npz"
  {
  }

  // ---------------------------------------------------------------------------
  // The timestamp

  /** A UTC wall-clock reading, as datetime.now(timezone.utc) gives it. */
  datatype UtcTime = UtcTime(year: nat, month: nat, day: nat, hour: nat, minute: nat, second: nat)

  predicate ValidTime(t: UtcTime) {
    1000 <= t.year <= 9999 && 1 <= t.month <= 12 && 1 <= t.day <= 31
    && t.hour < 24 && t.minute < 60 && t.second < 60
  }

  /** A strftime field: the number, zero-padded to width. */
  function Field(n: nat, width: nat): string {
    ZeroPad(NatToString(n), width)
  }

  /** The "%Y%m%dT%H%M%SZ" layout of six formatted fields. */
  function Layout(year: string, month: string, day: string, hour: string, minute: string, second: string): string {
    year + month + day + "T" + hour + minute + second + "Z"
  }

  /** Fields of widths 4, 2, 2, 2, 2, 2 sit at fixed places in the layout. */
  lemma LayoutSlices(year: string, month: string, day: string, hour: string, minute: string, second: string)
    requires |year| == 4 && |month| == 2 && |day| == 2 && |hour| == 2 && |minute| == 2 && |second| == 2
    ensures var s := Layout(year, month, day, hour, minute, second);
      && |s| == 16 && s[8] == 'T' && s[15] == 'Z'
      && s[..4] == year && s[4..6] == month && s[6..8] == day
      && s[9..11] == hour && s[11..13] == minute && s[13..15] == second
  {
    var date := year + month + day + "T";
    var clock := hour + minute + second + "Z";
    assert date[..4] == year && date[4..6] == month && date[6..8] == day;
    assert clock[..2] == hour && clock[2..4] == minute && clock[4..6] == second;
    var s := Layout(year, month, day, hour, minute, second);
    assert s == date + clock;
    assert s[..9] == date && s[9..] == clock;
  }

  /** strftime("%Y%m%dT%H%M%SZ"). */
  function Stamp(t: UtcTime): string {
    Layout(Field(t.year, 4), Field(t.month, 2), Field(t.day, 2),
           Field(t.hour, 2), Field(t.minute, 2), Field(t.second, 2))
  }

  /** A padded field is exactly width digits and reads back as its number. */
  lemma FieldValue(n: nat, width: nat)
    requires width >= 1 && n < Pow10(width)
    ensures |Field(n, width)| == width && AllDigits(Field(n, width))
    ensures DigitsValue(Field(n, width)) == n
  {
    var digits := NatToString(n);
    NatToStringLength(n, width);
    assert Field(n, width) == seq(width - |digits|, _ => '0') + digits;
    LeadingZerosValue(width - |digits|, digits);
    NatToStringValue(n);
  }

  /**
   * The stamp of a valid time is 16 characters, YYYYMMDD "T" HHMMSS "Z",
   * and each field reads back as the time's component.
   */
  lemma StampLayout(t: UtcTime)
    requires ValidTime(t)
    ensures |Stamp(t)| == 16 && Stamp(t)[8] == 'T' && Stamp(t)[15] == 'Z'
    ensures AllDigits(Stamp(t)[..4]) && DigitsValue(Stamp(t)[..4]) == t.year
    ensures AllDigits(Stamp(t)[4..6]) && DigitsValue(Stamp(t)[4..6]) == t.month
    ensures AllDigits(Stamp(t)[6..8]) && DigitsValue(Stamp(t)[6..8]) == t.day
    ensures AllDigits(Stamp(t)[9..11]) && DigitsValue(Stamp(t)[9..11]) == t.hour
    ensures AllDigits(Stamp(t)[11..13]) && DigitsValue(Stamp(t)[11..13]) == t.minute
    ensures AllDigits(Stamp(t)[13..15]) && DigitsValue(Stamp(t)[13..15]) == t.second
  {
    assert Pow10(2) == 100 && Pow10(4) == 10000;
    FieldValue(t.year, 4);
    FieldValue(t.month, 2);
    FieldValue(t.day, 2);
    FieldValue(t.hour, 2);
    FieldValue(t.minute, 2);
    FieldValue(t.second, 2);
    LayoutSlices(Field(t.year, 4), Field(t.month, 2), Field(t.day, 2),
                 Field(t.hour, 2), Field(t.minute, 2), Field(t.second, 2));
  }

  // ---------------------------------------------------------------------------
  // _resolve_output_path

  /** The record's default file name at time now. */
  function DefaultName(now: UtcTime): string {
    "point_cloud_" + Stamp(now) + ".npz"
  }

  /** The file name a given name is saved under: ".npz" replaces its suffix unless it is ".npz" in some case. */
  function NpzName(name: string): string {
    if Lower(Suffix(name)) != ".npz" then Stem(name) + ".npz" else name
  }

  /** Given a file name, the file written always has a .npz suffix, in some case. */
  lemma NpzNameIsNpz(name: string)
    requires name != ""
    ensures Lower(Suffix(NpzName(name))) == ".npz"
  {
    if Lower(Suffix(name)) != ".npz" {
      NpzSuffix(Stem(name));
      LowerNpz();
    }
  }

  /** A name whose suffix already is .npz in some case is kept unchanged. */
  lemma NpzNameKept(name: string)
    requires Lower(Suffix(name)) == ".npz"
    ensures NpzName(name) == name
  {
  }

  /** Lines 23-24: the suffix is made .npz unless it already is, in some case; a path without a name is an error. */
  function WithNpz(path: PurePath): (r: Result<PurePath, PathError>)
    ensures r.Failure? <==> path.parts == []
    ensures r.Success? ==> r.value.parts != [] && r.value.absolute == path.absolute
    ensures r.Success? ==> Name(r.value) == NpzName(Name(path)) && Parent(r.value) == Parent(path)
  {
    if Lower(Suffix(Name(path))) != ".npz" then WithSuffix(path, ".npz") else Success(path)
  }

  /** Lines 25-27: a file whose parent is "." goes under data/; any other path is kept. */
  function Placed(path: PurePath): (r: PurePath)
    requires path.parts != []
    ensures Name(r) == Name(path)
    ensures Parent(path) == Here ==> Parent(r) == DataDir && !r.absolute
    ensures Parent(path) != Here ==> r == path
  {
    if Parent(path) == Here then
      assert path.parts == [Name(path)];
      assert Join(DataDir, path).parts == ["data", Name(path)];
      Join(DataDir, path)
    else path
  }

  /**
   * A parsed name: the suffix is made .npz (a path without a name is an
   * error), and a path whose parent is "." goes under data/ while any other
   * keeps its directory.
   */
  function ResolveNamed(path: PurePath): (r: Result<PurePath, PathError>)
    ensures r.Failure? <==> path.parts == []
    ensures r.Success? ==> Name(r.value) == NpzName(Name(path))
    ensures r.Success? && Parent(path) == Here ==> Parent(r.value) == DataDir && !r.value.absolute
    ensures r.Success? && Parent(path) != Here ==> Parent(r.value) == Parent(path)
  {
    var withNpz :- WithNpz(path);
    Success(Placed(withNpz))
  }

  /**
   * _resolve_output_path(name): a non-empty name is parsed as a path and
   * resolved; without a name (None or "") the default name under data/ is
   * used.
   */
  function ResolveOutputPath(name: Option<string>, now: UtcTime): (r: Result<PurePath, PathError>)
    ensures (name.None? || name.value == "") ==> r == Success(PurePath(false, ["data", DefaultName(now)]))
    ensures name.Some? && name.value != "" ==> r == ResolveNamed(ParsePath(name.value))
  {
    if name.Some? && name.value != "" then ResolveNamed(ParsePath(name.value))
    else
      assert DataDir.parts + [DefaultName(now)] == ["data", DefaultName(now)];
      Success(Join(DataDir, PurePath(false, [DefaultName(now)])))
  }

  /** "." and "/" name no file: resolving them fails. */
  lemma NamelessPathFails(now: UtcTime)
    ensures ResolveOutputPath(Some("."), now).Failure?
    ensures ResolveOutputPath(Some("/"), now).Failure?
  {
    assert UpToSlash(".") == 1;
    assert Split(".") == ["."];
    assert Components(["."]) == [];
    assert ParsePath(".").parts == [];
    assert UpToSlash("/") == 0 && UpToSlash("") == 0;
    assert Split("/") == ["", ""] by {
      assert "/"[..0] == "" && "/"[1..] == "";
    }
    assert Components(["", ""]) == [] by {
      assert ["", ""][1..] == [""];
    }
    assert ParsePath("/").parts == [];
  }
}
