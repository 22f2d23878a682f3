// Replaying recorded depth frames from .npz files in a directory
// (src/acquisition/replay.py): the sorted list of matching files, a cursor
// over it that either wraps round or stops, and the validation of the stored
// frame metadata and of the camera intrinsics read from the YAML configuration.
//
// The file system is an input: the file names the glob matched, the
// intrinsics section of the configuration (None when the file is missing) and
// the arrays stored in each file.

module Replay {
  import opened Wrappers
  import opened AppTypes

  /** The exceptions the replay source raises. */
  datatype ReplayError =
    | NoFiles(dataDir: string, pattern: string)          // FileNotFoundError: nothing matched
    | ConfigNotFound(configPath: string)                 // FileNotFoundError: no config.yaml
    | MissingKeys(keys: seq<string>)                     // KeyError: intrinsics keys or depth_data
    | StopIteration                                      // the end of a non-looping replay
    | NotTwoD(shape: seq<nat>)                           // ValueError
    | WidthMismatch(stored: int, actual: int)            // ValueError
    | HeightMismatch(stored: int, actual: int)           // ValueError
    | ShapeMismatch(width: int, height: int, configWidth: int, configHeight: int)  // ValueError

  // ---------------------------------------------------------------------------
  // sorted(): the order of the matched file names

  /** Python's ordering of strings: lexicographic by code point. */
  predicate LexLe(a: string, b: string)
    decreases |a|
  {
    a == [] || (b != [] && (a[0] < b[0] || (a[0] == b[0] && LexLe(a[1..], b[1..]))))
  }

  lemma {:induction false} LexTotal(a: string, b: string)
    ensures LexLe(a, b) || LexLe(b, a)
    decreases |a|
  {
    if a != [] && b != [] && a[0] == b[0] {
      LexTotal(a[1..], b[1..]);
    }
  }

  lemma {:induction false} LexTrans(a: string, b: string, c: string)
    requires LexLe(a, b) && LexLe(b, c)
    ensures LexLe(a, c)
    decreases |a|
  {
    if a != [] && a[0] == b[0] && b[0] == c[0] {
      LexTrans(a[1..], b[1..], c[1..]);
    }
  }

  lemma {:induction false} LexAntisymmetric(a: string, b: string)
    requires LexLe(a, b) && LexLe(b, a)
    ensures a == b
    decreases |a|
  {
    if a != [] {
      LexAntisymmetric(a[1..], b[1..]);
      assert a == [a[0]] + a[1..] && b == [b[0]] + b[1..];
    }
  }

  lemma {:induction false} LexReflexive(a: string)
    ensures LexLe(a, a)
    decreases |a|
  {
    if a != [] {
      LexReflexive(a[1..]);
    }
  }

  predicate Sorted(s: seq<string>) {
    forall i, j :: 0 <= i < j < |s| ==> LexLe(s[i], s[j])
  }

  /** s with x inserted before its first element that x does not follow. */
  function Insert(x: string, s: seq<string>): (r: seq<string>)
    ensures multiset(r) == multiset(s) + multiset{x}
  {
    if s == [] then [x]
    else if LexLe(x, s[0]) then [x] + s
    else
      assert s == [s[0]] + s[1..];
      [s[0]] + Insert(x, s[1..])
  }

  /** sorted() of the matched names: insertion sort. */
  function SortPaths(s: seq<string>): (r: seq<string>)
    ensures multiset(r) == multiset(s)
  {
    if s == [] then []
    else
      assert s == [s[0]] + s[1..];
      Insert(s[0], SortPaths(s[1..]))
  }

  lemma {:induction false} InsertSorted(x: string, s: seq<string>)
    requires Sorted(s)
    ensures Sorted(Insert(x, s))
  {
    if s != [] {
      if LexLe(x, s[0]) {
        forall j | 0 < j < |s|
          ensures LexLe(x, s[j])
        {
          LexTrans(x, s[0], s[j]);
        }
        ConsSorted(x, s);
      } else {
        var rest := Insert(x, s[1..]);
        InsertSorted(x, s[1..]);
        LexTotal(x, s[0]);
        BoundAfterInsert(s[0], x, s[1..]);
        ConsSorted(s[0], rest);
      }
    }
  }

  /** A lower bound of x and of every element of s bounds every element of Insert(x, s). */
  lemma BoundAfterInsert(y: string, x: string, s: seq<string>)
    requires LexLe(y, x)
    requires forall j :: 0 <= j < |s| ==> LexLe(y, s[j])
    ensures forall k :: 0 <= k < |Insert(x, s)| ==> LexLe(y, Insert(x, s)[k])
  {
    var r := Insert(x, s);
    forall k | 0 <= k < |r|
      ensures LexLe(y, r[k])
    {
      assert r[k] in multiset(r);
      if r[k] != x {
        assert r[k] in multiset(s);
        var j :| 0 <= j < |s| && s[j] == r[k];
      }
    }
  }

  /** A sorted sequence stays sorted behind a lower bound of its elements. */
  lemma ConsSorted(y: string, s: seq<string>)
    requires Sorted(s)
    requires forall j :: 0 <= j < |s| ==> LexLe(y, s[j])
    ensures Sorted([y] + s)
  {
    var r := [y] + s;
    forall i, j | 0 <= i < j < |r|
      ensures LexLe(r[i], r[j])
    {
      if i > 0 {
        assert r[i] == s[i - 1] && r[j] == s[j - 1];
      }
    }
  }

  /** The replayed files come in sorted order, and they are the matched files. */
  lemma {:induction false} SortPathsSorted(s: seq<string>)
    ensures Sorted(SortPaths(s)) && |SortPaths(s)| == |s|
  {
    assert |multiset(SortPaths(s))| == |multiset(s)|;
    if s != [] {
      SortPathsSorted(s[1..]);
      InsertSorted(s[0], SortPaths(s[1..]));
    }
  }

  /** Sorting is unique: two sorted arrangements of the same names are equal. */
  lemma {:induction false} SortedUnique(a: seq<string>, b: seq<string>)
    requires Sorted(a) && Sorted(b) && multiset(a) == multiset(b)
    ensures a == b
  {
    if a != [] {
      assert a[0] in multiset(b);
      assert b != [] && b[0] in multiset(a);
      HeadIsLeast(a, b[0]);
      HeadIsLeast(b, a[0]);
      LexAntisymmetric(a[0], b[0]);
      SameTails(a, b);
      SortedUnique(a[1..], b[1..]);
      assert a == [a[0]] + a[1..] && b == [b[0]] + b[1..];
    }
  }

  lemma HeadIsLeast(s: seq<string>, x: string)
    requires Sorted(s) && x in multiset(s)
    ensures s != [] && LexLe(s[0], x)
  {
    var i :| 0 <= i < |s| && s[i] == x;
    if i == 0 {
      LexReflexive(x);
    }
  }

  lemma SameTails(a: seq<string>, b: seq<string>)
    requires a != [] && b != [] && a[0] == b[0] && multiset(a) == multiset(b)
    ensures multiset(a[1..]) == multiset(b[1..])
  {
    assert a == [a[0]] + a[1..] && b == [b[0]] + b[1..];
    assert multiset(a) == multiset{a[0]} + multiset(a[1..]);
    assert multiset(b) == multiset{b[0]} + multiset(b[1..]);
    forall x
      ensures multiset(a[1..])[x] == multiset(b[1..])[x]
    {
      assert multiset(a)[x] == multiset(b)[x];
    }
  }

  // ---------------------------------------------------------------------------
  // _load_intrinsics

  const Required: seq<string> := ["fx", "fy", "cx", "cy"]
  const Known: set<string> := {"fx", "fy", "cx", "cy", "width", "height"}

  /** a occurs in b in the same order, possibly with gaps. */
  predicate IsSubsequence(a: seq<string>, b: seq<string>)
    decreases |b|
  {
    a == [] || (b != [] && (if a[0] == b[0] then IsSubsequence(a[1..], b[1..]) else IsSubsequence(a, b[1..])))
  }

  /** The keys that intr lacks, in the order of keys. */
  function Missing(intr: map<string, real>, keys: seq<string>): (r: seq<string>)
    ensures forall k :: k in r <==> k in keys && k !in intr
    ensures IsSubsequence(r, keys)
  {
    if keys == [] then []
    else if keys[0] in intr then Missing(intr, keys[1..])
    else [keys[0]] + Missing(intr, keys[1..])
  }

  /**
   * Reads the intrinsics section of the configuration (None when the file
   * does not exist; an absent or empty section is the empty map): fails
   * listing the missing ones of fx, fy, cx, cy, and otherwise keeps those of
   * the six known keys that are present.
   */
  function LoadIntrinsics(configPath: string, config: Option<map<string, real>>): (r: Result<map<string, real>, ReplayError>)
    ensures config.None? ==> r == Failure(ConfigNotFound(configPath))
    ensures config.Some? ==> (r.Success? <==> forall k :: k in Required ==> k in config.value)
    ensures config.Some? && r.Failure? ==> r.error == MissingKeys(Missing(config.value, Required)) && r.error.keys != []
    ensures r.Success? ==> r.value.Keys == config.value.Keys * Known
    ensures r.Success? ==> forall k :: k in r.value ==> r.value[k] == config.value[k]
  {
    if config.None? then Failure(ConfigNotFound(configPath))
    else
      var intr := config.value;
      var missing := Missing(intr, Required);
      if missing != [] then
        assert missing[0] in Required;
        Failure(MissingKeys(missing))
      else Success(map k | k in intr.Keys * Known :: intr[k])
  }

  /** From an empty section every key is missing, in order. */
  lemma {:induction false} NothingPresent(keys: seq<string>)
    ensures Missing(map[], keys) == keys
  {
    if keys != [] {
      NothingPresent(keys[1..]);
      assert keys == [keys[0]] + keys[1..];
    }
  }

  /** Without an intrinsics section every required key is reported, in order. */
  lemma AllKeysMissing(configPath: string)
    ensures LoadIntrinsics(configPath, Some(map[])) == Failure(MissingKeys(["fx", "fy", "cx", "cy"]))
  {
    NothingPresent(Required);
  }

  // ---------------------------------------------------------------------------
  // _intrinsics_from_config

  /** int() of a float: truncation toward zero. */
  function TruncReal(x: real): (r: int)
    ensures x >= 0.0 ==> r as real <= x < r as real + 1.0
    ensures x < 0.0 ==> r as real - 1.0 < x <= r as real
  {
    if x >= 0.0 then x.Floor else -((-x).Floor)
  }

  predicate HasRequired(cfg: map<string, real>) {
    forall k :: k in Required ==> k in cfg
  }

  /**
   * The camera intrinsics for a frame of the given size: the configured size
   * defaults to the frame's, and a configured size that differs is an error.
   */
  function IntrinsicsFromConfig(cfg: map<string, real>, width: int, height: int): (r: Result<Intrinsics, ReplayError>)
    requires HasRequired(cfg)
    ensures r.Success? <==>
      ("width" in cfg ==> TruncReal(cfg["width"]) == width) && ("height" in cfg ==> TruncReal(cfg["height"]) == height)
    ensures r.Success? ==> r.value == Intrinsics(cfg["fx"], cfg["fy"], cfg["cx"], cfg["cy"], width, height)
    ensures r.Failure? ==> r.error.ShapeMismatch? && r.error.width == width && r.error.height == height
  {
    var cfgW := if "width" in cfg then TruncReal(cfg["width"]) else width;
    var cfgH := if "height" in cfg then TruncReal(cfg["height"]) else height;
    if (cfgW, cfgH) != (width, height) then Failure(ShapeMismatch(width, height, cfgW, cfgH))
    else Success(Intrinsics(cfg["fx"], cfg["fy"], cfg["cx"], cfg["cy"], cfgW, cfgH))
  }

  // ---------------------------------------------------------------------------
  // _load_npz

  /**
   * The arrays stored in one .npz file, each of which may be absent; the
   * scalar ones are read through int() or float(), so they are held as reals.
   */
  datatype NpzData = NpzData(
    depth: Option<DepthImage>,
    width: Option<real>,
    height: Option<real>,
    depthScale: Option<real>,
    timestampNs: Option<real>)

  /** astype(np.uint16) of an integer sample: wrap-around modulo 2^16. */
  function ToUint16(x: int): (r: int)
    ensures 0 <= r < 0x1_0000
    ensures 0 <= x < 0x1_0000 ==> r == x
  {
    x % 0x1_0000
  }

  function CastUint16(samples: seq<int>): (r: seq<int>)
    ensures |r| == |samples|
    ensures forall i :: 0 <= i < |r| ==> r[i] == ToUint16(samples[i])
  {
    seq(|samples|, i requires 0 <= i < |samples| => ToUint16(samples[i]))
  }

  /** int() of an optional stored scalar. */
  function TruncOption(x: Option<real>): (r: Option<int>)
    ensures r.Some? <==> x.Some?
    ensures x.Some? ==> r.value == TruncReal(x.value)
  {
    match x
    case None => None
    case Some(v) => Some(TruncReal(v))
  }

  /**
   * A frame from the stored arrays: a missing depth_data is a KeyError, the
   * depth must be 2-D, stored sizes (truncated by int()) must match its shape
   * (height rows, width columns), the depth becomes uint16, the scale
   * defaults to 1.0 and the timestamp to None.
   */
  function LoadNpz(data: NpzData, cfg: map<string, real>): (r: Result<FrameDepth, ReplayError>)
    requires HasRequired(cfg)
    ensures data.depth.None? ==> r == Failure(MissingKeys(["depth_data"]))
    ensures data.depth.Some? && |data.depth.value.shape| != 2 ==> r == Failure(NotTwoD(data.depth.value.shape))
    ensures data.depth.Some? && |data.depth.value.shape| == 2 && data.width.Some?
      && TruncReal(data.width.value) != data.depth.value.shape[1]
      ==> r == Failure(WidthMismatch(TruncReal(data.width.value), data.depth.value.shape[1]))
    ensures r.Success? <==>
      && data.depth.Some?
      && |data.depth.value.shape| == 2
      && (data.width.Some? ==> TruncReal(data.width.value) == data.depth.value.shape[1])
      && (data.height.Some? ==> TruncReal(data.height.value) == data.depth.value.shape[0])
      && IntrinsicsFromConfig(cfg, data.depth.value.shape[1], data.depth.value.shape[0]).Success?
    ensures r.Success? ==>
      var stored := data.depth.value;
      && r.value.depth.shape == stored.shape
      && |r.value.depth.samples| == |stored.samples|
      && (forall i :: 0 <= i < |stored.samples| ==> 0 <= r.value.depth.samples[i] < 0x1_0000)
      && (forall i :: 0 <= i < |stored.samples| && 0 <= stored.samples[i] < 0x1_0000
            ==> r.value.depth.samples[i] == stored.samples[i])
      && r.value.intrinsics.width == stored.shape[1]
      && r.value.intrinsics.height == stored.shape[0]
      && r.value.depthScale == (if data.depthScale.Some? then data.depthScale.value else 1.0)
      && r.value.timestampNs == TruncOption(data.timestampNs)
  {
    match data.depth
    case None => Failure(MissingKeys(["depth_data"]))
    case Some(stored) =>
      var shape := stored.shape;
      if |shape| != 2 then Failure(NotTwoD(shape))
      else
        var depth := DepthImage(shape, CastUint16(stored.samples));
        var height, width := shape[0], shape[1];
        var storedWidth, storedHeight := TruncOption(data.width), TruncOption(data.height);
        if storedWidth.Some? && storedWidth.value != width then Failure(WidthMismatch(storedWidth.value, width))
        else if storedHeight.Some? && storedHeight.value != height then Failure(HeightMismatch(storedHeight.value, height))
        else
          var depthScale := if data.depthScale.Some? then data.depthScale.value else 1.0;
          var intrinsics :- IntrinsicsFromConfig(cfg, width, height);
          Success(FrameDepth(depth, intrinsics, depthScale, TruncOption(data.timestampNs)))
  }

  // ---------------------------------------------------------------------------
  // The replay source

  /** The remainder is the unique b with h == q * n + b and 0 <= b < n. */
  lemma ModUnique(h: int, n: int, q: int, b: int)
    requires n >= 1 && 0 <= b < n && h == q * n + b
    ensures h % n == b
  {
    var q', b' := h / n, h % n;
    assert (q' - q) * n == b - b' by {
      assert h == q' * n + b';
      assert (q' - q) * n == q' * n - q * n;
    }
    if q' > q {
      AtLeastOnce(q' - q, n);
    } else if q' < q {
      AtLeastOnce(q - q', n);
    }
  }

  lemma {:induction false} AtLeastOnce(d: int, n: int)
    requires d >= 1 && n >= 1
    ensures d * n >= n
    decreases d
  {
    if d > 1 {
      AtLeastOnce(d - 1, n);
      assert d * n == (d - 1) * n + n;
    }
  }

  /** Steps of the cursor: (h - 1) % n + 1 is the slot after the h-th read. */
  lemma CursorStep(h: nat, n: nat)
    requires n >= 1 && h >= 1
    ensures (h - 1) % n + 1 == n ==> h % n == 0
    ensures (h - 1) % n + 1 < n ==> h % n == (h - 1) % n + 1
  {
    var q, b := (h - 1) / n, (h - 1) % n;
    if b + 1 == n {
      ModUnique(h, n, q + 1, 0);
    } else {
      ModUnique(h, n, q, b + 1);
    }
  }

  class ReplaySource {
    const dataDir: string
    const pattern: string
    const loop: bool
    const configPath: string
    var paths: seq<string>
    var index: nat
    var intrinsicsCfg: map<string, real>
    /** The files read so far, one per successful read. */
    ghost var history: seq<string>

    /**
     * The files are non-empty and sorted, the cursor stays within them, and
     * the k-th read (from 0) was of paths[k % |paths|]; a looping source has
     * its cursor just past the last file read, a non-looping one at the
     * number of reads.
     */
    ghost predicate Valid()
      reads this
    {
      && |paths| >= 1
      && Sorted(paths)
      && index <= |paths|
      && HasRequired(intrinsicsCfg)
      && (forall k :: 0 <= k < |history| ==> history[k] == paths[k % |paths|])
      && (if loop then index == (if history == [] then 0 else (|history| - 1) % |paths| + 1)
          else index == |history|)
    }

    constructor Init(dataDir: string, pattern: string, loop: bool, configPath: string,
                     paths: seq<string>, intrinsicsCfg: map<string, real>)
      requires |paths| >= 1 && Sorted(paths) && HasRequired(intrinsicsCfg)
      ensures Valid()
      ensures this.dataDir == dataDir && this.pattern == pattern && this.loop == loop && this.configPath == configPath
      ensures this.paths == paths && index == 0 && this.intrinsicsCfg == intrinsicsCfg && history == []
    {
      this.dataDir := dataDir;
      this.pattern := pattern;
      this.loop := loop;
      this.configPath := configPath;
      this.paths := paths;
      this.index := 0;
      this.intrinsicsCfg := intrinsicsCfg;
      this.history := [];
    }

    /**
     * ReplaySource(...): sorts the matched names, fails when there are none,
     * starts the cursor at 0 and loads the intrinsics.
     */
    static method Open(dataDir: string, pattern: string, loop: bool, configPath: string,
                       matches: seq<string>, config: Option<map<string, real>>)
      returns (r: Result<ReplaySource, ReplayError>)
      ensures matches == [] ==> r == Failure(NoFiles(dataDir, pattern))
      ensures matches != [] ==> (r.Success? <==> LoadIntrinsics(configPath, config).Success?)
      ensures matches != [] && r.Failure? ==> r.error == LoadIntrinsics(configPath, config).error
      ensures r.Success? ==>
        && fresh(r.value)
        && r.value.Valid()
        && r.value.paths == SortPaths(matches)
        && r.value.index == 0
        && r.value.history == []
        && r.value.loop == loop
        && r.value.intrinsicsCfg == LoadIntrinsics(configPath, config).value
    {
      var paths := SortPaths(matches);
      SortPathsSorted(matches);
      if paths == [] {
        return Failure(NoFiles(dataDir, pattern));
      }
      var intrinsics := LoadIntrinsics(configPath, config);
      if intrinsics.Failure? {
        return Failure(intrinsics.error);
      }
      var source := new ReplaySource.Init(dataDir, pattern, loop, configPath, paths, intrinsics.value);
      return Success(source);
    }

    /**
     * read(): past the last file a looping source starts over and a
     * non-looping one raises StopIteration without moving; otherwise the
     * file under the cursor is loaded and the cursor advances.
     */
    method Read(contents: string -> NpzData) returns (r: Result<FrameDepth, ReplayError>)
      requires Valid()
      modifies this`index, this`history
      ensures Valid()
      ensures !loop && old(index) >= |paths| ==>
        r == Failure(StopIteration) && index == old(index) && history == old(history)
      ensures loop || old(index) < |paths| ==>
        && history == old(history) + [paths[|old(history)| % |paths|]]
        && r == LoadNpz(contents(paths[|old(history)| % |paths|]), intrinsicsCfg)
    {
      if index >= |paths| {
        if loop {
          index := 0;
        } else {
          return Failure(StopIteration);
        }
      }
      ghost var h := |history|;
      if !loop || h == 0 {
        ModUnique(h, |paths|, 0, h);
      } else {
        CursorStep(h, |paths|);
      }
      assert index == h % |paths|;
      var path := paths[index];
      index := index + 1;
      ghost var played := history;
      history := history + [path];
      forall k | 0 <= k < |history|
        ensures history[k] == paths[k % |paths|]
      {
        if k < h {
          assert history[k] == played[k];
        }
      }
      r := LoadNpz(contents(path), intrinsicsCfg);
    }

    /** A non-looping source has replayed a prefix of the sorted files. */
    lemma PlayedPrefix()
      requires Valid() && !loop
      ensures history == paths[..|history|]
    {
      forall k | 0 <= k < |history|
        ensures history[k] == paths[k]
      {
        ModUnique(k, |paths|, 0, k);
      }
    }
  }
}
