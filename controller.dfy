// The application controller behind the user interface
// (src/ui/viewmodels/app_controller.py): mode, source and layer selection,
// frame averaging for a measurement, and editing, resetting and saving the
// algorithm parameters.  Qt signals are an event log the methods append to.

module Controller {
  import opened Wrappers
  import opened Text
  import opened ParamText
  import opened UiState
  import opened AppTypes
  import Geometry
  import Config
  import ConfigPatterns
  import ConfigFile

  // ---------------------------------------------------------------------------
  // _coerce_enum

  /** What a caller hands to a setter: a member of the enumeration, a string, or anything else. */
  datatype EnumInput<E> = Member(member: E) | Text(text: string) | Other

  /** The first member satisfying p, in declaration order. */
  function FirstMember<E>(members: seq<E>, p: E -> bool): (r: Option<E>)
    ensures r.Some? ==> r.value in members && p(r.value)
    ensures r.None? ==> forall i :: 0 <= i < |members| ==> !p(members[i])
  {
    if members == [] then None
    else if p(members[0]) then Some(members[0])
    else FirstMember(members[1..], p)
  }

  /** The member found is the first one satisfying p: every member before it fails p. */
  lemma {:induction false} FirstMemberIsFirst<E>(members: seq<E>, p: E -> bool)
    requires FirstMember(members, p).Some?
    ensures exists i ::
      0 <= i < |members| && members[i] == FirstMember(members, p).value && (forall j :: 0 <= j < i ==> !p(members[j]))
  {
    if !p(members[0]) {
      FirstMemberIsFirst(members[1..], p);
      var i :| 0 <= i < |members[1..]| && members[1..][i] == FirstMember(members[1..], p).value
        && (forall j :: 0 <= j < i ==> !p(members[1..][j]));
      assert members[i + 1] == FirstMember(members, p).value;
      forall j | 0 <= j < i + 1 ensures !p(members[j]) {
        if j > 0 { assert members[j] == members[1..][j - 1]; }
      }
    } else {
      assert members[0] == FirstMember(members, p).value;
    }
  }

  /**
   * A member is kept; a string is stripped and looked up by value, then
   * compared case-insensitively with every value and member name; anything
   * else is rejected.
   */
  function CoerceEnum<E(==)>(cls: EnumClass<E>, input: EnumInput<E>): (r: Option<E>)
    ensures input.Member? ==> r == Some(input.member)
    ensures input.Other? ==> r == None
    ensures input.Text? && r.Some? ==> r.value in cls.members
  {
    match input
    case Member(e) => Some(e)
    case Other => None
    case Text(s) =>
      var raw := Strip(s);
      match FirstMember(cls.members, e => cls.value(e) == raw)
      case Some(e) => Some(e)
      case None =>
        var lowered := Lower(raw);
        FirstMember(cls.members, e => cls.value(e) == lowered || Lower(cls.name(e)) == lowered)
  }

  /** In a well-formed enumeration a value names one member. */
  lemma ValueNamesOneMember<E(!new)>(cls: EnumClass<E>, a: E, b: E)
    requires WellFormed(cls)
    requires cls.value(a) == cls.value(b)
    ensures a == b
  {
    assert a in cls.members && b in cls.members;
    var i :| 0 <= i < |cls.members| && cls.members[i] == a;
    var j :| 0 <= j < |cls.members| && cls.members[j] == b;
    if i < j {
      assert false;
    } else if j < i {
      assert false;
    }
  }

  /** Lower-casing a value changes nothing in a well-formed enumeration. */
  lemma LoweredValueIsValue<E(!new)>(cls: EnumClass<E>, e: E)
    requires WellFormed(cls)
    ensures Lower(cls.value(e)) == cls.value(e) && Lower(cls.name(e)) == cls.value(e)
  {
  }

  /**
   * A string names exactly the member whose value is the stripped,
   * lower-cased string: both lookups agree with that rule for the
   * enumerations of the user interface.
   */
  lemma {:induction false} CoerceTextExactly<E(!new)>(cls: EnumClass<E>, s: string, e: E)
    requires WellFormed(cls)
    ensures CoerceEnum(cls, Text(s)) == Some(e) <==> Lower(Strip(s)) == cls.value(e)
  {
    var raw := Strip(s);
    var lowered := Lower(raw);
    LoweredValueIsValue(cls, e);
    match FirstMember(cls.members, x => cls.value(x) == raw)
    case Some(x) =>
      LoweredValueIsValue(cls, x);
      assert lowered == cls.value(x);
      if lowered == cls.value(e) {
        ValueNamesOneMember(cls, x, e);
      }
    case None =>
      var found := FirstMember(cls.members, x => cls.value(x) == lowered || Lower(cls.name(x)) == lowered);
      if found.Some? {
        LoweredValueIsValue(cls, found.value);
        assert cls.value(found.value) == lowered;
        if lowered == cls.value(e) {
          ValueNamesOneMember(cls, found.value, e);
        }
      } else {
        assert e in cls.members;
        var i :| 0 <= i < |cls.members| && cls.members[i] == e;
        assert !(cls.value(e) == lowered || Lower(cls.name(e)) == lowered);
      }
  }

  // ---------------------------------------------------------------------------
  // Events

  /** The status line texts, by the situation that produces them. */
  datatype Status =
    | Ready
    | InvalidMode
    | InvalidSource
    | InvalidLayer
    | ModeSet(mode: AppMode)
    | SourceSet(source: SourceMode)
    | LayerSet(layer: ViewLayer)
    | MeasurementNeedsUseMode
    | MeasurementStarted(frames: int)
    | InvalidMeasurementCount
    | MeasurementRestarted(frames: int)
    | MeasurementCountSet(frames: int)
    | UnknownParameter(name: string)
    | InvalidValue(name: string, error: ParseError)
    | ParamUpdated(name: string, value: ParamValue)
    | ParamsReset
    | SaveFailed(reason: string)
    | ParamsSaved
    | MeasurementCaptured(frames: int)
    | Measuring(count: int, target: int)

  /** The signals the controller emits. */
  datatype Event =
    | StatusChanged(status: Status)
    | ModeChanged(mode: AppMode)
    | SourceChanged(source: SourceMode)
    | LayerChanged(layer: ViewLayer)
    | ResultChanged(length: real, width: real, height: real)
    | PointsChanged(points: Geometry.Cloud)

  // ---------------------------------------------------------------------------
  // Measurement sums

  /** The running sums of length, width and height over some frames. */
  function Sums(frames: seq<DimsResult>): (s: seq<real>)
    ensures |s| == 3
  {
    if frames == [] then [0.0, 0.0, 0.0]
    else
      var p := Sums(frames[..|frames| - 1]);
      var d := frames[|frames| - 1];
      [p[0] + d.length, p[1] + d.width, p[2] + d.height]
  }

  /** k frames that all measure d. */
  function Repeat(d: DimsResult, k: nat): (frames: seq<DimsResult>)
    ensures |frames| == k && forall i :: 0 <= i < k ==> frames[i] == d
  {
    if k == 0 then [] else Repeat(d, k - 1) + [d]
  }

  /** x added to itself k times. */
  function Scale(k: nat, x: real): real {
    if k == 0 then 0.0 else Scale(k - 1, x) + x
  }

  /** k frames that all measure d sum to k times d. */
  lemma {:induction false} SumsOfRepeatedFrame(d: DimsResult, k: nat)
    ensures Sums(Repeat(d, k))[0] == Scale(k, d.length)
    ensures Sums(Repeat(d, k))[1] == Scale(k, d.width)
    ensures Sums(Repeat(d, k))[2] == Scale(k, d.height)
  {
    if k > 0 {
      SumsOfRepeatedFrame(d, k - 1);
      SumsAppend(Repeat(d, k - 1), d);
    }
  }

  lemma SumsAppend(frames: seq<DimsResult>, d: DimsResult)
    ensures Sums(frames + [d])[0] == Sums(frames)[0] + d.length
    ensures Sums(frames + [d])[1] == Sums(frames)[1] + d.width
    ensures Sums(frames + [d])[2] == Sums(frames)[2] + d.height
  {
    assert (frames + [d])[..|frames|] == frames;
  }

  /** The average of k >= 1 identical frames is the frame itself. */
  lemma AverageOfRepeatedFrame(d: DimsResult, k: nat)
    requires k >= 1
    ensures Sums(Repeat(d, k))[0] / k as real == d.length
    ensures Sums(Repeat(d, k))[1] / k as real == d.width
    ensures Sums(Repeat(d, k))[2] / k as real == d.height
  {
    SumsOfRepeatedFrame(d, k);
    ScaleAverage(k, d.length);
    ScaleAverage(k, d.width);
    ScaleAverage(k, d.height);
  }

  lemma ScaleAverage(k: nat, x: real)
    requires k >= 1
    ensures Scale(k, x) / k as real == x
  {
    ScaleIsProduct(k, x);
  }

  lemma {:induction false} ScaleIsProduct(k: nat, x: real)
    ensures Scale(k, x) == k as real * x
  {
    if k > 0 {
      ScaleIsProduct(k - 1, x);
    }
  }

  // ---------------------------------------------------------------------------
  // The controller

  class AppController {
    var state: AppState
    var config: Config.Values
    var defaults: Config.Values
    var latestClouds: Option<map<ViewLayer, Geometry.Cloud>>
    var latestDims: Option<DimsResult>
    var measureActive: bool
    var measureTarget: int
    var measureCount: int
    var measureSum: seq<real>
    var events: seq<Event>
    /** The fields the configuration declares, with their default values. */
    ghost const fields: Config.Values
    /** The frames received since the current measurement started. */
    ghost var window: seq<DimsResult>

    ghost predicate Valid()
      reads this`measureTarget, this`measureActive, this`state, this`measureCount, this`window, this`measureSum
      reads this`config, this`defaults
    {
      MeasurementValid() && ParamsValid()
    }

    /** A measurement runs only in use mode, below its target, and the sums are the window's. */
    ghost predicate MeasurementValid()
      reads this`measureTarget, this`measureActive, this`state, this`measureCount, this`window, this`measureSum
    {
      && measureTarget >= 1
      && (measureActive ==> state.mode == Use && 0 <= measureCount < measureTarget)
      && measureCount == |window|
      && measureSum == Sums(window)
    }

    /** The parameters and their defaults have the configuration's fields, each of its kind. */
    ghost predicate ParamsValid()
      reads this`config, this`defaults
    {
      && Config.SameShape(fields, config) && Config.AllWellFormed(config)
      && Config.SameShape(fields, defaults) && Config.AllWellFormed(defaults)
    }

    constructor ()
      ensures Valid()
      ensures state == InitialAppState
      ensures fields == Config.Defaults && config == Config.Defaults && defaults == Config.Defaults
      ensures latestClouds == None && latestDims == None
      ensures !measureActive && measureTarget == 5 && measureCount == 0
      ensures events == []
    {
      state := InitialAppState;
      fields := Config.Defaults;
      config := Config.Defaults;
      defaults := Config.Defaults;
      latestClouds := None;
      latestDims := None;
      measureActive := false;
      measureTarget := 5;
      measureCount := 0;
      measureSum := [0.0, 0.0, 0.0];
      events := [];
      window := [];
      new;
      Config.DefaultsShape();
    }

    method Bootstrap()
      modifies this`events
      ensures events == old(events) + [StatusChanged(Ready)]
    {
      events := events + [StatusChanged(Ready)];
    }

    /** Switches between debug and use mode; a change of mode stops a measurement. */
    method SetMode(input: EnumInput<AppMode>)
      requires Valid()
      modifies this`state, this`measureActive, this`events
      ensures Valid()
      ensures var m := CoerceEnum(AppModes, input);
        && (m.None? ==>
              state == old(state) && measureActive == old(measureActive)
              && events == old(events) + [StatusChanged(InvalidMode)])
        && (m.Some? && m.value == old(state.mode) ==>
              state == old(state) && events == old(events) && measureActive == old(measureActive))
        && (m.Some? && m.value != old(state.mode) ==>
              state == old(state).(mode := m.value) && !measureActive
              && events == old(events) + [ModeChanged(m.value), StatusChanged(ModeSet(m.value))])
    {
      var mode := CoerceEnum(AppModes, input);
      if mode.None? {
        events := events + [StatusChanged(InvalidMode)];
        assert Valid();
        return;
      }
      if state.mode == mode.value {
        return;
      }
      state := state.(mode := mode.value);
      measureActive := false;
      events := events + [ModeChanged(mode.value), StatusChanged(ModeSet(mode.value))];
    }

    /** Switches between the camera and a recording. */
    method SetSource(input: EnumInput<SourceMode>)
      requires Valid()
      modifies this`state, this`events
      ensures Valid()
      ensures var s := CoerceEnum(SourceModes, input);
        && (s.None? ==> state == old(state) && events == old(events) + [StatusChanged(InvalidSource)])
        && (s.Some? && s.value == old(state.source) ==> state == old(state) && events == old(events))
        && (s.Some? && s.value != old(state.source) ==>
              state == old(state).(source := s.value)
              && events == old(events) + [SourceChanged(s.value), StatusChanged(SourceSet(s.value))])
    {
      var source := CoerceEnum(SourceModes, input);
      if source.None? {
        events := events + [StatusChanged(InvalidSource)];
        assert Valid();
        return;
      }
      if state.source == source.value {
        return;
      }
      state := state.(source := source.value);
      events := events + [SourceChanged(source.value), StatusChanged(SourceSet(source.value))];
    }

    /** Shows the selected layer of the last processed frame. */
    method EmitCurrentLayer()
      modifies this`events
      ensures events == old(events) + ShownEvents(latestClouds, state.layer)
    {
      if latestClouds.None? || latestClouds.value == map[] {
        return;
      }
      var layer := state.layer;
      if layer in latestClouds.value {
        events := events + [PointsChanged(latestClouds.value[layer])];
      }
    }

    /** Selects the layer to show, and shows it. */
    method SetLayer(input: EnumInput<ViewLayer>)
      requires Valid()
      modifies this`state, this`events
      ensures Valid()
      ensures var l := CoerceEnum(ViewLayers, input);
        && (l.None? ==> state == old(state) && events == old(events) + [StatusChanged(InvalidLayer)])
        && (l.Some? && l.value == old(state.layer) ==> state == old(state) && events == old(events))
        && (l.Some? && l.value != old(state.layer) ==>
              state == old(state).(layer := l.value)
              && events == old(events) + [LayerChanged(l.value), StatusChanged(LayerSet(l.value))]
                 + ShownEvents(latestClouds, l.value))
    {
      var layer := CoerceEnum(ViewLayers, input);
      if layer.None? {
        events := events + [StatusChanged(InvalidLayer)];
        assert Valid();
        return;
      }
      if state.layer == layer.value {
        return;
      }
      ShowLayer(layer.value);
    }

    /** Makes layer the selected one, announces it and shows it. */
    method ShowLayer(layer: ViewLayer)
      requires Valid()
      modifies this`state, this`events
      ensures Valid()
      ensures state == old(state).(layer := layer)
      ensures events == old(events) + [LayerChanged(layer), StatusChanged(LayerSet(layer))]
        + ShownEvents(latestClouds, layer)
    {
      state := state.(layer := layer);
      events := events + [LayerChanged(layer), StatusChanged(LayerSet(layer))];
      EmitCurrentLayer();
    }

    /** Starts averaging the next measureTarget frames; only in use mode. */
    method Measure()
      requires Valid()
      modifies this`measureActive, this`measureCount, this`measureSum, this`window, this`events
      ensures Valid()
      ensures old(state.mode) != Use ==>
        measureActive == old(measureActive) && measureCount == old(measureCount) && window == old(window)
        && events == old(events) + [StatusChanged(MeasurementNeedsUseMode)]
      ensures old(state.mode) == Use ==>
        measureActive && measureCount == 0 && window == []
        && events == old(events) + [StatusChanged(MeasurementStarted(measureTarget))]
    {
      if state.mode != Use {
        events := events + [StatusChanged(MeasurementNeedsUseMode)];
        return;
      }
      measureActive := true;
      measureCount := 0;
      measureSum := [0.0, 0.0, 0.0];
      window := [];
      events := events + [StatusChanged(MeasurementStarted(measureTarget))];
    }

    /**
     * Sets how many frames a measurement averages: at least one; None is a
     * count that int() rejects.  A change restarts a running measurement.
     */
    method SetMeasureTarget(count: Option<int>)
      requires Valid()
      modifies this`measureTarget, this`measureCount, this`measureSum, this`window, this`events
      ensures Valid()
      ensures count.None? ==>
        measureTarget == old(measureTarget) && measureCount == old(measureCount) && window == old(window)
        && events == old(events) + [StatusChanged(InvalidMeasurementCount)]
      ensures count.Some? ==> measureTarget == (if count.value < 1 then 1 else count.value)
      ensures count.Some? && measureTarget == old(measureTarget) ==>
        events == old(events) && measureCount == old(measureCount) && window == old(window)
      ensures count.Some? && measureTarget != old(measureTarget) && old(measureActive) ==>
        measureCount == 0 && window == []
        && events == old(events) + [StatusChanged(MeasurementRestarted(measureTarget))]
      ensures count.Some? && measureTarget != old(measureTarget) && !old(measureActive) ==>
        measureCount == old(measureCount) && window == old(window)
        && events == old(events) + [StatusChanged(MeasurementCountSet(measureTarget))]
    {
      if count.None? {
        events := events + [StatusChanged(InvalidMeasurementCount)];
        return;
      }
      var value := count.value;
      if value < 1 {
        value := 1;
      }
      if value == measureTarget {
        return;
      }
      measureTarget := value;
      if measureActive {
        measureCount := 0;
        measureSum := [0.0, 0.0, 0.0];
        window := [];
        events := events + [StatusChanged(MeasurementRestarted(value))];
      } else {
        events := events + [StatusChanged(MeasurementCountSet(value))];
      }
    }

    function MeasureTarget(): (n: int)
      reads this
      requires Valid()
      ensures n >= 1
    {
      measureTarget
    }

    /**
     * Sets one parameter from the text a user typed: an unknown name or an
     * unreadable number leaves the configuration as it was.
     */
    method SetParam(name: string, text: string)
      requires Valid()
      modifies this`config, this`events
      ensures Valid()
      ensures name !in old(config) ==>
        config == old(config) && events == old(events) + [StatusChanged(UnknownParameter(name))]
      ensures name in old(config) && ParseValue(old(config)[name], text).Failure? ==>
        config == old(config)
        && events == old(events) + [StatusChanged(InvalidValue(name, ParseValue(old(config)[name], text).error))]
      ensures name in old(config) && ParseValue(old(config)[name], text).Success? ==>
        config == old(config)[name := ParseValue(old(config)[name], text).value]
        && events == old(events) + [StatusChanged(ParamUpdated(name, ParseValue(old(config)[name], text).value))]
    {
      if name !in config {
        events := events + [StatusChanged(UnknownParameter(name))];
        return;
      }
      var current := config[name];
      var parsed := ParseValue(current, text);
      if parsed.Failure? {
        events := events + [StatusChanged(InvalidValue(name, parsed.error))];
        return;
      }
      config := config[name := parsed.value];
      events := events + [StatusChanged(ParamUpdated(name, parsed.value))];
    }

    /** Puts every parameter back to the last saved (or initial) defaults. */
    method ResetParams()
      requires Valid()
      modifies this`config, this`events
      ensures Valid()
      ensures config == defaults
      ensures events == old(events) + [StatusChanged(ParamsReset)]
    {
      config := config + defaults;
      assert config.Keys == defaults.Keys;
      events := events + [StatusChanged(ParamsReset)];
    }

    function Defaults(): (d: Config.Values)
      reads this
      requires Valid()
      ensures Config.SameShape(fields, d)
    {
      defaults
    }

    /**
     * Writes the current parameters into the configuration module and makes
     * them the new defaults.  source is the module's text, None when the file
     * is missing; written is false when writing it back fails.  Returns
     * whether the parameters were saved and the text written.
     */
    method SaveParams(source: Option<string>, written: bool) returns (saved: bool, text: Option<string>)
      requires Valid()
      modifies this`defaults, this`events
      ensures Valid()
      ensures saved <==> source.Some? && written
      ensures saved ==> defaults == old(config) && events == old(events) + [StatusChanged(ParamsSaved)]
      ensures saved ==> text == Some(ConfigFile.WriteOutput(old(config), source.value))
      ensures !saved ==> defaults == old(defaults) && text == None
      ensures !saved ==> |events| == |old(events)| + 1 && events[..|old(events)|] == old(events)
      ensures !saved ==> events[|old(events)|].StatusChanged? && events[|old(events)|].status.SaveFailed?
    {
      var values := config;
      var result := ConfigFile.WriteConfigText(values, source);
      if result.Failure? {
        events := events + [StatusChanged(SaveFailed(result.error))];
        return false, None;
      }
      if !written {
        events := events + [StatusChanged(SaveFailed("write failed"))];
        return false, None;
      }
      defaults := values;
      events := events + [StatusChanged(ParamsSaved)];
      return true, Some(result.value);
    }

    /**
     * Takes the result of one processed frame: stores it, shows the selected
     * layer, and in debug mode shows the frame's dimensions; in use mode a
     * running measurement adds the frame.
     */
    method OnProcessed(dims: DimsResult, clouds: map<ViewLayer, Geometry.Cloud>)
      requires Valid()
      modifies this`latestDims, this`latestClouds, this`events, this`measureSum, this`window, this`measureCount, this`measureActive
      ensures Valid()
      ensures latestDims == Some(dims) && latestClouds == Some(clouds)
      ensures state.mode == Debug ==>
        events == old(events) + ShownEvents(Some(clouds), state.layer) + [ResultChanged(dims.length, dims.width, dims.height)]
        && window == old(window) && measureActive == old(measureActive)
      ensures state.mode == Use && !old(measureActive) ==>
        events == old(events) + ShownEvents(Some(clouds), state.layer) && window == old(window) && !measureActive
      ensures state.mode == Use && old(measureActive) ==>
        window == old(window) + [dims]
        && events == old(events) + ShownEvents(Some(clouds), state.layer) + MeasurementEvents(window, measureTarget)
        && (measureActive <==> |window| < measureTarget)
    {
      latestDims := Some(dims);
      latestClouds := Some(clouds);
      EmitCurrentLayer();
      ghost var before := events;
      assert before == old(events) + ShownEvents(Some(clouds), state.layer);
      assert Valid() && window == old(window) && measureActive == old(measureActive);
      if state.mode == Debug {
        events := events + [ResultChanged(dims.length, dims.width, dims.height)];
        return;
      }
      if measureActive {
        AddFrame(dims);
      }
    }

    /** Adds one frame to a running measurement; the last frame of the window shows the average. */
    method AddFrame(dims: DimsResult)
      requires Valid() && measureActive
      modifies this`measureSum, this`window, this`measureCount, this`measureActive, this`events
      ensures Valid()
      ensures window == old(window) + [dims]
      ensures events == old(events) + MeasurementEvents(window, measureTarget)
      ensures measureActive <==> |window| < measureTarget
    {
      ghost var next := window + [dims];
      SumsAppend(window, dims);
      measureSum := [measureSum[0] + dims.length, measureSum[1] + dims.width, measureSum[2] + dims.height];
      assert measureSum == Sums(next);
      window := next;
      measureCount := measureCount + 1;
      if measureCount >= measureTarget {
        var avg := [measureSum[0] / measureCount as real,
                    measureSum[1] / measureCount as real,
                    measureSum[2] / measureCount as real];
        assert avg == [Sums(next)[0] / |next| as real, Sums(next)[1] / |next| as real, Sums(next)[2] / |next| as real];
        measureActive := false;
        events := events + [ResultChanged(avg[0], avg[1], avg[2]),
                            StatusChanged(MeasurementCaptured(measureCount))];
      } else {
        events := events + [StatusChanged(Measuring(measureCount, measureTarget))];
      }
    }
  }

  /**
   * What showing a layer emits: the layer's cloud when the last frame has
   * one for it, nothing when there is no frame yet or the layer is missing.
   */
  function ShownEvents(latest: Option<map<ViewLayer, Geometry.Cloud>>, layer: ViewLayer): (r: seq<Event>)
    ensures |r| <= 1
    ensures r != [] <==> latest.Some? && layer in latest.value
    ensures r != [] ==> r[0].PointsChanged? && r[0].points == latest.value[layer]
  {
    match latest
    case None => []
    case Some(clouds) => if layer in clouds then [PointsChanged(clouds[layer])] else []
  }

  /**
   * What a measurement shows after a frame: the average of the window once it
   * holds target frames, the progress otherwise.
   */
  function MeasurementEvents(window: seq<DimsResult>, target: int): seq<Event> {
    if |window| >= target && |window| > 0 then
      var n := |window| as real;
      [ResultChanged(Sums(window)[0] / n, Sums(window)[1] / n, Sums(window)[2] / n),
       StatusChanged(MeasurementCaptured(|window|))]
    else
      [StatusChanged(Measuring(|window|, target))]
  }

  /** A measurement over frames that all measure d shows d itself once the window is full. */
  lemma SteadyMeasurement(d: DimsResult, k: nat)
    requires k >= 1
    ensures MeasurementEvents(Repeat(d, k), k)
      == [ResultChanged(d.length, d.width, d.height), StatusChanged(MeasurementCaptured(k))]
  {
    AverageOfRepeatedFrame(d, k);
  }
}
