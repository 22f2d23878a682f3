// The string-valued enumerations of the user interface and the state record
// it keeps (src/ui/app_state.py).

module UiState {
  import opened Wrappers
  import Text

  datatype AppMode = Debug | Use
  datatype SourceMode = Camera | File
  datatype ViewLayer = Raw | Downsampled | Table | Object | Filtered

  /**
   * What the program needs to know about one enumeration: its members in
   * declaration order, each member's string value and its member name.
   */
  datatype EnumClass<!E> = EnumClass(members: seq<E>, value: E -> string, name: E -> string)

  function ModeValue(m: AppMode): string {
    match m
    case Debug => "debug"
    case Use => "use"
  }

  function ModeName(m: AppMode): string {
    match m
    case Debug => "DEBUG"
    case Use => "USE"
  }

  function SourceValue(s: SourceMode): string {
    match s
    case Camera => "camera"
    case File => "file"
  }

  function SourceName(s: SourceMode): string {
    match s
    case Camera => "CAMERA"
    case File => "FILE"
  }

  function LayerValue(l: ViewLayer): string {
    match l
    case Raw => "raw"
    case Downsampled => "downsampled"
    case Table => "table"
    case Object => "object"
    case Filtered => "filtered"
  }

  function LayerName(l: ViewLayer): string {
    match l
    case Raw => "RAW"
    case Downsampled => "DOWNSAMPLED"
    case Table => "TABLE"
    case Object => "OBJECT"
    case Filtered => "FILTERED"
  }

  const AppModes: EnumClass<AppMode> := EnumClass([Debug, Use], ModeValue, ModeName)
  const SourceModes: EnumClass<SourceMode> := EnumClass([Camera, File], SourceValue, SourceName)
  const ViewLayers: EnumClass<ViewLayer> :=
    EnumClass([Raw, Downsampled, Table, Object, Filtered], LayerValue, LayerName)

  /**
   * The shape every enumeration of this module has: each member is listed
   * once, values are pairwise different, and each value is the lower-cased
   * member name and is itself lower case.
   */
  ghost predicate WellFormed<E(!new)>(c: EnumClass<E>) {
    && (forall e :: e in c.members)
    && (forall i, j :: 0 <= i < j < |c.members| ==> c.value(c.members[i]) != c.value(c.members[j]))
    && (forall e :: Text.Lower(c.name(e)) == c.value(e))
    && (forall e :: Text.Lower(c.value(e)) == c.value(e))
  }

  lemma AppModesWellFormed()
    ensures WellFormed(AppModes)
  {
    forall e: AppMode ensures e in AppModes.members && Text.Lower(ModeName(e)) == ModeValue(e) && Text.Lower(ModeValue(e)) == ModeValue(e) {
      match e
      case Debug =>
        assert AppModes.members[0] == Debug;
        assert Text.Lower("DEBUG") == "debug";
        assert Text.Lower("debug") == "debug";
      case Use =>
        assert AppModes.members[1] == Use;
        assert Text.Lower("USE") == "use";
        assert Text.Lower("use") == "use";
    }
  }

  lemma SourceModesWellFormed()
    ensures WellFormed(SourceModes)
  {
    forall e: SourceMode ensures e in SourceModes.members && Text.Lower(SourceName(e)) == SourceValue(e) && Text.Lower(SourceValue(e)) == SourceValue(e) {
      match e
      case Camera =>
        assert SourceModes.members[0] == Camera;
        assert Text.Lower("CAMERA") == "camera";
        assert Text.Lower("camera") == "camera";
      case File =>
        assert SourceModes.members[1] == File;
        assert Text.Lower("FILE") == "file";
        assert Text.Lower("file") == "file";
    }
  }

  lemma ViewLayersWellFormed()
    ensures WellFormed(ViewLayers)
  {
    forall e: ViewLayer ensures e in ViewLayers.members && Text.Lower(LayerName(e)) == LayerValue(e) && Text.Lower(LayerValue(e)) == LayerValue(e) {
      LayerNameLowered(e);
    }
    LayerValuesDistinct();
  }

  /** The five layer values start with five different letters. */
  lemma LayerValuesDistinct()
    ensures forall i, j :: 0 <= i < j < |ViewLayers.members| ==>
      ViewLayers.value(ViewLayers.members[i]) != ViewLayers.value(ViewLayers.members[j])
  {
    var vs := seq(5, k requires 0 <= k < 5 => ViewLayers.value(ViewLayers.members[k]));
    assert vs[0][0] == 'r' && vs[1][0] == 'd' && vs[2][0] == 't' && vs[3][0] == 'o' && vs[4][0] == 'f';
    forall i, j | 0 <= i < j < 5 ensures vs[i] != vs[j] {
      assert vs[i][0] != vs[j][0];
    }
  }

  lemma LayerNameLowered(e: ViewLayer)
    ensures e in ViewLayers.members
    ensures Text.Lower(LayerName(e)) == LayerValue(e) && Text.Lower(LayerValue(e)) == LayerValue(e)
  {
    match e
    case Raw =>
      assert ViewLayers.members[0] == Raw;
      assert Text.Lower("RAW") == "raw";
      assert Text.Lower("raw") == "raw";
    case Downsampled =>
      assert ViewLayers.members[1] == Downsampled;
      assert Text.Lower("DOWNSAMPLED") == "downsampled";
      assert Text.Lower("downsampled") == "downsampled";
    case Table =>
      assert ViewLayers.members[2] == Table;
      assert Text.Lower("TABLE") == "table";
      assert Text.Lower("table") == "table";
    case Object =>
      assert ViewLayers.members[3] == Object;
      assert Text.Lower("OBJECT") == "object";
      assert Text.Lower("object") == "object";
    case Filtered =>
      assert ViewLayers.members[4] == Filtered;
      assert Text.Lower("FILTERED") == "filtered";
      assert Text.Lower("filtered") == "filtered";
  }

  /** The user-interface state; a fresh record starts in DEBUG mode on the camera's raw layer. */
  datatype AppState = AppState(
    mode: AppMode,
    source: SourceMode,
    layer: ViewLayer,
    cameraConnected: bool,
    lastFile: Option<string>)

  const InitialAppState: AppState := AppState(Debug, Camera, Raw, false, None)
}
