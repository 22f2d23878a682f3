# measurmentify in Dafny

measurmentify measures boxes on a table with a depth camera. A frame's point
cloud is filtered, the table plane is fitted, the points are moved into a table
frame, the largest cluster is picked, and the box's length, width and height are
read from the footprint's extents. A Qt desktop application drives it:

- it switches between a DEBUG and a USE mode, between the camera and recorded
  files, and between the layers it shows;
- it averages a number of frames for a measurement;
- it lets the user edit the algorithm parameters, reset them and save them back
  into `src/config.py`.

This project models the parts of that system that are decisions rather than
numerics, and proves what they promise:

- **Pipeline decision logic** (`pipeline.dfy`, over `geometry.dfy` and `seqs.dfy`):
  - the signed-distance foreground filter and its sign convention;
  - the zero-vector guard of normalisation;
  - the table frame and the camera-to-table transform;
  - the largest-cluster loop;
  - the extents and the length/width swap.

  Arithmetic is over `real`. Square roots, DBSCAN labels, PCA projections and the
  upper height quantile are inputs.
- **The controller** (`controller.dfy`): `AppController` as a class with the
  source's fields.
  - Qt signals are appended to an `events` log.
  - Enumeration coercion is in the same file.
  - Parameter texts are in `param_text.dfy`, and the defaults are in `config.dfy`.
  - Rewriting the configuration module is in `config_patterns.dfy` and
    `config_file.dfy`.
- **The replay source** (`replay.dfy`): a class with a cursor over the sorted
  file names, plus the validation of the intrinsics and of the stored frame
  metadata.
- **Output-path resolution** (`output_path.dfy`), with the clock as a parameter.
- **The user-interface enumerations and state record** (`ui_state.dfy`) and the
  records passed between components (`app_types.dfy`).

`text.dfy` holds the Python string operations the code relies on: strip,
lower, the regex classes `\s` and `\w`, and decimal digits. `wrappers.dfy`
holds Option and Result. An exception is a `Failure`, and `None` is `None`.

Where the code and its documentation disagree, the model follows the code:

- The third column of the table frame is `-n`.
- The height/ROI mask in `_object_extraction` is built but never applied.
- When every DBSCAN label is noise, `best` stays `None`, and `labels == None`
  selects no point. The result is empty, not the unchanged input.
- The cluster loop has no guard for fewer than three points. An empty input
  makes `labels.max()` raise.
- `_signed_distance_filter` reads `cfg.sd_thresh`, which `DimsAlgoConfig` does
  not declare (see Findings).

## Model

| member | source | states |
|---|---|---|
| Pipeline.OrientPlane | src/core/pipeline.py:30-40 | the normal and offset are divided by the norm and flipped together so that d >= 0; the normal is a unit vector and every signed distance keeps its magnitude |
| Pipeline.AboveMask | src/core/pipeline.py:43-45 | mask entry i is true exactly when point i lies strictly more than the threshold above the oriented plane |
| Pipeline.SignedDistanceFilter | src/core/pipeline.py:30-50 | the filter's output is the points whose signed distance exceeds the threshold, in their original order; a zero normal keeps nothing |
| Pipeline.FilterKeepsExactlyAbove | src/core/pipeline.py:42-45 | every kept point has p·n + d > threshold, every dropped point has p·n + d <= threshold; the result lists the points at exactly the positions above the threshold, by increasing position, so kept points keep their relative order |
| Pipeline.SignedDistanceFilterWithConfig | src/core/pipeline.py:45 | the filter as written reads its threshold from the configuration: a missing threshold is an error, a present one gives the filter's result |
| Pipeline.DefaultConfigFilterFails | src/core/pipeline.py:45 | with the configuration's declared fields, reading sd_thresh fails on every frame |
| Pipeline.Normalize | src/core/pipeline.py:52-56 | fails with the zero-vector error exactly when the norm is below 1e-12; otherwise the result is v scaled by 1/norm and has unit length |
| Pipeline.RejectionBoundedBelow | src/core/pipeline.py:64-68 | with world X as reference unless abs(X·n) > 0.9 (then world Y), the part of the reference orthogonal to a unit n has squared length at least 0.19 |
| Pipeline.RejectionLength | src/core/pipeline.py:68 | ref - (ref·n) n is orthogonal to a unit n and has squared length abs(ref)² - (ref·n)² |
| Pipeline.FrameFromUnitNormal | src/core/pipeline.py:64-71 | for a unit normal the second normalisation cannot fail, n×x already has unit length, and the columns x, y, -n are orthonormal |
| Pipeline.UnitRejection | src/core/pipeline.py:64-69 | for a unit n the normalised rejection of the reference axis passes the 1e-12 guard, has unit length and is orthogonal to n |
| Pipeline.UnitFrame | src/core/pipeline.py:69-71 | x, n×x and -n are orthonormal when n and x are orthogonal unit vectors |
| Pipeline.MakeTableFrame | src/core/pipeline.py:58-72 | fails exactly when the normal's norm is below 1e-12; on success the columns are orthonormal, y = n×x, the third column is -n and the origin is -d n with the raw d |
| Pipeline.TransformCamToTable | src/core/pipeline.py:74-78 | every point is mapped to Rᵀ(p - p0); the count and order of points are preserved |
| Pipeline.TableHeight | src/core/pipeline.py:58-78 | for a unit normal, a point's third table coordinate is -(p·n + d) |
| Pipeline.TableHeightVersusFilter | src/core/pipeline.py:35-40 | the frame never applies the filter's sign flip: the third table coordinate equals the filter's signed distance when the raw d < 0, and its negation otherwise |
| Pipeline.HeightMask | src/core/pipeline.py:81-82 | entry i is true exactly when h_min < z < h_max |
| Pipeline.RoiMask | src/core/pipeline.py:85-87 | entry i is true exactly when the point lies strictly inside the x and y ROI bounds |
| Pipeline.LabelMask | src/core/pipeline.py:97 | entry i is true exactly when label i equals the given label |
| Pipeline.LargestClusterUnique | src/core/pipeline.py:94-100 | at most one label is the largest cluster (lowest label among those of maximal count), and its count is at least one |
| Pipeline.LargestCluster | src/core/pipeline.py:94-100 | the loop's best is None exactly when every label is negative; otherwise it is the lowest label in 0..max(labels) of largest count |
| Pipeline.ObjectExtraction | src/core/pipeline.py:80-103 | with clustering off the points come back unchanged whatever the height/ROI mask says; with it on, an empty input raises, all-noise labels give no points, otherwise exactly the points of the largest cluster are kept in order |
| Pipeline.FullRange | src/core/pipeline.py:105-108 | the 0 and 1 quantiles are values of the input and bound every value below and above |
| Pipeline.Extent | src/core/pipeline.py:129-133 | the extent is non-negative, bounds every difference of two values and is attained by one |
| Pipeline.UprightDims | src/core/pipeline.py:110-138 | fails for an empty object; otherwise length >= width, {length, width} are the two extents, and height is the upper height quantile |
| Seqs.Select | src/core/pipeline.py:45 | boolean-mask indexing keeps the elements at the true positions, in increasing position order |
| Seqs.SelectMembers | src/core/pipeline.py:101 | an element survives the mask exactly when some true entry points at it |
| Seqs.SelectConstantMask | src/core/pipeline.py:101 | an all-true mask keeps everything and an all-false mask keeps nothing |
| Seqs.MaxInt | src/core/pipeline.py:96 | labels.max() is one of the labels and bounds every label |
| UiState.AppModesWellFormed | src/ui/app_state.py:7-9 | both modes are listed, their values differ, and each value is its lower-cased member name |
| UiState.SourceModesWellFormed | src/ui/app_state.py:12-14 | both sources are listed, their values differ, and each value is its lower-cased member name |
| UiState.ViewLayersWellFormed | src/ui/app_state.py:17-22 | the five layers are listed, their values are pairwise different, and each value is its lower-cased member name |
| Controller.FirstMember | src/ui/viewmodels/app_controller.py:209-212 | a member satisfying the test, or None exactly when no member does |
| Controller.FirstMemberIsFirst | src/ui/viewmodels/app_controller.py:209-211 | the member found is the first in declaration order: every member before it fails the test |
| Controller.CoerceEnum | src/ui/viewmodels/app_controller.py:199-212 | a member is returned unchanged, a non-string is rejected, and a string yields only members of the enumeration |
| Controller.CoerceTextExactly | src/ui/viewmodels/app_controller.py:202-211 | for the well-formed enumerations, a string coerces to member e exactly when its stripped, lower-cased text is e's value |
| Controller.LoweredValueIsValue | src/ui/viewmodels/app_controller.py:205-211 | in a well-formed enumeration, lower-casing a member's value or its name gives the value |
| Controller.ValueNamesOneMember | src/ui/viewmodels/app_controller.py:205 | in a well-formed enumeration a value names one member, so lookup by value is unambiguous |
| Controller.AppController.constructor | src/ui/viewmodels/app_controller.py:27-45 | the state is DEBUG, CAMERA, RAW, not connected, no file; the configuration and defaults are the declared defaults; no measurement is active, the target is 5 and the count 0 |
| Controller.AppController.Bootstrap | src/ui/viewmodels/app_controller.py:47-48 | emits the Ready status and nothing else |
| Controller.AppController.SetMode | src/ui/viewmodels/app_controller.py:50-60 | an invalid value only emits "Invalid mode value."; the current mode changes and emits nothing; a new mode is set, clears the active measurement and emits the mode and its status |
| Controller.AppController.SetSource | src/ui/viewmodels/app_controller.py:62-72 | an invalid value only emits its status; the current source changes nothing; a new source is set and emits the source and its status |
| Controller.AppController.SetLayer | src/ui/viewmodels/app_controller.py:74-84 | an invalid value only emits its status; the current layer changes nothing; a new layer is set, emits the layer and its status and then shows that layer of the last frame |
| Controller.ShownEvents | src/ui/viewmodels/app_controller.py:273-278 | at most one event; a points event exactly when the last frame's clouds exist and contain the layer, and it carries that layer's cloud |
| Controller.AppController.ShowLayer | src/ui/viewmodels/app_controller.py:80-84 | sets the layer and changes nothing else in the state, then emits the layer, its status and the layer's cloud of the last frame if there is one |
| Controller.AppController.EmitCurrentLayer | src/ui/viewmodels/app_controller.py:273-278 | emits the selected layer's cloud when the last frame has it, and nothing otherwise |
| Controller.AppController.Measure | src/ui/viewmodels/app_controller.py:118-127 | outside USE mode only emits its status, with the active flag, count and window unchanged; in USE mode starts an empty measurement window; together with SetMode it keeps "active implies USE mode" |
| Controller.AppController.SetMeasureTarget | src/ui/viewmodels/app_controller.py:129-147 | a value int() rejects only emits its status and leaves target, count and window as they were; the target becomes max(1, value); an unchanged target is a no-op; a change restarts a running measurement with count and sums zero, and otherwise keeps count and window |
| Controller.AppController.MeasureTarget | src/ui/viewmodels/app_controller.py:149-150 | the target is always at least 1 |
| Controller.AppController.SetParam | src/ui/viewmodels/app_controller.py:152-165 | an unknown name or a text that does not parse leaves the configuration unchanged and emits the reason; otherwise exactly that field takes the parsed value |
| Controller.AppController.ResetParams | src/ui/viewmodels/app_controller.py:167-172 | every field is put back to its saved default |
| Controller.AppController.Defaults | src/ui/viewmodels/app_controller.py:186-187 | the defaults always have the configuration's fields, each of its kind |
| Controller.AppController.SaveParams | src/ui/viewmodels/app_controller.py:174-184 | saving succeeds exactly when the module can be read and written; only then do the defaults become the saved values and the text written is the rewritten module |
| Controller.AppController.OnProcessed | src/ui/viewmodels/app_controller.py:243-271 | stores the frame and shows the selected layer; in DEBUG reports the frame's dims and leaves the accumulator alone; in USE a running measurement adds the frame and, at the target, ends and reports the window's average |
| Controller.AppController.AddFrame | src/ui/viewmodels/app_controller.py:252-271 | one more frame in the window, sums kept equal to the window's sums, the count below the target while active, and the average or the progress emitted |
| Controller.Sums | src/ui/viewmodels/app_controller.py:253-256 | the running sums are three numbers, one per axis |
| Controller.SumsAppend | src/ui/viewmodels/app_controller.py:253-255 | adding a frame adds its length, width and height to the sums |
| Controller.SumsOfRepeatedFrame | src/ui/viewmodels/app_controller.py:253-256 | k frames measuring d sum to d's dimensions added up k times |
| Controller.AverageOfRepeatedFrame | src/ui/viewmodels/app_controller.py:258-262 | the average of k >= 1 frames that all measure d is d |
| Controller.SteadyMeasurement | src/ui/viewmodels/app_controller.py:257-267 | a measurement over target frames that all measure d reports d itself |
| ParamText.Normalize | src/ui/viewmodels/app_controller.py:303 | a decimal in shortest form keeps its value, and a decimal already in that form is unchanged |
| ParamText.Trunc | src/ui/viewmodels/app_controller.py:196 | int() of a decimal truncates toward zero |
| ParamText.SplitNumeral | src/ui/viewmodels/app_controller.py:196-197 | a numeral splits at its one point into digit strings, with at least one digit |
| ParamText.ParseValue | src/ui/viewmodels/app_controller.py:192-197 | keeps the field's kind; a bool field is true exactly for "1", "true", "yes", "y", "on" after strip and lower and never fails; an int is the truncated float; a float parse fails exactly on a non-numeral |
| ParamText.ToLiteral | src/ui/viewmodels/app_controller.py:297-299 | bools become "True"/"False" (tested before the integer case) |
| ParamText.LiteralForms | src/ui/viewmodels/app_controller.py:297-304 | an int becomes an optional '-' and its digits, with no point, which float() reads back as the int; a float becomes a literal with exactly one point which float() reads back as the same value |
| ParamText.LiteralRoundTrip | src/ui/viewmodels/app_controller.py:192-197 | parsing the literal of a field's value gives that value back |
| Config.DefaultsShape | src/config.py:3-32 | every declared default is held in canonical form |
| Config.Number | src/config.py:3-32 | a field has a numeric value exactly when the configuration declares it |
| Config.NoSignedDistanceThreshold | src/config.py:3-32 | the configuration declares no sd_thresh |
| ConfigPatterns.SplitLines | src/ui/viewmodels/app_controller.py:310 | splitlines(keepends=True) gives non-empty lines, each with a '\n' only at its end, that join back into the text |
| ConfigPatterns.ValueEnd | src/ui/viewmodels/app_controller.py:312-313 | the lazy value group ends at the first position after which only a comment or nothing is left |
| ConfigPatterns.ValueAndComment | src/ui/viewmodels/app_controller.py:312-313 | the value group is non-empty and what follows it is empty or a comment; there is no match exactly when nothing follows the '=' |
| ConfigPatterns.RewriteLine | src/ui/viewmodels/app_controller.py:333-355 | the annotated pattern is tried first, and the plain one only when it does not match; a matched field named in values becomes the rewritten line |
| ConfigPatterns.AnnotatedAfterName | src/ui/viewmodels/app_controller.py:312 | a match of the annotated pattern starts with its indentation and name and ends with its value and comment |
| ConfigPatterns.SimpleAfterName | src/ui/viewmodels/app_controller.py:313 | a match of the plain pattern starts with its indentation and name and ends with its value and comment |
| ConfigPatterns.FieldMatchFrame | src/ui/viewmodels/app_controller.py:312-313 | whichever pattern matched, the line starts with the whitespace indentation and the non-empty name and ends with the value and the comment, so a rewrite keeps the indentation, the name and the trailing comment |
| ConfigPatterns.NextScan | src/ui/viewmodels/app_controller.py:318-328 | the scan enters the class body only at the header and leaves it only at a non-blank line indented no deeper than the header |
| ConfigFile.Outputs | src/ui/viewmodels/app_controller.py:317-355 | the rewritten lines are exactly as many as the lines read |
| ConfigFile.OutputsAt | src/ui/viewmodels/app_controller.py:317-355 | each output line is its input line as the scan state at that line leaves it |
| ConfigFile.OutputLineKeeps | src/ui/viewmodels/app_controller.py:320-331 | lines outside the class, the line that ends the body, blank lines and comment lines are kept |
| ConfigFile.OutputLineRewrites | src/ui/viewmodels/app_controller.py:326-355 | a non-blank, non-comment line inside the class body and deeper than its header is run through the two field patterns |
| ConfigFile.OutputLineChanges | src/ui/viewmodels/app_controller.py:326-355 | only a field assignment named in values, inside the class body and deeper than its header, ever changes, and it becomes the same indent, name, annotation and comment with the new literal and its newline kept |
| ConfigFile.WriteConfigValues | src/ui/viewmodels/app_controller.py:315-355 | the loop with in_class and class_indent leaves in place of every line what the scan specifies for it |
| ConfigFile.ScanLine | src/ui/viewmodels/app_controller.py:318-355 | one pass of the loop: the new scan state and the line left in place, following the continue branches |
| ConfigFile.WriteConfigText | src/ui/viewmodels/app_controller.py:306-357 | a missing file is an error; otherwise the text is the rewritten lines joined |
| ConfigFile.NoClassNoChange | src/ui/viewmodels/app_controller.py:320-324 | a module without the configuration class is written back unchanged |
| ConfigFile.SavingNothingKeepsText | src/ui/viewmodels/app_controller.py:336-355 | saving no values writes the module back unchanged |
| Replay.SortPaths | src/acquisition/replay.py:21 | sorted() is a permutation of the matched names |
| Replay.SortPathsSorted | src/acquisition/replay.py:21 | the sorted names are in ascending code-point order and as many as the matched names |
| Replay.SortedUnique | src/acquisition/replay.py:21 | there is one sorted arrangement of a set of names |
| Replay.ReplaySource.Open | src/acquisition/replay.py:10-25 | no matching file raises FileNotFoundError; otherwise the source holds the sorted names, the cursor at 0 and the loaded intrinsics, or fails as loading them fails |
| Replay.ReplaySource.Read | src/acquisition/replay.py:27-35 | a looping source never stops and the k-th read is of paths[k mod n]; a non-looping one past the end raises StopIteration without moving; the cursor stays within 0..n |
| Replay.ReplaySource.PlayedPrefix | src/acquisition/replay.py:28-35 | a non-looping source has read the sorted files in order, each once |
| Replay.CursorStep | src/acquisition/replay.py:28-34 | after wrapping, the cursor's next slot is the read count modulo the number of files |
| Replay.Missing | src/acquisition/replay.py:79-80 | exactly the required keys the section lacks, in the order fx, fy, cx, cy |
| Replay.LoadIntrinsics | src/acquisition/replay.py:62-83 | a missing file is an error; a missing required key raises KeyError listing the missing keys in order; otherwise the result holds exactly the present ones of the six known keys, with their values |
| Replay.AllKeysMissing | src/acquisition/replay.py:78-82 | an absent intrinsics section reports fx, fy, cx, cy missing |
| Replay.TruncReal | src/acquisition/replay.py:87-88 | int() of a float truncates toward zero |
| Replay.IntrinsicsFromConfig | src/acquisition/replay.py:85-102 | the configured size defaults to the frame's; a different configured size raises ValueError; on success the width and height are the frame's |
| Replay.ToUint16 | src/acquisition/replay.py:42-43 | astype(np.uint16) wraps modulo 2^16 and keeps values already in range |
| Replay.LoadNpz | src/acquisition/replay.py:37-60 | an archive without depth_data raises KeyError; depth that is not 2-D and stored sizes (truncated by int()) that differ from the shape are rejected, in that order; on success the depth is uint16, the scale defaults to 1.0, the timestamp (truncated by int()) to None, and the intrinsics have the frame's size |
| OutputPath.Split | src/utility/point_data_record.py:22 | the pieces between slashes contain no slash |
| OutputPath.SplitJoin | src/utility/point_data_record.py:22 | splitting at '/' loses nothing: the pieces join back into the name |
| OutputPath.ParsePath | src/utility/point_data_record.py:22 | Path(name) is absolute exactly when the name starts with '/', and its components are non-empty, not "." and slash-free |
| OutputPath.Suffix | src/utility/point_data_record.py:23 | the suffix is empty or a '.' followed by at least one character, at the end of the name and shorter than it |
| OutputPath.WithSuffix | src/utility/point_data_record.py:24 | fails exactly for a path without a name; otherwise keeps the parent and names the file stem + suffix |
| OutputPath.Stem | src/utility/point_data_record.py:24 | the stem and the suffix make up the name, and a non-empty name has a non-empty stem |
| OutputPath.NpzNameIsNpz | src/utility/point_data_record.py:21-24 | with a name given, the file's suffix is ".npz" case-insensitively |
| OutputPath.NpzNameKept | src/utility/point_data_record.py:23-24 | a name whose suffix already is ".npz" in any case keeps its file name |
| OutputPath.Parent | src/utility/point_data_record.py:25 | the parent keeps the path's anchor and is the path without its last component; a path without components is its own parent |
| OutputPath.Join | src/utility/point_data_record.py:26 | joining an absolute path gives that path; joining a relative one appends its components to the base |
| OutputPath.WithNpz | src/utility/point_data_record.py:22-24 | fails exactly for a path without a name; otherwise the name gets NpzName's suffix and the parent and anchoring are kept |
| OutputPath.Placed | src/utility/point_data_record.py:25-27 | keeps the name; a parent of "." becomes the relative data/, any other path is returned as it is |
| OutputPath.ResolveNamed | src/utility/point_data_record.py:21-27 | fails exactly for a path without a name; the file is named per NpzName; a parent of "." becomes data/, any other parent is kept |
| OutputPath.ResolveOutputPath | src/utility/point_data_record.py:18-29 | with no name (None or empty) the result is data/point_cloud_<stamp>.npz; otherwise the name is parsed and resolved |
| OutputPath.NamelessPathFails | src/utility/point_data_record.py:23-24 | "." and "/" have no file name, so with_suffix raises for them |
| OutputPath.StampLayout | src/utility/point_data_record.py:28 | the %Y%m%dT%H%M%SZ stamp of a valid time is 16 characters, its 'T' and 'Z' are in place, and each digit field reads back as the time's component |

## Left out

- Open3D and NumPy numerics are inputs: voxel downsampling, outlier removal, RANSAC, DBSCAN, eigen-decomposition, covariance and quantile interpolation. Square roots are abstract: a norm is a number r >= 0 with r·r equal to the squared length.
- Floating point is idealised as real arithmetic. NaN from a zero plane normal is modelled only through its effect, which is that nothing is kept.
- Threads, locks, the stream worker, `_start_stream`/`_stop_stream`, `shutdown` and the frame-rate counter `_update_fps` are concurrency and wall-clock timing. `connect_camera` and `load_file` construct hardware and file sources inside the Qt session and are not part of this model.
- `process` returns a 3-tuple, but the stream worker unpacks two values. The worker is not part of this model, so `OnProcessed` takes the frame's dims and clouds directly.
- Controller.AppController.SetParam: `hasattr` also accepts method and dunder names of the dataclass. The model accepts only field names.
- Controller.AppController.SetMeasureTarget: `int(count)` is the parameter `Option<int>`, where None is a value `int()` rejects. `int()` of a float or string argument is not modelled.
- Controller.AppController.SaveParams: the module text and the outcome of writing it back are parameters. `_config_file_path`, reading and writing the file are I/O.
- Status texts are a `Status` datatype with the values they format, not strings.
- ParamText.ParseValue: `float()` is modelled on decimal numerals with an optional sign and one optional point. Exponents, `inf`/`nan`, underscores and rounding to binary float64 are not modelled.
- ParamText.ToLiteral: `repr(float)` is the shortest decimal with a point, `-0.0` is not distinguished, and exponent notation for very large or small floats is not modelled.
- Text.Lower: `str.lower` is modelled on ASCII letters, `\w` is ASCII, and whitespace is `str.isspace` in the Latin-1 range.
- ConfigPatterns.SplitLines: splits only at '\n'. `splitlines` also breaks at '\r', '\v', '\f' and other separators.
- The regular expressions are written out as functions on one line body. The regex engine is not modelled.
- Replay.ReplaySource.Open: glob matching, `np.load` and YAML parsing are I/O. The matched names, each file's arrays and the intrinsics section are parameters. A missing PyYAML module and non-numeric YAML values are not modelled.
- Replay.SortPaths: names are ordered as strings by code point. This is Path ordering for names in one directory on POSIX; Windows case-folding is not modelled.
- Replay.LoadNpz: the samples are integers. Casting float samples to uint16 is not modelled.
- OutputPath.ParsePath: POSIX pure paths. The special root "//" and Windows drives are not modelled. Creating `data/` (`mkdir`) is I/O.
- OutputPath.StampLayout: the clock reading is a parameter. Years below 1000, which `strftime` pads differently across platforms, are outside ValidTime.
- The `main` and `_points_to_numpy` functions of point_data_record.py, the camera source, the Qt widgets, the command-line entry point and the experiments are hardware I/O or user interface.

## Findings

| source | as written | input that shows it | evidently intended | confidence | as-written member | corrected member |
|---|---|---|---|---|---|---|
| src/core/pipeline.py:45 | the foreground filter reads `self.cfg.sd_thresh`, but `DimsAlgoConfig` (src/config.py:3-32) declares no such field | any frame with the default configuration: the attribute lookup raises AttributeError | a configurable threshold, applied as `sd > sd_thresh` | high (not executed) | Pipeline.DefaultConfigFilterFails | Pipeline.FilterKeepsExactlyAbove |
