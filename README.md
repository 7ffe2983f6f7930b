# LeRobot → OpenPI checkpoint converter, modelled in Dafny

`scripts/convert_lerobot_weights.py` turns a LeRobot policy checkpoint into
one OpenPI can load. The converter works in these steps:

- It resolves the input location. A directory stands for the
  `model.safetensors` inside it. Any other path is the archive itself, read
  next to its parent directory. A missing archive raises `FileNotFoundError`
  before anything is written.
- It loads the tensor state dict.
- It removes the `model.` prefix from every tensor name.
- It creates the output directory and saves the renamed tensors there.
- It rewrites the two JSON documents that accompany the archive:
  - in `config.json`, the keys of `input_features` and `output_features` go
    through two fixed feature-name tables;
  - in `policy_preprocessor.json`, the keys of `config.features` go through the
    input-feature table, in every step registered as `normalizer_processor`.

The model has these parts:

| file | module | what it holds |
|---|---|---|
| `basics.dfy` | `Basics` | `Option` and `Result` |
| `ordered_dict.dfy` | `OrderedDict` | Python's insertion-ordered `dict` (see below) |
| `fail_fast.dfy` | `FailFast` | a `for` loop whose body may raise: the first exception ends it |
| `key_rules.dfy` | `KeyRules` | the per-key decisions: the prefix rule and the two feature tables |
| `tensor_keys.dfy` | `TensorKeys` | what the prefix rule does to a whole state dict |
| `json_values.dfy` | `JsonValues` | parsed JSON values, and the Python operations the converter applies to them |
| `config_transform.dfy` | `ConfigTransform` | `_transform_config_keys` |
| `preprocessor_transform.dfy` | `PreprocessorTransform` | `_transform_preprocessor_json` |
| `converter.dfy` | `Converter` | `convert_lerobot_weights` over a file system given as a map from paths to nodes |

`OrderedDict` represents a Python `dict` as a sequence of (key, value) pairs
in insertion order:

- `Assign` is `d[k] = v`. An existing key keeps its position and takes the
  new value. A new key is appended.
- `Renamed(d, rename)` describes the loop `new = {}; for k, v in d.items(): new[rename(k)] = v`.
  The converter runs this loop four times: for the tensor names, both config
  feature objects, and the preprocessor features. `RenameKeys` is that loop,
  proved to compute `Renamed`.
- `LastValue` is an independent definition of "the last item renamed to a
  key". The lemmas relate `Renamed` to it, which proves that on a collision
  the later value silently wins.

`Converter.Convert` returns what the conversion does, as a log of effects in
order:
- creating the output directory;
- saving the tensor archive;
- dumping each JSON document.

It also returns the outcome: either the number of converted tensors, or the
error that stopped the run.

## Model

| member | source | states |
|---|---|---|
| KeyRules.StripModelPrefix | scripts/convert_lerobot_weights.py:121-126 | A name that starts with "model." is the prefix followed by the result. Any other name is returned unchanged. The name changes exactly when it carries the prefix. |
| KeyRules.InputFeatureKey | scripts/convert_lerobot_weights.py:40-47 | Agrees with the three-entry observation table. Passes every other name through. Never yields a name the table would rename again. |
| KeyRules.OutputFeatureKey | scripts/convert_lerobot_weights.py:54-57 | "action" becomes "actions". Every other name passes through. The result is never renamed again. |
| KeyRules.DoubledPrefixStripsOnce | scripts/convert_lerobot_weights.py:121-122 | Only one occurrence of the prefix is removed. "model.model.w" becomes "model.w", so the rule is not idempotent. |
| OrderedDict.Get | scripts/convert_lerobot_weights.py:71 | `d.get(k)` is None exactly when k is not a key. |
| OrderedDict.GetItem | scripts/convert_lerobot_weights.py:71 | In a dict with distinct keys, looking up an item's key yields that item's value. |
| OrderedDict.Assign | scripts/convert_lerobot_weights.py:123 | The key set gains the key only if it was absent. The key now maps to the value. Every other key keeps its value. |
| OrderedDict.AssignAppends | scripts/convert_lerobot_weights.py:123 | Assigning a key that is absent appends the item at the end and changes nothing else. |
| OrderedDict.AssignUnique | scripts/convert_lerobot_weights.py:123 | Assignment keeps the keys distinct. |
| OrderedDict.AssignSame | scripts/convert_lerobot_weights.py:83 | Assigning a key the value it already holds leaves the dict identical, order included. |
| OrderedDict.Renamed | scripts/convert_lerobot_weights.py:119-127 | The rebuilt dict has distinct keys and is no larger than the input. |
| OrderedDict.LastValueMeaning | scripts/convert_lerobot_weights.py:119-127 | The reference "last write wins": it is None iff no input key is renamed to k. Otherwise it is the value of an item renamed to k, and no later item is renamed to k. |
| OrderedDict.LastValueNone | scripts/convert_lerobot_weights.py:119-127 | The reference value is None iff no input key is renamed to k. |
| OrderedDict.LastValueSome | scripts/convert_lerobot_weights.py:119-127 | A reference value comes from an item renamed to k, and no later item is renamed to k. |
| OrderedDict.RenamedGet | scripts/convert_lerobot_weights.py:119-127 | Looking up any key in the rebuilt dict gives exactly the reference last-write-wins value. |
| OrderedDict.RenamedKeys | scripts/convert_lerobot_weights.py:119-127 | A key is in the rebuilt dict iff some input key is renamed to it. |
| OrderedDict.RenamedItemOrigin | scripts/convert_lerobot_weights.py:119-127 | Every output item comes from an input item renamed to its key, and carries that item's value. No later input item is renamed to the same key. No value is invented. |
| OrderedDict.RenamedEach | scripts/convert_lerobot_weights.py:119-127 | The reference for a rename without overwrites: item i of the result is item i of the input under its renamed key, with the same value. |
| OrderedDict.RenamedWithoutCollision | scripts/convert_lerobot_weights.py:119-127 | When no two items are renamed to the same key, the rebuilt dict holds every item under its new key, in the original order. |
| OrderedDict.InjectiveRenamedSize | scripts/convert_lerobot_weights.py:119-127 | A rename without collisions keeps the number of items. |
| OrderedDict.SizeKeepingRenameInjective | scripts/convert_lerobot_weights.py:119-127 | If the number of items is kept, no two distinct keys collided. |
| OrderedDict.RenamedSize | scripts/convert_lerobot_weights.py:119-127 | For distinct input keys, the size is kept iff the rename is injective on them. |
| OrderedDict.RenamedIdentity | scripts/convert_lerobot_weights.py:125-126 | A rename that fixes every key gives back the same dict, order included. |
| OrderedDict.RenamedIdempotent | scripts/convert_lerobot_weights.py:37-48 | Renaming twice equals renaming once when the rename is idempotent on the keys. |
| OrderedDict.RenameKeys | scripts/convert_lerobot_weights.py:119-127 | The rebuild loop computes `Renamed` (loop invariant: the first i items have been folded in). |
| TensorKeys.StrippedCount | scripts/convert_lerobot_weights.py:119-127 | The converted state dict has as many tensors as the loaded one exactly when no two names collide after stripping. It is never larger. |
| TensorKeys.StrippedOrigin | scripts/convert_lerobot_weights.py:119-127 | Every converted (name, tensor) comes from a loaded name. That name is the prefix followed by the converted name when it carries the prefix, and equals it otherwise. The tensor is the one of the last loaded name that strips to it. |
| TensorKeys.StripLeavesUnprefixed | scripts/convert_lerobot_weights.py:125-126 | A state dict without prefixed names is converted into itself: same names, tensors and order. |
| TensorKeys.StripPrefixedPair | scripts/convert_lerobot_weights.py:121-123 | `model.layer1.weight` and `model.layer2.bias` become `layer1.weight` and `layer2.bias`, with the same tensors, in order. |
| TensorKeys.StripUnprefixedSingle | scripts/convert_lerobot_weights.py:125-126 | `encoder.weight` is kept as it is. |
| TensorKeys.StripCollisionKeepsLater | scripts/convert_lerobot_weights.py:119-127 | `model.x` followed by `x` leaves only `x`, holding the later tensor. The earlier tensor is lost without an error. |
| JsonValues.Subscript | scripts/convert_lerobot_weights.py:72-74 | `container[key]` on a dict holding the key yields that key's value. On a dict without the key it raises KeyError. On a list, a string or a scalar it raises TypeError. Success happens only in the first case. |
| JsonValues.Contains | scripts/convert_lerobot_weights.py:69-72 | `key in container` raises TypeError exactly on a number, a boolean or None. On a dict it is true iff `.get(key)` finds a value. On a list it is true iff the string is an element. On a string it is true iff the key occurs in it at some index. |
| JsonValues.SubstringOccurs | scripts/convert_lerobot_weights.py:72 | The recursive substring test agrees with the index-based definition: `part` is in `text` iff `text[i:i+len(part)] == part` for some i. |
| JsonValues.Items | scripts/convert_lerobot_weights.py:74 | `.items()` succeeds exactly on a dict, yielding its items in order. Anything else raises AttributeError. |
| JsonValues.Elements | scripts/convert_lerobot_weights.py:70 | `for x in value` raises TypeError exactly on a scalar. A list yields its elements. A dict yields its keys, in order, as strings. A string yields its characters, as one-character strings. |
| ConfigTransform.FieldRenamed | scripts/convert_lerobot_weights.py:37-48 | Without the field, the document is unchanged. A field that is not an object raises AttributeError, and only then does it raise. Otherwise the keys keep their order, every other field is unchanged, and the field becomes its renamed object. |
| ConfigTransform.ConfigKeysTransformed | scripts/convert_lerobot_weights.py:27-60 | Raises (AttributeError) iff either features field is present and not an object. The top-level keys and their order are kept. Only the two features fields change: input features go through the observation table, output features through the action table. A config with neither field is returned unchanged. |
| ConfigTransform.FieldRenamedFixed | scripts/convert_lerobot_weights.py:37-48 | A field whose object is already renamed is left unchanged. |
| ConfigTransform.ConfigTransformIdempotent | scripts/convert_lerobot_weights.py:27-60 | Transforming a transformed config changes nothing. |
| ConfigTransform.InputFeaturesExample | scripts/convert_lerobot_weights.py:39-48 | The three LeRobot observation names become `observation/image`, `observation/wrist_image` and `observation/state`, with values and order kept. |
| ConfigTransform.OutputFeaturesExample | scripts/convert_lerobot_weights.py:53-57 | `action` becomes `actions` with its value. |
| ConfigTransform.InputFeaturesCollision | scripts/convert_lerobot_weights.py:39-48 | `observation.state` followed by `observation/state` leaves one entry, holding the later value. |
| ConfigTransform.InputFeaturesKeepCount | scripts/convert_lerobot_weights.py:39-48 | When no input-feature name is already a table target, every feature survives the rename. |
| ConfigTransform.RenameField | scripts/convert_lerobot_weights.py:37-48 | The rebuild of one features field computes `FieldRenamed`. |
| ConfigTransform.TransformConfigKeys | scripts/convert_lerobot_weights.py:27-60 | The method computes `ConfigKeysTransformed`. |
| PreprocessorTransform.IsNormalizer | scripts/convert_lerobot_weights.py:71 | A dict step is the normalizer exactly when its "registry_name" is the string "normalizer_processor". |
| PreprocessorTransform.StepTransformed | scripts/convert_lerobot_weights.py:71-83 | A step that is not a dict raises AttributeError. A step that is not the normalizer, has no config, or whose config does not contain "features", is kept. Otherwise it raises exactly when the features lookup raises: `in` on a scalar config, indexing a list or string config that contains "features", or `.items()` on a features value that is not a dict. The error is AttributeError for a dict config and TypeError otherwise. A successful result keeps the step's keys, and only "config" may change. |
| PreprocessorTransform.StepTransformTouchesOnlyFeatures | scripts/convert_lerobot_weights.py:71-83 | A step that changes is a normalizer whose config object holds a features object. Only the features change, to their renamed copy in the same position. Every other config field keeps its value. |
| PreprocessorTransform.NormalizerFeaturesRenamed | scripts/convert_lerobot_weights.py:71-83 | A normalizer step whose config holds a features object always has those features renamed, and the rest of its config is kept. |
| PreprocessorTransform.NormalizerStepFixed | scripts/convert_lerobot_weights.py:71-83 | A normalizer step whose features are already renamed is left unchanged. |
| PreprocessorTransform.StepTransformIdempotent | scripts/convert_lerobot_weights.py:71-83 | Transforming a transformed step changes nothing. |
| PreprocessorTransform.StepsTransformed | scripts/convert_lerobot_weights.py:70-83 | The loop over the steps succeeds exactly when no step raises, and then yields one step per step. |
| FailFast.MapUntilError | scripts/convert_lerobot_weights.py:70-83 | When the loop succeeds, it yields one result per element. |
| FailFast.MapUntilErrorEach | scripts/convert_lerobot_weights.py:70-83 | A successful loop has mapped each element to the result at the same position. |
| FailFast.MapUntilErrorFromEach | scripts/convert_lerobot_weights.py:70-83 | If every element maps to its counterpart, the loop succeeds with exactly those counterparts. |
| FailFast.MapUntilErrorOk | scripts/convert_lerobot_weights.py:70-83 | Both directions together: the loop succeeds with `ys` iff `ys` has the same length and every element maps to its counterpart. |
| FailFast.MapUntilErrorErr | scripts/convert_lerobot_weights.py:70-83 | The loop raises the error of the first element that raises. |
| FailFast.MapUntilErrorSucceeds | scripts/convert_lerobot_weights.py:70-83 | The loop succeeds iff no element raises. |
| PreprocessorTransform.StepsTransformedOk | scripts/convert_lerobot_weights.py:70-83 | The loop over the steps succeeds with `out` iff `out` has the same length and every step transforms into its counterpart. |
| PreprocessorTransform.StepsTransformedErr | scripts/convert_lerobot_weights.py:70-83 | The loop raises the error of the first step that raises. |
| PreprocessorTransform.PreprocessorTransformed | scripts/convert_lerobot_weights.py:63-85 | A document without "steps" is returned unchanged. It raises exactly when "steps" is a number, a boolean or None, or when a value that iterating "steps" visits is a step that raises. A successful result keeps the document's keys in order and changes no field other than "steps". |
| PreprocessorTransform.PreprocessorStepsKeepOrder | scripts/convert_lerobot_weights.py:69-83 | After a successful transform, the steps list has its original length. Each position holds the transform of the original step there. |
| PreprocessorTransform.PreprocessorTransformIdempotent | scripts/convert_lerobot_weights.py:63-85 | Transforming a transformed document changes nothing. |
| PreprocessorTransform.TransformStep | scripts/convert_lerobot_weights.py:71-83 | The loop body on one step computes `StepTransformed`. |
| PreprocessorTransform.TransformPreprocessorJson | scripts/convert_lerobot_weights.py:63-85 | The in-place loop over the steps computes `PreprocessorTransformed`. Invariants: the processed steps are transformed, the rest untouched. Failure is at the first step that raises. |
| Converter.Parent | scripts/convert_lerobot_weights.py:103 | `path.parent` of a root or empty path is the path itself. Otherwise, joining the last component back onto the parent gives the path. |
| Converter.ParentOfJoin | scripts/convert_lerobot_weights.py:99-103 | `(d / n).parent` is `d`. Two names give the same file only when they are equal. |
| Converter.Resolve | scripts/convert_lerobot_weights.py:97-103 | A directory gives `<dir>/model.safetensors` with source dir `<dir>`. Anything else gives itself. In both cases the source dir is the parent of the tensor file. |
| Converter.LoadedArchive | scripts/convert_lerobot_weights.py:111-114 | The loaded state dict has distinct names. An archive with distinct names is loaded as it is. |
| Converter.ConfigDocumentTransformed | scripts/convert_lerobot_weights.py:146 | On an object it succeeds exactly when the config transform succeeds, and yields its result. A non-object document that does not raise is returned unchanged. |
| Converter.PreprocessorDocumentTransformed | scripts/convert_lerobot_weights.py:157 | On an object it succeeds exactly when the preprocessor transform succeeds, and yields its result. A non-object document that does not raise is returned unchanged. |
| Converter.JsonStage | scripts/convert_lerobot_weights.py:142-150 | An absent file writes nothing. A file that is present and not a JSON document is Unreadable. A document whose transform raises reports that error. Otherwise exactly one dump is written: the transform of the parsed document, under the same name in the output directory. |
| Converter.JsonStages | scripts/convert_lerobot_weights.py:141-161 | The two document stages write at most two files, `config.json` before `policy_preprocessor.json`, both in the output directory. Each dump holds the transform of the source document of the same name. |
| Converter.PreprocessorStageDumps | scripts/convert_lerobot_weights.py:153-160 | When both stages succeed, the transformed preprocessor document is among the dumps iff its source file exists, and otherwise nothing is dumped under its name. |
| Converter.JsonStagesSucceed | scripts/convert_lerobot_weights.py:141-161 | The two document stages end without error iff each file is absent or a document whose transform does not raise. |
| Converter.ConversionSucceeds | scripts/convert_lerobot_weights.py:97-161 | A run succeeds iff the resolved archive exists and is readable, and each accompanying JSON file is absent or transforms without raising. |
| Converter.ConfigStageStops | scripts/convert_lerobot_weights.py:141-150 | A `config.json` whose stage raises ends the run with that error. By then only the directory is created and the archive saved; the preprocessor file is not looked at. |
| Converter.PreprocessorStageStops | scripts/convert_lerobot_weights.py:153-160 | A `policy_preprocessor.json` whose stage raises, after a config stage that did not, ends the run with that error. By then the directory, the archive and any transformed config have been written. |
| Converter.Conversion | scripts/convert_lerobot_weights.py:97-161 | A run has at most four effects: the directory, the archive and two dumps. A successful run has at least created the output directory and saved the archive. |
| Converter.NothingWrittenWithoutArchive | scripts/convert_lerobot_weights.py:105-106 | Nothing is written exactly when the resolved archive is missing or unreadable. A missing archive is reported as FileNotFound of that path. |
| Converter.DirectoryWithoutArchive | scripts/convert_lerobot_weights.py:98-106 | A directory lacking `model.safetensors` fails with FileNotFound of `<dir>/model.safetensors` and writes nothing. |
| Converter.WritesOnlyIntoAfterSave | scripts/convert_lerobot_weights.py:129-160 | Creating the directory, saving the archive into it, then dumping config or preprocessor files into it, writes only directly inside the directory. |
| Converter.WritesOnlyIntoOutputDir | scripts/convert_lerobot_weights.py:129-160 | The output directory is created before any write. Every later effect writes a file directly inside it: the archive, `config.json` or `policy_preprocessor.json`. |
| Converter.SavesStrippedTensors | scripts/convert_lerobot_weights.py:119-136 | The saved archive is the loaded state dict with the prefix stripped. A successful run reports its size. That size equals the loaded count iff no names collide. |
| Converter.DumpsTransformedConfig | scripts/convert_lerobot_weights.py:142-150 | After a successful run, the output holds the transformed `config.json` iff the source directory holds one. |
| Converter.DumpsTransformedPreprocessor | scripts/convert_lerobot_weights.py:153-160 | After a successful run, the output holds the transformed `policy_preprocessor.json` iff the source directory holds one. |
| Converter.TransformJsonFile | scripts/convert_lerobot_weights.py:142-161 | The handling of one accompanying file computes `JsonStage` with the config or the preprocessor transform. |
| Converter.Convert | scripts/convert_lerobot_weights.py:97-161 | The whole procedure computes `Conversion`: the effects in order and the outcome. |

## Left out

- Reading and writing safetensors archives, and tensor contents. An archive is a node holding its named tensors; saving is an effect holding the dict saved.
- Parsing and dumping JSON, including `indent=2`. A JSON file is a node holding its parsed value; a file at a JSON path that is not a document is `Unreadable`.
- Numbers, booleans and null in JSON are opaque leaves: the converter only carries them.
- Converter.Convert: does not model the verbatim copies of `train_config.json`, `policy_postprocessor.json` and the two normalizer archives, nor the recursive copy of `assets` (lines 163-183), because they are plain "copy if it exists" file-system plumbing.
- Converter.Convert: file-system failures other than a missing or unreadable input are not modelled (permissions, an output path that is a file, a full disk, files changing during the run).
- Converter.Convert: every read sees the file system as it was when the run started. The run's own directory creation and archive save are not visible to the later `exists()`/`open` of the JSON files. For example, an output directory that is `<source dir>/config.json` would make Python's `open` raise, while the model writes no config dump and succeeds.
- All progress output (`print`); the final "Total tensors converted" count is the outcome `Ok(n)`.
- The `tyro` command-line entry point (lines 189-190).
- Turning a path string into a `Path`: paths are given as components, and `..` and symbolic links are not resolved.
- Mutation in place: `config["input_features"] = …` and `step["config"]["features"] = …` are modelled on values that the transforms return. Freshly parsed JSON shares no sub-objects, so no aliasing is observable. A document whose transform raises is never dumped, so the partly updated value is not observable either.
- Duplicate keys in a JSON text (resolved by `json.load` before the converter sees them).
- The docstring at the top of the script lists only two observation renames; the code has three, and the model follows the code.
- Running the converter on its own output is the identity only for names without the prefix (`TensorKeys.StripLeavesUnprefixed`); a doubled prefix is stripped again (`KeyRules.DoubledPrefixStripsOnce`).
