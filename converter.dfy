/**
 * `convert_lerobot_weights`: resolve the input location, load the state
 * dict, strip the "model." prefix from every tensor name, create the output
 * directory, save the converted tensors, and rewrite `config.json` and
 * `policy_preprocessor.json` when they sit next to the input archive.
 *
 * The file system is a map from paths to nodes; what the procedure writes is
 * returned as a log of effects in the order they happen, together with the
 * outcome (the number of converted tensors, or the error that stopped it).
 */
module Converter {
  import opened Basics
  import opened OrderedDict
  import opened JsonValues
  import opened KeyRules
  import opened TensorKeys
  import opened ConfigTransform
  import opened PreprocessorTransform

  /** A path as a sequence of components; ".." and symbolic links are not resolved. */
  datatype Path = Path(absolute: bool, parts: seq<string>)

  /** `dir / name` */
  function Join(dir: Path, name: string): Path
  {
    Path(dir.absolute, dir.parts + [name])
  }

  /**
   * `path.parent`; the parent of "/" or "." is the path itself. Joining the
   * last component back onto the parent gives the path again.
   */
  function Parent(path: Path): (r: Path)
    ensures path.parts == [] ==> r == path
    ensures path.parts != [] ==> Join(r, path.parts[|path.parts| - 1]) == path
  {
    if path.parts == [] then path else Path(path.absolute, path.parts[..|path.parts| - 1])
  }

  /** A file joined onto a directory has that directory as its parent, and distinct names give distinct files. */
  lemma ParentOfJoin(dir: Path, name: string, other: string)
    ensures Parent(Join(dir, name)) == dir
    ensures Join(dir, name) == Join(dir, other) <==> name == other
  {
    assert (dir.parts + [name])[..|dir.parts|] == dir.parts;
    if Join(dir, name) == Join(dir, other) {
      assert (dir.parts + [name])[|dir.parts|] == name;
    }
  }

  /** What a path names: the archive holds its tensors by name, a JSON file its parsed value. */
  datatype Node<T, L> = Directory | Archive(tensors: Dict<T>) | Document(content: Json<L>) | OtherFile

  type FileSystem<T, L> = map<Path, Node<T, L>>

  predicate IsDir<T, L>(fs: FileSystem<T, L>, path: Path)
  {
    path in fs && fs[path].Directory?
  }

  const ArchiveName: string := "model.safetensors"
  const ConfigName: string := "config.json"
  const PreprocessorName: string := "policy_preprocessor.json"

  /** The tensor archive to read and the directory whose JSON files accompany it. */
  datatype Location = Location(tensorFile: Path, sourceDir: Path)

  /**
   * A directory stands for the archive of the canonical name inside it; any
   * other path is the archive itself, read next to its parent directory.
   */
  function Resolve<T, L>(fs: FileSystem<T, L>, input: Path): (loc: Location)
    ensures IsDir(fs, input) ==> loc.tensorFile == Join(input, ArchiveName) && loc.sourceDir == input
    ensures !IsDir(fs, input) ==> loc.tensorFile == input
    ensures loc.sourceDir == Parent(loc.tensorFile)
  {
    if IsDir(fs, input) then Location(Join(input, ArchiveName), input)
    else Location(input, Parent(input))
  }

  datatype Effect<T, L> =
    | MakeDirs(dir: Path)
    | SaveTensors(file: Path, tensors: Dict<T>)
    | DumpJson(file: Path, doc: Json<L>)

  datatype ConvertError =
    | FileNotFound(missing: Path)   // the resolved archive does not exist
    | Unreadable(path: Path)        // a file exists but is not of the expected format
    | Raised(error: PyError)        // a transform raised on the parsed JSON

  /** A name is read back under itself. */
  function Identity(name: string): string
  {
    name
  }

  /**
   * The state dict filled from the archive, one name after the other
   * (`state_dict[key] = f.get_tensor(key)`).
   */
  function Loaded<T>(tensors: Dict<T>): Dict<T>
  {
    Renamed(tensors, Identity)
  }

  /** An archive whose names are distinct is loaded as it is, in its own order. */
  lemma LoadedArchive<T>(tensors: Dict<T>)
    ensures UniqueKeys(Loaded(tensors))
    ensures UniqueKeys(tensors) ==> Loaded(tensors) == tensors
  {
    if UniqueKeys(tensors) {
      RenamedIdentity(tensors, Identity);
    }
  }

  /**
   * `_transform_config_keys` applied to what `json.load` returned. On a value
   * that is not an object, `in` is a list, substring or scalar test: when it
   * finds the field, the subscript that follows raises TypeError.
   */
  function ConfigDocumentTransformed<L>(doc: Json<L>): (r: Result<Json<L>, PyError>)
    ensures doc.Obj? ==> r.Ok? == ConfigKeysTransformed(doc.fields).Ok?
    ensures doc.Obj? && r.Ok? ==> r.value == Obj(ConfigKeysTransformed(doc.fields).value)
    ensures !doc.Obj? && r.Ok? ==> r.value == doc
  {
    if doc.Obj? then
      var t := ConfigKeysTransformed(doc.fields);
      if t.Err? then Err(t.error) else Ok(Obj(t.value))
    else
      var hasInput := Contains(doc, InputFeaturesField);
      if hasInput.Err? then Err(hasInput.error)
      else if hasInput.value then Err(TypeError)
      else
        // `doc` is not a scalar here, so this second `in` does not raise
        if Contains(doc, OutputFeaturesField) == Ok(true) then Err(TypeError)
        else Ok(doc)
  }

  /** `_transform_preprocessor_json` applied to what `json.load` returned. */
  function PreprocessorDocumentTransformed<L>(doc: Json<L>): (r: Result<Json<L>, PyError>)
    ensures doc.Obj? ==> r.Ok? == PreprocessorTransformed(doc.fields).Ok?
    ensures doc.Obj? && r.Ok? ==> r.value == Obj(PreprocessorTransformed(doc.fields).value)
    ensures !doc.Obj? && r.Ok? ==> r.value == doc
  {
    if doc.Obj? then
      var t := PreprocessorTransformed(doc.fields);
      if t.Err? then Err(t.error) else Ok(Obj(t.value))
    else
      var hasSteps := Contains(doc, StepsField);
      if hasSteps.Err? then Err(hasSteps.error)
      else if hasSteps.value then Err(TypeError)
      else Ok(doc)
  }

  /**
   * `e` is the dump of the source file `name`: that file is a JSON document
   * on which `transform` succeeds, and `e` writes the result under the same
   * name in the output directory.
   */
  ghost predicate DumpOf<T, L>(fs: FileSystem<T, L>, sourceDir: Path, outputDir: Path, name: string,
                         transform: Json<L> -> Result<Json<L>, PyError>, e: Effect<T, L>)
  {
    var source := Join(sourceDir, name);
    source in fs && fs[source].Document? && transform(fs[source].content).Ok? &&
    e == DumpJson(Join(outputDir, name), transform(fs[source].content).value)
  }

  /**
   * One accompanying JSON file: nothing when it is absent, otherwise its
   * transformed content dumped under the same name in the output directory.
   */
  function JsonStage<T, L>(fs: FileSystem<T, L>, sourceDir: Path, outputDir: Path, name: string,
                           transform: Json<L> -> Result<Json<L>, PyError>): (r: Result<seq<Effect<T, L>>, ConvertError>)
    ensures Join(sourceDir, name) !in fs ==> r == Ok([])
    ensures r.Ok? ==> |r.value| <= 1 && forall e :: e in r.value ==> e.DumpJson? && e.file == Join(outputDir, name)
    ensures r.Ok? && Join(sourceDir, name) in fs ==>
      |r.value| == 1 && DumpOf(fs, sourceDir, outputDir, name, transform, r.value[0])
    ensures r.Err? ==> (Join(sourceDir, name) in fs &&
                        (!fs[Join(sourceDir, name)].Document? ==> r.error == Unreadable(Join(sourceDir, name))) &&
                        (fs[Join(sourceDir, name)].Document? ==>
                           transform(fs[Join(sourceDir, name)].content).Err? &&
                           r.error == Raised(transform(fs[Join(sourceDir, name)].content).error)))
  {
    var source := Join(sourceDir, name);
    if source !in fs then Ok([])
    else if !fs[source].Document? then Err(Unreadable(source))
    else
      var t := transform(fs[source].content);
      if t.Err? then Err(Raised(t.error)) else Ok([DumpJson(Join(outputDir, name), t.value)])
  }

  /**
   * The two accompanying JSON files, `config.json` first: the dumps made and
   * the error that stopped them, if any. Each dump holds the transform of
   * the source document of the same name.
   */
  function JsonStages<T, L>(fs: FileSystem<T, L>, sourceDir: Path, outputDir: Path): (r: (seq<Effect<T, L>>, Option<ConvertError>))
    ensures |r.0| <= 2
    ensures forall e :: e in r.0 ==> e.DumpJson? && (e.file == Join(outputDir, ConfigName) || e.file == Join(outputDir, PreprocessorName))
    ensures forall e :: e in r.0 && e.file == Join(outputDir, ConfigName) ==>
      DumpOf(fs, sourceDir, outputDir, ConfigName, ConfigDocumentTransformed, e)
    ensures forall e :: e in r.0 && e.file == Join(outputDir, PreprocessorName) ==>
      DumpOf(fs, sourceDir, outputDir, PreprocessorName, PreprocessorDocumentTransformed, e)
    ensures |r.0| == 2 ==> r.0[0].file == Join(outputDir, ConfigName) && r.0[1].file == Join(outputDir, PreprocessorName)
  {
    ParentOfJoin(outputDir, ConfigName, PreprocessorName);
    var config := JsonStage(fs, sourceDir, outputDir, ConfigName, ConfigDocumentTransformed);
    if config.Err? then ([], Some(config.error))
    else
      var preprocessor := JsonStage(fs, sourceDir, outputDir, PreprocessorName, PreprocessorDocumentTransformed);
      if preprocessor.Err? then (config.value, Some(preprocessor.error))
      else (config.value + preprocessor.value, None)
  }

  /** The whole conversion: the effects in order, and the outcome. */
  function Conversion<T, L>(fs: FileSystem<T, L>, input: Path, outputDir: Path): (r: (seq<Effect<T, L>>, Result<nat, ConvertError>))
    ensures |r.0| <= 4
    ensures r.1.Ok? ==> |r.0| >= 2
  {
    var loc := Resolve(fs, input);
    if loc.tensorFile !in fs then ([], Err(FileNotFound(loc.tensorFile)))
    else if !fs[loc.tensorFile].Archive? then ([], Err(Unreadable(loc.tensorFile)))
    else
      var converted := Renamed(Loaded(fs[loc.tensorFile].tensors), StripModelPrefix);
      var stages := JsonStages(fs, loc.sourceDir, outputDir);
      var outcome: Result<nat, ConvertError> := if stages.1.Some? then Err(stages.1.value) else Ok(|converted|);
      ([MakeDirs(outputDir), SaveTensors(Join(outputDir, ArchiveName), converted)] + stages.0, outcome)
  }

  /**
   * The stage for the source file `name` does not raise: the file is absent,
   * or it is a JSON document on which `transform` succeeds.
   */
  ghost predicate StageOk<T, L>(fs: FileSystem<T, L>, sourceDir: Path, name: string,
                                transform: Json<L> -> Result<Json<L>, PyError>)
  {
    var source := Join(sourceDir, name);
    source !in fs || (fs[source].Document? && transform(fs[source].content).Ok?)
  }

  /** The two document stages stop with no error exactly when neither of them raises. */
  lemma JsonStagesSucceed<T, L>(fs: FileSystem<T, L>, sourceDir: Path, outputDir: Path)
    ensures JsonStages(fs, sourceDir, outputDir).1.None? <==>
      StageOk(fs, sourceDir, ConfigName, ConfigDocumentTransformed) &&
      StageOk(fs, sourceDir, PreprocessorName, PreprocessorDocumentTransformed)
  {
  }

  /**
   * A run succeeds exactly when the resolved archive exists and is readable
   * and each accompanying JSON file is absent or transforms without raising.
   */
  lemma ConversionSucceeds<T, L>(fs: FileSystem<T, L>, input: Path, outputDir: Path)
    ensures var loc := Resolve(fs, input);
      Conversion(fs, input, outputDir).1.Ok? <==>
        loc.tensorFile in fs && fs[loc.tensorFile].Archive? &&
        StageOk(fs, loc.sourceDir, ConfigName, ConfigDocumentTransformed) &&
        StageOk(fs, loc.sourceDir, PreprocessorName, PreprocessorDocumentTransformed)
  {
    var loc := Resolve(fs, input);
    JsonStagesSucceed(fs, loc.sourceDir, outputDir);
  }

  /**
   * A `config.json` whose stage raises stops the run after the archive is
   * saved and before `policy_preprocessor.json` is looked at; the run
   * reports that stage's error.
   */
  lemma ConfigStageStops<T, L>(fs: FileSystem<T, L>, input: Path, outputDir: Path)
    requires var file := Resolve(fs, input).tensorFile; file in fs && fs[file].Archive?
    requires !StageOk(fs, Resolve(fs, input).sourceDir, ConfigName, ConfigDocumentTransformed)
    ensures var loc := Resolve(fs, input);
      var converted := Renamed(Loaded(fs[loc.tensorFile].tensors), StripModelPrefix);
      var stage := JsonStage(fs, loc.sourceDir, outputDir, ConfigName, ConfigDocumentTransformed);
      stage.Err? &&
      Conversion(fs, input, outputDir).0 == [MakeDirs(outputDir), SaveTensors(Join(outputDir, ArchiveName), converted)] &&
      Conversion(fs, input, outputDir).1 == Err(stage.error)
  {
    var loc := Resolve(fs, input);
    var converted := Renamed(Loaded(fs[loc.tensorFile].tensors), StripModelPrefix);
    var saved: seq<Effect<T, L>> := [MakeDirs(outputDir), SaveTensors(Join(outputDir, ArchiveName), converted)];
    assert JsonStages(fs, loc.sourceDir, outputDir).0 == [];
    assert saved + JsonStages(fs, loc.sourceDir, outputDir).0 == saved;
  }

  /**
   * A `policy_preprocessor.json` whose stage raises, after a `config.json`
   * stage that did not, stops the run with that error once the archive and
   * the transformed config (if there is one) are written.
   */
  lemma PreprocessorStageStops<T, L>(fs: FileSystem<T, L>, input: Path, outputDir: Path)
    requires var file := Resolve(fs, input).tensorFile; file in fs && fs[file].Archive?
    requires StageOk(fs, Resolve(fs, input).sourceDir, ConfigName, ConfigDocumentTransformed)
    requires !StageOk(fs, Resolve(fs, input).sourceDir, PreprocessorName, PreprocessorDocumentTransformed)
    ensures var loc := Resolve(fs, input);
      var converted := Renamed(Loaded(fs[loc.tensorFile].tensors), StripModelPrefix);
      var config := JsonStage(fs, loc.sourceDir, outputDir, ConfigName, ConfigDocumentTransformed);
      var stage := JsonStage(fs, loc.sourceDir, outputDir, PreprocessorName, PreprocessorDocumentTransformed);
      config.Ok? && stage.Err? &&
      Conversion(fs, input, outputDir).0 ==
        [MakeDirs(outputDir), SaveTensors(Join(outputDir, ArchiveName), converted)] + config.value &&
      Conversion(fs, input, outputDir).1 == Err(stage.error)
  {
  }

  /**
   * When the resolved archive is missing or unreadable the conversion stops
   * before creating the output directory or writing anything.
   */
  lemma NothingWrittenWithoutArchive<T, L>(fs: FileSystem<T, L>, input: Path, outputDir: Path)
    ensures var file := Resolve(fs, input).tensorFile;
      var effects := Conversion(fs, input, outputDir).0;
      var outcome := Conversion(fs, input, outputDir).1;
      (effects == [] <==> !(file in fs && fs[file].Archive?)) &&
      (file !in fs ==> outcome == Err(FileNotFound(file))) &&
      (file in fs && !fs[file].Archive? ==> outcome == Err(Unreadable(file)))
  {
  }

  /** A directory without the canonical archive is reported as such before anything is written. */
  lemma DirectoryWithoutArchive<T, L>(fs: FileSystem<T, L>, input: Path, outputDir: Path)
    requires IsDir(fs, input) && Join(input, ArchiveName) !in fs
    ensures Conversion(fs, input, outputDir) == ([], Err(FileNotFound(Join(input, ArchiveName))))
  {
  }

  /**
   * The output directory is created first, and every later effect writes a
   * file that lies directly in it under one of the three source names.
   */
  predicate WritesOnlyInto<T, L>(effects: seq<Effect<T, L>>, outputDir: Path)
  {
    (effects != [] ==> effects[0] == MakeDirs(outputDir)) &&
    forall i :: 1 <= i < |effects| ==>
      !effects[i].MakeDirs? && Parent(effects[i].file) == outputDir &&
      (effects[i].file == Join(outputDir, ArchiveName) || effects[i].file == Join(outputDir, ConfigName) ||
       effects[i].file == Join(outputDir, PreprocessorName))
  }

  /** Creating the directory, saving the archive, then dumping the JSON files writes only into the directory. */
  lemma WritesOnlyIntoAfterSave<T, L>(outputDir: Path, converted: Dict<T>, dumped: seq<Effect<T, L>>)
    requires forall e :: e in dumped ==>
      e.DumpJson? && (e.file == Join(outputDir, ConfigName) || e.file == Join(outputDir, PreprocessorName))
    ensures WritesOnlyInto([MakeDirs(outputDir), SaveTensors(Join(outputDir, ArchiveName), converted)] + dumped, outputDir)
  {
    var effects := [MakeDirs(outputDir), SaveTensors(Join(outputDir, ArchiveName), converted)] + dumped;
    ParentOfJoin(outputDir, ArchiveName, ConfigName);
    ParentOfJoin(outputDir, ConfigName, PreprocessorName);
    ParentOfJoin(outputDir, PreprocessorName, ArchiveName);
    forall i | 2 <= i < |effects|
      ensures effects[i].DumpJson? &&
        (effects[i].file == Join(outputDir, ConfigName) || effects[i].file == Join(outputDir, PreprocessorName))
    {
      assert effects[i] == dumped[i - 2];
    }
  }

  /**
   * Once the archive is read, the output directory is created first, the
   * stripped tensors are saved second, and every file written lies directly
   * in the output directory under its source name.
   */
  lemma WritesOnlyIntoOutputDir<T, L>(fs: FileSystem<T, L>, input: Path, outputDir: Path)
    ensures WritesOnlyInto(Conversion(fs, input, outputDir).0, outputDir)
  {
    var loc := Resolve(fs, input);
    if loc.tensorFile in fs && fs[loc.tensorFile].Archive? {
      var converted := Renamed(Loaded(fs[loc.tensorFile].tensors), StripModelPrefix);
      WritesOnlyIntoAfterSave(outputDir, converted, JsonStages(fs, loc.sourceDir, outputDir).0);
    }
  }

  /**
   * The saved archive is the loaded state dict with the prefix stripped; a
   * successful run reports its size, which equals the number of tensors in
   * the input archive exactly when no two names collide after stripping.
   */
  lemma SavesStrippedTensors<T, L>(fs: FileSystem<T, L>, input: Path, outputDir: Path)
    requires var file := Resolve(fs, input).tensorFile; file in fs && fs[file].Archive?
    ensures var loaded := Loaded(fs[Resolve(fs, input).tensorFile].tensors);
      var converted := Renamed(loaded, StripModelPrefix);
      var effects := Conversion(fs, input, outputDir).0;
      var outcome := Conversion(fs, input, outputDir).1;
      |effects| >= 2 && effects[1] == SaveTensors(Join(outputDir, ArchiveName), converted) &&
      (outcome.Ok? ==> outcome.value == |converted| && (outcome.value == |loaded| <==> !StripCollides(loaded)))
  {
    LoadedArchive(fs[Resolve(fs, input).tensorFile].tensors);
    var loaded := Loaded(fs[Resolve(fs, input).tensorFile].tensors);
    StrippedCount(loaded);
  }

  /**
   * After a successful run the output holds the transformed `config.json`
   * exactly when the source directory holds one.
   */
  lemma DumpsTransformedConfig<T, L>(fs: FileSystem<T, L>, input: Path, outputDir: Path)
    requires Conversion(fs, input, outputDir).1.Ok?
    ensures var loc := Resolve(fs, input);
      var effects := Conversion(fs, input, outputDir).0;
      var source := Join(loc.sourceDir, ConfigName);
      (source in fs ==>
        fs[source].Document? && ConfigDocumentTransformed(fs[source].content).Ok? &&
        DumpJson(Join(outputDir, ConfigName), ConfigDocumentTransformed(fs[source].content).value) in effects) &&
      (source !in fs ==> forall e :: e in effects ==> e.MakeDirs? || e.file != Join(outputDir, ConfigName))
  {
    var loc := Resolve(fs, input);
    var effects := Conversion(fs, input, outputDir).0;
    var dumped := JsonStages(fs, loc.sourceDir, outputDir).0;
    assert effects[2..] == dumped;
    ParentOfJoin(outputDir, ArchiveName, ConfigName);
    ParentOfJoin(outputDir, ConfigName, PreprocessorName);
    if Join(loc.sourceDir, ConfigName) in fs {
      assert dumped[0] == effects[2];
    } else {
      forall e | e in effects
        ensures e.MakeDirs? || e.file != Join(outputDir, ConfigName)
      {
        if e !in effects[..2] {
          assert e in dumped;
        }
      }
    }
  }

  /**
   * When both stages succeed, the preprocessor dump is among the dumps made
   * exactly when its source file exists.
   */
  lemma PreprocessorStageDumps<T, L>(fs: FileSystem<T, L>, sourceDir: Path, outputDir: Path)
    requires JsonStages(fs, sourceDir, outputDir).1.None?
    ensures var dumped := JsonStages(fs, sourceDir, outputDir).0;
      var source := Join(sourceDir, PreprocessorName);
      (source in fs ==>
        fs[source].Document? && PreprocessorDocumentTransformed(fs[source].content).Ok? &&
        DumpJson(Join(outputDir, PreprocessorName), PreprocessorDocumentTransformed(fs[source].content).value) in dumped) &&
      (source !in fs ==> forall e :: e in dumped ==> e.file != Join(outputDir, PreprocessorName))
  {
    ParentOfJoin(outputDir, ConfigName, PreprocessorName);
    var config := JsonStage(fs, sourceDir, outputDir, ConfigName, ConfigDocumentTransformed);
    var preprocessor := JsonStage(fs, sourceDir, outputDir, PreprocessorName, PreprocessorDocumentTransformed);
    assert JsonStages(fs, sourceDir, outputDir).0 == config.value + preprocessor.value;
  }

  /**
   * After a successful run the output holds the transformed
   * `policy_preprocessor.json` exactly when the source directory holds one.
   */
  lemma DumpsTransformedPreprocessor<T, L>(fs: FileSystem<T, L>, input: Path, outputDir: Path)
    requires Conversion(fs, input, outputDir).1.Ok?
    ensures var loc := Resolve(fs, input);
      var effects := Conversion(fs, input, outputDir).0;
      var source := Join(loc.sourceDir, PreprocessorName);
      (source in fs ==>
        fs[source].Document? && PreprocessorDocumentTransformed(fs[source].content).Ok? &&
        DumpJson(Join(outputDir, PreprocessorName), PreprocessorDocumentTransformed(fs[source].content).value) in effects) &&
      (source !in fs ==> forall e :: e in effects ==> e.MakeDirs? || e.file != Join(outputDir, PreprocessorName))
  {
    var loc := Resolve(fs, input);
    var effects := Conversion(fs, input, outputDir).0;
    var dumped := JsonStages(fs, loc.sourceDir, outputDir).0;
    assert effects[2..] == dumped;
    ParentOfJoin(outputDir, ArchiveName, PreprocessorName);
    PreprocessorStageDumps(fs, loc.sourceDir, outputDir);
    forall e | e in dumped
      ensures e in effects
    {
      var i :| 0 <= i < |dumped| && dumped[i] == e;
      assert effects[i + 2] == e;
    }
    if Join(loc.sourceDir, PreprocessorName) !in fs {
      forall e | e in effects
        ensures e.MakeDirs? || e.file != Join(outputDir, PreprocessorName)
      {
        if e !in effects[..2] {
          assert e in dumped;
        }
      }
    }
  }

  /** The transform of one accompanying file, as the converter runs it. */
  method TransformJsonFile<T, L>(fs: FileSystem<T, L>, sourceDir: Path, outputDir: Path, name: string, isConfig: bool)
    returns (r: Result<seq<Effect<T, L>>, ConvertError>)
    ensures isConfig ==> r == JsonStage(fs, sourceDir, outputDir, name, ConfigDocumentTransformed)
    ensures !isConfig ==> r == JsonStage(fs, sourceDir, outputDir, name, PreprocessorDocumentTransformed)
  {
    var source := Join(sourceDir, name);
    if source !in fs {
      return Ok([]);
    }
    if !fs[source].Document? {
      return Err(Unreadable(source));
    }
    var doc := fs[source].content;
    var t: Result<Json<L>, PyError>;
    if !doc.Obj? {
      t := if isConfig then ConfigDocumentTransformed(doc) else PreprocessorDocumentTransformed(doc);
    } else if isConfig {
      var fields := TransformConfigKeys(doc.fields);
      t := if fields.Err? then Err(fields.error) else Ok(Obj(fields.value));
    } else {
      var fields := TransformPreprocessorJson(doc.fields);
      t := if fields.Err? then Err(fields.error) else Ok(Obj(fields.value));
    }
    if t.Err? {
      return Err(Raised(t.error));
    }
    r := Ok([DumpJson(Join(outputDir, name), t.value)]);
  }

  /** `convert_lerobot_weights(input_path, output_dir)`. */
  method Convert<T, L>(fs: FileSystem<T, L>, input: Path, outputDir: Path)
    returns (effects: seq<Effect<T, L>>, outcome: Result<nat, ConvertError>)
    ensures (effects, outcome) == Conversion(fs, input, outputDir)
  {
    var loc := Resolve(fs, input);
    if loc.tensorFile !in fs {
      return [], Err(FileNotFound(loc.tensorFile));
    }
    if !fs[loc.tensorFile].Archive? {
      return [], Err(Unreadable(loc.tensorFile));
    }
    var stateDict := RenameKeys(fs[loc.tensorFile].tensors, Identity);
    var converted := RenameKeys(stateDict, StripModelPrefix);
    assert converted == Renamed(Loaded(fs[loc.tensorFile].tensors), StripModelPrefix);
    effects := [MakeDirs(outputDir), SaveTensors(Join(outputDir, ArchiveName), converted)];
    var config := TransformJsonFile(fs, loc.sourceDir, outputDir, ConfigName, true);
    if config.Err? {
      assert effects == effects + JsonStages(fs, loc.sourceDir, outputDir).0;
      return effects, Err(config.error);
    }
    effects := effects + config.value;
    var preprocessor := TransformJsonFile(fs, loc.sourceDir, outputDir, PreprocessorName, false);
    if preprocessor.Err? {
      assert effects == [MakeDirs(outputDir), SaveTensors(Join(outputDir, ArchiveName), converted)] + config.value;
      return effects, Err(preprocessor.error);
    }
    assert JsonStages(fs, loc.sourceDir, outputDir) == (config.value + preprocessor.value, None);
    effects := effects + preprocessor.value;
    outcome := Ok(|converted|);
    assert effects == [MakeDirs(outputDir), SaveTensors(Join(outputDir, ArchiveName), converted)] + JsonStages(fs, loc.sourceDir, outputDir).0;
    assert Conversion(fs, input, outputDir).1 == outcome;
    assert Conversion(fs, input, outputDir).0 == effects;
  }
}
