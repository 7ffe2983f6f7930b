/**
 * The rewrite of the preprocessor document: in every step registered as the
 * normalizer, the keys of `config.features` are renamed through the
 * input-feature table; the list of steps keeps its length and order.
 */
module PreprocessorTransform {
  import opened Basics
  import opened OrderedDict
  import opened JsonValues
  import opened KeyRules
  import opened FailFast

  const StepsField: string := "steps"
  const RegistryNameField: string := "registry_name"
  const ConfigField: string := "config"
  const FeaturesField: string := "features"
  const NormalizerStep: string := "normalizer_processor"

  /**
   * `step.get("registry_name") == "normalizer_processor"` on a step that is a
   * dict: Python's `==` holds only for a string value with that text.
   */
  predicate IsNormalizer<L>(fields: Dict<Json<L>>): (b: bool)
    ensures b <==> Get(fields, RegistryNameField) == Some(Str(NormalizerStep))
  {
    var name := Get(fields, RegistryNameField);
    name.Some? && name.value.Str? && name.value.text == NormalizerStep
  }

  /**
   * Whether `"features" in config` and `config["features"].items()` raise on
   * a step's config: `in` raises on a number, a boolean or None; a list or a
   * string that contains "features" cannot be indexed by a string; and a
   * features value that is not a dict has no `.items()`.
   */
  ghost predicate FeaturesLookupRaises<L>(config: Json<L>)
  {
    match config
    case Scalar(_) => true
    case Arr(elems) => Str(FeaturesField) in elems
    case Str(text) => IsSubstring(FeaturesField, text)
    case Obj(fields) => Get(fields, FeaturesField).Some? && !Get(fields, FeaturesField).value.Obj?
  }

  /**
   * What the loop body of `_transform_preprocessor_json` makes of one step.
   * A step that is not a dict raises AttributeError (it has no `.get`). A
   * dict that is not the normalizer, has no "config", or whose config does
   * not contain "features" is kept as it is. Otherwise the features object
   * is replaced by its renamed copy; `in` and indexing on a config that is
   * not a dict raise as Python does.
   */
  function StepTransformed<L>(step: Json<L>): (r: Result<Json<L>, PyError>)
    ensures !step.Obj? ==> r == Err(AttributeError)
    ensures step.Obj? && !IsNormalizer(step.fields) ==> r == Ok(step)
    ensures step.Obj? && Get(step.fields, ConfigField).None? ==> r == Ok(step)
    ensures r.Ok? ==> r.value.Obj? && Keys(r.value.fields) == Keys(step.fields)
    ensures r.Ok? ==> forall k :: k != ConfigField ==> Get(r.value.fields, k) == Get(step.fields, k)
    ensures r.Err? <==> (!step.Obj? ||
                         (IsNormalizer(step.fields) && Get(step.fields, ConfigField).Some? &&
                          FeaturesLookupRaises(Get(step.fields, ConfigField).value)))
    ensures r.Err? && step.Obj? ==>
      r.error == if Get(step.fields, ConfigField).value.Obj? then AttributeError else TypeError
    ensures (step.Obj? && IsNormalizer(step.fields) && Get(step.fields, ConfigField).Some? &&
             Contains(Get(step.fields, ConfigField).value, FeaturesField) == Ok(false)) ==> r == Ok(step)
  {
    if !step.Obj? then Err(AttributeError)
    else if !IsNormalizer(step.fields) then Ok(step)
    else if Get(step.fields, ConfigField).None? then Ok(step)
    else
      var config := Get(step.fields, ConfigField).value;
      var found := Contains(config, FeaturesField);
      if found.Err? then Err(found.error)
      else if !found.value then Ok(step)
      else
        var features := Subscript(config, FeaturesField);
        if features.Err? then Err(features.error)
        else
          var items := Items(features.value);
          if items.Err? then Err(items.error)
          else
            var newConfig := Assign(config.fields, FeaturesField, Obj(Renamed(items.value, InputFeatureKey)));
            Ok(Obj(Assign(step.fields, ConfigField, Obj(newConfig))))
  }

  /**
   * A step that the transform changes is a normalizer whose config is a dict
   * holding a features dict; in the result only that features dict differs,
   * and it is replaced by its renamed copy at the same position.
   */
  lemma StepTransformTouchesOnlyFeatures<L>(step: Json<L>)
    requires StepTransformed(step).Ok? && StepTransformed(step).value != step
    ensures step.Obj? && IsNormalizer(step.fields)
    ensures var config := Get(step.fields, ConfigField);
      config.Some? && config.value.Obj? &&
      var features := Get(config.value.fields, FeaturesField);
      features.Some? && features.value.Obj? &&
      var newConfig := Get(StepTransformed(step).value.fields, ConfigField);
      newConfig.Some? && newConfig.value.Obj? &&
      Keys(newConfig.value.fields) == Keys(config.value.fields) &&
      Get(newConfig.value.fields, FeaturesField) == Some(Obj(Renamed(features.value.fields, InputFeatureKey))) &&
      forall k :: k != FeaturesField ==> Get(newConfig.value.fields, k) == Get(config.value.fields, k)
  {
  }

  /**
   * A normalizer step whose config is an object holding a features object
   * gets exactly those features renamed; every other field of the step and
   * of its config keeps its value and position.
   */
  lemma NormalizerFeaturesRenamed<L>(step: Json<L>, config: Dict<Json<L>>, items: Dict<Json<L>>)
    requires step.Obj? && IsNormalizer(step.fields)
    requires Get(step.fields, ConfigField) == Some(Obj(config))
    requires Get(config, FeaturesField) == Some(Obj(items))
    ensures StepTransformed(step).Ok?
    ensures var after := StepTransformed(step).value;
      Get(after.fields, ConfigField).Some? && Get(after.fields, ConfigField).value.Obj? &&
      var newConfig := Get(after.fields, ConfigField).value.fields;
      Get(newConfig, FeaturesField) == Some(Obj(Renamed(items, InputFeatureKey))) &&
      Keys(newConfig) == Keys(config) &&
      forall k :: k != FeaturesField ==> Get(newConfig, k) == Get(config, k)
  {
    assert Contains(Obj(config), FeaturesField) == Ok(true);
    assert Subscript(Obj(config), FeaturesField) == Ok(Obj(items));
  }

  /** A normalizer step whose features are already renamed is left as it is. */
  lemma NormalizerStepFixed<L>(step: Json<L>, config: Dict<Json<L>>, items: Dict<Json<L>>)
    requires step.Obj? && IsNormalizer(step.fields)
    requires Get(step.fields, ConfigField) == Some(Obj(config))
    requires Get(config, FeaturesField) == Some(Obj(items))
    requires Renamed(items, InputFeatureKey) == items
    ensures StepTransformed(step) == Ok(step)
  {
    assert Contains(Obj(config), FeaturesField) == Ok(true);
    assert Subscript(Obj(config), FeaturesField) == Ok(Obj(items));
    AssignSame(config, FeaturesField, Obj(items));
    AssignSame(step.fields, ConfigField, Obj(config));
  }

  /** Transforming an already transformed step changes nothing. */
  lemma StepTransformIdempotent<L>(step: Json<L>)
    requires StepTransformed(step).Ok?
    ensures StepTransformed(StepTransformed(step).value) == StepTransformed(step)
  {
    var once := StepTransformed(step).value;
    if once != step {
      StepTransformTouchesOnlyFeatures(step);
      var config := Get(step.fields, ConfigField).value;
      var items := Get(config.fields, FeaturesField).value.fields;
      var newConfig := Get(once.fields, ConfigField).value;
      RenamedIdempotent(items, InputFeatureKey);
      assert Get(once.fields, RegistryNameField) == Get(step.fields, RegistryNameField);
      NormalizerStepFixed(once, newConfig.fields, Renamed(items, InputFeatureKey));
    }
  }

  /**
   * The loop over the steps, one after the other: the first step that raises
   * aborts it, and otherwise every step is transformed, in order.
   */
  function StepsTransformed<L>(steps: seq<Json<L>>): (r: Result<seq<Json<L>>, PyError>)
    ensures r.Ok? <==> forall j :: 0 <= j < |steps| ==> StepTransformed(steps[j]).Ok?
    ensures r.Ok? ==> |r.value| == |steps|
  {
    MapUntilErrorSucceeds(StepTransformed, steps);
    MapUntilError(StepTransformed, steps)
  }

  /** The loop succeeds with `out` exactly when every step is transformed into its counterpart in `out`. */
  lemma StepsTransformedOk<L>(steps: seq<Json<L>>, out: seq<Json<L>>)
    ensures StepsTransformed(steps) == Ok(out) <==>
      |out| == |steps| && forall j :: 0 <= j < |steps| ==> StepTransformed(steps[j]) == Ok(out[j])
  {
    MapUntilErrorOk(StepTransformed, steps, out);
  }

  /** The loop raises the error of the first step that raises. */
  lemma StepsTransformedErr<L>(steps: seq<Json<L>>, j: nat)
    requires j < |steps| && StepTransformed(steps[j]).Err?
    requires forall i :: 0 <= i < j ==> StepTransformed(steps[i]).Ok?
    ensures StepsTransformed(steps) == Err(StepTransformed(steps[j]).error)
  {
    MapUntilErrorErr(StepTransformed, steps, j);
  }

  /**
   * What `_transform_preprocessor_json` makes of a preprocessor document:
   * without "steps" it is returned as it is; otherwise every step is
   * transformed in place, and the first step that raises aborts.
   */
  function PreprocessorTransformed<L>(doc: Dict<Json<L>>): (r: Result<Dict<Json<L>>, PyError>)
    ensures Get(doc, StepsField).None? ==> r == Ok(doc)
    ensures r.Ok? ==> Keys(r.value) == Keys(doc)
    ensures r.Ok? ==> forall k :: k != StepsField ==> Get(r.value, k) == Get(doc, k)
    ensures var steps := Get(doc, StepsField);
      r.Err? <==>
        steps.Some? && (steps.value.Scalar? ||
                        exists j :: 0 <= j < |Elements(steps.value).value| &&
                                    StepTransformed(Elements(steps.value).value[j]).Err?)
  {
    match Get(doc, StepsField)
    case None => Ok(doc)
    case Some(stepsValue) =>
      match Elements(stepsValue)
      case Err(e) => Err(e)
      case Ok(items) =>
        match StepsTransformed(items)
        case Err(e) => Err(e)
        case Ok(steps) =>
          if stepsValue.Arr? then Ok(Assign(doc, StepsField, Arr(steps))) else Ok(doc)
  }

  /**
   * A transformed document's step list has the same length and order as the
   * original's, each step being the transform of the step at its position.
   */
  lemma PreprocessorStepsKeepOrder<L>(doc: Dict<Json<L>>)
    requires PreprocessorTransformed(doc).Ok?
    requires Get(doc, StepsField).Some? && Get(doc, StepsField).value.Arr?
    ensures var steps := Get(doc, StepsField).value.elems;
      var after := Get(PreprocessorTransformed(doc).value, StepsField);
      after.Some? && after.value.Arr? && |after.value.elems| == |steps| &&
      forall j :: 0 <= j < |steps| ==> StepTransformed(steps[j]) == Ok(after.value.elems[j])
  {
    var steps := Get(doc, StepsField).value.elems;
    StepsTransformedOk(steps, StepsTransformed(steps).value);
  }

  /** Transforming an already transformed preprocessor document changes nothing. */
  lemma PreprocessorTransformIdempotent<L>(doc: Dict<Json<L>>)
    requires PreprocessorTransformed(doc).Ok?
    ensures PreprocessorTransformed(PreprocessorTransformed(doc).value) == PreprocessorTransformed(doc)
  {
    var once := PreprocessorTransformed(doc).value;
    if Get(doc, StepsField).Some? {
      var stepsValue := Get(doc, StepsField).value;
      if stepsValue.Arr? {
        var steps := StepsTransformed(stepsValue.elems).value;
        StepsTransformedOk(stepsValue.elems, steps);
        forall j | 0 <= j < |steps|
          ensures StepTransformed(steps[j]) == Ok(steps[j])
        {
          StepTransformIdempotent(stepsValue.elems[j]);
        }
        StepsTransformedOk(steps, steps);
        AssignSame(once, StepsField, Arr(steps));
      }
    }
  }

  /** The loop body as the converter runs it on one step. */
  method TransformStep<L>(step: Json<L>) returns (r: Result<Json<L>, PyError>)
    ensures r == StepTransformed(step)
  {
    if !step.Obj? {
      return Err(AttributeError);
    }
    var fields := step.fields;
    if !IsNormalizer(fields) {
      return Ok(step);
    }
    match Get(fields, ConfigField)
    case None =>
      r := Ok(step);
    case Some(config) =>
      var found := Contains(config, FeaturesField);
      if found.Err? {
        return Err(found.error);
      }
      if !found.value {
        return Ok(step);
      }
      var features := Subscript(config, FeaturesField);
      if features.Err? {
        return Err(features.error);
      }
      var items := Items(features.value);
      if items.Err? {
        return Err(items.error);
      }
      var renamed := RenameKeys(items.value, InputFeatureKey);
      var newConfig := Assign(config.fields, FeaturesField, Obj(renamed));
      r := Ok(Obj(Assign(fields, ConfigField, Obj(newConfig))));
  }

  /**
   * `_transform_preprocessor_json`: every step of the list is transformed in
   * place, one after the other; the first step that raises aborts.
   */
  method TransformPreprocessorJson<L>(doc: Dict<Json<L>>) returns (r: Result<Dict<Json<L>>, PyError>)
    ensures r == PreprocessorTransformed(doc)
  {
    if Get(doc, StepsField).None? {
      return Ok(doc);
    }
    var stepsValue := Get(doc, StepsField).value;
    var elements := Elements(stepsValue);
    if elements.Err? {
      return Err(elements.error);
    }
    var original := elements.value;
    var steps := original;
    var i := 0;
    while i < |steps|
      invariant 0 <= i <= |steps| == |original|
      invariant forall j :: 0 <= j < i ==> StepTransformed(original[j]) == Ok(steps[j])
      invariant forall j :: i <= j < |steps| ==> steps[j] == original[j]
    {
      var step := TransformStep(steps[i]);
      if step.Err? {
        StepsTransformedErr(original, i);
        return Err(step.error);
      }
      steps := steps[i := step.value];
      i := i + 1;
    }
    StepsTransformedOk(original, steps);
    if stepsValue.Arr? {
      r := Ok(Assign(doc, StepsField, Arr(steps)));
    } else {
      r := Ok(doc);
    }
  }
}
