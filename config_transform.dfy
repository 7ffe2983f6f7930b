/**
 * The rewrite of the policy configuration document: the keys of its
 * `input_features` and `output_features` objects are renamed through the
 * feature tables; nothing else in the document changes.
 */
module ConfigTransform {
  import opened Basics
  import opened OrderedDict
  import opened JsonValues
  import opened KeyRules

  const InputFeaturesField: string := "input_features"
  const OutputFeaturesField: string := "output_features"

  /**
   * `if field in d: d[field] = <the items of d[field] under renamed keys>`.
   * A missing field leaves the document alone; a field whose value is not an
   * object raises AttributeError (it has no `.items()`); otherwise only that
   * field's value changes, it keeps its position, and it becomes the renamed
   * object.
   */
  function FieldRenamed<L>(d: Dict<Json<L>>, field: string, rename: string -> string): (r: Result<Dict<Json<L>>, PyError>)
    ensures Get(d, field).None? ==> r == Ok(d)
    ensures r.Err? <==> Get(d, field).Some? && !Get(d, field).value.Obj?
    ensures r.Err? ==> r.error == AttributeError
    ensures r.Ok? ==> Keys(r.value) == Keys(d)
    ensures r.Ok? ==> forall k :: k != field ==> Get(r.value, k) == Get(d, k)
    ensures r.Ok? && Get(d, field).Some? ==>
      Get(r.value, field) == Some(Obj(Renamed(Get(d, field).value.fields, rename)))
  {
    match Get(d, field)
    case None => Ok(d)
    case Some(value) =>
      match Items(value)
      case Err(e) => Err(e)
      case Ok(items) => Ok(Assign(d, field, Obj(Renamed(items, rename))))
  }

  /**
   * What `_transform_config_keys` makes of a configuration: first the input
   * features, then the output features are renamed.
   */
  function ConfigKeysTransformed<L>(config: Dict<Json<L>>): (r: Result<Dict<Json<L>>, PyError>)
    ensures r.Err? <==>
      (Get(config, InputFeaturesField).Some? && !Get(config, InputFeaturesField).value.Obj?) ||
      (Get(config, OutputFeaturesField).Some? && !Get(config, OutputFeaturesField).value.Obj?)
    ensures r.Err? ==> r.error == AttributeError
    ensures r.Ok? ==> Keys(r.value) == Keys(config)
    ensures r.Ok? ==> forall k :: k != InputFeaturesField && k != OutputFeaturesField ==> Get(r.value, k) == Get(config, k)
    ensures r.Ok? && Get(config, InputFeaturesField).Some? ==>
      Get(r.value, InputFeaturesField) == Some(Obj(Renamed(Get(config, InputFeaturesField).value.fields, InputFeatureKey)))
    ensures r.Ok? && Get(config, OutputFeaturesField).Some? ==>
      Get(r.value, OutputFeaturesField) == Some(Obj(Renamed(Get(config, OutputFeaturesField).value.fields, OutputFeatureKey)))
    ensures Get(config, InputFeaturesField).None? && Get(config, OutputFeaturesField).None? ==> r == Ok(config)
  {
    match FieldRenamed(config, InputFeaturesField, InputFeatureKey)
    case Err(e) => Err(e)
    case Ok(renamed) => FieldRenamed(renamed, OutputFeaturesField, OutputFeatureKey)
  }

  /** A field whose object is already renamed is left as it is. */
  lemma FieldRenamedFixed<L>(d: Dict<Json<L>>, field: string, rename: string -> string)
    requires Get(d, field).Some? ==>
      Get(d, field).value.Obj? && Renamed(Get(d, field).value.fields, rename) == Get(d, field).value.fields
    ensures FieldRenamed(d, field, rename) == Ok(d)
  {
    if Get(d, field).Some? {
      AssignSame(d, field, Get(d, field).value);
    }
  }

  /**
   * Transforming a transformed configuration changes nothing: no renamed
   * feature name is a source name of its table.
   */
  lemma ConfigTransformIdempotent<L>(config: Dict<Json<L>>)
    requires ConfigKeysTransformed(config).Ok?
    ensures ConfigKeysTransformed(ConfigKeysTransformed(config).value) == ConfigKeysTransformed(config)
  {
    var once := ConfigKeysTransformed(config).value;
    if Get(config, InputFeaturesField).Some? {
      RenamedIdempotent(Get(config, InputFeaturesField).value.fields, InputFeatureKey);
    }
    if Get(config, OutputFeaturesField).Some? {
      RenamedIdempotent(Get(config, OutputFeaturesField).value.fields, OutputFeatureKey);
    }
    FieldRenamedFixed(once, InputFeaturesField, InputFeatureKey);
    FieldRenamedFixed(once, OutputFeaturesField, OutputFeatureKey);
  }

  /** The three observation names LeRobot writes become OpenPI's, values and order kept. */
  lemma InputFeaturesExample<V>(x: V, y: V, z: V)
    ensures Renamed([("observation.images.scene", x), ("observation.images.gripper", y), ("observation.state", z)], InputFeatureKey) ==
      [("observation/image", x), ("observation/wrist_image", y), ("observation/state", z)]
  {
    assert |"observation/wrist_image"| != |"observation/image"|;
    assert |"observation/wrist_image"| != |"observation/state"|;
    assert "observation/state"[12] != "observation/image"[12];
    var d := [("observation.images.scene", x), ("observation.images.gripper", y), ("observation.state", z)];
    RenamedWithoutCollision(d, InputFeatureKey);
  }

  /** "action" becomes "actions". */
  lemma OutputFeaturesExample<V>(a: V)
    ensures Renamed([("action", a)], OutputFeatureKey) == [("actions", a)]
  {
  }

  /**
   * A configuration that already holds a table target next to its source
   * keeps only the later of the two values, at the earlier position.
   */
  lemma InputFeaturesCollision<V>(a: V, b: V)
    ensures Renamed([("observation.state", a), ("observation/state", b)], InputFeatureKey) == [("observation/state", b)]
  {
    var d := [("observation.state", a), ("observation/state", b)];
    assert d[..1] == [("observation.state", a)];
  }

  /**
   * When no input-feature name is already a table target, no two names
   * collide: every feature survives the rename.
   */
  lemma InputFeaturesKeepCount<V>(features: Dict<V>)
    requires UniqueKeys(features)
    requires forall i :: 0 <= i < |features| ==> features[i].0 !in InputFeatureRenames.Values
    ensures |Renamed(features, InputFeatureKey)| == |features|
  {
    forall i, j | 0 <= i < |features| && 0 <= j < |features| && features[i].0 != features[j].0
      ensures InputFeatureKey(features[i].0) != InputFeatureKey(features[j].0)
    {
      var k1, k2 := features[i].0, features[j].0;
      if k1 in InputFeatureRenames && k2 !in InputFeatureRenames {
        assert InputFeatureKey(k1) in InputFeatureRenames.Values;
      } else if k2 in InputFeatureRenames && k1 !in InputFeatureRenames {
        assert InputFeatureKey(k2) in InputFeatureRenames.Values;
      }
    }
    RenamedSize(features, InputFeatureKey);
  }

  /**
   * The field rewrite as the converter runs it: the loop over the field's
   * items fills a fresh object, which then replaces the field's value.
   */
  method RenameField<L>(d: Dict<Json<L>>, field: string, rename: string -> string) returns (r: Result<Dict<Json<L>>, PyError>)
    ensures r == FieldRenamed(d, field, rename)
  {
    match Get(d, field)
    case None =>
      r := Ok(d);
    case Some(value) =>
      if !value.Obj? {
        return Err(AttributeError);
      }
      var renamed := RenameKeys(value.fields, rename);
      r := Ok(Assign(d, field, Obj(renamed)));
  }

  /** `_transform_config_keys`: the input features, then the output features. */
  method TransformConfigKeys<L>(config: Dict<Json<L>>) returns (r: Result<Dict<Json<L>>, PyError>)
    ensures r == ConfigKeysTransformed(config)
  {
    r := RenameField(config, InputFeaturesField, InputFeatureKey);
    if r.Ok? {
      r := RenameField(r.value, OutputFeaturesField, OutputFeatureKey);
    }
  }
}
