/**
 * The per-key rename decisions of the converter: the tensor-name prefix rule
 * and the two feature-name tables of the configuration documents.
 */
module KeyRules {

  /** The prefix LeRobot puts on every tensor name. */
  const ModelPrefix: string := "model."

  /** `key.startswith("model.")` */
  predicate HasModelPrefix(key: string)
  {
    ModelPrefix <= key
  }

  /**
   * The tensor-name rewrite: a key starting with "model." loses its first six
   * characters (exactly that one occurrence of the prefix), any other key is
   * kept as it is, and the key changes exactly when it carries the prefix.
   */
  function StripModelPrefix(key: string): (r: string)
    ensures HasModelPrefix(key) ==> ModelPrefix + r == key
    ensures !HasModelPrefix(key) ==> r == key
    ensures r != key <==> HasModelPrefix(key)
  {
    if HasModelPrefix(key) then key[6..] else key
  }

  /** The observation renames LeRobot -> OpenPI, as a named table. */
  const InputFeatureRenames: map<string, string> := map[
    "observation.images.scene" := "observation/image",
    "observation.images.gripper" := "observation/wrist_image",
    "observation.state" := "observation/state"
  ]

  /** The action rename LeRobot -> OpenPI, as a named table. */
  const OutputFeatureRenames: map<string, string> := map["action" := "actions"]

  /**
   * The rename of an input-feature name: the chain of comparisons the
   * converter writes out agrees with the table, passes every other name
   * through, and never produces a name the table would rename again.
   */
  function InputFeatureKey(key: string): (r: string)
    ensures key in InputFeatureRenames ==> r == InputFeatureRenames[key]
    ensures key !in InputFeatureRenames ==> r == key
    ensures r !in InputFeatureRenames
  {
    if key == "observation.images.scene" then "observation/image"
    else if key == "observation.images.gripper" then "observation/wrist_image"
    else if key == "observation.state" then "observation/state"
    else key
  }

  /**
   * The rename of an output-feature name: "action" becomes "actions", every
   * other name passes through, and the result is never renamed again.
   */
  function OutputFeatureKey(key: string): (r: string)
    ensures key in OutputFeatureRenames ==> r == OutputFeatureRenames[key]
    ensures key !in OutputFeatureRenames ==> r == key
    ensures r !in OutputFeatureRenames
  {
    if key == "action" then "actions" else key
  }

  /**
   * Stripping is not idempotent on every name: a doubled prefix loses only
   * its first occurrence, so a second run strips again.
   */
  lemma DoubledPrefixStripsOnce()
    ensures StripModelPrefix("model.model.w") == "model.w"
    ensures StripModelPrefix(StripModelPrefix("model.model.w")) == "w"
  {
  }
}
