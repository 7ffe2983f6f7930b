/**
 * The tensor-name rewrite of the converter: the state dict is copied key by
 * key into a new dict under `StripModelPrefix(key)`, so that its meaning is
 * `Renamed(stateDict, StripModelPrefix)` (see `OrderedDict.RenameKeys`).
 * These lemmas instantiate the general facts about `Renamed` for that rule.
 */
module TensorKeys {
  import opened OrderedDict
  import opened KeyRules

  /** Two distinct tensor names that collide once the prefix is removed. */
  ghost predicate StripCollides<T>(tensors: Dict<T>)
  {
    exists i, j :: 0 <= i < |tensors| && 0 <= j < |tensors| && tensors[i].0 != tensors[j].0 &&
      StripModelPrefix(tensors[i].0) == StripModelPrefix(tensors[j].0)
  }

  /**
   * The converted dict has as many tensors as the loaded one exactly when no
   * two names collide after stripping; otherwise tensors are silently lost.
   */
  lemma StrippedCount<T>(tensors: Dict<T>)
    requires UniqueKeys(tensors)
    ensures |Renamed(tensors, StripModelPrefix)| <= |tensors|
    ensures |Renamed(tensors, StripModelPrefix)| == |tensors| <==> !StripCollides(tensors)
  {
    RenamedSize(tensors, StripModelPrefix);
  }

  /**
   * Every converted name comes from a loaded name with the prefix removed,
   * and holds the tensor of the last such loaded name.
   */
  lemma StrippedOrigin<T>(tensors: Dict<T>, j: nat)
    requires j < |Renamed(tensors, StripModelPrefix)|
    ensures var (name, tensor) := Renamed(tensors, StripModelPrefix)[j];
      exists i :: 0 <= i < |tensors| && StripModelPrefix(tensors[i].0) == name && tensors[i].1 == tensor &&
        (HasModelPrefix(tensors[i].0) ==> ModelPrefix + name == tensors[i].0) &&
        (!HasModelPrefix(tensors[i].0) ==> name == tensors[i].0) &&
        forall i' :: i < i' < |tensors| ==> StripModelPrefix(tensors[i'].0) != name
  {
    RenamedItemOrigin(tensors, StripModelPrefix, j);
  }

  /** A state dict whose names carry no prefix is converted into itself, order included. */
  lemma StripLeavesUnprefixed<T>(tensors: Dict<T>)
    requires UniqueKeys(tensors)
    requires forall i :: 0 <= i < |tensors| ==> !HasModelPrefix(tensors[i].0)
    ensures Renamed(tensors, StripModelPrefix) == tensors
  {
    RenamedIdentity(tensors, StripModelPrefix);
  }

  /** Prefixed names lose exactly their prefix, in order. */
  lemma StripPrefixedPair<T>(t1: T, t2: T)
    ensures Renamed([("model.layer1.weight", t1), ("model.layer2.bias", t2)], StripModelPrefix) ==
      [("layer1.weight", t1), ("layer2.bias", t2)]
  {
    var d := [("model.layer1.weight", t1), ("model.layer2.bias", t2)];
    assert d[..1] == [("model.layer1.weight", t1)];
    assert StripModelPrefix("model.layer1.weight") == "layer1.weight";
    assert StripModelPrefix("model.layer2.bias") == "layer2.bias";
  }

  /** A name without the prefix is kept as it is. */
  lemma StripUnprefixedSingle<T>(t: T)
    ensures Renamed([("encoder.weight", t)], StripModelPrefix) == [("encoder.weight", t)]
  {
    assert "encoder.weight"[0] != ModelPrefix[0];
  }

  /** "model.x" followed by "x": the later tensor silently replaces the earlier one. */
  lemma StripCollisionKeepsLater<T>(a: T, b: T)
    ensures Renamed([("model.x", a), ("x", b)], StripModelPrefix) == [("x", b)]
  {
    var d := [("model.x", a), ("x", b)];
    assert d[..1] == [("model.x", a)];
    assert StripModelPrefix("model.x") == "x";
    assert !HasModelPrefix("x");
  }
}
