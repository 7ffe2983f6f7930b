/**
 * Parsed JSON documents and the handful of Python operations the converter
 * applies to them, including what each raises on a value of the wrong shape.
 */
module JsonValues {
  import opened Basics
  import opened OrderedDict

  /**
   * A value as `json.load` returns it. Numbers, booleans and null are opaque
   * leaves of type L: the converter only carries them along.
   */
  datatype Json<L> =
    | Str(text: string)
    | Arr(elems: seq<Json<L>>)
    | Obj(fields: Dict<Json<L>>)
    | Scalar(leaf: L)

  /** The Python exceptions the operations below raise. */
  datatype PyError = AttributeError | TypeError | KeyError

  /** Whether `part` occurs as a contiguous piece of `text`. */
  predicate IsSubstring(part: string, text: string)
  {
    part <= text || (text != [] && IsSubstring(part, text[1..]))
  }

  /** `part` occurs in `text` starting at index `i`. */
  predicate OccursAt(part: string, text: string, i: int)
  {
    0 <= i && i + |part| <= |text| && text[i..i + |part|] == part
  }

  /** `IsSubstring` agrees with Python's `part in text`: an occurrence at some index. */
  lemma {:induction false} SubstringOccurs(part: string, text: string)
    ensures IsSubstring(part, text) <==> exists i :: OccursAt(part, text, i)
  {
    if part <= text {
      assert text[..|part|] == part;
      assert OccursAt(part, text, 0);
    }
    if text != [] {
      SubstringOccurs(part, text[1..]);
      if exists i :: OccursAt(part, text, i) {
        var i :| OccursAt(part, text, i);
        if i > 0 {
          assert text[1..][i - 1..i - 1 + |part|] == text[i..i + |part|];
          assert OccursAt(part, text[1..], i - 1);
        } else {
          assert part <= text;
        }
      }
      if exists i :: OccursAt(part, text[1..], i) {
        var i :| OccursAt(part, text[1..], i);
        assert text[1..][i..i + |part|] == text[i + 1..i + 1 + |part|];
        assert OccursAt(part, text, i + 1);
      }
    } else if exists i :: OccursAt(part, text, i) {
      var i :| OccursAt(part, text, i);
      assert part == [];
    }
  }

  /**
   * `key in container`: a key test on a dict, an element test on a list, a
   * substring test on a string; numbers, booleans and None raise TypeError.
   */
  function Contains<L>(container: Json<L>, key: string): (r: Result<bool, PyError>)
    ensures r.Err? <==> container.Scalar?
    ensures r.Err? ==> r.error == TypeError
    ensures container.Obj? ==> r == Ok(Get(container.fields, key).Some?)
    ensures container.Arr? ==> r == Ok(Str(key) in container.elems)
    ensures container.Str? ==> r == Ok(exists i :: OccursAt(key, container.text, i))
  {
    match container
    case Obj(fields) => Ok(key in Keys(fields))
    case Arr(elems) =>
      var found := exists i :: 0 <= i < |elems| && elems[i].Str? && elems[i].text == key;
      assert found <==> Str(key) in elems by {
        if Str(key) in elems {
          var i :| 0 <= i < |elems| && elems[i] == Str(key);
        }
      }
      Ok(found)
    case Str(text) =>
      SubstringOccurs(key, text);
      Ok(IsSubstring(key, text))
    case Scalar(_) => Err(TypeError)
  }

  /**
   * `container[key]` with a string key: only a dict can be indexed by a
   * string; lists and strings raise TypeError, and so do the scalars.
   */
  function Subscript<L>(container: Json<L>, key: string): (r: Result<Json<L>, PyError>)
    ensures r.Ok? ==> container.Obj? && Get(container.fields, key) == Some(r.value)
    ensures container.Obj? && Get(container.fields, key).Some? ==> r == Ok(Get(container.fields, key).value)
    ensures container.Obj? && Get(container.fields, key).None? ==> r == Err(KeyError)
    ensures !container.Obj? ==> r == Err(TypeError)
  {
    match container
    case Obj(fields) =>
      (match Get(fields, key)
       case Some(value) => Ok(value)
       case None => Err(KeyError))
    case _ => Err(TypeError)
  }

  /** `value.items()`: only a dict has them; anything else raises AttributeError. */
  function Items<L>(value: Json<L>): (r: Result<Dict<Json<L>>, PyError>)
    ensures r.Ok? <==> value.Obj?
    ensures r.Ok? ==> r.value == value.fields
    ensures r.Err? ==> r.error == AttributeError
  {
    match value
    case Obj(fields) => Ok(fields)
    case _ => Err(AttributeError)
  }

  /**
   * What `for x in value` visits: a list's elements, a dict's keys, a
   * string's characters (as one-character strings); a scalar raises TypeError.
   */
  function Elements<L>(value: Json<L>): (r: Result<seq<Json<L>>, PyError>)
    ensures r.Err? <==> value.Scalar?
    ensures r.Err? ==> r.error == TypeError
    ensures value.Arr? ==> r == Ok(value.elems)
    ensures value.Obj? ==> (r.Ok? && |r.value| == |value.fields| &&
                            forall i :: 0 <= i < |r.value| ==> r.value[i] == Str(Keys(value.fields)[i]))
    ensures value.Str? ==> (r.Ok? && |r.value| == |value.text| &&
                            forall i :: 0 <= i < |r.value| ==> r.value[i] == Str([value.text[i]]))
  {
    match value
    case Arr(elems) => Ok(elems)
    case Obj(fields) => Ok(seq(|fields|, i requires 0 <= i < |fields| => Str(fields[i].0)))
    case Str(text) => Ok(seq(|text|, i requires 0 <= i < |text| => Str([text[i]])))
    case Scalar(_) => Err(TypeError)
  }
}
