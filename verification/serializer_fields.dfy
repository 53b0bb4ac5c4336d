/** The REST framework fields of `grout/serializer_fields.py`: the JSONB
    field, which passes objects and arrays through, and the field that
    rewrites a JSON object key by key through a method of its serializer. */
module SerializerFields {
  import opened Text
  import opened JsonValues

  // ---------------------------------------------------------------------
  // JsonBField

  /** `JsonBField.to_representation`: the stored document as it is. */
  function JsonBToRepresentation(value: Json): (r: Json)
  {
    value
  }

  /** The message of the ValidationError `to_internal_value` raises. */
  const ArrayOrObjectRequired := "Array or object required"

  /** `JsonBField.to_internal_value`: a list or dict is kept, even an empty
      one; with `allow_null` any other falsy value becomes `None`; anything
      else is rejected. */
  function JsonBToInternalValue(allowNull: bool, value: Json): (r: Result<Json, string>)
    ensures r.Ok? <==> value.JArr? || value.JObj? || (allowNull && !Truthy(value))
    ensures (value.JArr? || value.JObj?) ==> r == Ok(value)
    ensures r.Ok? && !(value.JArr? || value.JObj?) ==> r.value == JNull
    ensures r.Err? ==> r.error == ArrayOrObjectRequired
  {
    if value.JArr? || value.JObj? then Ok(value)
    else if allowNull && !Truthy(value) then Ok(JNull)
    else Err(ArrayOrObjectRequired)
  }

  /** Whatever `to_internal_value` accepts, it accepts again unchanged: the
      value it keeps is a container or `None`, and `None` is falsy. */
  lemma InternalValueIdempotent(allowNull: bool, value: Json)
    requires JsonBToInternalValue(allowNull, value).Ok?
    ensures var w := JsonBToInternalValue(allowNull, value).value;
      (w.JArr? || w.JObj? || w == JNull) && JsonBToInternalValue(allowNull, w) == Ok(w)
  {
    var w := JsonBToInternalValue(allowNull, value).value;
    if !(value.JArr? || value.JObj?) {
      assert allowNull && w == JNull && !Truthy(w);
    }
  }

  /** Every object or array survives the round trip out to the client and
      back in. */
  lemma JsonBRoundTrip(allowNull: bool, value: Json)
    requires value.JArr? || value.JObj?
    ensures JsonBToInternalValue(allowNull, JsonBToRepresentation(value)) == Ok(value)
  {
  }

  // ---------------------------------------------------------------------
  // Dict assignment

  /** `d[k] = v` on a dict kept as its members in order: an existing key
      keeps its place and takes the new value, a new key goes at the end. */
  function SetItem(ms: seq<Member>, k: string, v: Json): (r: seq<Member>)
    ensures |r| == |ms| || |r| == |ms| + 1
    ensures |r| > 0
  {
    if |ms| == 0 then [Member(k, v)]
    else if ms[0].key == k then [Member(k, v)] + ms[1..]
    else [ms[0]] + SetItem(ms[1..], k, v)
  }

  /** After `d[k] = v`, `k` maps to `v` and every other key to what it
      mapped to before. */
  lemma {:induction false} SetItemGet(ms: seq<Member>, k: string, v: Json)
    ensures forall k' :: Get(SetItem(ms, k, v), k') == if k' == k then Some(v) else Get(ms, k')
  {
    if |ms| > 0 {
      assert ms == [ms[0]] + ms[1..];
      GetCons(ms[0], ms[1..]);
      if ms[0].key == k {
        GetCons(Member(k, v), ms[1..]);
      } else {
        SetItemGet(ms[1..], k, v);
        GetCons(ms[0], SetItem(ms[1..], k, v));
      }
    } else {
      GetCons(Member(k, v), []);
    }
  }

  /** An existing key keeps its place, a new key goes at the end. */
  lemma {:induction false} SetItemPlace(ms: seq<Member>, k: string, v: Json)
    ensures HasKey(ms, k) ==> |SetItem(ms, k, v)| == |ms|
    ensures !HasKey(ms, k) ==> SetItem(ms, k, v) == ms + [Member(k, v)]
  {
    if |ms| > 0 && ms[0].key != k {
      SetItemPlace(ms[1..], k, v);
      assert ms == [ms[0]] + ms[1..];
      GetCons(ms[0], ms[1..]);
      if !HasKey(ms, k) {
        assert [ms[0]] + (ms[1..] + [Member(k, v)]) == ([ms[0]] + ms[1..]) + [Member(k, v)];
      }
    }
  }

  /** Assignment keeps the keys of a dict distinct. */
  lemma {:induction false} SetItemDistinct(ms: seq<Member>, k: string, v: Json)
    requires DistinctKeys(ms)
    ensures DistinctKeys(SetItem(ms, k, v))
  {
    if |ms| > 0 {
      if ms[0].key == k {
        DistinctCons(Member(k, v), ms[1..]);
      } else {
        var rest := SetItem(ms[1..], k, v);
        SetItemDistinct(ms[1..], k, v);
        SetItemGet(ms[1..], k, v);
        NotAfterFirst(ms);
        Absent(rest, ms[1..], k, v, ms[0].key);
        DistinctCons(ms[0], rest);
      }
    }
  }

  /** A key that neither the old members nor the assignment hold is not
      among the new members. */
  lemma Absent(rest: seq<Member>, ms: seq<Member>, k: string, v: Json, q: string)
    requires forall k' :: Get(rest, k') == if k' == k then Some(v) else Get(ms, k')
    requires q != k && Get(ms, q) == None
    ensures forall i :: 0 <= i < |rest| ==> rest[i].key != q
  {
    assert Get(rest, q) == None;
  }

  /** With distinct keys, the first key does not occur again. */
  lemma NotAfterFirst(ms: seq<Member>)
    requires |ms| > 0 && DistinctKeys(ms)
    ensures Get(ms[1..], ms[0].key) == None
  {
  }

  // ---------------------------------------------------------------------
  // MethodTransformJsonField

  /** What one call `transform_method(key, val)` does: return a new pair,
      raise DropJsonKeyException, or raise anything else (which includes
      returning something that is not a pair). */
  datatype Outcome =
    | Transformed(key: string, value: Json)
    | Drop
    | Raise(message: string)

  /** A transform method of the parent serializer. */
  type Transform = (string, Json) -> Outcome

  datatype Error =
    | NoMethodName          // getattr(parent, None): TypeError
    | MissingMethod(name: string)  // the parent has no such attribute: AttributeError
    | NotAnObject           // the value has no items: AttributeError
    | TransformRaised(message: string)  // an exception other than DropJsonKeyException

  /** The method name `bind` leaves: the one given, or `transform_<field>`. */
  function BoundName(given: Option<string>, fieldName: string): (r: string)
    ensures given.Some? ==> r == given.value
    ensures given.None? ==> r == "transform_" + fieldName
  {
    match given
    case Some(name) => name
    case None => "transform_" + fieldName
  }

  /** Binding again, under any field name, keeps the name of the first
      binding: an explicit or default name is never overwritten. */
  lemma RebindKeepsName(given: Option<string>, first: string, second: string)
    ensures BoundName(Some(BoundName(given, first)), second) == BoundName(given, first)
  {
  }

  /** The method `m` turns the member into a pair with key `k`. */
  predicate Produces(f: Transform, m: Member, k: string)
  {
    f(m.key, m.value).Transformed? && f(m.key, m.value).key == k
  }

  /** The loop of `to_representation` over the members in order: each
      pair the transform returns is assigned, a dropped key is skipped,
      and the first other exception ends the loop. */
  function TransformMembers(f: Transform, ms: seq<Member>): Result<seq<Member>, Error>
  {
    if |ms| == 0 then Ok([])
    else
      match TransformMembers(f, ms[..|ms| - 1])
      case Err(e) => Err(e)
      case Ok(rep) =>
        var m := ms[|ms| - 1];
        match f(m.key, m.value)
        case Transformed(k, v) => Ok(SetItem(rep, k, v))
        case Drop => Ok(rep)
        case Raise(msg) => Err(TransformRaised(msg))
  }

  /** `to_representation(value)` with the parent's methods by name: look
      the method up, then transform the object's members. */
  function Represent(name: Option<string>, parent: map<string, Transform>, value: Json): Result<seq<Member>, Error>
  {
    if name.None? then Err(NoMethodName)
    else if name.value !in parent then Err(MissingMethod(name.value))
    else if !value.JObj? then Err(NotAnObject)
    else TransformMembers(parent[name.value], value.members)
  }

  /** Once the loop has failed on a prefix, the rest does not run. */
  lemma {:induction false} TransformStops(f: Transform, ms: seq<Member>, k: nat)
    requires k <= |ms|
    requires TransformMembers(f, ms[..k]).Err?
    ensures TransformMembers(f, ms) == TransformMembers(f, ms[..k])
    decreases |ms| - k
  {
    if k < |ms| {
      assert ms[..k + 1][..k] == ms[..k];
      TransformStops(f, ms, k + 1);
    } else {
      assert ms[..k] == ms;
    }
  }

  /** The loop fails exactly when some transform raises something other
      than DropJsonKeyException. */
  lemma {:induction false} TransformFails(f: Transform, ms: seq<Member>)
    ensures TransformMembers(f, ms).Err? <==> exists i :: 0 <= i < |ms| && f(ms[i].key, ms[i].value).Raise?
  {
    if |ms| > 0 {
      var init := ms[..|ms| - 1];
      TransformFails(f, init);
      assert forall i :: 0 <= i < |init| ==> init[i] == ms[i];
      if exists i :: 0 <= i < |ms| && f(ms[i].key, ms[i].value).Raise? {
        var i :| 0 <= i < |ms| && f(ms[i].key, ms[i].value).Raise?;
        if i < |init| {
          assert f(init[i].key, init[i].value).Raise?;
        }
      }
    }
  }

  /** The result holds a key exactly when some member's transform
      returned a pair with that key. */
  lemma {:induction false} TransformKeys(f: Transform, ms: seq<Member>)
    requires TransformMembers(f, ms).Ok?
    ensures forall k :: HasKey(TransformMembers(f, ms).value, k) <==> exists i :: 0 <= i < |ms| && Produces(f, ms[i], k)
  {
    if |ms| > 0 {
      var init := ms[..|ms| - 1];
      TransformLastKeys(f, ms);
      TransformKeys(f, init);
      var rep := TransformMembers(f, init).value;
      var res := TransformMembers(f, ms).value;
      forall k
        ensures HasKey(res, k) <==> exists i :: 0 <= i < |ms| && Produces(f, ms[i], k)
      {
        if HasKey(res, k) && !Produces(f, ms[|ms| - 1], k) {
          var i :| 0 <= i < |init| && Produces(f, init[i], k);
          assert init[i] == ms[i];
        }
        if exists i :: 0 <= i < |ms| && Produces(f, ms[i], k) {
          var i :| 0 <= i < |ms| && Produces(f, ms[i], k);
          if i < |init| {
            assert init[i] == ms[i];
          }
        }
      }
    }
  }

  /** One more member adds the key its transform produced, if any. */
  lemma TransformLastKeys(f: Transform, ms: seq<Member>)
    requires |ms| > 0 && TransformMembers(f, ms).Ok?
    ensures TransformMembers(f, ms[..|ms| - 1]).Ok?
    ensures forall k :: HasKey(TransformMembers(f, ms).value, k) <==>
      HasKey(TransformMembers(f, ms[..|ms| - 1]).value, k) || Produces(f, ms[|ms| - 1], k)
  {
    var rep := TransformMembers(f, ms[..|ms| - 1]).value;
    var m := ms[|ms| - 1];
    var out := f(m.key, m.value);
    if out.Transformed? {
      SetItemGet(rep, out.key, out.value);
    }
  }

  /** The value under a key is the one from the last member whose
      transform produced that key: later assignments overwrite earlier
      ones. */
  lemma {:induction false} TransformLastWins(f: Transform, ms: seq<Member>, i: nat, k: string)
    requires TransformMembers(f, ms).Ok?
    requires i < |ms| && Produces(f, ms[i], k)
    requires forall j :: i < j < |ms| ==> !Produces(f, ms[j], k)
    ensures Get(TransformMembers(f, ms).value, k) == Some(f(ms[i].key, ms[i].value).value)
  {
    var init := ms[..|ms| - 1];
    if i < |ms| - 1 {
      assert init[i] == ms[i];
      forall j | i < j < |init|
        ensures !Produces(f, init[j], k)
      {
        assert init[j] == ms[j];
      }
      TransformLastWins(f, init, i, k);
    }
    var m := ms[|ms| - 1];
    var out := f(m.key, m.value);
    if out.Transformed? {
      SetItemGet(TransformMembers(f, init).value, out.key, out.value);
    }
  }

  /** The result is a dict: no key occurs twice. */
  lemma {:induction false} TransformDistinct(f: Transform, ms: seq<Member>)
    requires TransformMembers(f, ms).Ok?
    ensures DistinctKeys(TransformMembers(f, ms).value)
  {
    if |ms| > 0 {
      TransformDistinct(f, ms[..|ms| - 1]);
      var rep := TransformMembers(f, ms[..|ms| - 1]).value;
      var m := ms[|ms| - 1];
      var out := f(m.key, m.value);
      if out.Transformed? {
        SetItemDistinct(rep, out.key, out.value);
      }
    }
  }

  /** A transform that returns every pair as it is gives back the object. */
  lemma {:induction false} TransformIdentity(ms: seq<Member>)
    requires DistinctKeys(ms)
    ensures TransformMembers((k, v) => Transformed(k, v), ms) == Ok(ms)
  {
    if |ms| > 0 {
      var init := ms[..|ms| - 1];
      assert DistinctKeys(init);
      TransformIdentity(init);
      var m := ms[|ms| - 1];
      assert !HasKey(init, m.key) by {
        assert forall i :: 0 <= i < |init| ==> init[i].key != m.key;
      }
      SetItemPlace(init, m.key, m.value);
      assert init + [m] == ms;
    }
  }

  /** The field itself. `transformMethodName` is `None` until `bind` or
      the caller supplies one; `fieldName` is set by `bind`. */
  class MethodTransformJsonField {
    var transformMethodName: Option<string>
    var fieldName: Option<string>
    const readOnly: bool

    /** `__init__`: keep the given method name; the field is read-only. */
    constructor(transformMethodName: Option<string>)
      ensures this.transformMethodName == transformMethodName
      ensures fieldName == None && readOnly
    {
      this.transformMethodName := transformMethodName;
      fieldName := None;
      readOnly := true;
    }

    /** `bind(field_name, parent)`: fall back to `transform_<field_name>`
        when no method name was given, and record the field name. */
    method Bind(fieldName: string)
      modifies this
      ensures transformMethodName == Some(BoundName(old(transformMethodName), fieldName))
      ensures old(transformMethodName).Some? ==> transformMethodName == old(transformMethodName)
      ensures this.fieldName == Some(fieldName)
    {
      var defaultTransform := "transform_" + fieldName;
      if transformMethodName.None? {
        transformMethodName := Some(defaultTransform);
      }
      this.fieldName := Some(fieldName);
    }

    /** `to_representation(value)`: the parent's transform method applied
        to each root-level member in order, building a new dict. */
    method ToRepresentation(parent: map<string, Transform>, value: Json) returns (r: Result<seq<Member>, Error>)
      ensures r == Represent(transformMethodName, parent, value)
    {
      if transformMethodName.None? {
        return Err(NoMethodName);
      }
      var name := transformMethodName.value;
      if name !in parent {
        return Err(MissingMethod(name));
      }
      var transform := parent[name];
      if !value.JObj? {
        return Err(NotAnObject);
      }
      var ms := value.members;
      var representation: seq<Member> := [];
      var i := 0;
      assert ms[..0] == [];
      while i < |ms|
        invariant 0 <= i <= |ms|
        invariant TransformMembers(transform, ms[..i]) == Ok(representation)
      {
        assert ms[..i + 1][..i] == ms[..i];
        match transform(ms[i].key, ms[i].value) {
          case Transformed(newKey, newVal) =>
            representation := SetItem(representation, newKey, newVal);
          case Drop =>
          case Raise(msg) =>
            TransformStops(transform, ms, i + 1);
            return Err(TransformRaised(msg));
        }
        i := i + 1;
      }
      assert ms[..i] == ms;
      r := Ok(representation);
    }
  }
}
