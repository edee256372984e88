/** The recursive request-shape validator. Its answer is `true` when the object is INVALID. */
module Fields {
  import opened Wrappers
  import opened Json

  datatype FieldType = StringType | NumberType | ObjectType | ArrayType

  /** One entry of a fields map: `{ required, type?, child? }`. */
  datatype Params = Params(required: bool, kind: Option<FieldType>, child: Option<map<string, Params>>)

  type FieldsMap = map<string, Params>

  /** `key in object`, on the properties of an object value. */
  predicate HasKey(key: string, obj: Value)
    requires obj.Arr? || obj.Obj?
  {
    key in Props(obj)
  }

  /** `hasRequiredFields(obj, fields)`; `None` stands for `undefined`. */
  function HasRequiredFields(obj: Option<Value>, fields: FieldsMap): bool
  {
    obj.None? || ValueInvalid(obj.value, fields)
  }

  /** The check of a defined value: anything but an array or a plain object is invalid. */
  function ValueInvalid(obj: Value, fields: FieldsMap): bool
    decreases obj, 2
  {
    if !IsObject(obj) || obj.Null? then true
    else PropsInvalid(Props(obj), fields, obj)
  }

  /** The loop over the listed keys: invalid as soon as one of them fails. */
  function PropsInvalid(props: map<string, Value>, fields: FieldsMap, ghost owner: Value): bool
    requires forall k :: k in props && (props[k].Arr? || props[k].Obj?) ==> props[k] < owner
    decreases owner, 1
  {
    exists key | key in fields :: KeyInvalid(Lookup(props, key), fields[key], owner)
  }

  /** The verdict on one listed key, given the property found under it. */
  function KeyInvalid(item: Option<Value>, params: Params, ghost holder: Value): bool
    requires item.Some? && (item.value.Arr? || item.value.Obj?) ==> item.value < holder
    decreases holder, 0
  {
    if item.None? then params.required
    else
      var v := item.value;
      match params.kind
      case Some(StringType) => !v.Str? || (params.required && |v.s| == 0)
      case Some(NumberType) => !v.Num?
      case Some(ObjectType) =>
        if !IsObject(v) then true
        else if params.child.Some? then
          (if v.Null? then true else ValueInvalid(v, params.child.value))
        else false
      case Some(ArrayType) =>
        if !v.Arr? then true
        else if params.required && |v.items| == 0 then true
        else if params.child.Some? && |v.items| > 0 then
          var child := params.child.value;
          if "*" in child then PropsInvalid(ArrayProps(v.items), StarFields(child["*"], |v.items|), v)
          else PropsInvalid(ArrayProps(v.items), child, v)
        else false
      case None => false
  }

  /** The map `{0: p, 1: p, ...}` built for a `'*'` child: one entry per array index. */
  function StarFields(p: Params, n: nat): (m: FieldsMap)
    ensures forall i :: 0 <= i < n ==> Decimal(i) in m
    ensures forall k :: k in m ==> m[k] == p
    ensures m.Keys == ArrayProps(seq(n, _ => Null)).Keys
  {
    map i | 0 <= i < n :: Decimal(i) := p
  }

  // ---------------------------------------------------------------------------
  // A positive reading of the same rules: an object conforms when every listed
  // key conforms. The validator answers `true` exactly when this fails.

  ghost predicate Conforms(v: Value, fields: FieldsMap)
    decreases v, 1
  {
    (v.Arr? || v.Obj?) &&
    forall key | key in fields :: EntryConforms(Lookup(Props(v), key), fields[key], v)
  }

  ghost predicate EntryConforms(item: Option<Value>, params: Params, holder: Value)
    requires item.Some? && (item.value.Arr? || item.value.Obj?) ==> item.value < holder
    decreases holder, 0
  {
    match item
    case None => !params.required
    case Some(v) =>
      match params.kind
      case Some(StringType) => v.Str? && (params.required ==> |v.s| > 0)
      case Some(NumberType) => v.Num?
      case Some(ObjectType) =>
        IsObject(v) && (params.child.Some? ==> (v.Arr? || v.Obj?) && Conforms(v, params.child.value))
      case Some(ArrayType) =>
        v.Arr? && (params.required ==> |v.items| > 0) &&
        (params.child.Some? && |v.items| > 0 ==>
          var child := params.child.value;
          if "*" in child then
            forall i | 0 <= i < |v.items| :: EntryConforms(Some(v.items[i]), child["*"], v)
          else
            forall key | key in child :: EntryConforms(Lookup(ArrayProps(v.items), key), child[key], v))
      case None => true
  }

  /** The validator reports INVALID exactly when the object does not conform. */
  lemma {:induction false} ValueInvalidIff(v: Value, fields: FieldsMap)
    ensures ValueInvalid(v, fields) <==> !Conforms(v, fields)
    decreases v, 2
  {
    if v.Arr? || v.Obj? {
      PropsInvalidIff(Props(v), fields, v);
    }
  }

  lemma {:induction false} PropsInvalidIff(props: map<string, Value>, fields: FieldsMap, owner: Value)
    requires owner.Arr? || owner.Obj?
    requires props == Props(owner)
    ensures PropsInvalid(props, fields, owner) <==>
            exists key | key in fields :: !EntryConforms(Lookup(props, key), fields[key], owner)
    decreases owner, 1
  {
    forall key | key in fields
      ensures KeyInvalid(Lookup(props, key), fields[key], owner) <==> !EntryConforms(Lookup(props, key), fields[key], owner)
    {
      KeyInvalidIff(Lookup(props, key), fields[key], owner);
    }
  }

  lemma {:induction false} KeyInvalidIff(item: Option<Value>, params: Params, holder: Value)
    requires item.Some? && (item.value.Arr? || item.value.Obj?) ==> item.value < holder
    ensures KeyInvalid(item, params, holder) <==> !EntryConforms(item, params, holder)
    decreases holder, 0
  {
    if item.Some? {
      var v := item.value;
      match params.kind
      case Some(ObjectType) =>
        if IsObject(v) && params.child.Some? && !v.Null? {
          ValueInvalidIff(v, params.child.value);
        }
      case Some(ArrayType) =>
        if v.Arr? && !(params.required && |v.items| == 0) && params.child.Some? && |v.items| > 0 {
          var child := params.child.value;
          if "*" in child {
            StarInvalidIff(v, child["*"], holder);
          } else {
            ArrayChildInvalidIff(v, child, holder);
          }
        }
      case _ =>
    }
  }

  lemma {:induction false} ArrayChildInvalidIff(v: Value, child: FieldsMap, holder: Value)
    requires v.Arr? && v < holder
    ensures PropsInvalid(ArrayProps(v.items), child, v) <==>
            exists key | key in child :: !EntryConforms(Lookup(ArrayProps(v.items), key), child[key], v)
    decreases holder, 0, 0
  {
    var props := ArrayProps(v.items);
    forall key | key in child
      ensures KeyInvalid(Lookup(props, key), child[key], v) <==> !EntryConforms(Lookup(props, key), child[key], v)
    {
      KeyInvalidIff(Lookup(props, key), child[key], v);
    }
  }

  lemma {:induction false} StarInvalidIff(v: Value, star: Params, holder: Value)
    requires v.Arr? && v < holder
    ensures PropsInvalid(ArrayProps(v.items), StarFields(star, |v.items|), v) <==>
            exists i | 0 <= i < |v.items| :: !EntryConforms(Some(v.items[i]), star, v)
    decreases holder, 0, 0
  {
    var props, fields := ArrayProps(v.items), StarFields(star, |v.items|);
    if PropsInvalid(props, fields, v) {
      var key :| key in fields && KeyInvalid(Lookup(props, key), fields[key], v);
      assert key in ArrayProps(seq(|v.items|, _ => Null));
      var i :| 0 <= i < |v.items| && key == Decimal(i);
      assert Lookup(props, key) == Some(v.items[i]);
      KeyInvalidIff(Some(v.items[i]), star, v);
    }
    if i :| 0 <= i < |v.items| && !EntryConforms(Some(v.items[i]), star, v) {
      var key := Decimal(i);
      assert key in fields && Lookup(props, key) == Some(v.items[i]);
      KeyInvalidIff(Some(v.items[i]), star, v);
    }
  }

  /** Only the listed keys are looked at: two objects that agree on them get the same verdict. */
  lemma UnlistedKeysIgnored(a: Value, b: Value, fields: FieldsMap)
    requires (a.Arr? || a.Obj?) && (b.Arr? || b.Obj?)
    requires forall key | key in fields :: Lookup(Props(a), key) == Lookup(Props(b), key)
    ensures HasRequiredFields(Some(a), fields) == HasRequiredFields(Some(b), fields)
  {
    forall key | key in fields
      ensures KeyInvalid(Lookup(Props(a), key), fields[key], a) == KeyInvalid(Lookup(Props(b), key), fields[key], b)
    {
      var item := Lookup(Props(a), key);
      assert KeyInvalid(item, fields[key], a) == KeyInvalid(item, fields[key], b);
    }
    assert HasRequiredFields(Some(a), fields) == PropsInvalid(Props(a), fields, a);
    assert HasRequiredFields(Some(b), fields) == PropsInvalid(Props(b), fields, b);
  }

  /** Dropping entries from the fields map never turns a valid object invalid. */
  lemma FewerFieldsStayValid(obj: Value, fields: FieldsMap, fewer: FieldsMap)
    requires forall key | key in fewer :: key in fields && fewer[key] == fields[key]
    requires !HasRequiredFields(Some(obj), fields)
    ensures !HasRequiredFields(Some(obj), fewer)
  {
    assert IsObject(obj) && !obj.Null?;
    assert !PropsInvalid(Props(obj), fields, obj);
    forall key | key in fewer
      ensures !KeyInvalid(Lookup(Props(obj), key), fewer[key], obj)
    {
      assert key in fields;
    }
    assert !PropsInvalid(Props(obj), fewer, obj);
  }
}
