/** DBPropertyReference: a property of an entity class reached through its
    JavaBean accessors, paired with the IField constant that names its
    column. Reflection is replaced by explicit tables: a class level lists
    its declared fields and the public method signatures it answers. */
module FieldReference {
  import opened Common
  import opened Jdbc
  import opened Entities

  /** A declared field: its name and the name of its declared type. */
  datatype FieldDecl = FieldDecl(name: string, typeName: string)

  /** A public method signature: name and parameter type names. */
  datatype MethodSig = MethodSig(name: string, params: seq<string>)

  /** One class of an entity's hierarchy: its declared fields (None when
      `getDeclaredFields` throws) and the public methods `getMethod` finds
      on it, inherited ones included. */
  datatype ClassLevel = ClassLevel(declared: Option<seq<FieldDecl>>, methods: set<MethodSig>)

  /** A DBPropertyReference: the field, the resolved accessors and the
      selected IField constant. */
  datatype PropRef = PropRef(field: FieldDecl, readMethod: Option<MethodSig>, writeMethod: Option<MethodSig>, dbFieldInfo: Option<IField>)

  predicate Readable(p: PropRef) { p.readMethod.Some? }
  predicate Writable(p: PropRef) { p.writeMethod.Some? }
  predicate Persistable(p: PropRef) { p.dbFieldInfo.Some? }

  /** `name.substring(0, 1).toUpperCase() + name.substring(1)`; the first
      substring throws on an empty name. */
  function Capitalize(name: string): (r: Result<string>)
    ensures r.Err? <==> |name| == 0
    ensures r.Err? ==> r.error == IndexOutOfBounds
    ensures r.Ok? ==> |r.value| == |name| && r.value[0] == UpperChar(name[0]) && r.value[1..] == name[1..]
  {
    if |name| == 0 then Err(IndexOutOfBounds) else Ok(Upper(name[..1]) + name[1..])
  }

  /** Two field names lead to the same accessor names exactly when they
      differ at most in the case of their first letter: `url` and `Url`
      both resolve `setUrl` and `getUrl`. */
  lemma SameAccessorNames(a: string, b: string)
    requires |a| > 0 && |b| > 0
    ensures Capitalize(a) == Capitalize(b) <==> UpperChar(a[0]) == UpperChar(b[0]) && a[1..] == b[1..]
  {
    var ca, cb := Capitalize(a).value, Capitalize(b).value;
    if UpperChar(a[0]) == UpperChar(b[0]) && a[1..] == b[1..] {
      assert ca == [ca[0]] + ca[1..] && cb == [cb[0]] + cb[1..];
    }
  }

  /** The accessor signatures derived from a field: a setter taking the
      field's type, a getter and an `is` reader taking nothing. */
  function Setter(f: FieldDecl, cap: string): MethodSig { MethodSig("set" + cap, [f.typeName]) }
  function GetReader(cap: string): MethodSig { MethodSig("get" + cap, []) }
  function IsReader(cap: string): MethodSig { MethodSig("is" + cap, []) }

  /** The constructor with `initClassProperty`: both arguments must be
      non-null; the setter must exist; the reader is the getter, or failing
      that the `is` method, and otherwise construction fails. */
  function New(field: Option<FieldDecl>, cls: Option<ClassLevel>): (r: Result<PropRef>)
    ensures field.None? || cls.None? ==> r == Err(NullPointer)
    ensures field.Some? && cls.Some? && |field.value.name| == 0 ==> r == Err(IndexOutOfBounds)
    ensures r.Ok? <==>
      && field.Some? && cls.Some? && |field.value.name| > 0
      && var cap := Capitalize(field.value.name).value;
      && Setter(field.value, cap) in cls.value.methods
      && (GetReader(cap) in cls.value.methods || IsReader(cap) in cls.value.methods)
    ensures r.Ok? ==>
      && Readable(r.value) && Writable(r.value) && !Persistable(r.value)
      && r.value.field == field.value
      && r.value.writeMethod.value in cls.value.methods
      && r.value.readMethod.value in cls.value.methods
      && r.value.readMethod.value.params == []
    ensures r.Err? && field.Some? && cls.Some? && |field.value.name| > 0 ==> r.error == NoSuchMethod
  {
    if field.None? || cls.None? then Err(NullPointer)
    else
      match Capitalize(field.value.name)
      case Err(e) => Err(e)
      case Ok(cap) =>
        var f, methods := field.value, cls.value.methods;
        if Setter(f, cap) !in methods then Err(NoSuchMethod)
        else if GetReader(cap) in methods then Ok(PropRef(f, Some(GetReader(cap)), Some(Setter(f, cap)), None))
        else if IsReader(cap) in methods then Ok(PropRef(f, Some(IsReader(cap)), Some(Setter(f, cap)), None))
        else Err(NoSuchMethod)
  }

  /** The getter is preferred to the `is` reader when a class has both. */
  lemma GetterPreferred(f: FieldDecl, cls: ClassLevel)
    requires |f.name| > 0
    requires Setter(f, Capitalize(f.name).value) in cls.methods
    requires GetReader(Capitalize(f.name).value) in cls.methods
    ensures New(Some(f), Some(cls)).Ok?
    ensures New(Some(f), Some(cls)).value.readMethod == Some(GetReader(Capitalize(f.name).value))
  {
  }

  /** `initDBProperty(inst)`: only the selected constant can change. */
  function InitDBProperty<V>(p: PropRef, inst: Option<Instance<V>>): (r: Result<PropRef>)
    ensures inst.None? ==> r == Err(NullPointer)
    ensures r.Ok? ==> r.value.(dbFieldInfo := p.dbFieldInfo) == p
    ensures r.Ok? && r.value.dbFieldInfo != p.dbFieldInfo ==> r.value.dbFieldInfo.Some? && Usable(FieldKey(p.field.name), r.value.dbFieldInfo.value)
    ensures r.Err? <==> Lookup(inst, p.field.name, p.dbFieldInfo).Err?
    ensures r.Err? ==> r.error == NullPointer
    ensures r.Ok? ==> r.value.dbFieldInfo == Lookup(inst, p.field.name, p.dbFieldInfo).value
  {
    match Lookup(inst, p.field.name, p.dbFieldInfo)
    case Err(e) => Err(e)
    case Ok(sel) => Ok(p.(dbFieldInfo := sel))
  }

  /** `getDBFieldName`: the selected constant's column name, or null when
      nothing is selected. */
  function DBFieldName(p: PropRef): (r: Option<string>)
    ensures r.Some? ==> Persistable(p)
    ensures Persistable(p) ==> r == p.dbFieldInfo.value.dbName
  {
    if Persistable(p) then p.dbFieldInfo.value.dbName else None
  }

  /** A freshly built reference that becomes persistable has the constant
      named after the property, and a usable column name. */
  lemma FreshPersistableHasColumn<V>(field: FieldDecl, cls: ClassLevel, inst: Instance<V>)
    requires New(Some(field), Some(cls)).Ok?
    requires InitDBProperty(New(Some(field), Some(cls)).value, Some(inst)).Ok?
    ensures var p := InitDBProperty(New(Some(field), Some(cls)).value, Some(inst)).value;
      && (Persistable(p) <==> HasUsable(FieldKey(field.name), inst.fieldNames.value))
      && (Persistable(p) ==>
        && p.dbFieldInfo.value.name == FieldKey(field.name)
        && DBFieldName(p).Some? && !Blank(DBFieldName(p).value)
        && exists i :: 0 <= i < |inst.fieldNames.value| && inst.fieldNames.value[i] == p.dbFieldInfo
             && Passes(FieldKey(field.name), inst.fieldNames.value, i))
  {
    var fs := inst.fieldNames.value;
    var k := FieldKey(field.name);
    if HasUsable(k, fs) {
      var i :| 0 <= i < |fs| && fs[i].Some? && Usable(k, fs[i].value);
      assert !Passes(k, fs, |fs|);
    }
  }

  /** `set(inst, arg)`: a no-op without a setter; otherwise the setter runs,
      and a failed reflective call (`accepted` false: the argument does not
      fit the parameter type, or the setter throws) is rethrown. */
  function Set<V>(p: PropRef, inst: Instance<V>, arg: JValue<V>, accepted: bool): (r: Result<Instance<V>>)
    ensures !Writable(p) ==> r == Ok(inst)
    ensures r.Err? <==> Writable(p) && !accepted
    ensures r.Err? ==> r.error == Invocation
    ensures r.Ok? ==> r.value.fieldNames == inst.fieldNames
    ensures r.Ok? ==> forall n :: n != p.field.name ==> (n in r.value.values <==> n in inst.values)
    ensures r.Ok? ==> forall n :: n in inst.values && n != p.field.name ==> r.value.values[n] == inst.values[n]
  {
    if !Writable(p) then Ok(inst)
    else if accepted then Ok(inst.(values := inst.values[p.field.name := arg]))
    else Err(Invocation)
  }

  /** `get(inst)`: null without a reader; otherwise the getter runs, and a
      failed reflective call (`answered` false: the getter throws) is
      rethrown. A getter that answers returns the property's value, which is
      null until it is first set. */
  function Get<V>(p: PropRef, inst: Instance<V>, answered: bool): (r: Result<JValue<V>>)
    ensures !Readable(p) ==> r == Ok(Null)
    ensures r.Err? <==> Readable(p) && !answered
    ensures r.Err? ==> r.error == Invocation
    ensures Readable(p) && answered && p.field.name !in inst.values ==> r == Ok(Null)
  {
    if !Readable(p) then Ok(Null)
    else if !answered then Err(Invocation)
    else if p.field.name in inst.values then Ok(inst.values[p.field.name])
    else Ok(Null)
  }

  /** What a successful `set` stores, `get` reads back. */
  lemma GetAfterSet<V>(p: PropRef, inst: Instance<V>, arg: JValue<V>)
    requires Readable(p) && Writable(p)
    ensures Set(p, inst, arg, true).Ok?
    ensures Get(p, Set(p, inst, arg, true).value, true) == Ok(arg)
  {
  }

  /** Every reference the constructor builds reads and writes, so the
      guards in `set` and `get` only matter for references built otherwise. */
  lemma ConstructedHasAccessors<V>(field: FieldDecl, cls: ClassLevel, inst: Instance<V>, arg: JValue<V>)
    requires New(Some(field), Some(cls)).Ok?
    ensures var p := New(Some(field), Some(cls)).value;
      Set(p, inst, arg, true) == Ok(inst.(values := inst.values[field.name := arg]))
  {
  }
}
