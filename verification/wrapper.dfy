/** DefaultWrapper: turns the current row of a result set into an entity
    object, field by field and class level by class level, and keeps a
    registry of the properties it found on its first completed wrap.
    The result set's row, the driver's conversions and the entity's setters
    are parameters: `row`, `convert`, and `accepts`, which says whether the
    reflective setter call succeeds for a field and an argument. */
module DefaultWrapper {
  import opened Common
  import opened Jdbc
  import opened Entities
  import opened FieldReference

  /** The wrapper's state: whether the registry is still being filled, and
      the registry itself. */
  datatype Wrapper = Wrapper(needInitProperties: bool, properties: seq<PropRef>)

  /** A newly built wrapper. */
  function Initial(): (w: Wrapper)
    ensures w.needInitProperties && |w.properties| == 0
  {
    Wrapper(true, [])
  }

  /** A new wrapper answers every lookup with null and no name as present;
      its first completed wrap closes the registry over registered
      properties only, so every later lookup returns without throwing. */
  lemma FirstWrapFillsRegistry<V>(name: Option<string>, fieldName: Option<string>, obj: Instance<V>, levels: seq<ClassLevel>,
                                  row: Row<V>, convert: (Getter, V) -> Option<V>, accepts: (FieldDecl, JValue<V>) -> bool)
    ensures !HasProperty(Initial(), name)
    ensures GetPropertyByName(Initial(), name) == Ok(None) && GetPropertyByFieldName(Initial(), fieldName) == Ok(None)
    ensures var w := Wrap(Initial(), Some(obj), levels, row, convert, accepts).0;
      && !w.needInitProperties && AllRegistered(w.properties)
      && GetPropertyByName(w, name).Ok? && GetPropertyByFieldName(w, fieldName).Ok?
  {
    var w := Wrap(Initial(), Some(obj), levels, row, convert, accepts).0;
    RegistryLookupSafe(w.properties, name, None);
    RegistryLookupSafe(w.properties, None, fieldName);
  }

  /** The filter of `handleClassFields`: readable, writable and persistable. */
  predicate Eligible(p: PropRef) {
    Readable(p) && Writable(p) && Persistable(p)
  }

  /** What a registered property looks like: eligible, with a usable column
      name. */
  predicate Registered(p: PropRef) {
    Eligible(p) && DBFieldName(p).Some? && !Blank(DBFieldName(p).value)
  }

  predicate AllRegistered(ps: seq<PropRef>) {
    forall i :: 0 <= i < |ps| ==> Registered(ps[i])
  }

  /** `getPropertyRef`: a new reference for the field of this class level,
      initialised from the entity object. */
  function PropertyRefFor<V>(inst: Instance<V>, field: FieldDecl, level: ClassLevel): (r: Result<PropRef>)
    ensures r.Ok? ==> r.value.field == field && Readable(r.value) && Writable(r.value)
    ensures r.Ok? && Persistable(r.value) ==> Registered(r.value)
  {
    match New(Some(field), Some(level))
    case Err(e) => Err(e)
    case Ok(p) =>
      var r := InitDBProperty(p, Some(inst));
      assert r.Ok? && Persistable(r.value) ==> Registered(r.value) by {
        if r.Ok? { FreshPersistableHasColumn(field, level, inst); }
      }
      r
  }

  /** The value a field writes into the object, if any: the reference must
      build and pass the filter, the getter the type table picks must read
      the column its constant names, and the setter must accept the value.
      Only the object's `getFieldNames` matters, not its current values. */
  function Writes<V>(fieldNames: Option<seq<Option<IField>>>, field: FieldDecl, level: ClassLevel,
                     row: Row<V>, convert: (Getter, V) -> Option<V>, accepts: (FieldDecl, JValue<V>) -> bool): (r: Option<JValue<V>>)
    ensures r.Some? ==>
      && var p := PropertyRefFor<V>(Instance(fieldNames, map[]), field, level);
      && p.Ok? && Registered(p.value)
      && Fetch(row, GetterFor(field.typeName), DBFieldName(p.value), convert) == Ok(r.value)
      && accepts(field, r.value)
    ensures var p := PropertyRefFor<V>(Instance(fieldNames, map[]), field, level);
      p.Ok? && Eligible(p.value) ==>
        var read := Fetch(row, GetterFor(field.typeName), DBFieldName(p.value), convert);
        read.Ok? && accepts(field, read.value) ==> r == Some(read.value)
  {
    match PropertyRefFor<V>(Instance(fieldNames, map[]), field, level)
    case Err(_) => None
    case Ok(p) =>
      if !Eligible(p) then None
      else
        match Fetch(row, GetterFor(field.typeName), DBFieldName(p), convert)
        case Err(_) => None
        case Ok(v) => if accepts(field, v) then Some(v) else None
  }

  /** One iteration of the field loop in `handleClassFields`, with its
      catch-all handler: any failure ends this field only. An eligible
      reference is registered (on the first wrap) before its column is
      read. */
  function HandleField<V>(w: Wrapper, inst: Instance<V>, field: FieldDecl, level: ClassLevel,
                          row: Row<V>, convert: (Getter, V) -> Option<V>, accepts: (FieldDecl, JValue<V>) -> bool): (r: (Wrapper, Instance<V>))
    ensures r.0.needInitProperties == w.needInitProperties
    ensures !w.needInitProperties ==> r.0 == w
    ensures r.0.properties == w.properties || (|r.0.properties| == |w.properties| + 1 && r.0.properties[..|w.properties|] == w.properties)
    ensures AllRegistered(w.properties) ==> AllRegistered(r.0.properties)
    ensures r.1 == Apply(inst, field, Writes(inst.fieldNames, field, level, row, convert, accepts))
  {
    PropertyRefIgnoresValues(inst, field, level);
    match PropertyRefFor(inst, field, level)
    case Err(_) => (w, inst)
    case Ok(p) =>
      if !Eligible(p) then (w, inst)
      else
        var w1 := if w.needInitProperties then w.(properties := w.properties + [p]) else w;
        match Fetch(row, GetterFor(p.field.typeName), DBFieldName(p), convert)
        case Err(_) => (w1, inst)
        case Ok(v) =>
          match Set(p, inst, v, accepts(field, v))
          case Err(_) => (w1, inst)
          case Ok(inst') => (w1, inst')
  }

  /** The object after a field wrote `v`, or unchanged when it wrote nothing. */
  function Apply<V>(inst: Instance<V>, field: FieldDecl, v: Option<JValue<V>>): Instance<V> {
    if v.Some? then inst.(values := inst.values[field.name := v.value]) else inst
  }

  /** Building the reference consults the object's field constants only. */
  lemma PropertyRefIgnoresValues<V>(inst: Instance<V>, field: FieldDecl, level: ClassLevel)
    ensures PropertyRefFor(inst, field, level) == PropertyRefFor<V>(Instance(inst.fieldNames, map[]), field, level)
  {
  }

  /** The field loop of `handleClassFields`. */
  function HandleFields<V>(w: Wrapper, inst: Instance<V>, fields: seq<FieldDecl>, level: ClassLevel,
                           row: Row<V>, convert: (Getter, V) -> Option<V>, accepts: (FieldDecl, JValue<V>) -> bool): (r: (Wrapper, Instance<V>))
    ensures r.0.needInitProperties == w.needInitProperties
    ensures !w.needInitProperties ==> r.0 == w
    ensures |w.properties| <= |r.0.properties| && r.0.properties[..|w.properties|] == w.properties
    ensures AllRegistered(w.properties) ==> AllRegistered(r.0.properties)
    ensures r.1.fieldNames == inst.fieldNames
    decreases |fields|
  {
    if |fields| == 0 then (w, inst)
    else
      var (w1, inst1) := HandleField(w, inst, fields[0], level, row, convert, accepts);
      var r := HandleFields(w1, inst1, fields[1..], level, row, convert, accepts);
      assert r.0.properties[..|w.properties|] == r.0.properties[..|w1.properties|][..|w.properties|];
      r
  }

  /** `handleClassFields` for one class level: a level whose fields cannot
      be listed throws, and the handler in `wrap` skips the level. */
  function HandleLevel<V>(w: Wrapper, inst: Instance<V>, level: ClassLevel,
                          row: Row<V>, convert: (Getter, V) -> Option<V>, accepts: (FieldDecl, JValue<V>) -> bool): (Wrapper, Instance<V>)
  {
    match level.declared
    case None => (w, inst)
    case Some(fields) => HandleFields(w, inst, fields, level, row, convert, accepts)
  }

  /** The level loop of `wrap`: from the entity class up to, not including,
      Object. */
  function HandleLevels<V>(w: Wrapper, inst: Instance<V>, levels: seq<ClassLevel>,
                           row: Row<V>, convert: (Getter, V) -> Option<V>, accepts: (FieldDecl, JValue<V>) -> bool): (r: (Wrapper, Instance<V>))
    ensures r.0.needInitProperties == w.needInitProperties
    ensures !w.needInitProperties ==> r.0 == w
    ensures |w.properties| <= |r.0.properties| && r.0.properties[..|w.properties|] == w.properties
    ensures AllRegistered(w.properties) ==> AllRegistered(r.0.properties)
    ensures r.1.fieldNames == inst.fieldNames
    decreases |levels|
  {
    if |levels| == 0 then (w, inst)
    else
      var (w1, inst1) := HandleLevel(w, inst, levels[0], row, convert, accepts);
      var r := HandleLevels(w1, inst1, levels[1..], row, convert, accepts);
      assert r.0.properties[..|w.properties|] == r.0.properties[..|w1.properties|][..|w.properties|];
      r
  }

  /** `wrap(rs, cls)`. `obj` is the freshly instantiated entity, or None
      when instantiation throws: then the result is null and nothing
      changes. Otherwise every level is handled and the registry closes. */
  function Wrap<V>(w: Wrapper, obj: Option<Instance<V>>, levels: seq<ClassLevel>,
                   row: Row<V>, convert: (Getter, V) -> Option<V>, accepts: (FieldDecl, JValue<V>) -> bool): (r: (Wrapper, Option<Instance<V>>))
    ensures obj.None? ==> r.0 == w && r.1.None?
    ensures obj.Some? ==> !r.0.needInitProperties && r.1.Some? && r.1.value.fieldNames == obj.value.fieldNames
    ensures !w.needInitProperties ==> r.0 == w
    ensures |w.properties| <= |r.0.properties| && r.0.properties[..|w.properties|] == w.properties
    ensures AllRegistered(w.properties) ==> AllRegistered(r.0.properties)
  {
    match obj
    case None => (w, None)
    case Some(o) =>
      var (w1, o1) := HandleLevels(w, o, levels, row, convert, accepts);
      (w1.(needInitProperties := false), Some(o1))
  }

  /** The registry is filled by the first completed wrap only: every later
      wrap, whatever it reads, leaves the wrapper as it was. */
  lemma RegistryFixedAfterFirstWrap<V>(w: Wrapper, obj: Instance<V>, levels: seq<ClassLevel>, row: Row<V>,
                                       convert: (Getter, V) -> Option<V>, accepts: (FieldDecl, JValue<V>) -> bool,
                                       obj2: Option<Instance<V>>, levels2: seq<ClassLevel>, row2: Row<V>)
    ensures var w1 := Wrap(w, Some(obj), levels, row, convert, accepts).0;
      Wrap(w1, obj2, levels2, row2, convert, accepts).0 == w1
  {
  }

  /** Registration precedes the read: an eligible field is registered on
      the first wrap even when its column is missing. */
  lemma RegisteredEvenIfReadFails<V>(w: Wrapper, inst: Instance<V>, field: FieldDecl, level: ClassLevel,
                                     row: Row<V>, convert: (Getter, V) -> Option<V>, accepts: (FieldDecl, JValue<V>) -> bool)
    requires w.needInitProperties
    requires PropertyRefFor(inst, field, level).Ok? && Eligible(PropertyRefFor(inst, field, level).value)
    requires DBFieldName(PropertyRefFor(inst, field, level).value).value !in row
    ensures HandleField(w, inst, field, level, row, convert, accepts).0.properties == w.properties + [PropertyRefFor(inst, field, level).value]
    ensures HandleField(w, inst, field, level, row, convert, accepts).1 == inst
  {
  }

  /** The object the field loop produces does not depend on the registry. */
  lemma {:induction false} FieldsIgnoreRegistry<V>(w: Wrapper, w': Wrapper, inst: Instance<V>, fields: seq<FieldDecl>, level: ClassLevel,
                                                  row: Row<V>, convert: (Getter, V) -> Option<V>, accepts: (FieldDecl, JValue<V>) -> bool)
    ensures HandleFields(w, inst, fields, level, row, convert, accepts).1 == HandleFields(w', inst, fields, level, row, convert, accepts).1
    decreases |fields|
  {
    if |fields| > 0 {
      var (w1, i1) := HandleField(w, inst, fields[0], level, row, convert, accepts);
      var (w1', i1') := HandleField(w', inst, fields[0], level, row, convert, accepts);
      FieldsIgnoreRegistry(w1, w1', i1, fields[1..], level, row, convert, accepts);
    }
  }

  /** A field that writes nothing can be dropped without changing the object
      the level produces: its failure does not stop the fields after it. */
  lemma {:induction false} FailingFieldIsolated<V>(w: Wrapper, inst: Instance<V>, before: seq<FieldDecl>, bad: FieldDecl, after: seq<FieldDecl>,
                                                   level: ClassLevel, row: Row<V>, convert: (Getter, V) -> Option<V>, accepts: (FieldDecl, JValue<V>) -> bool)
    requires Writes(inst.fieldNames, bad, level, row, convert, accepts).None?
    ensures HandleFields(w, inst, before + [bad] + after, level, row, convert, accepts).1
         == HandleFields(w, inst, before + after, level, row, convert, accepts).1
    decreases |before|
  {
    if |before| == 0 {
      assert before + [bad] + after == [bad] + after;
      assert ([bad] + after)[1..] == after;
      assert before + after == after;
      var (w1, i1) := HandleField(w, inst, bad, level, row, convert, accepts);
      FieldsIgnoreRegistry(w1, w, i1, after, level, row, convert, accepts);
    } else {
      assert (before + [bad] + after)[0] == before[0] && (before + [bad] + after)[1..] == before[1..] + [bad] + after;
      assert (before + after)[0] == before[0] && (before + after)[1..] == before[1..] + after;
      var (w1, i1) := HandleField(w, inst, before[0], level, row, convert, accepts);
      FailingFieldIsolated(w1, i1, before[1..], bad, after, level, row, convert, accepts);
    }
  }

  /** Fields other than `name` leave the value of `name` alone. */
  lemma {:induction false} FieldsFrame<V>(w: Wrapper, inst: Instance<V>, fields: seq<FieldDecl>, level: ClassLevel,
                                          row: Row<V>, convert: (Getter, V) -> Option<V>, accepts: (FieldDecl, JValue<V>) -> bool, name: string)
    requires forall i :: 0 <= i < |fields| ==> fields[i].name != name
    requires name in inst.values
    ensures var r := HandleFields(w, inst, fields, level, row, convert, accepts).1;
      name in r.values && r.values[name] == inst.values[name]
    decreases |fields|
  {
    if |fields| > 0 {
      var (w1, i1) := HandleField(w, inst, fields[0], level, row, convert, accepts);
      FieldsFrame(w1, i1, fields[1..], level, row, convert, accepts, name);
    }
  }

  /** A field that reads a value keeps it, whatever the fields before it do
      and however the fields after it fail, unless a later field of the same
      name overwrites it. */
  lemma {:induction false} FieldValueLands<V>(w: Wrapper, inst: Instance<V>, before: seq<FieldDecl>, f: FieldDecl, after: seq<FieldDecl>,
                                              level: ClassLevel, row: Row<V>, convert: (Getter, V) -> Option<V>, accepts: (FieldDecl, JValue<V>) -> bool)
    requires Writes(inst.fieldNames, f, level, row, convert, accepts).Some?
    requires forall i :: 0 <= i < |after| ==> after[i].name != f.name
    ensures var r := HandleFields(w, inst, before + [f] + after, level, row, convert, accepts).1;
      f.name in r.values && r.values[f.name] == Writes(inst.fieldNames, f, level, row, convert, accepts).value
    decreases |before|
  {
    if |before| == 0 {
      assert before + [f] + after == [f] + after;
      FieldValueLandsFirst(w, inst, f, after, level, row, convert, accepts);
    } else {
      assert (before + [f] + after)[0] == before[0] && (before + [f] + after)[1..] == before[1..] + [f] + after;
      var r1 := HandleField(w, inst, before[0], level, row, convert, accepts);
      HandleFieldsCons(w, inst, before[0], before[1..] + [f] + after, level, row, convert, accepts);
      assert before + [f] + after == [before[0]] + (before[1..] + [f] + after);
      FieldValueLands(r1.0, r1.1, before[1..], f, after, level, row, convert, accepts);
    }
  }

  /** One step of the field loop; the object's field constants stay put. */
  lemma HandleFieldsCons<V>(w: Wrapper, inst: Instance<V>, g: FieldDecl, rest: seq<FieldDecl>,
                            level: ClassLevel, row: Row<V>, convert: (Getter, V) -> Option<V>, accepts: (FieldDecl, JValue<V>) -> bool)
    ensures var r1 := HandleField(w, inst, g, level, row, convert, accepts);
      && HandleFields(w, inst, [g] + rest, level, row, convert, accepts) == HandleFields(r1.0, r1.1, rest, level, row, convert, accepts)
      && r1.1.fieldNames == inst.fieldNames
  {
    assert ([g] + rest)[0] == g && ([g] + rest)[1..] == rest;
  }

  /** The first field of the loop writes its value, and the fields after it,
      being of other names, keep it. */
  lemma FieldValueLandsFirst<V>(w: Wrapper, inst: Instance<V>, f: FieldDecl, after: seq<FieldDecl>,
                                level: ClassLevel, row: Row<V>, convert: (Getter, V) -> Option<V>, accepts: (FieldDecl, JValue<V>) -> bool)
    requires Writes(inst.fieldNames, f, level, row, convert, accepts).Some?
    requires forall i :: 0 <= i < |after| ==> after[i].name != f.name
    ensures var r := HandleFields(w, inst, [f] + after, level, row, convert, accepts).1;
      f.name in r.values && r.values[f.name] == Writes(inst.fieldNames, f, level, row, convert, accepts).value
  {
    assert ([f] + after)[0] == f && ([f] + after)[1..] == after;
    var (w1, i1) := HandleField(w, inst, f, level, row, convert, accepts);
    assert HandleFields(w, inst, [f] + after, level, row, convert, accepts) == HandleFields(w1, i1, after, level, row, convert, accepts);
    FieldsFrame(w1, i1, after, level, row, convert, accepts, f.name);
  }

  /** Whether `level` lists a field named `name`. */
  predicate Declares(level: ClassLevel, name: string) {
    level.declared.Some? && exists i :: 0 <= i < |level.declared.value| && level.declared.value[i].name == name
  }

  /** One step of the level loop; the object's field constants stay put. */
  lemma HandleLevelsCons<V>(w: Wrapper, inst: Instance<V>, level: ClassLevel, rest: seq<ClassLevel>,
                            row: Row<V>, convert: (Getter, V) -> Option<V>, accepts: (FieldDecl, JValue<V>) -> bool)
    ensures var r1 := HandleLevel(w, inst, level, row, convert, accepts);
      && HandleLevels(w, inst, [level] + rest, row, convert, accepts) == HandleLevels(r1.0, r1.1, rest, row, convert, accepts)
      && r1.1.fieldNames == inst.fieldNames
  {
    assert ([level] + rest)[0] == level && ([level] + rest)[1..] == rest;
  }

  /** Levels that declare no field named `name` leave its value alone. */
  lemma {:induction false} LevelsFrame<V>(w: Wrapper, inst: Instance<V>, levels: seq<ClassLevel>,
                                          row: Row<V>, convert: (Getter, V) -> Option<V>, accepts: (FieldDecl, JValue<V>) -> bool, name: string)
    requires forall j :: 0 <= j < |levels| ==> !Declares(levels[j], name)
    requires name in inst.values
    ensures var r := HandleLevels(w, inst, levels, row, convert, accepts).1;
      name in r.values && r.values[name] == inst.values[name]
    decreases |levels|
  {
    if |levels| > 0 {
      var (w1, i1) := HandleLevel(w, inst, levels[0], row, convert, accepts);
      if levels[0].declared.Some? {
        var fields := levels[0].declared.value;
        assert forall i :: 0 <= i < |fields| ==> fields[i].name != name by {
          assert !Declares(levels[0], name);
        }
        FieldsFrame(w, inst, fields, levels[0], row, convert, accepts, name);
      }
      LevelsFrame(w1, i1, levels[1..], row, convert, accepts, name);
    }
  }

  /** A field that reads a value keeps it through the rest of the level loop
      unless a later field of the same name overwrites it. Later means the
      same level's later fields or a superclass level above it: a superclass
      field of the same name that writes a value does overwrite it. The
      subclass levels below may declare the name freely. */
  lemma {:induction false} LevelValueLands<V>(w: Wrapper, inst: Instance<V>, below: seq<ClassLevel>, level: ClassLevel, above: seq<ClassLevel>,
                                              before: seq<FieldDecl>, f: FieldDecl, after: seq<FieldDecl>,
                                              row: Row<V>, convert: (Getter, V) -> Option<V>, accepts: (FieldDecl, JValue<V>) -> bool)
    requires level.declared == Some(before + [f] + after)
    requires Writes(inst.fieldNames, f, level, row, convert, accepts).Some?
    requires forall i :: 0 <= i < |after| ==> after[i].name != f.name
    requires forall j :: 0 <= j < |above| ==> !Declares(above[j], f.name)
    ensures var r := HandleLevels(w, inst, below + [level] + above, row, convert, accepts).1;
      f.name in r.values && r.values[f.name] == Writes(inst.fieldNames, f, level, row, convert, accepts).value
    decreases |below|
  {
    if |below| == 0 {
      assert below + [level] + above == [level] + above;
      HandleLevelsCons(w, inst, level, above, row, convert, accepts);
      var (w1, i1) := HandleLevel(w, inst, level, row, convert, accepts);
      FieldValueLands(w, inst, before, f, after, level, row, convert, accepts);
      LevelsFrame(w1, i1, above, row, convert, accepts, f.name);
    } else {
      assert below + [level] + above == [below[0]] + (below[1..] + [level] + above);
      HandleLevelsCons(w, inst, below[0], below[1..] + [level] + above, row, convert, accepts);
      var (w1, i1) := HandleLevel(w, inst, below[0], row, convert, accepts);
      LevelValueLands(w1, i1, below[1..], level, above, before, f, after, row, convert, accepts);
    }
  }

  /** The wrapped entity holds the value a field read, unless a later field
      of its level or a field of the same name in a superclass level
      overwrites it. */
  lemma WrappedValueLands<V>(w: Wrapper, obj: Instance<V>, below: seq<ClassLevel>, level: ClassLevel, above: seq<ClassLevel>,
                             before: seq<FieldDecl>, f: FieldDecl, after: seq<FieldDecl>,
                             row: Row<V>, convert: (Getter, V) -> Option<V>, accepts: (FieldDecl, JValue<V>) -> bool)
    requires level.declared == Some(before + [f] + after)
    requires Writes(obj.fieldNames, f, level, row, convert, accepts).Some?
    requires forall i :: 0 <= i < |after| ==> after[i].name != f.name
    requires forall j :: 0 <= j < |above| ==> !Declares(above[j], f.name)
    ensures var r := Wrap(w, Some(obj), below + [level] + above, row, convert, accepts).1;
      r.Some? && f.name in r.value.values
      && r.value.values[f.name] == Writes(obj.fieldNames, f, level, row, convert, accepts).value
  {
    LevelValueLands(w, obj, below, level, above, before, f, after, row, convert, accepts);
  }

  /** A level whose fields cannot be listed can be dropped without changing
      anything: the levels above it are still handled. */
  lemma {:induction false} FailingLevelIsolated<V>(w: Wrapper, inst: Instance<V>, below: seq<ClassLevel>, bad: ClassLevel, above: seq<ClassLevel>,
                                                   row: Row<V>, convert: (Getter, V) -> Option<V>, accepts: (FieldDecl, JValue<V>) -> bool)
    requires bad.declared.None?
    ensures HandleLevels(w, inst, below + [bad] + above, row, convert, accepts)
         == HandleLevels(w, inst, below + above, row, convert, accepts)
    decreases |below|
  {
    if |below| == 0 {
      assert below + [bad] + above == [bad] + above;
      assert ([bad] + above)[1..] == above;
      assert below + above == above;
    } else {
      assert (below + [bad] + above)[0] == below[0] && (below + [bad] + above)[1..] == below[1..] + [bad] + above;
      assert (below + above)[0] == below[0] && (below + above)[1..] == below[1..] + above;
      var (w1, i1) := HandleLevel(w, inst, below[0], row, convert, accepts);
      FailingLevelIsolated(w1, i1, below[1..], bad, above, row, convert, accepts);
    }
  }

  /** The number of registered properties named `name`. */
  function CountNamed(ps: seq<PropRef>, name: Option<string>): (n: nat)
    ensures n > 0 <==> name.Some? && exists i :: 0 <= i < |ps| && ps[i].field.name == name.value
    ensures n <= |ps|
  {
    if |ps| == 0 then 0
    else
      assert forall i :: 1 <= i < |ps| ==> ps[i] == ps[1..][i - 1];
      (if name == Some(ps[0].field.name) then 1 else 0) + CountNamed(ps[1..], name)
  }

  /** `hasProperty(name)`: some registered property has that name. */
  function HasProperty(w: Wrapper, name: Option<string>): (r: bool)
    ensures r <==> name.Some? && exists i :: 0 <= i < |w.properties| && w.properties[i].field.name == name.value
  {
    |w.properties| > 0 && CountNamed(w.properties, name) > 0
  }

  /** The filter of `getProperty`: the name matches, or else the column
      name matches; `getDBFieldName().equals` on a null column name throws. */
  predicate Hit(p: PropRef, name: Option<string>, fieldName: Option<string>) {
    name == Some(p.field.name) || (DBFieldName(p).Some? && fieldName == DBFieldName(p))
  }

  /** The filter rejects `p` without throwing. */
  predicate Miss(p: PropRef, name: Option<string>, fieldName: Option<string>) {
    name != Some(p.field.name) && DBFieldName(p).Some? && fieldName != DBFieldName(p)
  }

  predicate MissedBefore(ps: seq<PropRef>, name: Option<string>, fieldName: Option<string>, i: int)
    requires 0 <= i <= |ps|
  {
    forall j :: 0 <= j < i ==> Miss(ps[j], name, fieldName)
  }

  /** `getProperty(name, fieldName)`: the first registered property the
      filter accepts, or null. */
  function GetProperty(ps: seq<PropRef>, name: Option<string>, fieldName: Option<string>): (r: Result<Option<PropRef>>)
    ensures r == Ok(None) <==> MissedBefore(ps, name, fieldName, |ps|)
    ensures r.Err? ==>
      && r.error == NullPointer
      && exists i :: 0 <= i < |ps| && !Hit(ps[i], name, fieldName) && !Miss(ps[i], name, fieldName) && MissedBefore(ps, name, fieldName, i)
    ensures r.Ok? && r.value.Some? ==>
      exists i :: 0 <= i < |ps| && ps[i] == r.value.value && Hit(ps[i], name, fieldName) && MissedBefore(ps, name, fieldName, i)
  {
    if |ps| == 0 then Ok(None)
    else if Miss(ps[0], name, fieldName) then
      MissedShift(ps, name, fieldName);
      GetProperty(ps[1..], name, fieldName)
    else
      assert !MissedBefore(ps, name, fieldName, |ps|);
      if Hit(ps[0], name, fieldName) then Ok(Some(ps[0])) else Err(NullPointer)
  }

  lemma MissedShift(ps: seq<PropRef>, name: Option<string>, fieldName: Option<string>)
    requires |ps| > 0 && Miss(ps[0], name, fieldName)
    ensures forall i :: 0 <= i <= |ps| - 1 ==> (MissedBefore(ps[1..], name, fieldName, i) <==> MissedBefore(ps, name, fieldName, i + 1))
  {
    forall i | 0 <= i <= |ps| - 1
      ensures MissedBefore(ps[1..], name, fieldName, i) <==> MissedBefore(ps, name, fieldName, i + 1)
    {
      if MissedBefore(ps, name, fieldName, i + 1) {
        forall j | 0 <= j < i ensures Miss(ps[1..][j], name, fieldName) {
          assert ps[1..][j] == ps[j + 1];
        }
      }
      if MissedBefore(ps[1..], name, fieldName, i) {
        forall j | 0 <= j < i + 1 ensures Miss(ps[j], name, fieldName) {
          if j > 0 { assert ps[j] == ps[1..][j - 1]; }
        }
      }
    }
  }

  /** Over a registry the wrapper filled, the filter never throws. */
  lemma {:induction false} RegistryLookupSafe(ps: seq<PropRef>, name: Option<string>, fieldName: Option<string>)
    requires AllRegistered(ps)
    ensures GetProperty(ps, name, fieldName).Ok?
  {
    if |ps| > 0 && Miss(ps[0], name, fieldName) {
      assert AllRegistered(ps[1..]) by {
        forall i | 0 <= i < |ps| - 1 ensures Registered(ps[1..][i]) { assert ps[1..][i] == ps[i + 1]; }
      }
      RegistryLookupSafe(ps[1..], name, fieldName);
    }
  }

  /** `getPropertyByName(name)`: `getProperty(name, null)`. */
  function GetPropertyByName(w: Wrapper, name: Option<string>): (r: Result<Option<PropRef>>)
    ensures |w.properties| == 0 ==> r == Ok(None)
    ensures r.Ok? && r.value.Some? ==> name == Some(r.value.value.field.name) && r.value.value in w.properties
  {
    if |w.properties| == 0 then Ok(None) else GetProperty(w.properties, name, None)
  }

  /** `getPropertyByFieldName(fieldName)`: `getProperty(null, fieldName)`. */
  function GetPropertyByFieldName(w: Wrapper, fieldName: Option<string>): (r: Result<Option<PropRef>>)
    ensures |w.properties| == 0 ==> r == Ok(None)
    ensures r.Ok? && r.value.Some? ==> DBFieldName(r.value.value) == fieldName && fieldName.Some? && r.value.value in w.properties
  {
    if |w.properties| == 0 then Ok(None) else GetProperty(w.properties, None, fieldName)
  }

  /** Over the wrapper's registry, lookup by name finds exactly the first
      property of that name, and finds nothing exactly when `hasProperty`
      is false. */
  lemma ByNameFindsFirst(w: Wrapper, name: Option<string>)
    requires AllRegistered(w.properties)
    ensures GetPropertyByName(w, name).Ok?
    ensures GetPropertyByName(w, name).value.Some? <==> HasProperty(w, name)
    ensures GetPropertyByName(w, name).value.Some? ==>
      exists i :: 0 <= i < |w.properties| && w.properties[i] == GetPropertyByName(w, name).value.value
        && forall j :: 0 <= j < i ==> Some(w.properties[j].field.name) != name
  {
    RegistryLookupSafe(w.properties, name, None);
    var r := GetPropertyByName(w, name);
    if HasProperty(w, name) {
      var i :| 0 <= i < |w.properties| && w.properties[i].field.name == name.value;
      assert !Miss(w.properties[i], name, None);
    }
  }

  /** Over the wrapper's registry, lookup by column name finds exactly the
      first property with that column name, or nothing if none has it. */
  lemma ByFieldNameFindsFirst(w: Wrapper, fieldName: Option<string>)
    requires AllRegistered(w.properties)
    ensures GetPropertyByFieldName(w, fieldName).Ok?
    ensures GetPropertyByFieldName(w, fieldName).value.Some? <==>
      exists i :: 0 <= i < |w.properties| && DBFieldName(w.properties[i]) == fieldName
    ensures GetPropertyByFieldName(w, fieldName).value.Some? ==>
      exists i :: 0 <= i < |w.properties| && w.properties[i] == GetPropertyByFieldName(w, fieldName).value.value
        && forall j :: 0 <= j < i ==> DBFieldName(w.properties[j]) != fieldName
  {
    RegistryLookupSafe(w.properties, None, fieldName);
    var r := GetPropertyByFieldName(w, fieldName);
    if exists i :: 0 <= i < |w.properties| && DBFieldName(w.properties[i]) == fieldName {
      var i :| 0 <= i < |w.properties| && DBFieldName(w.properties[i]) == fieldName;
      assert !Miss(w.properties[i], None, fieldName);
    }
  }
}
