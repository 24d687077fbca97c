/** DBPropertyReferenceProps: a property reached through JavaFX's
    PropertyReference, paired with the IField constant that names its
    column. PropertyReference itself is not modelled: whether it can read
    and write the property is given when the reference is built. */
module PropsReference {
  import opened Common
  import opened Entities
  import FieldReference

  /** The property's name, the two accessor flags PropertyReference
      reports, and the selected IField constant. */
  datatype PropsRef = PropsRef(name: string, readable: bool, writable: bool, dbField: Option<IField>)

  predicate Persistable(p: PropsRef) { p.dbField.Some? }

  /** The constructor taking a Field: a null field throws before anything
      else happens. */
  function NewFromField(field: Option<FieldReference.FieldDecl>, readable: bool, writable: bool): (r: Result<PropsRef>)
    ensures r.Err? <==> field.None?
    ensures r.Err? ==> r.error == NullPointer
    ensures r.Ok? ==> r.value.name == field.value.name && !Persistable(r.value)
    ensures r.Ok? ==> r.value.readable == readable && r.value.writable == writable
  {
    if field.None? then Err(NullPointer) else Ok(PropsRef(field.value.name, readable, writable, None))
  }

  /** The constructor taking a property name: no check of its own. */
  function NewFromName(name: string, readable: bool, writable: bool): (r: PropsRef)
    ensures r.name == name && !Persistable(r)
  {
    PropsRef(name, readable, writable, None)
  }

  /** `initDBProperty(inst)`, keyed on the property's name. */
  function InitDBProperty<V>(p: PropsRef, inst: Option<Instance<V>>): (r: Result<PropsRef>)
    ensures inst.None? ==> r == Err(NullPointer)
    ensures r.Err? ==> r.error == NullPointer
    ensures r.Ok? ==> r.value.(dbField := p.dbField) == p
    ensures r.Ok? && r.value.dbField != p.dbField ==>
      && r.value.dbField.Some? && inst.Some? && inst.value.fieldNames.Some?
      && Usable(FieldKey(p.name), r.value.dbField.value)
      && Some(r.value.dbField.value) in inst.value.fieldNames.value
    ensures r.Err? <==> Lookup(inst, p.name, p.dbField).Err?
    ensures r.Ok? ==> r.value.dbField == Lookup(inst, p.name, p.dbField).value
  {
    match Lookup(inst, p.name, p.dbField)
    case Err(e) => Err(e)
    case Ok(sel) => Ok(p.(dbField := sel))
  }

  /** `getDBFieldName`: the selected constant's column name, or null. */
  function DBFieldName(p: PropsRef): (r: Option<string>)
    ensures r.Some? ==> Persistable(p)
    ensures Persistable(p) ==> r == p.dbField.value.dbName
  {
    if Persistable(p) then p.dbField.value.dbName else None
  }

  /** After a successful lookup on a new reference, the reference reports a
      column exactly when the entity lists a usable constant for the
      property, and the column is that of the first such constant. */
  lemma ColumnIsFirstUsable<V>(name: string, readable: bool, writable: bool, inst: Instance<V>)
    requires InitDBProperty(NewFromName(name, readable, writable), Some(inst)).Ok?
    ensures var p := InitDBProperty(NewFromName(name, readable, writable), Some(inst)).value;
      var fs := inst.fieldNames.value;
      && (DBFieldName(p).Some? <==> HasUsable(FieldKey(name), fs))
      && (DBFieldName(p).Some? ==>
        && !Blank(DBFieldName(p).value)
        && exists i :: 0 <= i < |fs| && fs[i] == p.dbField && Passes(FieldKey(name), fs, i)
             && DBFieldName(p) == fs[i].value.dbName)
  {
    var fs := inst.fieldNames.value;
    var k := FieldKey(name);
    if HasUsable(k, fs) {
      var i :| 0 <= i < |fs| && fs[i].Some? && Usable(k, fs[i].value);
      assert !Passes(k, fs, |fs|);
    }
  }

  /** Both reference kinds select the same constant for a property of the
      same name, and so report the same column. */
  lemma SameSelectionAsFieldReference<V>(p: PropsRef, q: FieldReference.PropRef, inst: Option<Instance<V>>)
    requires p.name == q.field.name && p.dbField == q.dbFieldInfo
    ensures InitDBProperty(p, inst).Ok? <==> FieldReference.InitDBProperty(q, inst).Ok?
    ensures InitDBProperty(p, inst).Ok? ==>
      && InitDBProperty(p, inst).value.dbField == FieldReference.InitDBProperty(q, inst).value.dbFieldInfo
      && DBFieldName(InitDBProperty(p, inst).value) == FieldReference.DBFieldName(FieldReference.InitDBProperty(q, inst).value)
  {
  }
}
