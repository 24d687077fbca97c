/** DBPropertyReferenceAnnotation: persistence decided by annotations
    rather than IField constants. The column name is looked up once, on the
    first question asked, and remembered. */
module AnnotationReference {
  import opened Common
  import PropsReference

  /** The annotations the lookup inspects; every other annotation is
      `OtherAnnotation`. */
  datatype Annotation = PersistedEntity(value: string) | PersistedField(value: string) | OtherAnnotation

  /** The containing class: its own annotations, and the annotations of
      each field it declares itself, by field name. */
  datatype AnnotatedClass = AnnotatedClass(annotations: seq<Annotation>, declared: map<string, seq<Annotation>>)

  /** The reference: the inherited state, the containing class, the
      `init` flag and the remembered column name. */
  datatype AnnRef = AnnRef(base: PropsReference.PropsRef, containing: AnnotatedClass, init: bool, dbFieldName: Option<string>)

  /** The constructor: nothing looked up yet. */
  function New(name: string, containing: AnnotatedClass, readable: bool, writable: bool): (r: AnnRef)
    ensures r.base.name == name && r.containing == containing
    ensures !r.init && r.dbFieldName.None?
  {
    AnnRef(PropsReference.NewFromName(name, readable, writable), containing, false, None)
  }

  /** The class carries a PersistedEntity whose value is not blank. */
  predicate EntityMarked(cls: AnnotatedClass) {
    exists i :: 0 <= i < |cls.annotations| && cls.annotations[i].PersistedEntity? && !Blank(cls.annotations[i].value)
  }

  /** The scan of the class annotations: whether one is a PersistedEntity
      with a non-blank value, which is where the scan stops. */
  function FindEntityMark(anns: seq<Annotation>): (found: bool)
    ensures found <==> exists i :: 0 <= i < |anns| && anns[i].PersistedEntity? && !Blank(anns[i].value)
  {
    if |anns| == 0 then false
    else if anns[0].PersistedEntity? && !Blank(anns[0].value) then true
    else
      assert forall i :: 1 <= i < |anns| ==> anns[i] == anns[1..][i - 1];
      FindEntityMark(anns[1..])
  }

  /** The loop over a field's annotations: each PersistedField's value is
      taken in turn, and a blank one throws NoSuchFieldException, which the
      handler turns into null. */
  function FieldValue(anns: seq<Annotation>, current: Option<string>): (r: Option<string>)
    ensures (exists i :: 0 <= i < |anns| && anns[i].PersistedField? && Blank(anns[i].value)) ==> r.None?
    ensures (forall i :: 0 <= i < |anns| ==> !anns[i].PersistedField?) ==> r == current
    ensures (exists i :: 0 <= i < |anns| && anns[i].PersistedField?)
      && (forall i :: 0 <= i < |anns| && anns[i].PersistedField? ==> !Blank(anns[i].value))
      ==> r.Some? && !Blank(r.value) && PersistedField(r.value) in anns
  {
    if |anns| == 0 then current
    else
      assert forall i :: 1 <= i < |anns| ==> anns[i] == anns[1..][i - 1];
      match anns[0]
      case PersistedField(v) => if Blank(v) then None else FieldValue(anns[1..], Some(v))
      case _ => FieldValue(anns[1..], current)
  }

  /** `initDBProperty()`: runs once. With a marked class, a field the class
      does not declare gives null, and a declared one gives what its
      annotations give; an unmarked class leaves the column name alone. */
  function InitOnce(a: AnnRef): (r: AnnRef)
    ensures r.init
    ensures r.base == a.base && r.containing == a.containing
    ensures a.init ==> r == a
    ensures !a.init && !EntityMarked(a.containing) ==> r.dbFieldName == a.dbFieldName
    ensures !a.init && EntityMarked(a.containing) && a.base.name !in a.containing.declared ==> r.dbFieldName.None?
    ensures !a.init && r.dbFieldName.Some? && r.dbFieldName != a.dbFieldName ==>
      && EntityMarked(a.containing)
      && a.base.name in a.containing.declared
      && PersistedField(r.dbFieldName.value) in a.containing.declared[a.base.name]
      && !Blank(r.dbFieldName.value)
  {
    if a.init then a
    else
      var a1 := a.(init := true);
      if !FindEntityMark(a.containing.annotations) then a1
      else if a.base.name !in a.containing.declared then a1.(dbFieldName := None)
      else a1.(dbFieldName := FieldValue(a.containing.declared[a.base.name], a.dbFieldName))
  }

  /** `isPersistable()`: the lookup, then whether it found a column. */
  function IsPersistable(a: AnnRef): (r: (AnnRef, bool))
    ensures r.0.init && r.0.base == a.base && r.0.containing == a.containing
    ensures r.1 <==> r.0.dbFieldName.Some?
  {
    var a1 := InitOnce(a);
    (a1, a1.dbFieldName.Some?)
  }

  /** `getDBFieldName()`: the remembered column name when persistable. */
  function DBFieldName(a: AnnRef): (r: (AnnRef, Option<string>))
    ensures r.0 == IsPersistable(a).0
    ensures r.1.Some? <==> IsPersistable(a).1
    ensures r.1 == r.0.dbFieldName
  {
    var (a1, persistable) := IsPersistable(a);
    (a1, if persistable then a1.dbFieldName else None)
  }

  /** The lookup runs at most once: asking again changes nothing and gives
      the same answer. */
  lemma AskedTwice(a: AnnRef)
    ensures IsPersistable(IsPersistable(a).0) == IsPersistable(a)
    ensures DBFieldName(DBFieldName(a).0) == DBFieldName(a)
  {
  }

  /** The field is declared on the class, carries at least one
      PersistedField, and none of them is blank. */
  predicate FieldMarked(cls: AnnotatedClass, name: string) {
    && name in cls.declared
    && (exists i :: 0 <= i < |cls.declared[name]| && cls.declared[name][i].PersistedField?)
    && (forall i :: 0 <= i < |cls.declared[name]| && cls.declared[name][i].PersistedField? ==> !Blank(cls.declared[name][i].value))
  }

  /** For a freshly built reference: persistable exactly when both the
      class and the field are marked, and then the column name is the
      field annotation's non-blank value. */
  lemma FreshPersistableIff(name: string, cls: AnnotatedClass, readable: bool, writable: bool)
    ensures var (_, persistable) := IsPersistable(New(name, cls, readable, writable));
      persistable <==> EntityMarked(cls) && FieldMarked(cls, name)
    ensures var (_, column) := DBFieldName(New(name, cls, readable, writable));
      column.Some? ==> !Blank(column.value) && PersistedField(column.value) in cls.declared[name]
  {
    var a := New(name, cls, readable, writable);
    if EntityMarked(cls) && name in cls.declared {
      var anns := cls.declared[name];
      if !FieldMarked(cls, name) {
        if forall i :: 0 <= i < |anns| ==> !anns[i].PersistedField? {
          assert FieldValue(anns, None) == None;
        } else {
          var i :| 0 <= i < |anns| && anns[i].PersistedField? && Blank(anns[i].value);
          assert FieldValue(anns, None).None?;
        }
      }
    }
  }
}
