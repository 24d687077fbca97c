/** Entities as the persistence layer sees them: the IField constants an
    entity lists through `getFieldNames`, the lookup that pairs a property
    with its constant, and BaseEntity's concatenation of field arrays. */
module Entities {
  import opened Common
  import opened Jdbc

  /** An IField constant: the name its `toString` reports (for an enum
      constant, the constant's name) and its `getDBFieldName`. */
  datatype IField = IField(name: string, dbName: Option<string>)

  /** An entity object: what its `getFieldNames` returns (the array may be
      null, and so may its elements) and the current values of its
      properties, by property name. */
  datatype Instance<V> = Instance(fieldNames: Option<seq<Option<IField>>>, values: map<string, JValue<V>>)

  /** The naming convention of IEntity: a property `x` is described by the
      constant `FIELD_NAME_X`. */
  const KeyPrefix: string := "FIELD_NAME_"

  function FieldKey(propertyName: string): (k: string)
    ensures |k| == |KeyPrefix| + |propertyName|
    ensures k[..|KeyPrefix|] == KeyPrefix && k[|KeyPrefix|..] == Upper(propertyName)
    ensures forall i :: |KeyPrefix| <= i < |k| ==> !('a' <= k[i] <= 'z')
  {
    KeyPrefix + Upper(propertyName)
  }

  /** Two properties share a match key exactly when their names agree up to
      ASCII case, so `name` and `Name` are described by the same constant. */
  lemma FieldKeyIgnoresCase(a: string, b: string)
    ensures FieldKey(a) == FieldKey(b) <==> |a| == |b| && forall i :: 0 <= i < |a| ==> UpperChar(a[i]) == UpperChar(b[i])
  {
    if FieldKey(a) == FieldKey(b) {
      assert Upper(a) == FieldKey(a)[|KeyPrefix|..] == FieldKey(b)[|KeyPrefix|..] == Upper(b);
    }
    if |a| == |b| && forall i :: 0 <= i < |a| ==> UpperChar(a[i]) == UpperChar(b[i]) {
      assert Upper(a) == Upper(b);
    }
  }

  /** A constant that describes the property with match key `key` and
      names a usable column: non-null and not blank. */
  predicate Usable(key: string, f: IField) {
    f.name == key && f.dbName.Some? && !Blank(f.dbName.value)
  }

  /** The constants before position `i` are all non-null and unusable, so a
      scan reaches position `i`. */
  predicate Passes(key: string, fields: seq<Option<IField>>, i: int)
    requires 0 <= i <= |fields|
  {
    forall j :: 0 <= j < i ==> fields[j].Some? && !Usable(key, fields[j].value)
  }

  /** Some constant describes the property with match key `key` and names
      a usable column. */
  predicate HasUsable(key: string, fields: seq<Option<IField>>) {
    exists i :: 0 <= i < |fields| && fields[i].Some? && Usable(key, fields[i].value)
  }

  /** The scan reaches a null element, which throws. */
  predicate ReachesNull(key: string, fields: seq<Option<IField>>) {
    exists i :: 0 <= i < |fields| && fields[i].None? && Passes(key, fields, i)
  }

  /** The for-each of `initDBProperty`: the first usable constant wins and
      ends the scan; a null element throws on `toString` when reached. */
  function SelectField(key: string, fields: seq<Option<IField>>): (r: Result<Option<IField>>)
    ensures r == Ok(None) <==> Passes(key, fields, |fields|)
    ensures r.Err? <==> ReachesNull(key, fields)
    ensures r.Err? ==>
      && r.error == NullPointer
      && exists i :: 0 <= i < |fields| && fields[i].None? && Passes(key, fields, i)
    ensures r.Ok? && r.value.Some? ==>
      && Usable(key, r.value.value)
      && exists i :: 0 <= i < |fields| && fields[i] == r.value && Passes(key, fields, i)
  {
    if |fields| == 0 then Ok(None)
    else
      if fields[0].Some? && !Usable(key, fields[0].value) then
        PassesShift(key, fields);
        ReachesNullShift(key, fields);
        SelectField(key, fields[1..])
      else
        assert !Passes(key, fields, |fields|);
        if fields[0].None? then
          assert Passes(key, fields, 0);
          Err(NullPointer)
        else
          assert forall i :: 0 < i <= |fields| ==> !Passes(key, fields, i);
          Ok(fields[0])
  }

  /** Past a non-null unusable head, passing a position of the tail is
      passing the next position of the whole. */
  lemma PassesShift(key: string, fields: seq<Option<IField>>)
    requires |fields| > 0 && fields[0].Some? && !Usable(key, fields[0].value)
    ensures forall i :: 0 <= i <= |fields| - 1 ==> (Passes(key, fields[1..], i) <==> Passes(key, fields, i + 1))
  {
    forall i | 0 <= i <= |fields| - 1
      ensures Passes(key, fields[1..], i) <==> Passes(key, fields, i + 1)
    {
      if Passes(key, fields, i + 1) {
        forall j | 0 <= j < i
          ensures fields[1..][j].Some? && !Usable(key, fields[1..][j].value)
        {
          assert fields[1..][j] == fields[j + 1];
        }
      }
      if Passes(key, fields[1..], i) {
        forall j | 0 <= j < i + 1
          ensures fields[j].Some? && !Usable(key, fields[j].value)
        {
          if j > 0 { assert fields[j] == fields[1..][j - 1]; }
        }
      }
    }
  }

  /** Past a non-null unusable head, the scan reaches a null of the whole
      exactly when it reaches one of the tail. */
  lemma ReachesNullShift(key: string, fields: seq<Option<IField>>)
    requires |fields| > 0 && fields[0].Some? && !Usable(key, fields[0].value)
    ensures ReachesNull(key, fields[1..]) <==> ReachesNull(key, fields)
  {
    PassesShift(key, fields);
    if ReachesNull(key, fields) {
      var i :| 0 <= i < |fields| && fields[i].None? && Passes(key, fields, i);
      assert i > 0 && fields[1..][i - 1] == fields[i];
    }
    if ReachesNull(key, fields[1..]) {
      var i :| 0 <= i < |fields| - 1 && fields[1..][i].None? && Passes(key, fields[1..], i);
      assert fields[i + 1] == fields[1..][i];
    }
  }

  /** `initDBProperty(inst)` as both reference kinds implement it: a null
      entity, a null `getFieldNames` array or a null element reached by the
      scan throws; a match replaces the current selection; no match keeps it. */
  function Lookup<V>(inst: Option<Instance<V>>, propertyName: string, current: Option<IField>): (r: Result<Option<IField>>)
    ensures inst.None? ==> r == Err(NullPointer)
    ensures r.Err? ==> r.error == NullPointer
    ensures r.Ok? ==> inst.Some? && inst.value.fieldNames.Some?
    ensures r.Ok? && r.value != current ==>
      && r.value.Some? && Usable(FieldKey(propertyName), r.value.value)
      && Some(r.value.value) in inst.value.fieldNames.value
    ensures inst.Some? && inst.value.fieldNames.Some? && Passes(FieldKey(propertyName), inst.value.fieldNames.value, |inst.value.fieldNames.value|)
      ==> r == Ok(current)
    ensures r.Err? <==> inst.None? || inst.value.fieldNames.None? || ReachesNull(FieldKey(propertyName), inst.value.fieldNames.value)
    ensures r.Ok? && !Passes(FieldKey(propertyName), inst.value.fieldNames.value, |inst.value.fieldNames.value|) ==>
      && r.value.Some? && Usable(FieldKey(propertyName), r.value.value)
      && exists i :: 0 <= i < |inst.value.fieldNames.value| && inst.value.fieldNames.value[i] == r.value
           && Passes(FieldKey(propertyName), inst.value.fieldNames.value, i)
  {
    if inst.None? || inst.value.fieldNames.None? then Err(NullPointer)
    else
      match SelectField(FieldKey(propertyName), inst.value.fieldNames.value)
      case Err(e) => Err(e)
      case Ok(None) => Ok(current)
      case Ok(Some(f)) => Ok(Some(f))
  }

  /** The first usable constant is chosen even when later ones are usable
      too. */
  lemma {:induction false} FirstUsableWins(key: string, fields: seq<Option<IField>>, i: int, k: int)
    requires 0 <= i < k < |fields| && fields[i].Some? && fields[k].Some?
    requires Usable(key, fields[i].value) && Usable(key, fields[k].value)
    requires Passes(key, fields, i)
    ensures SelectField(key, fields) == Ok(fields[i])
  {
    if i > 0 {
      assert fields[0].Some? && !Usable(key, fields[0].value);
      PassesShift(key, fields);
      assert fields[1..][i - 1] == fields[i] && fields[1..][k - 1] == fields[k];
      FirstUsableWins(key, fields[1..], i - 1, k - 1);
    }
  }

  /** The number of elements the non-null arrays hold together. */
  function TotalLength<E>(arrays: seq<Option<seq<E>>>): nat {
    if |arrays| == 0 then 0
    else (if arrays[0].Some? then |arrays[0].value| else 0) + TotalLength(arrays[1..])
  }

  /** The in-order concatenation of the non-null arrays. */
  function Flatten<E>(arrays: seq<Option<seq<E>>>): seq<E> {
    if |arrays| == 0 then []
    else (if arrays[0].Some? then arrays[0].value else []) + Flatten(arrays[1..])
  }

  /** The concatenation holds as many elements as the arrays do. */
  lemma {:induction false} FlattenLength<E>(arrays: seq<Option<seq<E>>>)
    ensures |Flatten(arrays)| == TotalLength(arrays)
  {
    if |arrays| > 0 {
      FlattenLength(arrays[1..]);
    }
  }

  /** Appending one array to the argument list appends its elements. */
  lemma {:induction false} FlattenSnoc<E>(arrays: seq<Option<seq<E>>>, a: Option<seq<E>>)
    ensures Flatten(arrays + [a]) == Flatten(arrays) + (if a.Some? then a.value else [])
    ensures TotalLength(arrays + [a]) == TotalLength(arrays) + (if a.Some? then |a.value| else 0)
  {
    if |arrays| > 0 {
      assert (arrays + [a])[1..] == arrays[1..] + [a];
      FlattenSnoc(arrays[1..], a);
    } else {
      assert arrays + [a] == [a];
    }
  }

  /** A null argument array contributes nothing, wherever it stands. */
  lemma {:induction false} NullArraySkipped<E>(xs: seq<Option<seq<E>>>, ys: seq<Option<seq<E>>>)
    ensures Flatten(xs + [None] + ys) == Flatten(xs + ys)
  {
    if |xs| == 0 {
      assert xs + [None] + ys == [None] + ys;
      assert ([None] + ys)[1..] == ys;
      assert xs + ys == ys;
    } else {
      assert (xs + [None] + ys)[1..] == xs[1..] + [None] + ys;
      assert (xs + ys)[1..] == xs[1..] + ys;
      NullArraySkipped(xs[1..], ys);
    }
  }

  /** BaseEntity.getAllFieldNames: counts the elements of the non-null
      arrays, allocates the result, and copies the elements in order. */
  method AllFieldNames(newFields: seq<Option<seq<Option<IField>>>>) returns (result: seq<Option<IField>>)
    ensures |result| == TotalLength(newFields)
    ensures result == Flatten(newFields)
  {
    var length := 0;
    var k := 0;
    while k < |newFields|
      invariant 0 <= k <= |newFields|
      invariant length == TotalLength(newFields[..k])
    {
      FlattenSnoc(newFields[..k], newFields[k]);
      assert newFields[..k + 1] == newFields[..k] + [newFields[k]];
      if newFields[k].Some? {
        length := length + |newFields[k].value|;
      }
      k := k + 1;
    }
    assert newFields[..k] == newFields;
    var a := new Option<IField>[length];
    var idx := 0;
    k := 0;
    while k < |newFields|
      invariant 0 <= k <= |newFields|
      invariant idx == TotalLength(newFields[..k]) <= length
      invariant a[..idx] == Flatten(newFields[..k])
    {
      FlattenSnoc(newFields[..k], newFields[k]);
      assert newFields[..k + 1] == newFields[..k] + [newFields[k]];
      FlattenLength(newFields);
      FlattenLength(newFields[..k + 1]);
      PrefixFlattenBound(newFields, k + 1);
      if newFields[k].Some? {
        var fields := newFields[k].value;
        var j := 0;
        while j < |fields|
          invariant 0 <= j <= |fields|
          invariant idx == TotalLength(newFields[..k]) + j
          invariant a[..idx] == Flatten(newFields[..k]) + fields[..j]
        {
          a[idx] := fields[j];
          assert a[..idx + 1] == a[..idx] + [fields[j]];
          assert fields[..j + 1] == fields[..j] + [fields[j]];
          idx := idx + 1;
          j := j + 1;
        }
        assert fields[..j] == fields;
      }
      k := k + 1;
    }
    assert newFields[..k] == newFields;
    FlattenLength(newFields);
    result := a[..];
    assert a[..] == a[..idx];
  }

  /** A prefix of the arguments holds no more elements than all of them. */
  lemma {:induction false} PrefixFlattenBound<E>(arrays: seq<Option<seq<E>>>, k: nat)
    requires k <= |arrays|
    ensures TotalLength(arrays[..k]) <= TotalLength(arrays)
  {
    if k > 0 {
      assert arrays[..k][1..] == arrays[1..][..k - 1];
      PrefixFlattenBound(arrays[1..], k - 1);
    }
  }

  /** BaseEntity.getFieldNames: the single argument `(IField[]) null` is one
      null array, so the result is empty. */
  method DefaultFieldNames() returns (result: seq<Option<IField>>)
    ensures result == []
  {
    result := AllFieldNames([None]);
  }
}
