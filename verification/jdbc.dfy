/** The slice of JDBC that row materialisation touches: a row of the
    result set, the typed getters DefaultWrapper calls, and the values those
    getters hand back. Raw column contents and their conversions are opaque;
    the caller supplies the conversion as a total function on getters. */
module Jdbc {
  import opened Common

  /** The ResultSet getters used by DefaultWrapper.handleClassFields. */
  datatype Getter =
    | GetShort | GetInt | GetLong | GetDouble | GetBoolean
    | GetBigDecimal | GetDate | GetTimestamp | GetString

  /** A column of the current row: SQL NULL or a raw value. */
  datatype Cell<V> = SqlNull | Value(raw: V)

  /** The current row, by column label; a label that is not a key names a
      column the result set does not have. */
  type Row<V> = map<string, Cell<V>>

  /** A Java value read from a column: `null`, the zero a primitive getter
      returns for SQL NULL (0, 0L, 0.0 or false, boxed), or a converted value. */
  datatype JValue<V> = Null | Zero(getter: Getter) | Present(v: V)

  /** The getters that return a Java primitive, and so cannot return null. */
  predicate Primitive(g: Getter) {
    g.GetShort? || g.GetInt? || g.GetLong? || g.GetDouble? || g.GetBoolean?
  }

  /** The getter chosen for a field's declared type name: the eight listed
      types use their own getter, every other type reads a string. */
  function GetterFor(typeName: string): Getter {
    if typeName == "java.lang.Short" then GetShort
    else if typeName == "java.lang.Integer" then GetInt
    else if typeName == "java.lang.Long" then GetLong
    else if typeName == "java.lang.Double" then GetDouble
    else if typeName == "java.lang.Boolean" then GetBoolean
    else if typeName == "java.math.BigDecimal" then GetBigDecimal
    else if typeName == "java.time.LocalDate" then GetDate
    else if typeName == "java.time.LocalDateTime" then GetTimestamp
    else GetString
  }

  /** `rs.getX(column)`, followed for dates and timestamps by the
      `date == null ? null : date.toLocal...()` step. A missing or null label
      throws SQLException, and so does a value the getter cannot convert
      (`convert` gives None). */
  function Fetch<V>(row: Row<V>, g: Getter, column: Option<string>, convert: (Getter, V) -> Option<V>): (r: Result<JValue<V>>)
    ensures r.Err? <==> column.None? || column.value !in row || (row[column.value].Value? && convert(g, row[column.value].raw).None?)
    ensures r.Err? ==> r.error == Sql
    ensures r.Ok? && row[column.value].SqlNull? ==> (Primitive(g) <==> r.value.Zero?) && (!Primitive(g) <==> r.value.Null?)
    ensures r.Ok? && r.value.Zero? ==> r.value.getter == g
    ensures r.Ok? && row[column.value].Value? ==> r.value == Present(convert(g, row[column.value].raw).value)
  {
    if column.None? || column.value !in row then Err(Sql)
    else
      match row[column.value]
      case SqlNull => Ok(if Primitive(g) then Zero(g) else Null)
      case Value(raw) =>
        match convert(g, raw)
        case None => Err(Sql)
        case Some(v) => Ok(Present(v))
  }

  /** Which getter each declared type reaches: exactly the eight listed
      class names have a getter of their own, and no two share one. */
  lemma GetterDispatch(typeName: string)
    ensures GetterFor(typeName) == GetString <==>
      typeName !in {"java.lang.Short", "java.lang.Integer", "java.lang.Long", "java.lang.Double",
                    "java.lang.Boolean", "java.math.BigDecimal", "java.time.LocalDate", "java.time.LocalDateTime"}
    ensures Primitive(GetterFor(typeName)) <==>
      typeName in {"java.lang.Short", "java.lang.Integer", "java.lang.Long", "java.lang.Double", "java.lang.Boolean"}
    ensures GetterFor(typeName) == GetDate <==> typeName == "java.time.LocalDate"
    ensures GetterFor(typeName) == GetTimestamp <==> typeName == "java.time.LocalDateTime"
  {
  }

  /** A NULL date or timestamp column assigns `null` rather than failing. */
  lemma NullDateReadsNull<V>(row: Row<V>, column: string, typeName: string, convert: (Getter, V) -> Option<V>)
    requires typeName == "java.time.LocalDate" || typeName == "java.time.LocalDateTime"
    requires column in row && row[column].SqlNull?
    ensures Fetch(row, GetterFor(typeName), Some(column), convert) == Ok(Null)
  {
  }
}
