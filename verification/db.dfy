/** The adapter contract of lib/db.js: the abstract `Database` base with its
    construction guard, its not-overloaded capabilities and its two argument
    validators, and the `SQLiteDatabase` adapter's four capabilities. A call
    into the sqlite3 driver is modelled by the request handed to it: the
    statement text and the parameters. */
module Db {
  import opened Wrappers
  import opened JsValues
  import NumberText
  import SqlText

  /** What the adapter throws: a TypeError with its message, or the
      OverloadError of a capability the adapter does not provide. */
  datatype Error = TypeError(message: string) | OverloadError

  /** The message an error carries; OverloadError's is fixed by its class. */
  function Message(e: Error): string {
    match e
    case TypeError(m) => m
    case OverloadError => "Cannot call not-overloaded version of this method"
  }

  /** The class a `new` expression names: the abstract `Database` itself, a
      subclass that overrides none of the capabilities, or `SQLiteDatabase`
      with the address of its storage file. */
  datatype Class = DatabaseClass | PlainSubclass | SQLiteDatabaseClass(address: string)

  /** A constructed adapter: one that keeps the base capabilities, or the
      SQLite adapter. */
  datatype Adapter = Base | SQLite

  /** The SQLite adapter's parameter placeholder. */
  const Placeholder: string := "?"

  /** The driver call `all` makes: `db.all(statement, params, callback)`. */
  datatype QueryRequest = QueryRequest(sql: string, params: Value)

  /** The driver call `insertReturningId` makes: `db.run(sql, params, callback)`. */
  datatype InsertRequest = InsertRequest(sql: string, params: seq<Value>)

  /** The adapter's `PARAMETER` field: left undefined by the base
      constructor, set to the placeholder by the SQLite one. */
  function Parameter(db: Adapter): Value {
    match db
    case Base => Undefined
    case SQLite => Str(Placeholder)
  }

  /** `new C(...)`: the base constructor throws when `new.target` is
      `Database` itself; every subclass constructs. */
  function Construct(target: Class): (r: Result<Adapter, Error>)
    ensures r.Failure? <==> target.DatabaseClass?
    ensures r.Failure? ==> r.error.TypeError?
    ensures r.Success? ==> (r.value.SQLite? <==> target.SQLiteDatabaseClass?)
    ensures r.Success? ==> Parameter(r.value) == (if target.SQLiteDatabaseClass? then Str("?") else Undefined)
  {
    if target == DatabaseClass then Failure(TypeError("Cannot construct Database instances directly"))
    else if target.SQLiteDatabaseClass? then Success(SQLite)
    else Success(Base)
  }

  /** `_validateAllParams(statement, params)`: the statement must be a
      string; the params are checked only when truthy, and must then be an
      array, so an omitted, null, `0` or empty-string params passes. */
  function ValidateAllParams(statement: Value, params: Value): (r: Outcome<Error>)
    ensures r.Fail? <==> !statement.Str? || (params !in {Undefined, Null, Bool(false), Num(0), NaN, Str("")} && !params.Arr?)
    ensures r.Fail? ==> r.error.TypeError?
  {
    if TypeOf(statement) != "string" then Fail(TypeError("Statement should be string"))
    else if Truthy(params) && !InstanceOf(params, ArrayClass) then Fail(TypeError("Params should be array"))
    else Pass
  }

  /** `_validateInsertParams(table, values)`: the table must be a string and
      the values must be `instanceof Object`, which arrays and Dates are and
      primitives, `null`, `undefined` and objects whose prototype chain
      misses `Object.prototype` are not. */
  function ValidateInsertParams(table: Value, values: Value): (r: Outcome<Error>)
    ensures r.Fail? <==> !table.Str? || !(values.Arr? || values.DateV? || (values.Obj? && !values.noObjectProto))
    ensures r.Fail? ==> r.error.TypeError?
  {
    if TypeOf(table) != "string" then Fail(TypeError("Table should be string"))
    else if !InstanceOf(values, ObjectClass) then Fail(TypeError("Params should be object"))
    else Pass
  }

  /** `all(statement, params)`: the base throws OverloadError whatever it is
      given; the SQLite adapter validates and then hands statement and
      params to the driver unchanged. */
  function All(db: Adapter, statement: Value, params: Value): (r: Result<QueryRequest, Error>)
    ensures db.Base? ==> r == Failure(OverloadError)
    ensures db.SQLite? ==> (r.Failure? <==> ValidateAllParams(statement, params).Fail?)
    ensures db.SQLite? && r.Failure? ==> r.error.TypeError?
    ensures r.Success? ==> statement.Str? && r.value == QueryRequest(statement.s, params)
  {
    match db
    case Base => Failure(OverloadError)
    case SQLite =>
      match ValidateAllParams(statement, params)
      case Fail(e) => Failure(e)
      case Pass => Success(QueryRequest(statement.s, params))
  }

  /** The `for...in` loop of `insertReturningId`: the names and values of the
      visited own properties, in visit order; inherited ones are skipped. */
  function OwnColumns(entries: seq<Prop>): (cols: (seq<string>, seq<Value>))
    ensures |cols.0| == |cols.1| <= |entries|
    decreases |entries|
  {
    if entries == [] then ([], [])
    else
      var prev := OwnColumns(entries[..|entries| - 1]);
      var last := entries[|entries| - 1];
      if last.own then (prev.0 + [last.name], prev.1 + [last.value]) else prev
  }

  /** `insertReturningId(table, values)`: the base throws OverloadError; the
      SQLite adapter validates first, then builds
      `insert into <table>(<names>) values(<?,...>);` with one placeholder
      per parameter, and hands it with the parameters to the driver. */
  function InsertReturningId(db: Adapter, table: Value, values: Value): (r: Result<InsertRequest, Error>)
    ensures db.Base? ==> r == Failure(OverloadError)
    ensures db.SQLite? ==> (r.Failure? <==> ValidateInsertParams(table, values).Fail?)
    ensures db.SQLite? && r.Failure? ==> r == Failure(ValidateInsertParams(table, values).error)
    ensures r.Success? ==> table.Str? && r.value.params == OwnColumns(ForInEntries(values)).1
  {
    match db
    case Base => Failure(OverloadError)
    case SQLite =>
      match ValidateInsertParams(table, values)
      case Fail(e) => Failure(e)
      case Pass =>
        var (names, params) := OwnColumns(ForInEntries(values));
        var marks := seq(|params|, _ => Placeholder);
        Success(InsertRequest(SqlText.InsertStatement(table.s, names, marks), params))
  }

  /** `Number.prototype.toString()` of a Date's `getTime()`: the decimal
      text of the time value, or "NaN" for an Invalid Date. */
  function TimeToString(t: Option<TimeValue>): (s: string)
    ensures t.None? ==> s == "NaN"
    ensures t.Some? ==> NumberText.IsCanonicalDecimal(s) && (s[0] == '-' <==> t.value < 0)
  {
    match t
    case None => "NaN"
    case Some(ms) => NumberText.IntegerToString(ms)
  }

  /** TimeClip (section 21.4.1.31 of ECMA-262) for integral inputs, as
      `new Date(number)` applies it: NaN and values beyond the time range
      give an Invalid Date. */
  function TimeClip(n: Option<int>): Option<TimeValue> {
    if n.Some? && -MaxTime <= n.value <= MaxTime then Some(n.value) else None
  }

  /** `encodeTime(time)`: a Date becomes the decimal text of its millisecond
      value; anything else is a TypeError. */
  function EncodeTime(db: Adapter, time: Value): (r: Result<Value, Error>)
    ensures db.Base? ==> r == Failure(OverloadError)
    ensures db.SQLite? ==> (r.Failure? <==> !time.DateV?)
    ensures db.SQLite? && r.Failure? ==> r.error.TypeError?
    ensures r.Success? ==> r.value.Str? && time.DateV?
    ensures r.Success? && time.time.None? ==> r.value.s == "NaN"
    ensures r.Success? && time.time.Some? ==> NumberText.IsCanonicalDecimal(r.value.s)
  {
    match db
    case Base => Failure(OverloadError)
    case SQLite =>
      if !InstanceOf(time, DateClass) then Failure(TypeError("Time should be date"))
      else Success(Str(TimeToString(time.time)))
  }

  /** `decodeTime(encoded)`: a string becomes `new Date(parseInt(encoded))`;
      anything else is a TypeError. */
  function DecodeTime(db: Adapter, encoded: Value): (r: Result<Value, Error>)
    ensures db.Base? ==> r == Failure(OverloadError)
    ensures db.SQLite? ==> (r.Failure? <==> !encoded.Str?)
    ensures db.SQLite? && r.Failure? ==> r.error.TypeError?
    ensures r.Success? ==> encoded.Str? && r.value.DateV?
    ensures r.Success? && r.value.time.Some? ==> NumberText.ParseInt(encoded.s) == Some(r.value.time.value as int)
    ensures r.Success? && r.value.time.None? ==>
              match NumberText.ParseInt(encoded.s) case None => true case Some(n) => n < -MaxTime || MaxTime < n
  {
    match db
    case Base => Failure(OverloadError)
    case SQLite =>
      if TypeOf(encoded) != "string" then Failure(TypeError("EncodedTime should be string"))
      else Success(DateV(TimeClip(NumberText.ParseInt(encoded.s))))
  }
}
