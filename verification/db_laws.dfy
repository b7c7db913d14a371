/** Laws that relate several calls of the adapter: the time round trip, the
    order and content of the generated INSERT statement, and the behaviour
    the repository's test suite expects. */
module DbLaws {
  import opened Wrappers
  import opened JsValues
  import NumberText
  import SqlText
  import opened Db

  // ---------------------------------------------------------------------
  // Not-overloaded capabilities

  /** The four capabilities throw OverloadError on an adapter that keeps the
      base versions, whatever the arguments, and never on the SQLite adapter,
      whose errors are all TypeErrors. */
  lemma OverloadErrorOnlyOnBase(db: Adapter, a: Value, b: Value)
    ensures Message(OverloadError) == "Cannot call not-overloaded version of this method"
    ensures db.Base? ==> (&& All(db, a, b) == Failure(OverloadError)
                          && InsertReturningId(db, a, b) == Failure(OverloadError)
                          && EncodeTime(db, a) == Failure(OverloadError)
                          && DecodeTime(db, a) == Failure(OverloadError))
    ensures db.SQLite? && All(db, a, b).Failure? ==> All(db, a, b).error.TypeError?
    ensures db.SQLite? && InsertReturningId(db, a, b).Failure? ==> InsertReturningId(db, a, b).error.TypeError?
    ensures db.SQLite? && EncodeTime(db, a).Failure? ==> EncodeTime(db, a).error.TypeError?
    ensures db.SQLite? && DecodeTime(db, a).Failure? ==> DecodeTime(db, a).error.TypeError?
  {
  }

  // ---------------------------------------------------------------------
  // Time encoding

  /** `parseInt("NaN")` finds no digit, so it is NaN. */
  lemma ParseIntOfNaN()
    ensures NumberText.ParseInt("NaN") == None
  {
    var s := "NaN";
    assert s[0] == 'N' && !NumberText.IsStrWhiteSpaceChar('N');
    assert NumberText.CharDigit('N') == Some(23);
    assert NumberText.DigitPrefix(s, 10) == "";
    assert NumberText.ParseUnsigned(s) == None;
    assert NumberText.ParseSigned(s) == None;
  }

  /** encodeTime of a Date on the SQLite adapter, unfolded. */
  lemma EncodeTimeOf(t: Option<TimeValue>)
    ensures EncodeTime(SQLite, DateV(t)) == Success(Str(TimeToString(t)))
  {
  }

  /** decodeTime of a string on the SQLite adapter, unfolded. */
  lemma DecodeTimeOf(s: string)
    ensures DecodeTime(SQLite, Str(s)) == Success(DateV(TimeClip(NumberText.ParseInt(s))))
  {
  }

  /** Round trip: decoding what encodeTime writes gives back a Date with the
      same time value, for every Date, an Invalid Date included ("NaN" reads
      back as NaN). */
  lemma {:induction false} TimeRoundTrip(t: Option<TimeValue>)
    ensures EncodeTime(SQLite, DateV(t)).Success?
    ensures DecodeTime(SQLite, EncodeTime(SQLite, DateV(t)).value) == Success(DateV(t))
  {
    EncodeTimeOf(t);
    DecodeTimeOf(TimeToString(t));
    match t
    case None =>
      ParseIntOfNaN();
    case Some(ms) =>
      NumberText.ParseIntRoundTrip(ms);
  }

  /** Distinct Dates encode to distinct texts. */
  lemma EncodeTimeInjective(a: Value, b: Value)
    requires a.DateV? && b.DateV?
    ensures EncodeTime(SQLite, a) == EncodeTime(SQLite, b) ==> a == b
  {
    TimeRoundTrip(a.time);
    TimeRoundTrip(b.time);
  }

  /** decodeTime reads only the leading number: text after an encoded time
      is ignored when it starts with no digit (and, after a lone `0`, with
      no `x`, which `parseInt` would take for a hexadecimal prefix), and so
      is white space before it. */
  lemma DecodeIgnoresSurroundingText(ws: string, t: TimeValue, rest: string)
    requires NumberText.AllWhiteSpace(ws)
    requires rest == [] || (!NumberText.IsDecimalDigit(rest[0]) && (t != 0 || (rest[0] != 'x' && rest[0] != 'X')))
    ensures DecodeTime(SQLite, Str(ws + (EncodeTime(SQLite, DateV(Some(t))).value.s + rest))) == Success(DateV(Some(t)))
  {
    var text := NumberText.IntegerToString(t);
    EncodeTimeOf(Some(t));
    NumberText.ParseIntOfIntegerString(t, rest);
    NumberText.ParseIntSkipsWhiteSpace(ws, text + rest);
    DecodeTimeOf(ws + (text + rest));
  }

  // ---------------------------------------------------------------------
  // INSERT statement synthesis

  /** The `for...in` loop keeps the visit order: the columns of a
      concatenation are the columns of each part, one after the other. */
  lemma {:induction false} OwnColumnsAppend(a: seq<Prop>, b: seq<Prop>)
    ensures OwnColumns(a + b).0 == OwnColumns(a).0 + OwnColumns(b).0
    ensures OwnColumns(a + b).1 == OwnColumns(a).1 + OwnColumns(b).1
    decreases |b|
  {
    if b == [] {
      assert a + b == a;
    } else {
      var front := b[..|b| - 1];
      OwnColumnsAppend(a, front);
      assert (a + b)[..|a + b| - 1] == a + front;
      assert (a + b)[|a + b| - 1] == b[|b| - 1];
    }
  }

  /** The columns are exactly the own properties visited: every name and
      parameter pair is an own entry, and every own entry's name is a column. */
  lemma {:induction false} OwnColumnsAreOwnProperties(entries: seq<Prop>)
    ensures forall i :: 0 <= i < |OwnColumns(entries).0| ==>
              Prop(OwnColumns(entries).0[i], OwnColumns(entries).1[i], true) in entries
    ensures forall p :: p in entries && p.own ==> p.name in OwnColumns(entries).0
    decreases |entries|
  {
    if entries != [] {
      var front := entries[..|entries| - 1];
      var last := entries[|entries| - 1];
      OwnColumnsAreOwnProperties(front);
      assert entries == front + [last];
      var prev := OwnColumns(front);
      var cols := OwnColumns(entries);
      if last.own {
        assert cols == (prev.0 + [last.name], prev.1 + [last.value]);
        assert Prop(last.name, last.value, true) == last;
        forall i | 0 <= i < |cols.0|
          ensures Prop(cols.0[i], cols.1[i], true) in entries
        {
          if i < |prev.0| {
            assert cols.0[i] == prev.0[i] && cols.1[i] == prev.1[i];
            assert Prop(prev.0[i], prev.1[i], true) in front;
          }
        }
      } else {
        assert cols == prev;
      }
    }
  }

  /** When every visited property is an own one, the names and the
      parameters are exactly the keys and the values, in visit order. */
  lemma {:induction false} OwnColumnsAllOwn(entries: seq<Prop>)
    requires forall i :: 0 <= i < |entries| ==> entries[i].own
    ensures |OwnColumns(entries).0| == |entries|
    ensures forall i :: 0 <= i < |entries| ==> OwnColumns(entries).0[i] == entries[i].name
    ensures forall i :: 0 <= i < |entries| ==> OwnColumns(entries).1[i] == entries[i].value
    decreases |entries|
  {
    if entries != [] {
      OwnColumnsAllOwn(entries[..|entries| - 1]);
    }
  }

  /** An inherited enumerable property never becomes a column. */
  lemma {:induction false} InheritedSkipped(entries: seq<Prop>, p: Prop)
    requires !p.own
    ensures OwnColumns(entries + [p]) == OwnColumns(entries)
  {
    assert (entries + [p])[..|entries|] == entries;
  }

  /** On valid arguments the SQLite adapter's request is the INSERT statement
      over the own property names, with one `?` per parameter. */
  lemma InsertRequestOf(table: string, values: Value)
    requires values.Arr? || values.DateV? || (values.Obj? && !values.noObjectProto)
    ensures var cols := OwnColumns(ForInEntries(values));
            InsertReturningId(SQLite, Str(table), values)
              == Success(InsertRequest(SqlText.InsertStatement(table, cols.0, seq(|cols.1|, _ => "?")), cols.1))
  {
    var cols := OwnColumns(ForInEntries(values));
    assert seq(|cols.1|, _ => Placeholder) == seq(|cols.1|, _ => "?");
  }

  /** The generated statement reads back into the table, the own property
      names in visit order, and one `?` per parameter, whenever the table
      holds no `(` and no name is empty or holds a `,` or a `)`. */
  lemma InsertStatementReadsBack(table: string, values: Value)
    requires values.Arr? || values.DateV? || (values.Obj? && !values.noObjectProto)
    requires '(' !in table
    requires SqlText.Separable(OwnColumns(ForInEntries(values)).0, ',', ')')
    ensures InsertReturningId(SQLite, Str(table), values).Success?
    ensures var r := InsertReturningId(SQLite, Str(table), values);
            SqlText.ParseInsert(r.value.sql)
              == Some((table, OwnColumns(ForInEntries(values)).0, seq(|r.value.params|, _ => "?")))
  {
    var cols := OwnColumns(ForInEntries(values));
    var marks := seq(|cols.1|, _ => Placeholder);
    assert marks == seq(|cols.1|, _ => "?");
    assert SqlText.Separable(marks, ',', ',');
    SqlText.ParseInsertStatement(table, cols.0, marks);
  }

  /** An array passes as the values object: its indices become the column
      names `0`, `1`, ... and its elements the parameters. */
  lemma InsertArrayValues(table: string, elems: seq<Value>)
    ensures InsertReturningId(SQLite, Str(table), Arr(elems)).Success?
    ensures InsertReturningId(SQLite, Str(table), Arr(elems)).value.params == elems
    ensures OwnColumns(ForInEntries(Arr(elems))).0 == seq(|elems|, i requires 0 <= i < |elems| => NumberText.NatToString(i))
  {
    var entries := ForInEntries(Arr(elems));
    OwnColumnsAllOwn(entries);
  }

  /** A Date passes as the values object and has no own enumerable key, so
      the statement has empty column and value lists. */
  lemma InsertDateValues(table: string, d: Option<TimeValue>)
    ensures InsertReturningId(SQLite, Str(table), DateV(d))
         == Success(InsertRequest("insert into " + table + "() values();", []))
  {
    assert ForInEntries(DateV(d)) == [];
    assert OwnColumns([]) == ([], []);
    assert seq(0, _ => Placeholder) == [];
    assert SqlText.InsertStatement(table, [], []) == "insert into " + table + "() values();";
  }

  // ---------------------------------------------------------------------
  // The test suite's expectations

  /** The statement built for `{text: 'qwe', time: encoded}` on table `test`:
      both names, in that order, and two placeholders. */
  lemma InsertScenario(encoded: string)
    ensures InsertReturningId(SQLite, Str("test"),
              Obj([Prop("text", Str("qwe"), true), Prop("time", Str(encoded), true)], false))
         == Success(InsertRequest("insert into test(text,time) values(?,?);", [Str("qwe"), Str(encoded)]))
  {
    var entries := [Prop("text", Str("qwe"), true), Prop("time", Str(encoded), true)];
    InsertRequestOf("test", Obj(entries, false));
    ScenarioColumns(encoded);
    assert seq(2, _ => "?") == ["?", "?"];
    ScenarioStatement();
  }

  /** The loop over the scenario's two own properties. */
  lemma ScenarioColumns(encoded: string)
    ensures OwnColumns([Prop("text", Str("qwe"), true), Prop("time", Str(encoded), true)])
         == (["text", "time"], [Str("qwe"), Str(encoded)])
  {
    var entries := [Prop("text", Str("qwe"), true), Prop("time", Str(encoded), true)];
    OwnColumnsAllOwn(entries);
    assert OwnColumns(entries).0 == ["text", "time"];
    assert OwnColumns(entries).1 == [Str("qwe"), Str(encoded)];
  }

  /** `[a, b].join(',')`. */
  lemma JoinPair(a: string, b: string)
    ensures SqlText.Join([a, b], ',') == a + "," + b
  {
    assert [a, b][1..] == [b];
  }

  /** The scenario's statement text, spelled out. */
  lemma ScenarioStatement()
    ensures SqlText.InsertStatement("test", ["text", "time"], ["?", "?"])
         == "insert into test(text,time) values(?,?);"
  {
    JoinPair("text", "time");
    JoinPair("?", "?");
    assert "insert into " + "test" + "(" + "text,time" + ") values(" + "?,?" + ");"
        == "insert into test(text,time) values(?,?);";
  }

  /** The construction cases of the test suite. */
  lemma ConstructionCases()
    ensures Construct(DatabaseClass).Failure? && Construct(DatabaseClass).error.TypeError?
    ensures Construct(PlainSubclass).Success?
    ensures Construct(SQLiteDatabaseClass("data/testdb.sqlite")) == Success(SQLite)
  {
  }

  /** The `_validateAllParams` cases of the test suite. The accepted query
      interpolates the base adapter's `PARAMETER`, which is undefined, so its
      text reads `select undefined as ...`. */
  lemma ValidateAllParamsCases()
    ensures ValidateAllParams(Undefined, Undefined).Fail?
    ensures ValidateAllParams(Num(123), Undefined).Fail?
    ensures ValidateAllParams(Str("select * from test;"), Num(123)).Fail?
    ensures ValidateAllParams(Undefined, Arr([Num(1), Num(2), Num(3)])).Fail?
    ensures ValidateAllParams(Str("select * from test;"), Undefined).Pass?
    ensures Parameter(Base) == Undefined
    ensures ValidateAllParams(Str("select undefined as table_name from test;"), Arr([Str("test")])).Pass?
  {
  }

  /** The `_validateInsertParams` cases of the test suite. */
  lemma ValidateInsertParamsCases()
    ensures ValidateInsertParams(Undefined, Undefined).Fail?
    ensures ValidateInsertParams(Num(123), Undefined).Fail?
    ensures ValidateInsertParams(Str("test"), Undefined).Fail?
    ensures ValidateInsertParams(Str("test"), Str("qwe")).Fail?
    ensures ValidateInsertParams(Null, Obj([Prop("name", Str("test"), true)], false)).Fail?
    ensures ValidateInsertParams(Str("test;"), Obj([Prop("name", Str("test"), true)], false)).Pass?
  {
  }

  /** The argument-type cases of encodeTime and decodeTime in the test suite. */
  lemma TimeTypeCases()
    ensures EncodeTime(SQLite, Str("2020-07-25T21:13:47.059Z")).error.TypeError?
    ensures EncodeTime(SQLite, Num(1)).error.TypeError?
    ensures DecodeTime(SQLite, DateV(Some(1595711627059))).error.TypeError?
    ensures DecodeTime(SQLite, Num(1)).error.TypeError?
  {
  }
}
