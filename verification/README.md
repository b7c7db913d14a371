# Database adapter contract of img-board-backend, in Dafny

This project models `lib/db.js` of img-board-backend. That file defines the
abstract `Database` class and its one concrete adapter, `SQLiteDatabase`.
The model covers:

- the construction guard: `new Database()` throws a TypeError, while any
  subclass constructs;
- the four capabilities (`all`, `insertReturningId`, `encodeTime`,
  `decodeTime`), which throw `OverloadError` on an adapter that keeps the
  base versions;
- the two argument validators, `_validateAllParams` and
  `_validateInsertParams`, with JavaScript's truthiness and `instanceof`
  rules;
- the INSERT statement and parameter list that `insertReturningId` builds
  from a values object;
- the time encoding: `getTime().toString()` one way and
  `new Date(parseInt(s))` the other.

Calls into the sqlite3 driver are outside the model. `all` and
`insertReturningId` return the request they would hand to the driver: the
statement text and the parameters. `encodeTime` returns the string and
`decodeTime` the Date. A thrown exception becomes the `Failure` of a
`Result`, or the `Fail` of an `Outcome` for the two validators.

Modules:

- `Wrappers` (wrappers.dfy): `Option`, `Result`, `Outcome`.
- `NumberText` (number_text.dfy): Number::toString of integral values
  (section 6.1.6.1.20 of ECMA-262) and the global `parseInt` without a radix
  (section 19.2.5 of ECMA-262). The parser covers leading white space, the
  sign and the `0x` prefix.
- `JsValues` (js_values.dfy): the JavaScript values the adapter inspects,
  plus `typeof`, ToBoolean, `instanceof` along the prototype chain, and the
  properties `for...in` visits. Dates carry a time value within ±8.64e15 ms
  (section 21.4.1.1 of ECMA-262), or none for an Invalid Date.
- `SqlText` (sql_text.dfy): `join`, a `split` that undoes it, the INSERT
  template, and a reader that takes such a statement apart again.
- `Db` (db.dfy): the adapter contract itself.
- `DbLaws` (db_laws.dfy): laws that relate several calls, and the
  expectations of the repository's test suite.

The model follows the code, including these easily missed behaviours:

- `_validateAllParams` checks `params` only when it is truthy. So `0`, `""`,
  `false`, `NaN` and `null` pass, as well as an omitted value.
- `_validateInsertParams` accepts anything that is `instanceof Object`. That
  includes arrays, whose indices become the column names `0`, `1`, …. It
  also includes Dates; a Date nothing was assigned to has no own keys, so
  the statement is `insert into t() values();`. An object whose prototype
  chain misses `Object.prototype` is rejected, such as `Object.create(null)`.
- `decodeTime` uses `parseInt` with no radix. A `0x`/`0X` prefix switches to
  hexadecimal. Text after the leading number is ignored. Text without digits
  gives an Invalid Date rather than an error.
- `encodeTime` of an Invalid Date is `"NaN"`. That decodes back to an
  Invalid Date, so the round trip holds for every Date.

## Model

| member | source | states |
|---|---|---|
| Db.Parameter | lib/db.js:54 | the adapter's `PARAMETER`: undefined on an adapter that keeps the base constructor's value (lib/db.js:13), `"?"` on the SQLite adapter; stated per class by Db.Construct |
| Db.Construct | lib/db.js:8-14 | construction fails, with a TypeError, exactly when `new.target` is `Database` itself; a plain subclass gets the base capabilities with `PARAMETER` undefined, `SQLiteDatabase` gets the SQLite ones with `PARAMETER` `"?"` |
| DbLaws.OverloadErrorOnlyOnBase | lib/db.js:16-47 | on an adapter that keeps the base versions, all four capabilities throw OverloadError whatever their arguments, with the fixed message of lib/errors.js; on the SQLite adapter every error they throw is a TypeError, never an OverloadError |
| Db.ValidateAllParams | lib/db.js:23-31 | fails, always with a TypeError, if and only if the statement is not a string, or the params are none of the six falsy values and not an array |
| Db.ValidateInsertParams | lib/db.js:32-40 | fails, always with a TypeError, if and only if the table is not a string, or the values are neither an array, nor a Date, nor an object whose prototype chain reaches `Object.prototype` |
| Db.All | lib/db.js:57-60 | the base throws OverloadError; the SQLite adapter fails exactly when the validator does, and otherwise hands the statement and params to the driver unchanged |
| Db.InsertReturningId | lib/db.js:61-76 | the base throws OverloadError; the SQLite adapter fails exactly when the insert validator fails, with that validator's error, so no statement is built from invalid arguments; the parameters are the values of the own properties in visit order |
| Db.OwnColumns | lib/db.js:63-70 | the loop pushes a name and a parameter together, so there are as many column names as parameters, and never more than the properties visited |
| DbLaws.InsertRequestOf | lib/db.js:61-76 | on valid arguments the request is the INSERT statement over the table, the own property names, and one `?` per parameter, together with those parameters |
| DbLaws.OwnColumnsAreOwnProperties | lib/db.js:63-70 | each (name, parameter) pair is an own property of the values object, and every own property's name becomes a column |
| DbLaws.OwnColumnsAppend | lib/db.js:65-70 | the loop keeps the visit order: the columns of two runs of properties are the first run's columns followed by the second's |
| DbLaws.InheritedSkipped | lib/db.js:66-69 | a visited property that is inherited rather than own adds neither a column nor a parameter |
| DbLaws.OwnColumnsAllOwn | lib/db.js:65-69 | when every visited property is own, the names and the parameters are exactly the keys and the values, index by index |
| DbLaws.InsertStatementReadsBack | lib/db.js:72-76 | the generated statement reads back into the table, the column names in order, and exactly as many `?` marks as there are parameters, provided the table has no `(` and no name is empty or contains `,` or `)` |
| SqlText.InsertStatement | lib/db.js:72-76 | the statement starts with `insert into `, then the table verbatim, and ends with `);` |
| SqlText.ParseInsertStatement | lib/db.js:72-76 | the statement reader gives back the table, the column list and the mark list that were written, under the same separability conditions |
| SqlText.Join | lib/db.js:73-75 | `join(',')` of no parts is the empty text, and of one part is that part; SqlText.SplitJoin is its inverse |
| SqlText.SplitJoin | lib/db.js:73-75 | splitting a comma join gives back the non-empty list of comma-free parts that were joined |
| DbLaws.InsertArrayValues | lib/db.js:61-70 | an array passes validation; its decimal indices become the column names, and its elements become the parameters |
| DbLaws.InsertDateValues | lib/db.js:61-76 | a Date (modelled without own properties) passes validation and gives no columns, so the statement is `insert into <table>() values();` with no parameters |
| JsValues.FalsyValues | lib/db.js:28 | exactly `undefined`, `null`, `false`, `0`, `NaN` and `""` are falsy, the values for which the params check is skipped |
| JsValues.InstanceOfObject | lib/db.js:37 | `instanceof Object` holds exactly for arrays, Dates and objects whose prototype chain reaches `Object.prototype` |
| JsValues.InstanceOf | lib/db.js:37 | `v instanceof C` for a built-in C is membership of C's prototype in v's chain; characterised by JsValues.InstanceOfObject and JsValues.InstanceOfArray, and also used at lib/db.js:28 and :90 |
| JsValues.PrototypeChain | lib/db.js:37 | the built-in prototypes on a value's chain: Array then Object for arrays, Date then Object for Dates, Object for an object whose chain reaches it, none for primitives |
| JsValues.TypeOf | lib/db.js:24 | the `typeof` result of each kind of value; the `"string"` test here, at lib/db.js:33 and at :96 holds exactly for strings, as the Db.ValidateAllParams, Db.ValidateInsertParams and Db.DecodeTime contracts state |
| JsValues.Truthy | lib/db.js:28 | ToBoolean of each kind of value; characterised by JsValues.FalsyValues |
| JsValues.InstanceOfArray | lib/db.js:28 | `instanceof Array` holds exactly for arrays |
| JsValues.ForInEntries | lib/db.js:65 | `for...in` over an array visits one own property per element, keyed by its decimal index |
| Db.EncodeTime | lib/db.js:89-94 | the base throws OverloadError; the SQLite adapter throws a TypeError exactly when the argument is not a Date; otherwise it returns a string: `"NaN"` for an Invalid Date, canonical decimal text for a valid one |
| Db.TimeToString | lib/db.js:93 | a valid time value is written as canonical decimal text, with a `-` exactly when it is negative; an Invalid Date is written as `"NaN"` |
| NumberText.IntegerToString | lib/db.js:93 | the text of an integer below 10^21 in magnitude is canonical decimal, and starts with `-` exactly for a negative integer |
| NumberText.NatToString | lib/db.js:93 | the digits of a natural number are decimal digits, with a leading `0` only for zero |
| Db.DecodeTime | lib/db.js:95-100 | the base throws OverloadError; the SQLite adapter throws a TypeError exactly when the argument is not a string; otherwise it returns a Date, valid exactly when `parseInt` reads a number within the time range, and then with that number as its time value |
| Db.TimeClip | lib/db.js:99 | the definition of TimeClip (section 21.4.1.31 of ECMA-262) for integral inputs, as `new Date(number)` applies it: NaN and values beyond ±8.64e15 give an Invalid Date; the range rule is stated in Db.DecodeTime's contract |
| NumberText.ParseInt | lib/db.js:99 | `parseInt` without a radix: skip white space, then read sign and digits; characterised by NumberText.ParseIntTrims, NumberText.ParseIntSkipsWhiteSpace and NumberText.ParseIntOfIntegerString |
| NumberText.ParseSigned | lib/db.js:99 | the sign step of `parseInt`: `-` negates, `+` is dropped; its effect on decimal text is stated by NumberText.ParseIntOfIntegerString |
| NumberText.ParseUnsigned | lib/db.js:99 | the digit step of `parseInt`: radix 16 after `0x`/`0X`, otherwise radix 10, over the longest digit prefix (NumberText.DigitPrefix); no digit gives NaN |
| NumberText.DigitsValue | lib/db.js:99 | the number a run of digits denotes, most significant first; NumberText.DigitsValueOfNatToString shows it inverts NatToString |
| NumberText.DigitPrefix | lib/db.js:99 | `parseInt` reads the longest prefix of digits of its radix: all digits, and followed by a non-digit or by the end of the text |
| NumberText.TrimStart | lib/db.js:99 | TrimString's start: the result is a suffix of the text, every character dropped is white space or a line terminator, and the result does not start with one |
| NumberText.ParseIntTrims | lib/db.js:99 | `parseInt` reads its sign and digits from exactly what TrimString leaves of the text |
| NumberText.TrimStartSkips | lib/db.js:99 | trimming white space in front of a text gives what trimming the text alone gives |
| NumberText.ParseIntSkipsWhiteSpace | lib/db.js:99 | leading white space never changes what `parseInt` reads |
| NumberText.DigitsValueOfNatToString | lib/db.js:93-99 | reading back the decimal digits of a natural number gives that number |
| NumberText.ParseIntOfIntegerString | lib/db.js:93-99 | `parseInt` reads back the decimal text of an integer even with text appended, provided that text does not start with a digit, and does not start with `x`/`X` after a lone `0` |
| NumberText.ParseIntOfHex | lib/db.js:99 | after `0x` or `0X`, `parseInt` reads the following hexadecimal digits, up to the first non-digit, as a radix-16 number |
| NumberText.ParseIntRoundTrip | lib/db.js:93-99 | `parseInt` of the decimal text of an integer is that integer |
| NumberText.IntegerToStringInjective | lib/db.js:93 | different integers have different decimal texts |
| DbLaws.TimeRoundTrip | tests/db.test.js:175-177 | for every Date, an Invalid Date included, `decodeTime(encodeTime(d))` is a Date with the same time value |
| DbLaws.EncodeTimeInjective | lib/db.js:89-94 | different Dates encode to different strings |
| DbLaws.DecodeIgnoresSurroundingText | lib/db.js:95-100 | an encoded time still decodes to its Date with white space before it, or with text after it that starts with no digit (and no `x` after a lone `0`) |
| DbLaws.InsertScenario | tests/db.test.js:236-243 | `{text: 'qwe', time: t}` on table `test` gives `insert into test(text,time) values(?,?);` with parameters `['qwe', t]` |
| DbLaws.ConstructionCases | tests/db.test.js:45-59 | `new Database()` throws a TypeError; a plain subclass and `SQLiteDatabase` construct |
| DbLaws.ValidateAllParamsCases | tests/db.test.js:70-94 | the rejected and accepted `_validateAllParams` calls of the test suite |
| DbLaws.ValidateInsertParamsCases | tests/db.test.js:96-115 | the rejected and accepted `_validateInsertParams` calls of the test suite |
| DbLaws.TimeTypeCases | tests/db.test.js:154-169 | `encodeTime` of a string or a number, and `decodeTime` of a Date or a number, throw a TypeError |

## Left out

- Query execution and the `lastID` result of `insertReturningId` (lib/db.js:59, lib/db.js:78-86). These belong to the sqlite3 driver, which is not part of this model. The model stops at the `(sql, params)` request handed to the driver, and engine errors such as an unknown column are not modelled.
- Opening the storage file in `SQLiteDatabase`'s constructor (lib/db.js:53). The address is carried but not used, and an engine error on open is not modelled.
- `promisify` (lib/utils.js). It is asynchronous Promise plumbing. Its only decision, rejecting on a truthy error, relies on a Promise settling only once, which is built into the language.
- lib/errors.js is not a separate module here. `OverloadError` is a variant of the error datatype, and `Db.Message` gives its fixed message.
- test/utils.test.js. It calls `sum` and `sub`, which lib/utils.js does not export.
- The table setup and teardown of the test suite (tests/db.test.js:11-36).
- JavaScript Numbers are modelled as integers plus `NaN`. Fractions, infinities, `-0`, symbols, BigInts, functions, wrapper objects such as `new String`, and sparse arrays are not modelled. For an array, `for...in` is taken to visit only its indices.
- A Date is modelled without own properties. A Date that was given own enumerable properties would add them as columns through `for...in` (lib/db.js:65-69); DbLaws.InsertDateValues covers only a Date nothing was assigned to.
- An object that inherits from `Array.prototype` or `Date.prototype` without being an array or a Date (such as `Object.create(Array.prototype)`) is not modelled; an `Obj` is `instanceof Object` or of no built-in at all.
- An object's `for...in` order is given as part of the value (the `entries` of `Obj`). The model does not derive it from how the object was built; for example, integer-like keys come first in JavaScript.
- NumberText.ParseInt returns the exact mathematical value. JavaScript rounds to a double above 2^53, but that cannot change the decoded Date, because the time range 8.64e15 is below 2^53.
- NumberText.IntegerToString covers integers below 10^21 in magnitude, where Number::toString writes plain digits. Every time value and every array index is in that range.
- Strings are sequences of Unicode scalar values rather than UTF-16 code units. All the white space and digit characters involved are in the Basic Multilingual Plane.
