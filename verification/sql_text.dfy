/** The text of the INSERT statement the SQLite adapter builds: joining
    lists with a separator, the statement template, and a reader that takes
    a statement of that shape apart again. */
module SqlText {
  import opened Wrappers

  const InsertPrefix: string := "insert into "
  const ValuesInfix: string := ") values("
  const StatementEnd: string := ");"

  /** `parts.join(sep)`: the parts with one separator between neighbours. */
  function Join(parts: seq<string>, sep: char): (s: string)
    ensures parts == [] ==> s == ""
    ensures |parts| == 1 ==> s == parts[0]
    decreases |parts|
  {
    if |parts| == 0 then ""
    else if |parts| == 1 then parts[0]
    else parts[0] + [sep] + Join(parts[1..], sep)
  }

  /** `s.split(sep)`: the maximal separator-free pieces of `s`, in order. */
  function Split(s: string, sep: char): (parts: seq<string>)
    ensures |parts| >= 1
    ensures forall i :: 0 <= i < |parts| ==> sep !in parts[i]
    decreases |s|
  {
    if |s| == 0 then [""]
    else
      var rest := Split(s[1..], sep);
      if s[0] == sep then [""] + rest else [[s[0]] + rest[0]] + rest[1..]
  }

  /** The position of the first `c` in `s`, or `|s|` when there is none. */
  function IndexOf(s: string, c: char): (k: nat)
    ensures k <= |s|
    ensures c !in s[..k]
    ensures k < |s| ==> s[k] == c
    decreases |s|
  {
    if |s| == 0 then 0
    else if s[0] == c then 0
    else 1 + IndexOf(s[1..], c)
  }

  /** A list whose join cannot be confused with its neighbours: no element
      is empty or holds the separator or the closing character. */
  predicate Separable(parts: seq<string>, sep: char, close: char) {
    forall i :: 0 <= i < |parts| ==> parts[i] != "" && sep !in parts[i] && close !in parts[i]
  }

  /** `insert into <table>(<c1>,...,<cn>) values(<m1>,...,<mk>);` with the
      table, the column names and the placeholder marks copied verbatim. */
  function InsertStatement(table: string, columns: seq<string>, marks: seq<string>): (sql: string)
    ensures |InsertPrefix| + |table| < |sql|
    ensures sql[..|InsertPrefix|] == InsertPrefix
    ensures sql[|InsertPrefix|..|InsertPrefix| + |table|] == table
    ensures sql[|sql| - |StatementEnd|..] == StatementEnd
  {
    InsertPrefix + table + "(" + Join(columns, ',') + ValuesInfix + Join(marks, ',') + StatementEnd
  }

  /** The comma-separated list between two brackets; empty text is the empty list. */
  function SplitList(s: string): seq<string> {
    if s == "" then [] else Split(s, ',')
  }

  /** Reads a statement of the InsertStatement shape back into its table,
      column names and marks: the table runs to the first `(`, the column
      list to the next `)`. None when the text has another shape. */
  function ParseInsert(sql: string): Option<(string, seq<string>, seq<string>)> {
    if |sql| < |InsertPrefix| || sql[..|InsertPrefix|] != InsertPrefix then None
    else ParseTableAndLists(sql[|InsertPrefix|..])
  }

  function ParseTableAndLists(s: string): Option<(string, seq<string>, seq<string>)> {
    var open := IndexOf(s, '(');
    if open == |s| then None
    else
      match ParseLists(s[open + 1..])
      case None => None
      case Some(lists) => Some((s[..open], lists.0, lists.1))
  }

  function ParseLists(s: string): Option<(seq<string>, seq<string>)> {
    var close := IndexOf(s, ')');
    var tail := s[close..];
    if |tail| < |ValuesInfix| + |StatementEnd|
       || tail[..|ValuesInfix|] != ValuesInfix
       || tail[|tail| - |StatementEnd|..] != StatementEnd
    then None
    else Some((SplitList(s[..close]), SplitList(tail[|ValuesInfix|..|tail| - |StatementEnd|])))
  }

  // ---------------------------------------------------------------------
  // Lemmas

  /** Split sees a separator-free prefix as one piece. */
  lemma {:induction false} SplitAfterPiece(a: string, sep: char, b: string)
    requires sep !in a
    ensures Split(a + [sep] + b, sep) == [a] + Split(b, sep)
    ensures Split(a, sep) == [a]
    decreases |a|
  {
    if a == [] {
      assert (a + [sep] + b)[1..] == b;
      assert a + [sep] + b == [sep] + b;
    } else {
      SplitAfterPiece(a[1..], sep, b);
      assert (a + [sep] + b)[1..] == a[1..] + [sep] + b;
      assert (a + [sep] + b)[0] == a[0];
      assert [a[0]] + a[1..] == a;
    }
  }

  /** Split undoes Join for a non-empty list of separator-free parts. */
  lemma {:induction false} SplitJoin(parts: seq<string>, sep: char)
    requires |parts| >= 1
    requires forall i :: 0 <= i < |parts| ==> sep !in parts[i]
    ensures Split(Join(parts, sep), sep) == parts
    decreases |parts|
  {
    if |parts| == 1 {
      SplitAfterPiece(parts[0], sep, "");
    } else {
      SplitJoin(parts[1..], sep);
      SplitAfterPiece(parts[0], sep, Join(parts[1..], sep));
      assert [parts[0]] + parts[1..] == parts;
    }
  }

  /** A character in no part and other than the separator is not in the join. */
  lemma {:induction false} JoinAvoids(parts: seq<string>, sep: char, c: char)
    requires c != sep
    requires forall i :: 0 <= i < |parts| ==> c !in parts[i]
    ensures c !in Join(parts, sep)
    decreases |parts|
  {
    if |parts| > 1 {
      JoinAvoids(parts[1..], sep, c);
    }
  }

  /** The join of a list with no empty part is empty only for the empty list. */
  lemma {:induction false} JoinEmpty(parts: seq<string>, sep: char)
    requires forall i :: 0 <= i < |parts| ==> parts[i] != ""
    ensures Join(parts, sep) == "" <==> parts == []
  {
    if |parts| > 1 {
      assert |Join(parts, sep)| >= |parts[0]|;
    }
  }

  /** SplitList undoes Join for every list of separable parts, empty or not. */
  lemma {:induction false} SplitListJoin(parts: seq<string>)
    requires forall i :: 0 <= i < |parts| ==> parts[i] != "" && ',' !in parts[i]
    ensures SplitList(Join(parts, ',')) == parts
  {
    JoinEmpty(parts, ',');
    if parts != [] {
      SplitJoin(parts, ',');
    }
  }

  /** IndexOf finds a character right after a prefix that lacks it. */
  lemma IndexOfAfter(a: string, c: char, b: string)
    requires c !in a
    ensures IndexOf(a + [c] + b, c) == |a|
  {
    var s := a + [c] + b;
    assert s[|a|] == c;
    assert forall j :: 0 <= j < |a| ==> s[j] == a[j];
  }

  /** The list step reads the column list up to the first `)` and the mark
      list between `) values(` and the closing `);`. */
  lemma ParseListsOf(cols: string, ms: string)
    requires ')' !in cols
    ensures ParseLists(cols + ValuesInfix + ms + StatementEnd) == Some((SplitList(cols), SplitList(ms)))
  {
    var tail := ValuesInfix + ms + StatementEnd;
    var s := cols + tail;
    assert cols + ValuesInfix + ms + StatementEnd == s;
    assert s == cols + [')'] + tail[1..];
    IndexOfAfter(cols, ')', tail[1..]);
    assert s[..|cols|] == cols;
    assert s[|cols|..] == tail;
    assert tail[..|ValuesInfix|] == ValuesInfix;
    assert tail[|tail| - |StatementEnd|..] == StatementEnd;
    assert tail[|ValuesInfix|..|tail| - |StatementEnd|] == ms;
  }

  /** The table step reads the table up to the first `(`. */
  lemma ParseTableAndListsOf(table: string, rest: string)
    requires '(' !in table
    ensures ParseTableAndLists(table + "(" + rest)
         == match ParseLists(rest) case None => None case Some(lists) => Some((table, lists.0, lists.1))
  {
    var s := table + "(" + rest;
    IndexOfAfter(table, '(', rest);
    assert s[..|table|] == table;
    assert s[|table| + 1..] == rest;
  }

  /** The statement's seven pieces regrouped as the three parser steps see
      them, stated over plain strings so that no definition is unfolded. */
  lemma Regroup(p: string, t: string, o: string, c: string, v: string, m: string, e: string)
    ensures p + t + o + c + v + m + e == p + (t + o + (c + v + m + e))
  {
  }

  /** The prefix step strips `insert into `. */
  lemma ParseInsertPrefix(rest: string)
    ensures ParseInsert(InsertPrefix + rest) == ParseTableAndLists(rest)
  {
    assert (InsertPrefix + rest)[..|InsertPrefix|] == InsertPrefix;
    assert (InsertPrefix + rest)[|InsertPrefix|..] == rest;
  }

  /** ParseInsert reads back what InsertStatement writes, when the table
      has no `(` and neither list holds an empty item or a comma, and the
      column names hold no `)`. */
  lemma ParseInsertStatement(table: string, columns: seq<string>, marks: seq<string>)
    requires '(' !in table
    requires Separable(columns, ',', ')')
    requires Separable(marks, ',', ',')
    ensures ParseInsert(InsertStatement(table, columns, marks)) == Some((table, columns, marks))
  {
    var cols := Join(columns, ',');
    var ms := Join(marks, ',');
    SplitListJoin(columns);
    SplitListJoin(marks);
    JoinAvoids(columns, ',', ')');
    var rest := cols + ValuesInfix + ms + StatementEnd;
    ParseListsOf(cols, ms);
    ParseTableAndListsOf(table, rest);
    var x := table + "(" + rest;
    ParseInsertPrefix(x);
    assert ParseLists(rest) == Some((columns, marks));
    assert ParseTableAndLists(x) == Some((table, columns, marks));
    Regroup(InsertPrefix, table, "(", cols, ValuesInfix, ms, StatementEnd);
  }
}
