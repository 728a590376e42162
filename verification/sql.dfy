/**
  The database as the repositories see it, independent of any one table: the
  bound arguments, the SET list a partial update builds, the UPDATE statement
  assembled from it, and what the server does with the five kinds of
  statement the repositories issue (INSERT ... RETURNING id, SELECT one row by
  id, DELETE ... RETURNING id, UPDATE ... RETURNING id, SELECT with and
  without a WHERE column). A table is a map from primary key to row; a
  failure of the server or driver the model cannot derive from the data is an
  input `fault`, and the order in which a SELECT without ORDER BY returns its
  rows is an input `order`.
 */
module Sql {
  import opened Wrappers
  import opened Domain

  // ---------------------------------------------------------------------------
  // Arguments and SET lists
  // ---------------------------------------------------------------------------

  /** A value bound to a placeholder: text, or a date passed by value. */
  datatype Arg = Text(text: string) | Date(date: OnlyDate) {
    /** The text the server receives; a date travels as its underlying string. */
    function Raw(): (s: string)
      ensures Date? ==> OnlyDate(s) == date
      ensures Text? ==> s == text
    {
      match this
      case Text(t) => t
      case Date(d) => d.String()
    }
  }

  /** One `column=$n` clause of a SET list: the column as written and the placeholder number. */
  datatype Assignment = Assignment(column: string, placeholder: nat)

  /** The parallel `sets` and `args` lists a `prepareArgs` builds. */
  datatype SetList = SetList(sets: seq<Assignment>, args: seq<Arg>)

  /** The i-th clause (counting from 1) uses placeholder `$i`, and there is one argument per clause. */
  predicate Numbered(l: SetList) {
    && |l.sets| == |l.args|
    && forall i :: 0 <= i < |l.sets| ==> l.sets[i].placeholder == i + 1
  }

  /** Every clause's placeholder names an argument that exists. */
  predicate Bound(sets: seq<Assignment>, args: seq<Arg>) {
    forall i :: 0 <= i < |sets| ==> 1 <= sets[i].placeholder <= |args|
  }

  /** The argument a placeholder number names. */
  function ArgOf(args: seq<Arg>, placeholder: nat): Arg
    requires 1 <= placeholder <= |args|
  {
    args[placeholder - 1]
  }

  /** What `prepareArgs` starts from: no clauses, no arguments. */
  function NoSets(): (l: SetList)
    ensures Numbered(l) && l.sets == [] && l.args == []
  {
    SetList([], [])
  }

  /**
    One `if value != "" { args = append(args, value); sets = append(sets, "column=$len(args)") }`
    of a `prepareArgs`: when the field is supplied, its value becomes the next
    argument and its clause names that argument's number.
   */
  function Append(l: SetList, supplied: bool, column: string, value: Arg): (r: SetList)
    ensures Numbered(l) ==> Numbered(r)
    ensures !supplied ==> r == l
    ensures supplied ==> |r.sets| == |l.sets| + 1 && |r.args| == |l.args| + 1
    ensures supplied ==> r.sets[..|l.sets|] == l.sets && r.args[..|l.args|] == l.args
    ensures supplied ==> r.sets[|l.sets|].column == column && r.sets[|l.sets|].placeholder == |r.args|
    ensures supplied ==> ArgOf(r.args, |r.args|) == value
  {
    if supplied then
      var args := l.args + [value];
      SetList(l.sets + [Assignment(column, |args|)], args)
    else l
  }

  /**
    The list holds exactly `fields`, in order: the i-th clause names the i-th
    column with placeholder `$i`, and the i-th argument is its value.
   */
  predicate Describes(l: SetList, fields: seq<(string, Arg)>) {
    && |l.sets| == |fields| == |l.args|
    && forall i :: 0 <= i < |fields| ==> l.sets[i] == Assignment(fields[i].0, i + 1) && l.args[i] == fields[i].1
  }

  /** The field a supplied value contributes: itself when supplied, nothing otherwise. */
  function Optional(supplied: bool, column: string, value: Arg): (f: seq<(string, Arg)>)
    ensures |f| <= 1
    ensures f != [] <==> supplied
  {
    if supplied then [(column, value)] else []
  }

  lemma DescribesNumbered(l: SetList, fields: seq<(string, Arg)>)
    requires Describes(l, fields)
    ensures Numbered(l)
  {
  }

  /** `Append` adds to the list exactly the field `Optional` names. */
  lemma AppendDescribes(l: SetList, fields: seq<(string, Arg)>, supplied: bool, column: string, value: Arg)
    requires Describes(l, fields)
    ensures Numbered(l)
    ensures Describes(Append(l, supplied, column, value), fields + Optional(supplied, column, value))
  {
    if !supplied {
      assert fields + Optional(supplied, column, value) == fields;
    }
  }

  /** Two `Append` steps add the fields their `Optional`s name, in order. */
  lemma AppendTwoDescribes(l: SetList, fields: seq<(string, Arg)>,
                           s1: bool, c1: string, v1: Arg, s2: bool, c2: string, v2: Arg)
    requires Describes(l, fields)
    ensures Describes(Append(Append(l, s1, c1, v1), s2, c2, v2), fields + Optional(s1, c1, v1) + Optional(s2, c2, v2))
  {
    AppendDescribes(l, fields, s1, c1, v1);
    AppendDescribes(Append(l, s1, c1, v1), fields + Optional(s1, c1, v1), s2, c2, v2);
  }

  /** The same for three steps. */
  lemma AppendThreeDescribes(l: SetList, fields: seq<(string, Arg)>,
                             s1: bool, c1: string, v1: Arg, s2: bool, c2: string, v2: Arg, s3: bool, c3: string, v3: Arg)
    requires Describes(l, fields)
    ensures Describes(Append(Append(Append(l, s1, c1, v1), s2, c2, v2), s3, c3, v3),
                      fields + Optional(s1, c1, v1) + Optional(s2, c2, v2) + Optional(s3, c3, v3))
  {
    AppendTwoDescribes(l, fields, s1, c1, v1, s2, c2, v2);
    AppendDescribes(Append(Append(l, s1, c1, v1), s2, c2, v2), fields + Optional(s1, c1, v1) + Optional(s2, c2, v2),
                    s3, c3, v3);
  }

  /** Three `Append` steps from the empty list describe exactly their three `Optional`s. */
  lemma StartThreeDescribes(s1: bool, c1: string, v1: Arg, s2: bool, c2: string, v2: Arg, s3: bool, c3: string, v3: Arg)
    ensures Describes(Append(Append(Append(NoSets(), s1, c1, v1), s2, c2, v2), s3, c3, v3),
                      Optional(s1, c1, v1) + Optional(s2, c2, v2) + Optional(s3, c3, v3))
  {
    AppendDescribes(NoSets(), [], s1, c1, v1);
    assert [] + Optional(s1, c1, v1) == Optional(s1, c1, v1);
    AppendTwoDescribes(Append(NoSets(), s1, c1, v1), Optional(s1, c1, v1), s2, c2, v2, s3, c3, v3);
  }

  /** The same for four steps. */
  lemma StartFourDescribes(s1: bool, c1: string, v1: Arg, s2: bool, c2: string, v2: Arg, s3: bool, c3: string, v3: Arg,
                           s4: bool, c4: string, v4: Arg)
    ensures Describes(Append(Append(Append(Append(NoSets(), s1, c1, v1), s2, c2, v2), s3, c3, v3), s4, c4, v4),
                      Optional(s1, c1, v1) + Optional(s2, c2, v2) + Optional(s3, c3, v3) + Optional(s4, c4, v4))
  {
    AppendDescribes(NoSets(), [], s1, c1, v1);
    assert [] + Optional(s1, c1, v1) == Optional(s1, c1, v1);
    AppendThreeDescribes(Append(NoSets(), s1, c1, v1), Optional(s1, c1, v1), s2, c2, v2, s3, c3, v3, s4, c4, v4);
  }

  // ---------------------------------------------------------------------------
  // UPDATE assembly and its effect
  // ---------------------------------------------------------------------------

  /** `UPDATE table SET sets WHERE id = $whereIndex RETURNING id` with its arguments. */
  datatype UpdateStatement = UpdateStatement(table: string, sets: seq<Assignment>, args: seq<Arg>, whereIndex: nat)

  /** The clauses name existing arguments and the WHERE placeholder names the last one. */
  predicate WellFormed(st: UpdateStatement) {
    1 <= st.whereIndex == |st.args| && Bound(st.sets, st.args)
  }

  /**
    The assembly in every repository's `Update`: no statement at all when no
    field was supplied; otherwise the id is appended as the last argument and
    the WHERE clause names it by its number, `len(args)`.
   */
  function AssembleUpdate(table: string, l: SetList, id: string): (r: Option<UpdateStatement>)
    requires Numbered(l)
    ensures r.None? <==> l.sets == []
    ensures r.Some? ==> WellFormed(r.value)
    ensures r.Some? ==> r.value.table == table && r.value.sets == l.sets && r.value.args == l.args + [Text(id)]
    ensures r.Some? ==> r.value.whereIndex == |l.sets| + 1 && ArgOf(r.value.args, r.value.whereIndex) == Text(id)
  {
    if |l.sets| > 0 then
      var args := l.args + [Text(id)];
      Some(UpdateStatement(table, l.sets, args, |args|))
    else None
  }

  /**
    The row after the server applies the clauses in order; `assign` says what
    one clause does to a row. Defined on the last clause so that appending a
    clause adds one outermost `assign`.
   */
  function ApplySets<T>(row: T, assign: (T, string, Arg) -> T, sets: seq<Assignment>, args: seq<Arg>): T
    requires Bound(sets, args)
    decreases |sets|
  {
    if sets == [] then row
    else
      var last := sets[|sets| - 1];
      assign(ApplySets(row, assign, sets[..|sets| - 1], args), last.column, ArgOf(args, last.placeholder))
  }

  /** The row after applying `fields` in order, as the reference for what a SET list does. */
  function ApplyFields<T>(row: T, assign: (T, string, Arg) -> T, fields: seq<(string, Arg)>): T
    decreases |fields|
  {
    if fields == [] then row
    else
      var last := fields[|fields| - 1];
      assign(ApplyFields(row, assign, fields[..|fields| - 1]), last.0, last.1)
  }

  /** Applying two runs of fields one after the other is applying their concatenation. */
  lemma {:induction false} ApplyFieldsConcat<T>(row: T, assign: (T, string, Arg) -> T, f: seq<(string, Arg)>, g: seq<(string, Arg)>)
    ensures ApplyFields(row, assign, f + g) == ApplyFields(ApplyFields(row, assign, f), assign, g)
    decreases |g|
  {
    if g == [] {
      assert f + g == f;
    } else {
      assert (f + g)[..|f + g| - 1] == f + g[..|g| - 1];
      ApplyFieldsConcat(row, assign, f, g[..|g| - 1]);
    }
  }

  /** An optional field is one assignment when supplied and none otherwise. */
  lemma ApplyOptional<T>(row: T, assign: (T, string, Arg) -> T, supplied: bool, column: string, value: Arg)
    ensures ApplyFields(row, assign, Optional(supplied, column, value)) == if supplied then assign(row, column, value) else row
  {
    if supplied {
      assert Optional(supplied, column, value)[..0] == [];
    }
  }

  /**
    A SET list that describes `fields` does to a row what applying the fields
    does, whatever arguments (the WHERE id) follow the ones it names.
   */
  lemma {:induction false} ApplyDescribed<T>(row: T, assign: (T, string, Arg) -> T, l: SetList, fields: seq<(string, Arg)>, more: seq<Arg>)
    requires Describes(l, fields)
    ensures Bound(l.sets, l.args + more)
    ensures ApplySets(row, assign, l.sets, l.args + more) == ApplyFields(row, assign, fields)
    decreases |fields|
  {
    if fields != [] {
      var n := |fields| - 1;
      var shorter := SetList(l.sets[..n], l.args[..n]);
      assert Describes(shorter, fields[..n]);
      ApplyDescribed(row, assign, shorter, fields[..n], [l.args[n]] + more);
      assert shorter.args + ([l.args[n]] + more) == l.args + more;
      assert l.sets[..|l.sets| - 1] == shorter.sets;
      assert ArgOf(l.args + more, l.sets[n].placeholder) == fields[n].1;
    }
  }

  // ---------------------------------------------------------------------------
  // Statements against one table
  // ---------------------------------------------------------------------------

  /** `INSERT ... RETURNING id`: the key must be new; the row is added and its id returned. */
  function ExecInsert<T>(table: map<string, T>, id: string, row: T, fault: Option<DbError>): (r: Result<(string, map<string, T>), DbError>)
    ensures r.Ok? <==> fault.None? && id !in table
    ensures r.Ok? ==> r.value == (id, table[id := row])
    ensures fault.Some? ==> r == Err(fault.value)
    ensures fault.None? && id in table ==> r == Err(UniqueViolation)
  {
    if fault.Some? then Err(fault.value)
    else if id in table then Err(UniqueViolation)
    else Ok((id, table[id := row]))
  }

  /** `SELECT * FROM table WHERE id = $1` read with `Get`: exactly one row or `sql.ErrNoRows`. */
  function ExecGet<T>(table: map<string, T>, id: string, fault: Option<DbError>): (r: Result<T, DbError>)
    ensures r.Ok? <==> fault.None? && id in table
    ensures r.Ok? ==> r.value == table[id]
    ensures fault.Some? ==> r == Err(fault.value)
    ensures fault.None? && id !in table ==> r == Err(NoRows)
  {
    if fault.Some? then Err(fault.value)
    else if id !in table then Err(NoRows)
    else Ok(table[id])
  }

  /** `DELETE FROM table WHERE id = $1 RETURNING id`: the row goes, or `sql.ErrNoRows` when there was none. */
  function ExecDelete<T>(table: map<string, T>, id: string, fault: Option<DbError>): (r: Result<map<string, T>, DbError>)
    ensures r.Ok? <==> fault.None? && id in table
    ensures r.Ok? ==> id !in r.value && r.value.Keys == table.Keys - {id}
    ensures r.Ok? ==> forall k :: k in r.value ==> r.value[k] == table[k]
    ensures fault.Some? ==> r == Err(fault.value)
    ensures fault.None? && id !in table ==> r == Err(NoRows)
  {
    if fault.Some? then Err(fault.value)
    else if id !in table then Err(NoRows)
    else Ok(table - {id})
  }

  /**
    `UPDATE ... WHERE id = $n RETURNING id`: the row whose key is the WHERE
    argument takes the clauses; no such row is `sql.ErrNoRows`.
   */
  function ExecUpdate<T>(table: map<string, T>, st: UpdateStatement, assign: (T, string, Arg) -> T, fault: Option<DbError>)
    : (r: Result<map<string, T>, DbError>)
    requires WellFormed(st)
    ensures var id := ArgOf(st.args, st.whereIndex).Raw();
      && (r.Ok? <==> fault.None? && id in table)
      && (r.Ok? ==> r.value == table[id := ApplySets(table[id], assign, st.sets, st.args)])
      && (fault.Some? ==> r == Err(fault.value))
      && (fault.None? && id !in table ==> r == Err(NoRows))
  {
    var id := ArgOf(st.args, st.whereIndex).Raw();
    if fault.Some? then Err(fault.value)
    else if id !in table then Err(NoRows)
    else Ok(table[id := ApplySets(table[id], assign, st.sets, st.args)])
  }

  /** The rows of `table` in the order `order` visits their keys; keys not in the table are skipped. */
  function Rows<T>(table: map<string, T>, order: seq<string>): (rows: seq<T>)
    ensures |rows| <= |order|
    ensures forall r :: r in rows ==> exists k :: k in order && k in table && table[k] == r
  {
    if order == [] then []
    else (if order[0] in table then [table[order[0]]] else []) + Rows(table, order[1..])
  }

  /** `order` visits every key of the table exactly once: the order of a full scan. */
  predicate Lists<T>(order: seq<string>, table: map<string, T>) {
    && (forall i, j :: 0 <= i < j < |order| ==> order[i] != order[j])
    && (forall i :: 0 <= i < |order| ==> order[i] in table)
    && (forall k :: k in table ==> k in order)
  }

  /** A full scan returns one row per key, in the scan order. */
  lemma {:induction false} RowsOfListing<T>(table: map<string, T>, order: seq<string>)
    requires forall k :: k in order ==> k in table
    ensures |Rows(table, order)| == |order|
    ensures forall i :: 0 <= i < |order| ==> Rows(table, order)[i] == table[order[i]]
  {
    if order != [] {
      RowsOfListing(table, order[1..]);
    }
  }

  /** `SELECT * FROM table`: every row, in scan order. */
  function ExecSelectAll<T>(table: map<string, T>, order: seq<string>, fault: Option<DbError>): (r: Result<seq<T>, DbError>)
    ensures r.Ok? <==> fault.None?
    ensures fault.Some? ==> r == Err(fault.value)
    ensures r.Ok? && Lists(order, table) ==> |r.value| == |order| == |table|
    ensures r.Ok? && Lists(order, table) ==> forall i :: 0 <= i < |order| ==> r.value[i] == table[order[i]]
  {
    if fault.Some? then Err(fault.value)
    else
      ListingSize(order, table);
      if Lists(order, table) then
        RowsOfListing(table, order);
        Ok(Rows(table, order))
      else Ok(Rows(table, order))
  }

  /** A listing without repeats has as many entries as the table has keys. */
  lemma ListingSize<T>(order: seq<string>, table: map<string, T>)
    ensures Lists(order, table) ==> |order| == |table|
  {
    if Lists(order, table) {
      DistinctCardinality(order);
      assert (set k | k in order) == table.Keys;
    }
  }

  /** A sequence without repeats has as many distinct elements as entries. */
  lemma {:induction false} DistinctCardinality(s: seq<string>)
    requires forall i, j :: 0 <= i < j < |s| ==> s[i] != s[j]
    ensures |set k | k in s| == |s|
  {
    if s != [] {
      DistinctCardinality(s[1..]);
      assert (set k | k in s) == {s[0]} + (set k | k in s[1..]);
      assert s[0] !in (set k | k in s[1..]) by {
        forall i | 0 <= i < |s[1..]| ensures s[1..][i] != s[0] {
          assert s[1..][i] == s[i + 1];
        }
      }
    }
  }

  /** The first column of the table, in table order, that the destination struct has no field for. */
  function MissingColumn(columns: seq<string>, destination: set<string>): (r: Option<string>)
    ensures r.None? <==> forall c :: c in columns ==> c in destination
    ensures r.Some? ==> r.value in columns && r.value !in destination
  {
    if columns == [] then None
    else if columns[0] !in destination then Some(columns[0])
    else MissingColumn(columns[1..], destination)
  }

  /** The rows, in scan order, whose `column` holds `value`. */
  function Matching<R>(table: map<string, R>, order: seq<string>, get: (R, string) -> string, column: string, value: string)
    : (rows: seq<R>)
    ensures forall r :: r in rows ==> get(r, column) == value
    ensures forall r :: r in rows ==> exists k :: k in order && k in table && table[k] == r
  {
    if order == [] then []
    else
      (if order[0] in table && get(table[order[0]], column) == value then [table[order[0]]] else [])
      + Matching(table, order[1..], get, column, value)
  }

  /** Every row of the scan whose column holds the value is among the matches. */
  lemma {:induction false} MatchingComplete<R>(table: map<string, R>, order: seq<string>, get: (R, string) -> string, column: string, value: string, k: string)
    requires k in order && k in table && get(table[k], column) == value
    ensures table[k] in Matching(table, order, get, column, value)
  {
    if order[0] != k {
      MatchingComplete(table, order[1..], get, column, value, k);
    }
  }

  /** The keys whose row holds `value` in `column`: the rows a `WHERE column = $1` selects. */
  function MatchKeys<R>(table: map<string, R>, get: (R, string) -> string, column: string, value: string): set<string> {
    set k | k in table && get(table[k], column) == value
  }

  /** The keys of `order` whose row holds `value` in `column`. */
  function ScannedMatchKeys<R>(table: map<string, R>, order: seq<string>, get: (R, string) -> string, column: string, value: string): set<string> {
    set k | k in order && k in table && get(table[k], column) == value
  }

  /** A scan without repeats returns one row per matching key it visits. */
  lemma {:induction false} MatchingCount<R>(table: map<string, R>, order: seq<string>, get: (R, string) -> string, column: string, value: string)
    requires forall i, j :: 0 <= i < j < |order| ==> order[i] != order[j]
    ensures |Matching(table, order, get, column, value)| == |ScannedMatchKeys(table, order, get, column, value)|
  {
    if order == [] {
      assert ScannedMatchKeys(table, order, get, column, value) == {};
    } else {
      var tail := order[1..];
      assert forall i, j :: 0 <= i < j < |tail| ==> tail[i] != tail[j] by {
        forall i, j | 0 <= i < j < |tail| ensures tail[i] != tail[j] {
          assert tail[i] == order[i + 1] && tail[j] == order[j + 1];
        }
      }
      MatchingCount(table, tail, get, column, value);
      assert order[0] !in ScannedMatchKeys(table, tail, get, column, value) by {
        forall i | 0 <= i < |tail| ensures tail[i] != order[0] {
          assert tail[i] == order[i + 1];
        }
      }
      ScannedMatchKeysStep(table, order, get, column, value);
    }
  }

  /** The matching keys of a scan are those of its first key together with those of the rest. */
  lemma ScannedMatchKeysStep<R>(table: map<string, R>, order: seq<string>, get: (R, string) -> string, column: string, value: string)
    requires order != []
    ensures ScannedMatchKeys(table, order, get, column, value) ==
      (if order[0] in table && get(table[order[0]], column) == value then {order[0]} else {})
      + ScannedMatchKeys(table, order[1..], get, column, value)
  {
    assert forall k :: k in order <==> k == order[0] || k in order[1..];
  }

  /**
    Over a full scan the matches are exactly the table's matching rows:
    every one of them is returned, each matching key once, and there are none
    exactly when no row of the table holds the value.
   */
  lemma MatchingOfListing<R>(table: map<string, R>, order: seq<string>, get: (R, string) -> string, column: string, value: string)
    requires Lists(order, table)
    ensures forall k :: k in table && get(table[k], column) == value ==> table[k] in Matching(table, order, get, column, value)
    ensures |Matching(table, order, get, column, value)| == |MatchKeys(table, get, column, value)|
    ensures Matching(table, order, get, column, value) == [] <==> MatchKeys(table, get, column, value) == {}
  {
    forall k | k in table && get(table[k], column) == value
      ensures table[k] in Matching(table, order, get, column, value)
    {
      MatchingComplete(table, order, get, column, value, k);
    }
    MatchingCount(table, order, get, column, value);
    assert ScannedMatchKeys(table, order, get, column, value) == MatchKeys(table, get, column, value);
  }

  /**
    `SELECT * FROM table WHERE column = $1` read into a destination struct:
    an empty column name is a syntax error, a column the table lacks is an
    undefined column, both reported before anything else; then the scanner
    refuses a result whose columns the destination cannot hold; otherwise the
    matching rows come back, converted by `scan`, in scan order.
   */
  function ExecSelectWhere<R, D>(
    table: map<string, R>, columns: seq<string>, destination: set<string>, scan: R -> D,
    get: (R, string) -> string, column: string, value: string, order: seq<string>, fault: Option<DbError>)
    : (r: Result<seq<D>, DbError>)
    ensures column == "" ==> r == Err(SyntaxError)
    ensures column != "" && column !in columns ==> r == Err(UndefinedColumn(column))
    ensures r.Ok? ==> column in columns && fault.None? && MissingColumn(columns, destination).None?
    ensures r.Ok? ==> |r.value| == |Matching(table, order, get, column, value)|
    ensures r.Ok? ==> forall i :: 0 <= i < |r.value| ==> r.value[i] == scan(Matching(table, order, get, column, value)[i])
    ensures r.Ok? && Lists(order, table) ==>
      forall k :: k in table && get(table[k], column) == value ==> scan(table[k]) in r.value
    ensures r.Ok? && Lists(order, table) ==> |r.value| == |MatchKeys(table, get, column, value)|
    ensures column != "" && column in columns && fault.None? && MissingColumn(columns, destination).None? ==> r.Ok?
    ensures r.Ok? && Lists(order, table) ==> (r.value == [] <==> MatchKeys(table, get, column, value) == {})
  {
    if column == "" then Err(SyntaxError)
    else if column !in columns then Err(UndefinedColumn(column))
    else if fault.Some? then Err(fault.value)
    else
      match MissingColumn(columns, destination)
      case Some(c) => Err(MissingDestination(c))
      case None =>
        var rows := Matching(table, order, get, column, value);
        if Lists(order, table) then
          MatchingOfListing(table, order, get, column, value);
          var r := seq(|rows|, i requires 0 <= i < |rows| => scan(rows[i]));
          assert forall k :: k in table && get(table[k], column) == value ==> scan(table[k]) in r by {
            forall k | k in table && get(table[k], column) == value ensures scan(table[k]) in r {
              var i :| 0 <= i < |rows| && rows[i] == table[k];
              assert r[i] == scan(table[k]);
            }
          }
          Ok(r)
        else Ok(seq(|rows|, i requires 0 <= i < |rows| => scan(rows[i])))
  }

  // ---------------------------------------------------------------------------
  // Error mapping shared by the three repositories
  // ---------------------------------------------------------------------------

  /**
    The error mapping of every `Create`: a missing returned row and a
    unique_violation both become the resource's ErrExists; anything else is
    passed through.
   */
  function CreateError(resource: Resource, e: DbError): (err: Error)
    ensures err == Sentinel(resource, Exists) <==> e == NoRows || e == UniqueViolation
    ensures err.Driver? <==> e != NoRows && e != UniqueViolation
    ensures err.Driver? ==> err.cause == e
  {
    if e == NoRows || e == UniqueViolation then Sentinel(resource, Exists)
    else Driver(e)
  }

  /** The error mapping of `Get`, `Update` and `Delete`: `sql.ErrNoRows` becomes ErrNotFound, anything else is passed through. */
  function NotFoundError(resource: Resource, e: DbError): (err: Error)
    ensures err == Sentinel(resource, NotFound) <==> e == NoRows
    ensures err.Driver? <==> e != NoRows
    ensures err.Driver? ==> err.cause == e
  {
    if e == NoRows then Sentinel(resource, NotFound) else Driver(e)
  }

  // ---------------------------------------------------------------------------
  // Identifiers
  // ---------------------------------------------------------------------------

  /** ASCII lower-casing of one character. */
  function FoldChar(c: char): (d: char)
    ensures 'A' <= c <= 'Z' ==> 'a' <= d <= 'z' && d as int == c as int + 32
    ensures !('A' <= c <= 'Z') ==> d == c
  {
    if 'A' <= c <= 'Z' then (c as int + 32) as char else c
  }

  /** ASCII lower-casing, which is how the server folds an unquoted identifier such as `Title`. */
  function FoldIdentifier(s: string): (r: string)
    ensures |r| == |s|
    ensures forall i :: 0 <= i < |s| ==> r[i] == FoldChar(s[i])
  {
    seq(|s|, i requires 0 <= i < |s| => FoldChar(s[i]))
  }

  /** An identifier with no upper-case letter folds to itself. */
  lemma FoldLowerCase(s: string)
    requires forall i :: 0 <= i < |s| ==> !('A' <= s[i] <= 'Z')
    ensures FoldIdentifier(s) == s
  {
  }
}
