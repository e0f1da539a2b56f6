/** buildBatchInsertQuery: the text of a multi-row INSERT with numbered placeholders, and its arguments. */
module BatchQuery {
  import opened Optional
  import opened SqlStores
  import opened Stores

  const PREFIX := "INSERT INTO urls(" + "id, original_url, user_id, is_deleted) VALUES "

  function Digit(n: nat): char
    requires n < 10
  {
    "0123456789"[n]
  }

  // The %d of a natural number.
  function Decimal(n: nat): string {
    if n < 10 then [Digit(n)] else Decimal(n / 10) + [Digit(n % 10)]
  }

  function TupleText(i: nat): string {
    "($" + Decimal(i * 3 + 1) + ", $" + Decimal(i * 3 + 2) + ", $" + Decimal(i * 3 + 3) + ", false)"
  }

  // The text for rows i, i + 1, ..., n - 1.
  function Values(i: nat, n: nat): string
    requires i <= n
    decreases n - i
  {
    if i == n then "" else (if i > 0 then ", " else "") + TupleText(i) + Values(i + 1, n)
  }

  function Args(rows: seq<Row>): seq<string> {
    if rows == [] then [] else [rows[0].id, rows[0].originalURL, rows[0].userID] + Args(rows[1..])
  }

  // ---- Reading the statement back, as the database does ----

  datatype Value = Param(k: nat) | False

  datatype Insert = Insert(table: string, columns: seq<string>, tuples: seq<seq<Value>>)

  predicate IsDigit(c: char) {
    '0' <= c <= '9'
  }

  predicate IsNameChar(c: char) {
    'a' <= c <= 'z' || c == '_'
  }

  // The number at the start of s, continuing from the digits already read, and what follows it.
  function TakeNat(acc: nat, s: string): (r: (nat, string))
    ensures |r.1| <= |s|
    decreases |s|
  {
    if s != "" && IsDigit(s[0]) then TakeNat(acc * 10 + (s[0] as nat - '0' as nat), s[1..]) else (acc, s)
  }

  // The name at the start of s and what follows it.
  function TakeName(s: string): (r: (string, string))
    ensures |r.0| + |r.1| == |s|
  {
    if s != "" && IsNameChar(s[0]) then
      var (name, rest) := TakeName(s[1..]);
      ([s[0]] + name, rest)
    else ("", s)
  }

  function Expect(s: string, word: string): (r: Option<string>)
    ensures r.Some? ==> |r.value| + |word| == |s|
  {
    if word <= s then Some(s[|word|..]) else None
  }

  function TakeValue(s: string): (r: Option<(Value, string)>)
    ensures r.Some? ==> |r.value.1| < |s|
  {
    match Expect(s, "$")
    case Some(t) =>
      if t != "" && IsDigit(t[0]) then
        var (k, rest) := TakeNat(0, t);
        Some((Param(k), rest))
      else None
    case None =>
      match Expect(s, "false")
      case Some(rest) => Some((False, rest))
      case None => None
  }

  // Names separated by commas, up to a closing parenthesis, and what follows it.
  function TakeNames(s: string): Option<(seq<string>, string)>
    decreases |s|
  {
    var (name, t) := TakeName(s);
    if name == "" then None
    else
      match Expect(t, ")")
      case Some(rest) => Some(([name], rest))
      case None =>
        match Expect(t, ", ")
        case None => None
        case Some(u) =>
          match TakeNames(u)
          case None => None
          case Some((names, rest)) => Some(([name] + names, rest))
  }

  // The same for values.
  function TakeValues(s: string): (r: Option<(seq<Value>, string)>)
    ensures r.Some? ==> |r.value.1| < |s|
    decreases |s|
  {
    match TakeValue(s)
    case None => None
    case Some((value, t)) =>
      match Expect(t, ")")
      case Some(rest) => Some(([value], rest))
      case None =>
        match Expect(t, ", ")
        case None => None
        case Some(u) =>
          match TakeValues(u)
          case None => None
          case Some((values, rest)) => Some(([value] + values, rest))
  }

  function TakeTuples(s: string): Option<seq<seq<Value>>>
    decreases |s|
  {
    match Expect(s, "(")
    case None => None
    case Some(t) =>
      match TakeValues(t)
      case None => None
      case Some((tuple, rest)) =>
        if rest == "" then Some([tuple])
        else
          match Expect(rest, ", ")
          case None => None
          case Some(u) =>
            match TakeTuples(u)
            case None => None
            case Some(tuples) => Some([tuple] + tuples)
  }

  function Parse(query: string): Option<Insert> {
    match Expect(query, "INSERT INTO ")
    case None => None
    case Some(s) =>
      var (table, t) := TakeName(s);
      match Expect(t, "(")
      case None => None
      case Some(u) =>
        match TakeNames(u)
        case None => None
        case Some((columns, v)) =>
          match Expect(v, " VALUES ")
          case None => None
          case Some(rest) =>
            match TakeTuples(rest)
            case None => None
            case Some(tuples) => Some(Insert(table, columns, tuples))
  }

  // ---- What it means ----

  // The value that a tuple has for a column.
  function ValueOf(columns: seq<string>, tuple: seq<Value>, column: string): Option<Value>
    requires |columns| == |tuple|
  {
    if columns == [] then None
    else if columns[0] == column then Some(tuple[0])
    else ValueOf(columns[1..], tuple[1..], column)
  }

  // $k stands for the k-th argument.
  function TextOf(value: Option<Value>, args: seq<string>): Option<string> {
    match value
    case Some(Param(k)) => if 1 <= k <= |args| then Some(args[k - 1]) else None
    case _ => None
  }

  // The row that a tuple stands for, if it gives each of the four columns of the table its value.
  function RowOf(columns: seq<string>, tuple: seq<Value>, args: seq<string>): Option<SqlRow> {
    if |columns| != 4 || |tuple| != 4 then None
    else
      var id := TextOf(ValueOf(columns, tuple, "id"), args);
      var url := TextOf(ValueOf(columns, tuple, "original_url"), args);
      var user := TextOf(ValueOf(columns, tuple, "user_id"), args);
      if id.Some? && url.Some? && user.Some? && ValueOf(columns, tuple, "is_deleted") == Some(False) then
        Some(SqlRow(id.value, url.value, user.value, false))
      else None
  }

  function RowsOf(columns: seq<string>, tuples: seq<seq<Value>>, args: seq<string>): Option<seq<SqlRow>> {
    if tuples == [] then Some([])
    else
      match RowOf(columns, tuples[0], args)
      case None => None
      case Some(row) =>
        match RowsOf(columns, tuples[1..], args)
        case None => None
        case Some(rows) => Some([row] + rows)
  }

  // The rows that a statement with these arguments inserts into the table urls.
  function Inserted(query: string, args: seq<string>): Option<seq<SqlRow>> {
    match Parse(query)
    case Some(Insert("urls", columns, tuples)) => RowsOf(columns, tuples, args)
    case _ => None
  }

  function Params(tuple: seq<Value>): seq<nat> {
    if tuple == [] then [] else (if tuple[0].Param? then [tuple[0].k] else []) + Params(tuple[1..])
  }

  function Placeholders(tuples: seq<seq<Value>>): seq<nat> {
    if tuples == [] then [] else Params(tuples[0]) + Placeholders(tuples[1..])
  }

  // ---- Proofs ----

  lemma {:induction false} DecimalReads(acc: nat, n: nat, rest: string)
    requires acc == 0
    ensures TakeNat(acc, Decimal(n) + rest) == TakeNat(n, rest)
    ensures Decimal(n) != "" && IsDigit(Decimal(n)[0])
    decreases n
  {
    var d := Digit(n % 10);
    assert IsDigit(d) && d as nat - '0' as nat == n % 10;
    if n >= 10 {
      DecimalReads(0, n / 10, [d] + rest);
      assert Decimal(n) + rest == Decimal(n / 10) + ([d] + rest);
    }
    assert ([d] + rest)[1..] == rest;
  }

  lemma ExpectReads(word: string, rest: string)
    ensures Expect(word + rest, word) == Some(rest)
  {
    assert (word + rest)[|word|..] == rest;
  }

  lemma {:induction false} ParamReads(k: nat, rest: string)
    requires rest != "" && !IsDigit(rest[0])
    ensures TakeValue("$" + Decimal(k) + rest) == Some((Param(k), rest))
  {
    DecimalReads(0, k, rest);
    ExpectReads("$", Decimal(k) + rest);
    assert "$" + Decimal(k) + rest == "$" + (Decimal(k) + rest);
  }

  lemma Regroup(front: string, middle: string, rest: string)
    ensures front + middle + rest == front + (middle + rest)
  {
  }

  // One placeholder and a comma before more values.
  lemma {:induction false} ParamThenMore(k: nat, more: string, values: seq<Value>, rest: string)
    requires TakeValues(more) == Some((values, rest))
    ensures TakeValues("$" + Decimal(k) + (", " + more)) == Some(([Param(k)] + values, rest))
  {
    ParamReads(k, ", " + more);
    ExpectReads(", ", more);
  }

  lemma {:induction false} FalseReads(rest: string)
    ensures TakeValues("false)" + rest) == Some(([False], rest))
  {
    assert "false)" == "false" + ")";
    Regroup("false", ")", rest);
    assert ("false)" + rest)[0] == 'f';
    ExpectReads("false", ")" + rest);
    ExpectReads(")", rest);
  }

  function TupleOf(i: nat): seq<Value> {
    [Param(i * 3 + 1), Param(i * 3 + 2), Param(i * 3 + 3), False]
  }

  // The text of a tuple after its opening parenthesis, grouped as it is read.
  function Inner(i: nat, rest: string): string {
    "$" + Decimal(i * 3 + 1) + (", " + ("$" + Decimal(i * 3 + 2) + (", " + ("$" + Decimal(i * 3 + 3) + (", "
    + ("false)" + rest))))))
  }

  lemma {:induction false} InnerReads(i: nat, rest: string)
    ensures TakeValues(Inner(i, rest)) == Some((TupleOf(i), rest))
  {
    var last := "false)" + rest;
    var third := "$" + Decimal(i * 3 + 3) + (", " + last);
    var second := "$" + Decimal(i * 3 + 2) + (", " + third);
    FalseReads(rest);
    ParamThenMore(i * 3 + 3, last, [False], rest);
    ParamThenMore(i * 3 + 2, third, [Param(i * 3 + 3)] + [False], rest);
    ParamThenMore(i * 3 + 1, second, [Param(i * 3 + 2)] + ([Param(i * 3 + 3)] + [False]), rest);
    assert TupleOf(i) == [Param(i * 3 + 1)] + ([Param(i * 3 + 2)] + ([Param(i * 3 + 3)] + [False]));
  }

  lemma DollarSplit(front: string, number: string, more: string)
    ensures front + ", $" + number + more == front + (", " + ("$" + number + more))
  {
    assert ", $" == ", " + "$";
  }

  lemma {:induction false} TupleGrouped(i: nat, rest: string)
    ensures TupleText(i) + rest == "(" + Inner(i, rest)
  {
    var a, b, c := Decimal(i * 3 + 1), Decimal(i * 3 + 2), Decimal(i * 3 + 3);
    var last := ", " + ("false)" + rest);
    Regroup("($" + a + ", $" + b + ", $" + c, ", false)", rest);
    assert ", false)" == ", " + "false)";
    Regroup(", ", "false)", rest);
    DollarSplit("($" + a + ", $" + b, c, last);
    var third := ", " + ("$" + c + last);
    DollarSplit("($" + a, b, third);
    assert "($" == "(" + "$";
    Regroup("(", "$", a);
    Regroup("(", "$" + a, ", " + ("$" + b + third));
  }

  function Tuples(i: nat, n: nat): seq<seq<Value>>
    requires i <= n
    decreases n - i
  {
    if i == n then [] else [TupleOf(i)] + Tuples(i + 1, n)
  }

  lemma {:induction false} TuplesRead(i: nat, n: nat)
    requires i < n
    ensures var text := TupleText(i) + Values(i + 1, n);
            TakeTuples(text) == Some(Tuples(i, n))
    decreases n - i
  {
    var rest := Values(i + 1, n);
    TupleGrouped(i, rest);
    InnerReads(i, rest);
    ExpectReads("(", Inner(i, rest));
    if i + 1 < n {
      TuplesRead(i + 1, n);
      ValuesCons(i + 1, n);
      ExpectReads(", ", TupleText(i + 1) + Values(i + 2, n));
    } else {
      assert rest == "" && Tuples(i, n) == [TupleOf(i)];
    }
  }

  lemma ValuesCons(i: nat, n: nat)
    requires 0 < i < n
    ensures Values(i, n) == ", " + (TupleText(i) + Values(i + 1, n))
  {
  }

  lemma {:induction false} NameReads(name: string, rest: string)
    requires forall c :: c in name ==> IsNameChar(c)
    requires rest != "" && !IsNameChar(rest[0])
    ensures TakeName(name + rest) == (name, rest)
  {
    if name == "" {
      assert name + rest == rest;
    } else {
      NameReads(name[1..], rest);
      assert (name + rest)[1..] == name[1..] + rest && [name[0]] + name[1..] == name;
    }
  }

  lemma {:induction false} NameThenMore(name: string, more: string, names: seq<string>, rest: string)
    requires name != "" && (forall c :: c in name ==> IsNameChar(c)) && TakeNames(more) == Some((names, rest))
    ensures TakeNames(name + (", " + more)) == Some(([name] + names, rest))
  {
    NameReads(name, ", " + more);
    ExpectReads(", ", more);
  }

  lemma {:induction false} LastName(name: string, rest: string)
    requires name != "" && forall c :: c in name ==> IsNameChar(c)
    ensures TakeNames(name + (")" + rest)) == Some(([name], rest))
  {
    NameReads(name, ")" + rest);
    ExpectReads(")", rest);
  }

  // The columns of the table in the order in which the statement names them.
  const COLUMNS := ["id", "original_url", "user_id", "is_deleted"]

  // The list of columns, grouped as it is read.
  function Columns(rest: string): string {
    "id" + (", " + ("original_url" + (", " + ("user_id" + (", " + ("is_deleted" + (")" + rest)))))))
  }

  lemma {:induction false} ColumnsRead(rest: string)
    ensures TakeNames(Columns(rest)) == Some((COLUMNS, rest))
  {
    var fourth := "is_deleted" + (")" + rest);
    var third := "user_id" + (", " + fourth);
    var second := "original_url" + (", " + third);
    LastName("is_deleted", rest);
    NameThenMore("user_id", fourth, ["is_deleted"], rest);
    NameThenMore("original_url", third, ["user_id"] + ["is_deleted"], rest);
    NameThenMore("id", second, ["original_url"] + (["user_id"] + ["is_deleted"]), rest);
    assert COLUMNS == ["id"] + (["original_url"] + (["user_id"] + ["is_deleted"]));
  }

  lemma {:induction false} HeaderGrouped(rest: string)
    ensures PREFIX + rest == "INSERT INTO " + ("urls" + ("(" + Columns(" VALUES " + rest)))
  {
    var front := ColumnList();
    var values := " VALUES " + rest;
    assert "INSERT INTO urls(" == "INSERT INTO " + ("urls" + "(");
    Regroup("INSERT INTO urls(", front + " VALUES ", rest);
    Regroup(front, " VALUES ", rest);
    ColumnsGrouped(values);
    Regroup("INSERT INTO ", "urls" + "(", front + values);
    Regroup("urls", "(", front + values);
  }

  lemma {:induction false} ColumnList() returns (front: string)
    ensures front == "id" + (", " + ("original_url" + (", " + ("user_id" + (", " + ("is_deleted" + ")"))))))
    ensures "id, original_url, user_id, is_deleted) VALUES " == front + " VALUES "
  {
    front := "id, original_url, user_id, is_deleted)";
  }

  lemma {:induction false} ColumnsGrouped(rest: string)
    ensures "id" + (", " + ("original_url" + (", " + ("user_id" + (", " + ("is_deleted" + ")")))))) + rest
         == Columns(rest)
  {
    var d := "is_deleted" + ")";
    var c := "user_id" + (", " + d);
    var b := "original_url" + (", " + c);
    Regroup("is_deleted", ")", rest);
    Regroup("user_id", ", " + d, rest);
    Regroup(", ", d, rest);
    Regroup("original_url", ", " + c, rest);
    Regroup(", ", c, rest);
    Regroup("id", ", " + b, rest);
    Regroup(", ", b, rest);
  }

  lemma {:induction false} QueryReads(n: nat)
    requires n > 0
    ensures Parse(PREFIX + Values(0, n)) == Some(Insert("urls", COLUMNS, Tuples(0, n)))
  {
    var values := Values(0, n);
    var columns := Columns(" VALUES " + values);
    HeaderGrouped(values);
    ExpectReads("INSERT INTO ", "urls" + ("(" + columns));
    NameReads("urls", "(" + columns);
    ExpectReads("(", columns);
    ColumnsRead(" VALUES " + values);
    ExpectReads(" VALUES ", values);
    assert values == TupleText(0) + Values(1, n);
    TuplesRead(0, n);
  }

  lemma {:induction false} ArgsLength(rows: seq<Row>)
    ensures |Args(rows)| == 3 * |rows|
  {
    if rows != [] { ArgsLength(rows[1..]); }
  }

  lemma {:induction false} ArgsAt(rows: seq<Row>, i: nat)
    requires i < |rows|
    ensures |Args(rows)| == 3 * |rows|
    ensures Args(rows)[i * 3..i * 3 + 3] == [rows[i].id, rows[i].originalURL, rows[i].userID]
  {
    ArgsLength(rows);
    if i > 0 {
      ArgsLength(rows[1..]);
      ArgsAt(rows[1..], i - 1);
      var rest := Args(rows[1..]);
      assert Args(rows)[3..] == rest;
      assert Args(rows)[i * 3..i * 3 + 3] == rest[(i - 1) * 3..(i - 1) * 3 + 3];
    }
  }

  lemma {:induction false} ValueAt(columns: seq<string>, tuple: seq<Value>, j: nat, column: string)
    requires |columns| == |tuple| && j < |columns|
    requires columns[j] == column && forall k :: 0 <= k < j ==> columns[k] != column
    ensures ValueOf(columns, tuple, column) == Some(tuple[j])
    decreases j
  {
    if j > 0 { ValueAt(columns[1..], tuple[1..], j - 1, column); }
  }

  lemma {:induction false} TupleDenotes(rows: seq<Row>, i: nat)
    requires i < |rows|
    ensures RowOf(COLUMNS, TupleOf(i), Args(rows))
         == Some(SqlRow(rows[i].id, rows[i].originalURL, rows[i].userID, false))
  {
    var args := Args(rows);
    ArgsAt(rows, i);
    var three := args[i * 3..i * 3 + 3];
    assert args[i * 3] == three[0] && args[i * 3 + 1] == three[1] && args[i * 3 + 2] == three[2];
    assert |"id"| == 2 && |"original_url"| == 12 && |"user_id"| == 7 && |"is_deleted"| == 10;
    ValueAt(COLUMNS, TupleOf(i), 0, "id");
    ValueAt(COLUMNS, TupleOf(i), 1, "original_url");
    ValueAt(COLUMNS, TupleOf(i), 2, "user_id");
    ValueAt(COLUMNS, TupleOf(i), 3, "is_deleted");
  }

  // A stored row for each row of the batch, in order.
  ghost predicate Stored(stored: seq<SqlRow>, rows: seq<Row>) {
    && |stored| == |rows|
    && forall i :: 0 <= i < |rows| ==> stored[i] == SqlRow(rows[i].id, rows[i].originalURL, rows[i].userID, false)
  }

  lemma {:induction false} TuplesDenote(rows: seq<Row>, i: nat) returns (stored: seq<SqlRow>)
    requires i <= |rows|
    ensures RowsOf(COLUMNS, Tuples(i, |rows|), Args(rows)) == Some(stored) && Stored(stored, rows[i..])
    decreases |rows| - i
  {
    stored := [];
    if i < |rows| {
      var rest := TuplesDenote(rows, i + 1);
      TupleDenotes(rows, i);
      stored := [SqlRow(rows[i].id, rows[i].originalURL, rows[i].userID, false)] + rest;
      assert Tuples(i, |rows|)[1..] == Tuples(i + 1, |rows|);
      assert rows[i..] == [rows[i]] + rows[i + 1..];
    }
  }

  lemma {:induction false} PlaceholdersInOrder(i: nat, n: nat)
    requires i <= n
    ensures |Placeholders(Tuples(i, n))| == 3 * (n - i)
    ensures forall k :: 0 <= k < 3 * (n - i) ==> Placeholders(Tuples(i, n))[k] == i * 3 + k + 1
    decreases n - i
  {
    if i < n {
      PlaceholdersInOrder(i + 1, n);
      assert Tuples(i, n)[1..] == Tuples(i + 1, n);
      ParamsOfTuple(i);
    }
  }

  lemma ParamsOfTuple(i: nat)
    ensures Params(TupleOf(i)) == [i * 3 + 1, i * 3 + 2, i * 3 + 3]
  {
    var t := TupleOf(i);
    assert Params(t[3..]) == [] && Params(t[2..]) == [i * 3 + 3] && Params(t[1..]) == [i * 3 + 2, i * 3 + 3] by {
      assert t[3..][1..] == [] && t[2..][1..] == t[3..] && t[1..][1..] == t[2..];
    }
  }

  /** For any number of rows: read as SQL, table and columns by their names and $k as the k-th argument, the
      statement inserts into urls exactly the rows, in order and not deleted; the placeholders run through
      all arguments once. */
  lemma {:induction false} QueryDenotes(rows: seq<Row>)
    requires rows != []
    ensures var query := PREFIX + Values(0, |rows|);
            && Inserted(query, Args(rows)).Some? && Stored(Inserted(query, Args(rows)).value, rows)
            && Parse(query).Some?
            && |Placeholders(Parse(query).value.tuples)| == |Args(rows)|
            && forall k :: 0 <= k < |Args(rows)| ==> Placeholders(Parse(query).value.tuples)[k] == k + 1
  {
    QueryReads(|rows|);
    var stored := TuplesDenote(rows, 0);
    PlaceholdersInOrder(0, |rows|);
    ArgsLength(rows);
    assert rows[0..] == rows;
  }

  // Executing the statement adds the rows that DbStore.AddBatch adds.
  lemma StoredAsBatch(stored: seq<SqlRow>, rows: seq<Row>)
    requires Stored(stored, rows)
    ensures (set r | r in stored) == NewRows(rows)
  {
    forall i | 0 <= i < |rows| ensures NewRow(rows[i]) in stored {
      assert stored[i] == NewRow(rows[i]);
    }
  }

  lemma ValuesStep(query: string, i: nat, n: nat, whole: string)
    requires i < n && query + Values(i, n) == whole
    ensures (if i > 0 then query + ", " else query) + TupleText(i) + Values(i + 1, n) == whole
  {
  }

  lemma ArgsStep(args: seq<string>, rows: seq<Row>, i: nat)
    requires i < |rows|
    ensures args + Args(rows[i..])
         == args + [rows[i].id, rows[i].originalURL, rows[i].userID] + Args(rows[i + 1..])
  {
    assert rows[i..][1..] == rows[i + 1..];
  }

  method BuildBatchInsertQuery(rows: seq<Row>) returns (query: string, args: seq<string>)
    ensures query == PREFIX + Values(0, |rows|) && args == Args(rows)
    ensures rows != [] ==>
              && Inserted(query, args).Some? && Stored(Inserted(query, args).value, rows)
              && (set r | r in Inserted(query, args).value) == NewRows(rows)
  {
    query := PREFIX;
    args := [];
    ghost var whole := query + Values(0, |rows|);
    var i := 0;
    while i < |rows|
      invariant i <= |rows|
      invariant query + Values(i, |rows|) == whole
      invariant args + Args(rows[i..]) == Args(rows)
    {
      ValuesStep(query, i, |rows|, whole);
      ArgsStep(args, rows, i);
      if i > 0 {
        query := query + ", ";
      }
      query := query + TupleText(i);
      args := args + [rows[i].id, rows[i].originalURL, rows[i].userID];
      i := i + 1;
    }
    assert query + "" == query && rows[i..] == [] && args + [] == args;
    if rows != [] {
      QueryDenotes(rows);
      StoredAsBatch(Inserted(query, args).value, rows);
    }
  }
}
