/** The generic repository every table repository extends: lookup by id,
    listing with equality filters, and turning a query result into a list. */
module BaseRepository {
  import opened Wrappers

  /** get_by_id: the record stored under `id`, or None. */
  function GetById<T>(table: map<int, T>, id: int): (r: Option<T>)
    ensures r.Some? <==> id in table
    ensures r.Some? ==> r.value == table[id]
  {
    if id in table then Some(table[id]) else None
  }

  /** A value a column is compared with; `NullVal` compares as IS NULL. */
  datatype Value = IntVal(i: int) | StrVal(s: string) | BoolVal(b: bool) | NullVal

  /** What _construct_list_stmt produces: the ValueError for an unknown
      column, or a SELECT whose WHERE is the conjunction of the clauses
      (no WHERE at all when there are none). */
  datatype ListStmt = InvalidColumn(name: string) | Select(clauses: seq<(string, Value)>)

  /** _construct_list_stmt: checks each filter's column in turn and stops at
      the first one the table does not have. */
  method ConstructListStmt(columns: set<string>, filters: seq<(string, Value)>) returns (r: ListStmt)
    ensures r.Select? <==> forall i :: 0 <= i < |filters| ==> filters[i].0 in columns
    ensures r.Select? ==> r.clauses == filters
    ensures r.InvalidColumn? ==>
              exists i :: 0 <= i < |filters| && filters[i].0 == r.name && r.name !in columns &&
                          forall j :: 0 <= j < i ==> filters[j].0 in columns
  {
    var clauses := [];
    var i := 0;
    while i < |filters|
      invariant 0 <= i <= |filters|
      invariant clauses == filters[..i]
      invariant forall j :: 0 <= j < i ==> filters[j].0 in columns
    {
      var (c, v) := filters[i];
      if c !in columns {
        return InvalidColumn(c);
      }
      clauses := clauses + [(c, v)];
      i := i + 1;
    }
    return Select(clauses);
  }

  /** The row satisfies every clause. */
  predicate Matches<T>(get: (T, string) -> Value, row: T, clauses: seq<(string, Value)>)
  {
    forall i :: 0 <= i < |clauses| ==> get(row, clauses[i].0) == clauses[i].1
  }

  /** The rows of `table` a SELECT with these clauses returns. */
  function Where<T>(table: map<int, T>, get: (T, string) -> Value, clauses: seq<(string, Value)>): (r: map<int, T>)
    ensures forall id :: id in r <==> id in table && Matches(get, table[id], clauses)
    ensures forall id :: id in r ==> r[id] == table[id]
  {
    map id | id in table && Matches(get, table[id], clauses) :: table[id]
  }

  /** list() with no filters returns every record. */
  lemma WhereNothingIsAll<T>(table: map<int, T>, get: (T, string) -> Value)
    ensures Where(table, get, []) == table
  {
  }

  lemma {:induction false} MatchesAppend<T>(get: (T, string) -> Value, row: T, a: seq<(string, Value)>, b: seq<(string, Value)>)
    ensures Matches(get, row, a + b) <==> Matches(get, row, a) && Matches(get, row, b)
  {
    var ab := a + b;
    if Matches(get, row, a) && Matches(get, row, b) {
      forall i | 0 <= i < |ab| ensures get(row, ab[i].0) == ab[i].1 {
        if i >= |a| {
          assert ab[i] == b[i - |a|];
        }
      }
    }
    if Matches(get, row, ab) {
      forall i | 0 <= i < |b| ensures get(row, b[i].0) == b[i].1 {
        assert ab[|a| + i] == b[i];
      }
      forall i | 0 <= i < |a| ensures get(row, a[i].0) == a[i].1 {
        assert ab[i] == a[i];
      }
    }
  }

  /** The filters are a conjunction: filtering by `a + b` is filtering by
      `a` and then by `b`, and the order of the filters does not matter. */
  lemma {:induction false} WhereConjunction<T>(table: map<int, T>, get: (T, string) -> Value, a: seq<(string, Value)>, b: seq<(string, Value)>)
    ensures Where(table, get, a + b) == Where(Where(table, get, a), get, b)
    ensures Where(table, get, a + b) == Where(table, get, b + a)
  {
    forall id | id in table
      ensures Matches(get, table[id], a + b) <==> Matches(get, table[id], a) && Matches(get, table[id], b)
      ensures Matches(get, table[id], b + a) <==> Matches(get, table[id], b) && Matches(get, table[id], a)
    {
      MatchesAppend(get, table[id], a, b);
      MatchesAppend(get, table[id], b, a);
    }
  }

  /** result.all(): the rows of a query result as a list, in no particular order. */
  method Rows<T(==)>(table: map<int, T>) returns (rows: seq<T>)
    ensures |rows| == |table|
    ensures forall x :: x in rows <==> x in table.Values
  {
    rows := [];
    var left := table.Keys;
    assert |left| == |table|;
    while left != {}
      invariant left <= table.Keys
      invariant |rows| + |left| == |table|
      invariant forall x :: x in rows ==> x in table.Values
      invariant forall id :: id in table && id !in left ==> table[id] in rows
      decreases |left|
    {
      if forall id :: id !in left {
        assert false;
      }
      var id :| id in left;
      rows := rows + [table[id]];
      left := left - {id};
    }
    forall x | x in table.Values
      ensures x in rows
    {
      if forall id :: id in table ==> table[id] != x {
        assert false;
      }
      var id :| id in table && table[id] == x;
    }
  }
}
