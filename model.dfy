/** TableModel: a page size that the caller may change, and the two prepared
    statements getData sends to the database (the projected SELECT with LIMIT and
    OFFSET, and the COUNT(*) over the same filter) with their positional bindings.
    Unlike the helper, this class interpolates its table name, columns and sort
    field into the SQL text without sanitising them. */
module Model {
  import opened Strings
  import opened Php
  import Helper

  /** A value bound to a placeholder: PDO's default string type or PARAM_INT. */
  datatype Param = StrParam(s: string) | IntParam(n: int)

  /** The bound values in placeholder order: bindValue(k, v) with k running 1, 2, ...
      puts v at index k - 1. */
  type Bindings = seq<Param>

  /** A fetched row, column name to value (PDO::FETCH_ASSOC). */
  type Row = PArray

  /** The database as an oracle: what a SELECT returns and what a COUNT(*) query
      returns, for a statement text and its bindings. */
  datatype Database = Database(
    select: (string, Bindings) -> seq<Row>,
    count: (string, Bindings) -> nat)

  /** The record getData returns. */
  datatype PageResult = PageResult(data: seq<Row>, totalRecords: int, totalPages: int, currentPage: int)

  /** max(0, ($page - 1) * pageSize) */
  function Offset(page: int, pageSize: int): (r: int)
    requires pageSize >= 1
    ensures r >= 0
    ensures page >= 1 ==> r == (page - 1) * pageSize
    ensures page <= 1 ==> r == 0
  {
    var o := (page - 1) * pageSize;
    assert page >= 1 ==> o >= 0 by {
      if page >= 1 { Helper.MulMono(0, page - 1, pageSize); }
    }
    assert page <= 1 ==> o <= 0 by {
      if page <= 1 { Helper.MulMono(page - 1, 0, pageSize); }
    }
    if o > 0 then o else 0
  }

  function RawLikeParts(columns: seq<string>): seq<string>
  {
    seq(|columns|, i requires 0 <= i < |columns| => columns[i] + " LIKE ?")
  }

  /** The filter getData builds: only for a non-empty search ("0" counts as empty)
      and at least one column. */
  function WhereSql(columns: seq<string>, search: string): string
  {
    if EmptyString(search) || columns == [] then "" else "WHERE " + Join(" OR ", RawLikeParts(columns))
  }

  /** The search values getData binds, one per column. */
  function SearchParams(columns: seq<string>, search: string): seq<string>
  {
    if EmptyString(search) then [] else Repeat(Helper.SearchPattern(search), |columns|)
  }

  function OrderSql(sortField: string, sortDir: string, sortable: seq<string>): string
  {
    if EmptyString(sortField) || sortField !in sortable then ""
    else "ORDER BY " + sortField + " " + Helper.Direction(sortDir)
  }

  function SelectSql(tableName: string, columns: seq<string>, whereSql: string, orderSql: string): string
  {
    "SELECT " + Join(", ", columns) + " FROM " + tableName + " " + whereSql + " " + orderSql
      + " LIMIT ? OFFSET ?"
  }

  function CountSql(tableName: string, whereSql: string): string
  {
    "SELECT COUNT(*) as cnt FROM " + tableName + " " + whereSql
  }

  /** The search values at positions 1..n. */
  function ParamBindings(params: seq<string>): Bindings
  {
    seq(|params|, i requires 0 <= i < |params| => StrParam(params[i]))
  }

  /** The search values, then the page size at n+1 and the offset at n+2. */
  function SelectBindings(params: seq<string>, pageSize: int, offset: int): Bindings
  {
    ParamBindings(params) + [IntParam(pageSize), IntParam(offset)]
  }

  class TableModel {
    const db: Database
    const tableName: string
    const columns: seq<string>
    const sortable: seq<string>
    var pageSize: int

    ghost predicate Valid()
      reads this
    {
      pageSize >= 1
    }

    constructor(db: Database, tableName: string, columns: seq<string>, sortable: seq<string>)
      ensures Valid()
      ensures this.db == db && this.tableName == tableName
      ensures this.columns == columns && this.sortable == sortable
      ensures pageSize == 10
    {
      this.db := db;
      this.tableName := tableName;
      this.columns := columns;
      this.sortable := sortable;
      pageSize := 10;
    }

    /** setPageSize: only a positive size is taken; anything else is ignored. */
    method SetPageSize(size: int)
      requires Valid()
      modifies this`pageSize
      ensures Valid()
      ensures pageSize == if size > 0 then size else old(pageSize)
    {
      if size > 0 {
        pageSize := size;
      }
    }

    /** getTotalRecords: runs the COUNT(*) statement over the given filter, binding
        the values at positions 1..n. */
    method GetTotalRecords(whereSql: string, params: seq<string>) returns (n: int)
      ensures n == db.count(CountSql(tableName, whereSql), ParamBindings(params))
      ensures n >= 0
    {
      var sql := "SELECT COUNT(*) as cnt FROM " + tableName + " " + whereSql;
      var bound: Bindings := [];
      var i := 1;
      for j := 0 to |params|
        invariant i == j + 1 == |bound| + 1
        invariant bound == ParamBindings(params[..j])
      {
        bound := bound + [StrParam(params[j])];
        i := i + 1;
      }
      assert params[..|params|] == params;
      n := db.count(sql, bound);
    }

    /** getData: the projected, filtered, ordered and bounded page, and the
        record count and page count of the whole filtered set. */
    method GetData(page: int, search: string, sortField: string, sortDir: string)
      returns (r: PageResult)
      requires Valid()
      ensures r.data == db.select(
                SelectSql(tableName, columns, WhereSql(columns, search), OrderSql(sortField, sortDir, sortable)),
                SelectBindings(SearchParams(columns, search), pageSize, Offset(page, pageSize)))
      ensures r.totalRecords == db.count(
                CountSql(tableName, WhereSql(columns, search)),
                ParamBindings(SearchParams(columns, search)))
      ensures (r.totalPages - 1) * pageSize < r.totalRecords <= r.totalPages * pageSize
      ensures r.currentPage == page
    {
      var offset := if 0 > (page - 1) * pageSize then 0 else (page - 1) * pageSize;

      var whereSql := "";
      var params: seq<string> := [];
      if !EmptyString(search) {
        var pattern := "%" + search + "%";
        var likeParts: seq<string> := [];
        for i := 0 to |columns|
          invariant likeParts == RawLikeParts(columns[..i])
          invariant params == Repeat(pattern, i)
        {
          likeParts := likeParts + [columns[i] + " LIKE ?"];
          params := params + [pattern];
        }
        assert columns[..|columns|] == columns;
        if |likeParts| > 0 {
          whereSql := "WHERE " + Join(" OR ", likeParts);
        }
      }
      assert whereSql == WhereSql(columns, search);
      assert params == SearchParams(columns, search);

      var orderSql := "";
      if !EmptyString(sortField) && sortField in sortable {
        var dir := if StrToUpper(sortDir) == "DESC" then "DESC" else "ASC";
        orderSql := "ORDER BY " + sortField + " " + dir;
      }

      var sql := "SELECT " + Join(", ", columns) + " FROM " + tableName + " " + whereSql + " "
        + orderSql + " LIMIT ? OFFSET ?";

      var bound: Bindings := [];
      var bindIndex := 1;
      for j := 0 to |params|
        invariant bindIndex == j + 1 == |bound| + 1
        invariant bound == ParamBindings(params[..j])
      {
        bound := bound + [StrParam(params[j])];
        bindIndex := bindIndex + 1;
      }
      assert params[..|params|] == params;
      bound := bound + [IntParam(pageSize)];
      bindIndex := bindIndex + 1;
      bound := bound + [IntParam(offset)];
      bindIndex := bindIndex + 1;

      assert offset == Offset(page, pageSize);
      assert orderSql == OrderSql(sortField, sortDir, sortable);
      assert sql == SelectSql(tableName, columns, whereSql, orderSql);
      assert bound == SelectBindings(params, pageSize, offset);
      var data := db.select(sql, bound);
      var totalRecords := GetTotalRecords(whereSql, params);
      var totalPages := Helper.CeilDiv(totalRecords, pageSize);
      r := PageResult(data, totalRecords, totalPages, page);
    }
  }

  // ---- Properties of the statements ----

  /** The binding layout: positions 1..n+2, the search values first, then the
      page size, then the offset. */
  lemma BindingsLayout(params: seq<string>, pageSize: int, offset: int)
    ensures |SelectBindings(params, pageSize, offset)| == |params| + 2
    ensures forall i :: 0 <= i < |params| ==>
              SelectBindings(params, pageSize, offset)[i] == StrParam(params[i])
    ensures SelectBindings(params, pageSize, offset)[|params|] == IntParam(pageSize)
    ensures SelectBindings(params, pageSize, offset)[|params| + 1] == IntParam(offset)
  {
  }

  /** A WHERE clause appears exactly for a non-empty search over a non-empty
      column list, and then one value is bound per column. */
  lemma WhereOnlyWhenSearching(columns: seq<string>, search: string)
    ensures WhereSql(columns, search) != "" <==> !EmptyString(search) && columns != []
    ensures |SearchParams(columns, search)| == if WhereSql(columns, search) == "" then 0 else |columns|
    ensures forall p :: p in SearchParams(columns, search) ==> p == "%" + search + "%"
  {
  }

  lemma {:induction false} RawLikePartsPlaceholders(columns: seq<string>)
    ensures TotalOccurrences('?', RawLikeParts(columns)) ==
              |columns| + TotalOccurrences('?', columns)
  {
    if columns != [] {
      assert RawLikeParts(columns)[1..] == RawLikeParts(columns[1..]);
      RawLikePartsPlaceholders(columns[1..]);
      OccurrencesConcat('?', columns[0], " LIKE ");
      OccurrencesConcat('?', columns[0] + " LIKE ", "?");
      OccurrencesAbsent('?', " LIKE ");
      assert columns[0] + " LIKE ?" == columns[0] + " LIKE " + "?";
    }
  }

  lemma {:induction false} NoPlaceholderInColumns(columns: seq<string>)
    requires forall c :: c in columns ==> '?' !in c
    ensures TotalOccurrences('?', columns) == 0
  {
    if columns != [] {
      OccurrencesAbsent('?', columns[0]);
      NoPlaceholderInColumns(columns[1..]);
    }
  }

  /** The filter's placeholders: one per column, plus any '?' inside the column names. */
  lemma WherePlaceholders(columns: seq<string>, search: string)
    ensures Occurrences('?', WhereSql(columns, search)) ==
              if WhereSql(columns, search) == "" then 0 else |columns| + TotalOccurrences('?', columns)
  {
    if WhereSql(columns, search) != "" {
      OccurrencesJoin('?', " OR ", RawLikeParts(columns));
      RawLikePartsPlaceholders(columns);
      OccurrencesConcat('?', "WHERE ", Join(" OR ", RawLikeParts(columns)));
      OccurrencesAbsent('?', "WHERE ");
    }
  }

  lemma OrderPlaceholders(sortField: string, sortDir: string, sortable: seq<string>)
    requires '?' !in sortField
    ensures Occurrences('?', OrderSql(sortField, sortDir, sortable)) == 0
  {
    var order := OrderSql(sortField, sortDir, sortable);
    if order != "" {
      Helper.DirectionCaseInsensitive(sortDir);
      var dir := Helper.Direction(sortDir);
      assert order == "ORDER BY " + sortField + " " + dir;
      assert '?' !in dir;
      assert '?' !in order;
    }
    OccurrencesAbsent('?', order);
  }

  /** Occurrences of c in a + b + c + ... spelled out for the five pieces of a statement. */
  lemma OccurrencesFive(c: char, a: string, b: string, d: string, e: string, f: string)
    ensures Occurrences(c, a + b + d + e + f) ==
              Occurrences(c, a) + Occurrences(c, b) + Occurrences(c, d) + Occurrences(c, e) + Occurrences(c, f)
  {
    OccurrencesConcat(c, a, b);
    OccurrencesConcat(c, a + b, d);
    OccurrencesConcat(c, a + b + d, e);
    OccurrencesConcat(c, a + b + d + e, f);
  }

  lemma LimitPlaceholders()
    ensures Occurrences('?', " LIMIT ? OFFSET ?") == 2
  {
    assert " LIMIT ? OFFSET ?" == " LIMIT " + "?" + " OFFSET " + "?";
    OccurrencesConcat('?', " LIMIT ", "?");
    OccurrencesConcat('?', " LIMIT " + "?", " OFFSET ");
    OccurrencesConcat('?', " LIMIT " + "?" + " OFFSET ", "?");
    OccurrencesAbsent('?', " LIMIT ");
    OccurrencesAbsent('?', " OFFSET ");
  }

  lemma HeadPlaceholders(tableName: string, columns: seq<string>)
    requires '?' !in tableName
    requires forall c :: c in columns ==> '?' !in c
    ensures Occurrences('?', "SELECT " + Join(", ", columns) + " FROM " + tableName + " ") == 0
  {
    NoPlaceholderInColumns(columns);
    OccurrencesJoin('?', ", ", columns);
    OccurrencesAbsent('?', tableName);
    OccurrencesAbsent('?', "SELECT ");
    OccurrencesAbsent('?', " FROM ");
    OccurrencesAbsent('?', " ");
    OccurrencesFive('?', "SELECT ", Join(", ", columns), " FROM ", tableName, " ");
  }

  lemma CountHeadPlaceholders(tableName: string)
    requires '?' !in tableName
    ensures Occurrences('?', "SELECT COUNT(*) as cnt FROM " + tableName + " ") == 0
  {
    OccurrencesAbsent('?', tableName);
    OccurrencesAbsent('?', "SELECT COUNT(*) as cnt FROM ");
    OccurrencesAbsent('?', " ");
    OccurrencesConcat('?', "SELECT COUNT(*) as cnt FROM ", tableName);
    OccurrencesConcat('?', "SELECT COUNT(*) as cnt FROM " + tableName, " ");
  }

  lemma SelectPlaceholders(tableName: string, columns: seq<string>, where: string, order: string)
    requires '?' !in tableName
    requires forall c :: c in columns ==> '?' !in c
    ensures Occurrences('?', SelectSql(tableName, columns, where, order)) ==
              Occurrences('?', where) + Occurrences('?', order) + 2
  {
    var head := "SELECT " + Join(", ", columns) + " FROM " + tableName + " ";
    HeadPlaceholders(tableName, columns);
    LimitPlaceholders();
    OccurrencesAbsent('?', " ");
    assert SelectSql(tableName, columns, where, order) == head + where + " " + order + " LIMIT ? OFFSET ?";
    OccurrencesFive('?', head, where, " ", order, " LIMIT ? OFFSET ?");
  }

  /** With identifiers free of '?', the SELECT holds exactly one placeholder per
      bound value and the COUNT(*) statement one per search value. */
  lemma PlaceholdersMatchBindings(tableName: string, columns: seq<string>, search: string,
                                  sortField: string, sortDir: string, sortable: seq<string>,
                                  pageSize: int, offset: int)
    requires '?' !in tableName && '?' !in sortField
    requires forall c :: c in columns ==> '?' !in c
    ensures Occurrences('?', SelectSql(tableName, columns, WhereSql(columns, search),
                                       OrderSql(sortField, sortDir, sortable)))
              == |SelectBindings(SearchParams(columns, search), pageSize, offset)|
    ensures Occurrences('?', CountSql(tableName, WhereSql(columns, search)))
              == |ParamBindings(SearchParams(columns, search))|
  {
    var where := WhereSql(columns, search);
    NoPlaceholderInColumns(columns);
    WherePlaceholders(columns, search);
    WhereOnlyWhenSearching(columns, search);
    OrderPlaceholders(sortField, sortDir, sortable);
    SelectPlaceholders(tableName, columns, where, OrderSql(sortField, sortDir, sortable));
    CountHeadPlaceholders(tableName);
    OccurrencesConcat('?', "SELECT COUNT(*) as cnt FROM " + tableName + " ", where);
  }

  /** Because nothing is sanitised here, a column name holding '?' adds a
      placeholder no value is bound to. */
  lemma UnsanitisedColumnAddsPlaceholder()
    ensures Occurrences('?', WhereSql(["a?"], "x")) == 2
    ensures |SearchParams(["a?"], "x")| == 1
  {
    WherePlaceholders(["a?"], "x");
    assert TotalOccurrences('?', ["a?"]) == Occurrences('?', "a?") by {
      assert ["a?"][1..] == [];
    }
    assert "a?" == "a" + "?";
    OccurrencesConcat('?', "a", "?");
  }

  /** For clean identifiers the model's clauses are the helper's. */
  lemma AgreesWithHelper(columns: seq<string>, search: string,
                         sortField: string, sortDir: string, sortable: seq<string>)
    requires forall c :: c in columns ==> Helper.IsIdentifier(c)
    requires Helper.IsIdentifier(sortField)
    ensures WhereSql(columns, search) == Helper.SearchWhere(columns, search)
    ensures OrderSql(sortField, sortDir, sortable) == Helper.OrderBy(sortField, sortDir, sortable)
  {
    forall i | 0 <= i < |columns| ensures Helper.Sanitize(columns[i]) == columns[i] {
      Helper.SanitizeIdentity(columns[i]);
    }
    assert RawLikeParts(columns) == Helper.LikeParts(columns);
    Helper.SanitizeIdentity(sortField);
  }

  /** The page count is the least number of pages of pageSize rows that holds
      every record; no records means no pages. */
  lemma TotalPagesIsCeiling(totalRecords: int, pageSize: int, totalPages: int)
    requires pageSize >= 1
    requires (totalPages - 1) * pageSize < totalRecords <= totalPages * pageSize
    ensures totalPages == Helper.CeilDiv(totalRecords, pageSize)
    ensures totalRecords == 0 ==> totalPages == 0
  {
    Helper.CeilDivUnique(totalRecords, pageSize, totalPages);
  }
}
