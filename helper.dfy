/** TableHelper: configuration validation, identifier sanitising, the search
    WHERE clause, the whitelisted ORDER BY clause and the pagination calculator. */
module Helper {
  import opened Strings
  import opened Php

  // ---- Configuration validation ----

  const TableRequired: string := "ცხრილის სახელი აუცილებელია"
  const FieldsRequired: string := "ველების მასივი აუცილებელია"
  const SortableMustBeArray: string := "Sortable უნდა იყოს მასივი"

  /** The three checks of validateConfig, each true when the check fails. */
  predicate TableMissing(config: PArray)
  {
    Empty(Get(config, SKey("table")))
  }

  predicate FieldsMissing(config: PArray)
  {
    Empty(Get(config, SKey("fields"))) || !Get(config, SKey("fields")).Arr?
  }

  predicate SortableMalformed(config: PArray)
  {
    IsSet(config, SKey("sortable")) && !Get(config, SKey("sortable")).Arr?
  }

  /** validateConfig: one message per failed check, in the order of the checks. */
  method ValidateConfig(config: PArray) returns (errors: seq<string>)
    ensures errors == [] <==>
              && !Empty(Get(config, SKey("table")))
              && Get(config, SKey("fields")).Arr? && Get(config, SKey("fields")).entries != []
              && (Get(config, SKey("sortable")) == Null || Get(config, SKey("sortable")).Arr?)
    ensures errors == (if TableMissing(config) then [TableRequired] else [])
                    + (if FieldsMissing(config) then [FieldsRequired] else [])
                    + (if SortableMalformed(config) then [SortableMustBeArray] else [])
  {
    errors := [];
    if Empty(Get(config, SKey("table"))) {
      errors := errors + [TableRequired];
    }
    var fields := Get(config, SKey("fields"));
    if Empty(fields) || !fields.Arr? {
      errors := errors + [FieldsRequired];
    }
    var sortable := Get(config, SKey("sortable"));
    if sortable != Null && !sortable.Arr? {
      errors := errors + [SortableMustBeArray];
    }
  }

  // ---- Identifier sanitising ----

  predicate IsIdentChar(c: char)
  {
    ('a' <= c <= 'z') || ('A' <= c <= 'Z') || ('0' <= c <= '9') || c == '_'
  }

  predicate IsIdentifier(s: string)
  {
    forall i :: 0 <= i < |s| ==> IsIdentChar(s[i])
  }

  /** sanitizeTableName and sanitizeColumnName (the same expression): every
      character outside [a-zA-Z0-9_] is deleted. */
  function Sanitize(s: string): (r: string)
    ensures IsIdentifier(r)
    ensures |r| <= |s|
  {
    if s == [] then [] else (if IsIdentChar(s[0]) then [s[0]] else []) + Sanitize(s[1..])
  }

  /** Sanitising works character by character, so it keeps the original order. */
  lemma {:induction false} SanitizeConcat(a: string, b: string)
    ensures Sanitize(a + b) == Sanitize(a) + Sanitize(b)
  {
    if a == [] {
      assert a + b == b;
    } else {
      assert (a + b)[1..] == a[1..] + b;
      SanitizeConcat(a[1..], b);
    }
  }

  /** Every allowed character survives as often as it occurred; every other is gone. */
  lemma {:induction false} SanitizeCounts(s: string, c: char)
    ensures Occurrences(c, Sanitize(s)) == if IsIdentChar(c) then Occurrences(c, s) else 0
  {
    if s != [] {
      SanitizeCounts(s[1..], c);
      OccurrencesConcat(c, if IsIdentChar(s[0]) then [s[0]] else [], Sanitize(s[1..]));
    }
  }

  /** A clean identifier passes unchanged. */
  lemma {:induction false} SanitizeIdentity(s: string)
    requires IsIdentifier(s)
    ensures Sanitize(s) == s
  {
    if s != [] {
      assert IsIdentifier(s[1..]);
      SanitizeIdentity(s[1..]);
    }
  }

  lemma SanitizeIdempotent(s: string)
    ensures Sanitize(Sanitize(s)) == Sanitize(s)
  {
    SanitizeIdentity(Sanitize(s));
  }

  // ---- Search clause ----

  /** The bound value for a LIKE search: the term wrapped in % wildcards. */
  function SearchPattern(term: string): string
  {
    "%" + term + "%"
  }

  function LikeParts(columns: seq<string>): seq<string>
  {
    seq(|columns|, i requires 0 <= i < |columns| => Sanitize(columns[i]) + " LIKE ?")
  }

  /** No search happens for an empty term ("" or "0") or an empty column list. */
  predicate NoSearch(columns: seq<string>, term: string)
  {
    EmptyString(term) || columns == []
  }

  /** The clause buildSearchWhere returns. */
  function SearchWhere(columns: seq<string>, term: string): string
  {
    if NoSearch(columns, term) then "" else "WHERE " + Join(" OR ", LikeParts(columns))
  }

  /** buildSearchWhere: returns the clause and appends one wildcarded copy of the
      term per column to the by-reference parameter list. */
  method BuildSearchWhere(columns: seq<string>, searchTerm: string, params: seq<string>)
    returns (clause: string, paramsOut: seq<string>)
    ensures clause == SearchWhere(columns, searchTerm)
    ensures paramsOut == if NoSearch(columns, searchTerm) then params
                         else params + Repeat(SearchPattern(searchTerm), |columns|)
  {
    if EmptyString(searchTerm) || |columns| == 0 {
      return "", params;
    }
    var term := "%" + searchTerm + "%";
    var likeParts: seq<string> := [];
    paramsOut := params;
    for i := 0 to |columns|
      invariant likeParts == LikeParts(columns[..i])
      invariant paramsOut == params + Repeat(term, i)
    {
      var sanitized := Sanitize(columns[i]);
      likeParts := likeParts + [sanitized + " LIKE ?"];
      paramsOut := paramsOut + [term];
    }
    assert columns[..|columns|] == columns;
    clause := if |likeParts| > 0 then "WHERE " + Join(" OR ", likeParts) else "";
  }

  lemma {:induction false} LikePartsPlaceholders(columns: seq<string>)
    ensures TotalOccurrences('?', LikeParts(columns)) == |columns|
  {
    if columns != [] {
      assert LikeParts(columns)[1..] == LikeParts(columns[1..]);
      LikePartsPlaceholders(columns[1..]);
      var s := Sanitize(columns[0]);
      assert !IsIdentChar('?');
      assert '?' !in s;
      OccurrencesAbsent('?', s);
      OccurrencesConcat('?', s, " LIKE ?");
    }
  }

  /** The clause is empty exactly when no search happens, and otherwise holds one
      placeholder per column, i.e. per appended parameter. */
  lemma SearchWherePlaceholders(columns: seq<string>, term: string)
    ensures SearchWhere(columns, term) == "" <==> NoSearch(columns, term)
    ensures Occurrences('?', SearchWhere(columns, term)) ==
              if NoSearch(columns, term) then 0 else |columns|
  {
    if !NoSearch(columns, term) {
      OccurrencesJoin('?', " OR ", LikeParts(columns));
      LikePartsPlaceholders(columns);
      OccurrencesConcat('?', "WHERE ", Join(" OR ", LikeParts(columns)));
    }
  }

  /** The term never reaches the SQL text: any two non-empty terms give the same clause. */
  lemma SearchWhereIgnoresTerm(columns: seq<string>, t1: string, t2: string)
    requires !EmptyString(t1) && !EmptyString(t2)
    ensures SearchWhere(columns, t1) == SearchWhere(columns, t2)
  {
  }

  // ---- Order clause ----

  /** strtoupper($sortDir) === 'DESC' ? 'DESC' : 'ASC' */
  function Direction(sortDir: string): string
  {
    if StrToUpper(sortDir) == "DESC" then "DESC" else "ASC"
  }

  lemma UpperIs(c: char, u: char)
    requires 'A' <= u <= 'Z'
    ensures Upper(c) == u <==> c == u || c as int == u as int + 32
  {
  }

  /** The direction is DESC exactly for the four letters d, e, s, c in any case;
      every other value, including the empty one, means ASC. */
  lemma DirectionCaseInsensitive(d: string)
    ensures Direction(d) == "DESC" || Direction(d) == "ASC"
    ensures Direction(d) == "DESC" <==>
              |d| == 4 && d[0] in "dD" && d[1] in "eE" && d[2] in "sS" && d[3] in "cC"
  {
    if |d| == 4 {
      UpperIs(d[0], 'D');
      UpperIs(d[1], 'E');
      UpperIs(d[2], 'S');
      UpperIs(d[3], 'C');
      assert StrToUpper(d) == [Upper(d[0]), Upper(d[1]), Upper(d[2]), Upper(d[3])];
    }
  }

  /** buildOrderBy: empty unless the field is non-empty and whitelisted. */
  function OrderBy(sortField: string, sortDir: string, sortable: seq<string>): (r: string)
    ensures r == "" <==> EmptyString(sortField) || sortField !in sortable
  {
    if EmptyString(sortField) || sortField !in sortable then ""
    else "ORDER BY " + Sanitize(sortField) + " " + Direction(sortDir)
  }

  /** What follows ORDER BY is an identifier, one space and ASC or DESC, and the
      identifier is the whitelisted field itself whenever that field is clean. */
  lemma OrderBySafe(sortField: string, sortDir: string, sortable: seq<string>)
    ensures var r := OrderBy(sortField, sortDir, sortable);
            r == "" ||
            exists id :: IsIdentifier(id) && (r == "ORDER BY " + id + " ASC" || r == "ORDER BY " + id + " DESC")
    ensures IsIdentifier(sortField) && !EmptyString(sortField) && sortField in sortable ==>
              OrderBy(sortField, sortDir, sortable) == "ORDER BY " + sortField + " " + Direction(sortDir)
  {
    if !EmptyString(sortField) && sortField in sortable {
      DirectionCaseInsensitive(sortDir);
      var id := Sanitize(sortField);
      assert IsIdentifier(id);
    }
    if IsIdentifier(sortField) {
      SanitizeIdentity(sortField);
    }
  }

  // ---- Pagination ----

  /** ceil(a / b) for a positive b, computed exactly on integers. */
  function CeilDiv(a: int, b: int): (q: int)
    requires b > 0
    ensures (q - 1) * b < a <= q * b
  {
    var f := (-a) / b;
    assert -a == b * f + (-a) % b;
    assert 0 <= (-a) % b < b;
    -f
  }

  lemma MulMono(x: int, y: int, b: int)
    requires x <= y && b > 0
    ensures x * b <= y * b
  {
    assert y * b - x * b == (y - x) * b;
  }

  /** The ceiling is the only integer with that property, and it is 0 for 0. */
  lemma CeilDivUnique(a: int, b: int, q: int)
    requires b > 0 && (q - 1) * b < a <= q * b
    ensures q == CeilDiv(a, b)
    ensures a >= 0 ==> q >= 0
    ensures a == 0 ==> q == 0
  {
    var c := CeilDiv(a, b);
    if q < c {
      MulMono(q, c - 1, b);
    } else if q > c {
      MulMono(c, q - 1, b);
    }
    if a >= 0 && q < 0 {
      MulMono(q, -1, b);
    }
    if a == 0 && q > 0 {
      MulMono(0, q - 1, b);
    }
  }

  datatype Pagination = Pagination(
    page: int, perPage: int, totalPages: int, totalRecords: int,
    offset: int, hasNext: bool, hasPrev: bool)

  /** calculatePagination: page clamped to at least 1, perPage to 1..100. */
  function CalculatePagination(totalRecords: int, page: int, perPage: int): (p: Pagination)
    ensures p.page >= 1 && 1 <= p.perPage <= 100
    ensures p.page == (if page < 1 then 1 else page)
    ensures p.perPage == (if perPage < 1 then 1 else if perPage > 100 then 100 else perPage)
    ensures p.offset == (p.page - 1) * p.perPage && p.offset >= 0
    ensures (p.totalPages - 1) * p.perPage < totalRecords <= p.totalPages * p.perPage
    ensures p.totalRecords == totalRecords
    ensures p.hasNext <==> p.page < p.totalPages
    ensures p.hasPrev <==> p.page > 1
  {
    var pg := if 1 > page then 1 else page;
    var per := if perPage > 100 then 100 else if perPage < 1 then 1 else perPage;
    var totalPages := CeilDiv(totalRecords, per);
    var offset := (pg - 1) * per;
    assert offset >= 0 by {
      assert pg - 1 >= 0;
    }
    Pagination(pg, per, totalPages, totalRecords, offset, pg < totalPages, pg > 1)
  }

  /** The worked example: 23 records, page 3 of 10 per page. */
  lemma PaginationExample()
    ensures CalculatePagination(23, 3, 10) == Pagination(3, 10, 3, 23, 20, false, true)
  {
    var p := CalculatePagination(23, 3, 10);
    CeilDivUnique(23, 10, 3);
  }

  /** No records means no pages and therefore no next page. */
  lemma PaginationNoRecords(page: int, perPage: int)
    ensures CalculatePagination(0, page, perPage).totalPages == 0
    ensures !CalculatePagination(0, page, perPage).hasNext
  {
    var p := CalculatePagination(0, page, perPage);
    CeilDivUnique(0, p.perPage, p.totalPages);
  }
}
