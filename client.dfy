/** The browser-side grid controller: one closure per configured table holding the
    current page, the sort field and direction and a pending search timer, plus
    the arithmetic behind the pagination control and the records line, and the
    column-visibility preference kept in local storage. The DOM, fetch, storage
    and timers are replaced by fields that record what the script writes and
    requests. */
module Client {

  import opened Wrappers

  function Max(a: int, b: int): int { if a >= b then a else b }
  function Min(a: int, b: int): int { if a <= b then a else b }

  // ---- JSON values and JavaScript truthiness ----

  /** A value produced by JSON.parse. Numbers are integers here. */
  datatype Json = JNull | JBool(b: bool) | JNum(n: int) | JStr(s: string) | JArr(items: seq<Json>) | JObj(props: map<string, Json>)

  predicate Truthy(j: Json)
  {
    match j
    case JNull => false
    case JBool(b) => b
    case JNum(n) => n != 0
    case JStr(s) => s != ""
    case JArr(_) => true
    case JObj(_) => true
  }

  /** What reading a preference from local storage gives: nothing (a missing
      item or the empty string, both falsy), text JSON.parse rejects, or a
      parsed value. */
  datatype Stored = Missing | Garbled | Parsed(value: Json)

  /** Which columns are visible: all of them (the preference is null), or the
      fields listed in an array (compared with indexOf, so only strings match). */
  datatype Visibility = AllVisible | Listed(items: seq<Json>)

  predicate IsVisible(v: Visibility, field: string)
  {
    match v
    case AllVisible => true
    case Listed(items) => JStr(field) in items
  }

  /** Strings as JSON strings, in order. */
  function JStrs(fs: seq<string>): (r: seq<Json>)
    ensures |r| == |fs|
    ensures forall i :: 0 <= i < |fs| ==> r[i] == JStr(fs[i])
  {
    seq(|fs|, i requires 0 <= i < |fs| => JStr(fs[i]))
  }

  /** A field is listed exactly when it is one of the strings written. */
  lemma JStrsMembers(fs: seq<string>, f: string)
    ensures JStr(f) in JStrs(fs) <==> f in fs
  {
    if JStr(f) in JStrs(fs) {
      var i :| 0 <= i < |fs| && JStrs(fs)[i] == JStr(f);
    }
    if f in fs {
      var i :| 0 <= i < |fs| && fs[i] == f;
      assert JStrs(fs)[i] == JStr(f);
    }
  }

  /** The flag a legacy object preference holds for a field: a missing property
      is undefined, which is falsy. */
  predicate HiddenFlag(m: map<string, Json>, f: string)
  {
    f in m && Truthy(m[f])
  }

  /** The header keys whose legacy flag is falsy, in header order. */
  function LegacyVisible(m: map<string, Json>, headers: seq<string>): seq<string>
  {
    if headers == [] then []
    else if HiddenFlag(m, headers[0]) then LegacyVisible(m, headers[1..])
    else [headers[0]] + LegacyVisible(m, headers[1..])
  }

  /** The visibility a stored preference stands for. */
  function ReadVisibility(stored: Stored, headers: seq<string>): Visibility
  {
    match stored
    case Parsed(JArr(items)) => Listed(items)
    case Parsed(JObj(m)) => Listed(JStrs(LegacyVisible(m, headers)))
    case _ => AllVisible
  }

  /** The preference after reading: a legacy object is rewritten as the array of
      visible header keys; anything else is left as it is. */
  function Migrated(stored: Stored, headers: seq<string>): Stored
  {
    match stored
    case Parsed(JObj(m)) => Parsed(JArr(JStrs(LegacyVisible(m, headers))))
    case _ => stored
  }

  /** A legacy preference keeps visible exactly the header keys whose flag is
      falsy, and hides every field that is not a header key. */
  lemma {:induction false} LegacyVisibleSpec(m: map<string, Json>, headers: seq<string>, f: string)
    ensures f in LegacyVisible(m, headers) <==> f in headers && !HiddenFlag(m, f)
  {
    if headers != [] {
      LegacyVisibleSpec(m, headers[1..], f);
      assert headers == [headers[0]] + headers[1..];
    }
  }

  lemma LegacyMigration(m: map<string, Json>, headers: seq<string>, f: string)
    ensures IsVisible(ReadVisibility(Parsed(JObj(m)), headers), f) <==> f in headers && !HiddenFlag(m, f)
    ensures Migrated(Parsed(JObj(m)), headers).value.JArr?
  {
    LegacyVisibleSpec(m, headers, f);
    JStrsMembers(LegacyVisible(m, headers), f);
  }

  /** Null, a missing item and unparseable text all show every column. */
  lemma NullShowsAll(headers: seq<string>, f: string)
    ensures IsVisible(ReadVisibility(Parsed(JNull), headers), f)
    ensures IsVisible(ReadVisibility(Missing, headers), f)
    ensures IsVisible(ReadVisibility(Garbled, headers), f)
  {
  }

  /** Migration does not change what is shown, and a migrated preference is
      never migrated again. */
  lemma MigrationStable(stored: Stored, headers: seq<string>)
    ensures ReadVisibility(Migrated(stored, headers), headers) == ReadVisibility(stored, headers)
    ensures Migrated(Migrated(stored, headers), headers) == Migrated(stored, headers)
  {
  }

  /** The header keys whose checkbox is ticked, in menu order. */
  function Ticked(headers: seq<string>, checked: seq<bool>): seq<string>
    requires |checked| == |headers|
  {
    if headers == [] then []
    else if checked[0] then [headers[0]] + Ticked(headers[1..], checked[1..])
    else Ticked(headers[1..], checked[1..])
  }

  lemma {:induction false} TickedSpec(headers: seq<string>, checked: seq<bool>, j: int)
    requires |checked| == |headers|
    requires forall a, b :: 0 <= a < b < |headers| ==> headers[a] != headers[b]
    requires 0 <= j < |headers|
    ensures headers[j] in Ticked(headers, checked) <==> checked[j]
  {
    if j > 0 {
      TickedSpec(headers[1..], checked[1..], j - 1);
      assert headers[1..][j - 1] == headers[j];
    } else if headers[1..] != [] {
      TickedNotIn(headers[1..], checked[1..], headers[0]);
    }
  }

  lemma {:induction false} TickedNotIn(headers: seq<string>, checked: seq<bool>, f: string)
    requires |checked| == |headers|
    requires f !in headers
    ensures f !in Ticked(headers, checked)
  {
    if headers != [] {
      TickedNotIn(headers[1..], checked[1..], f);
    }
  }

  /** Saving the ticked boxes and reading the preference back shows exactly the
      ticked columns. */
  lemma SavedTicksRoundTrip(headers: seq<string>, checked: seq<bool>, j: int)
    requires |checked| == |headers|
    requires forall a, b :: 0 <= a < b < |headers| ==> headers[a] != headers[b]
    requires 0 <= j < |headers|
    ensures IsVisible(ReadVisibility(Parsed(JArr(JStrs(Ticked(headers, checked)))), headers), headers[j]) == checked[j]
  {
    TickedSpec(headers, checked, j);
    JStrsMembers(Ticked(headers, checked), headers[j]);
  }

  /** The grid fields hidden under a visibility, in grid order. */
  function HiddenAmong(fields: seq<string>, v: Visibility): seq<string>
  {
    if fields == [] then []
    else if IsVisible(v, fields[0]) then HiddenAmong(fields[1..], v)
    else [fields[0]] + HiddenAmong(fields[1..], v)
  }

  lemma {:induction false} HiddenAmongSpec(fields: seq<string>, v: Visibility, f: string)
    ensures f in HiddenAmong(fields, v) <==> f in fields && !IsVisible(v, f)
  {
    if fields != [] {
      HiddenAmongSpec(fields[1..], v, f);
      assert fields == [fields[0]] + fields[1..];
    }
  }

  // ---- parseInt and number formatting ----

  predicate IsSpace(c: char)
  {
    c == ' ' || c == '\t' || c == '\n' || c == '\r' || c == '\U{B}' || c == '\U{C}'
  }

  predicate IsDigit(c: char) { '0' <= c <= '9' }

  function TrimStart(s: string): (r: string)
    ensures |r| <= |s|
    ensures r == [] || !IsSpace(r[0])
  {
    if s != [] && IsSpace(s[0]) then TrimStart(s[1..]) else s
  }

  /** Trimming only drops characters from the front. */
  lemma {:induction false} TrimStartSuffix(s: string)
    ensures TrimStart(s) == s[|s| - |TrimStart(s)|..]
  {
    if s != [] && IsSpace(s[0]) {
      TrimStartSuffix(s[1..]);
      assert s[1..][|s| - 1 - |TrimStart(s)|..] == s[|s| - |TrimStart(s)|..];
    }
  }

  /** The longest prefix of decimal digits. */
  function DigitPrefix(s: string): (r: string)
    ensures |r| <= |s| && r == s[..|r|]
    ensures forall i :: 0 <= i < |r| ==> IsDigit(r[i])
  {
    if s != [] && IsDigit(s[0]) then [s[0]] + DigitPrefix(s[1..]) else []
  }

  function DigitValue(c: char): nat
    requires IsDigit(c)
  {
    (c as int) - ('0' as int)
  }

  function DigitsValue(ds: string): nat
    requires forall i :: 0 <= i < |ds| ==> IsDigit(ds[i])
  {
    if ds == [] then 0
    else DigitsValue(ds[..|ds| - 1]) * 10 + DigitValue(ds[|ds| - 1])
  }

  /** parseInt(s, 10): leading white space, an optional sign, then as many
      decimal digits as there are; no digit at all is NaN (None). */
  function ParseInt(s: string): Option<int>
  {
    var t := TrimStart(s);
    var negative := t != [] && t[0] == '-';
    var body := if t != [] && (t[0] == '-' || t[0] == '+') then t[1..] else t;
    var ds := DigitPrefix(body);
    if ds == [] then None
    else var v: int := DigitsValue(ds); Some(if negative then -v else v)
  }

  function Digit(d: int): char
    requires 0 <= d < 10
  {
    (('0' as int) + d) as char
  }

  /** The decimal text of a natural number. */
  function NatToString(n: nat): (r: string)
    ensures r != [] && forall i :: 0 <= i < |r| ==> IsDigit(r[i])
  {
    if n < 10 then [Digit(n)] else NatToString(n / 10) + [Digit(n % 10)]
  }

  /** How a number is written into a data-page attribute. */
  function IntToString(n: int): string
  {
    if n < 0 then "-" + NatToString(-n) else NatToString(n)
  }

  lemma {:induction false} NatToStringValue(n: nat)
    ensures DigitsValue(NatToString(n)) == n
  {
    var r := NatToString(n);
    if n >= 10 {
      NatToStringValue(n / 10);
      assert r[..|r| - 1] == NatToString(n / 10);
    }
  }

  /** Leading white space is skipped up to the first other character. */
  lemma {:induction false} TrimSpaces(ws: string, t: string)
    requires forall i :: 0 <= i < |ws| ==> IsSpace(ws[i])
    requires t == [] || !IsSpace(t[0])
    ensures TrimStart(ws + t) == t
  {
    if ws != [] {
      assert (ws + t)[1..] == ws[1..] + t;
      TrimSpaces(ws[1..], t);
    }
  }

  /** The digit run ends at the first character that is not a digit. */
  lemma {:induction false} DigitPrefixConcat(ds: string, rest: string)
    requires forall i :: 0 <= i < |ds| ==> IsDigit(ds[i])
    requires rest == [] || !IsDigit(rest[0])
    ensures DigitPrefix(ds + rest) == ds
  {
    if ds != [] {
      assert (ds + rest)[1..] == ds[1..] + rest;
      DigitPrefixConcat(ds[1..], rest);
    } else {
      assert ds + rest == rest;
    }
  }

  /** Text holding no digit at all is NaN, whatever its spaces and signs. */
  lemma ParseIntNoDigits(s: string)
    requires forall i :: 0 <= i < |s| ==> !IsDigit(s[i])
    ensures ParseInt(s) == None
  {
    var t := TrimStart(s);
    var body := if t != [] && (t[0] == '-' || t[0] == '+') then t[1..] else t;
    TrimStartSuffix(s);
    if body != [] {
      assert body == s[|s| - |body|..];
      assert body[0] == s[|s| - |body|];
    }
  }

  /** After the white space: the sign, if any, then the digit run. */
  lemma SignedDigits(sign: string, ds: string, rest: string)
    requires sign == "" || sign == "+" || sign == "-"
    requires ds != [] && IsDigit(ds[0])
    ensures var t := sign + (ds + rest);
            && t != [] && !IsSpace(t[0])
            && (t[0] == '-' <==> sign == "-")
            && (if t[0] == '-' || t[0] == '+' then t[1..] else t) == ds + rest
  {
    var t := sign + (ds + rest);
    if sign == "" {
      assert t == ds + rest;
    } else {
      assert t[1..] == ds + rest;
    }
  }

  /** ParseInt once the trimmed text, its sign and its digit run are known. */
  lemma ParseIntFrom(s: string, negative: bool, ds: string)
    requires ds != [] && forall i :: 0 <= i < |ds| ==> IsDigit(ds[i])
    requires var t := TrimStart(s);
             && (t != [] && t[0] == '-') == negative
             && DigitPrefix(if t != [] && (t[0] == '-' || t[0] == '+') then t[1..] else t) == ds
    ensures ParseInt(s) == Some(if negative then -(DigitsValue(ds) as int) else DigitsValue(ds))
  {
  }

  /** White space, an optional sign, a run of digits and then anything that does
      not start with a digit: the value of the digits, negated after a minus. */
  lemma ParseIntDigits(ws: string, sign: string, ds: string, rest: string)
    requires forall i :: 0 <= i < |ws| ==> IsSpace(ws[i])
    requires sign == "" || sign == "+" || sign == "-"
    requires ds != [] && forall i :: 0 <= i < |ds| ==> IsDigit(ds[i])
    requires rest == [] || !IsDigit(rest[0])
    ensures ParseInt(ws + (sign + (ds + rest))) == Some(if sign == "-" then -(DigitsValue(ds) as int) else DigitsValue(ds))
  {
    var t := sign + (ds + rest);
    SignedDigits(sign, ds, rest);
    TrimSpaces(ws, t);
    DigitPrefixConcat(ds, rest);
    ParseIntFrom(ws + t, sign == "-", ds);
  }

  /** Reading back a written page number gives the number itself. */
  lemma ParseIntRoundTrip(n: int)
    ensures ParseInt(IntToString(n)) == Some(n)
  {
    var digits := NatToString(if n < 0 then -n else n);
    NatToStringValue(if n < 0 then -n else n);
    var sign := if n < 0 then "-" else "";
    ParseIntDigits("", sign, digits, "");
    assert "" + (sign + (digits + "")) == IntToString(n);
  }

  /** Worked examples: empty text, letters and a lone sign are NaN; a number
      followed by a unit parses as the number. */
  lemma ParseIntNaN()
    ensures ParseInt("") == None && ParseInt("abc") == None && ParseInt(" -") == None
    ensures ParseInt(" 20px") == Some(20)
  {
    ParseIntNoDigits("");
    ParseIntNoDigits("abc");
    ParseIntNoDigits(" -");
    ParseIntDigits(" ", "", "20", "px");
    assert " " + ("" + ("20" + "px")) == " 20px";
    assert DigitsValue("20") == 20 by {
      assert "20"[..1] == "2";
    }
  }

  // ---- pagination control ----

  datatype ButtonKind = First | Prev | Number | Next | Last

  /** A pagination button: its kind, the page in its data-page attribute, and
      whether it is marked (disabled for the arrows, active for a number). */
  datatype PageButton = PageButton(kind: ButtonKind, target: int, marked: bool)

  function WindowStart(page: int): int { Max(1, page - 2) }
  function WindowEnd(page: int, totalPages: int): int { Min(totalPages, page + 2) }

  /** The numbered pages offered around the current one. */
  function Window(page: int, totalPages: int): seq<int>
  {
    var lo := WindowStart(page);
    seq(Max(0, WindowEnd(page, totalPages) - lo + 1), k => lo + k)
  }

  function NumberButtons(page: int, totalPages: int): seq<PageButton>
  {
    var w := Window(page, totalPages);
    seq(|w|, k requires 0 <= k < |w| => PageButton(Number, w[k], w[k] == page))
  }

  /** The whole control: nothing for a single page, otherwise first and previous,
      the numbered window, then next and last. */
  function Controls(page: int, totalPages: int): seq<PageButton>
  {
    if totalPages > 1 then
      [PageButton(First, 1, page == 1), PageButton(Prev, page - 1, page == 1)]
      + NumberButtons(page, totalPages)
      + [PageButton(Next, page + 1, page == totalPages), PageButton(Last, totalPages, page == totalPages)]
    else []
  }

  /** The window is the run of pages from max(1, p-2) to min(t, p+2): at most
      five, all real pages, holding the current page when it is one. */
  lemma WindowSpec(page: int, totalPages: int)
    ensures |Window(page, totalPages)| <= 5
    ensures forall x :: x in Window(page, totalPages) <==> Max(1, page - 2) <= x <= Min(totalPages, page + 2)
    ensures forall x :: x in Window(page, totalPages) ==> 1 <= x <= totalPages
    ensures 1 <= page <= totalPages ==> page in Window(page, totalPages)
  {
    var w := Window(page, totalPages);
    forall x | Max(1, page - 2) <= x <= Min(totalPages, page + 2) ensures x in w {
      assert w[x - WindowStart(page)] == x;
    }
  }

  /** Exactly one numbered button is active when the current page is a real page. */
  lemma OneActive(page: int, totalPages: int)
    requires 1 <= page <= totalPages
    ensures exists k :: 0 <= k < |NumberButtons(page, totalPages)| && NumberButtons(page, totalPages)[k].marked
    ensures forall k :: 0 <= k < |NumberButtons(page, totalPages)| && NumberButtons(page, totalPages)[k].marked ==>
              NumberButtons(page, totalPages)[k].target == page
  {
    var k := page - WindowStart(page);
    assert NumberButtons(page, totalPages)[k].marked;
  }

  /** A single page (or none) gets no control; more pages get the four arrows
      around the window. */
  lemma ControlsShape(page: int, totalPages: int)
    ensures totalPages <= 1 <==> Controls(page, totalPages) == []
    ensures totalPages > 1 ==> |Controls(page, totalPages)| == 4 + |Window(page, totalPages)|
    ensures totalPages > 1 ==>
              (Controls(page, totalPages)[0].target == 1
               && Controls(page, totalPages)[|Controls(page, totalPages)| - 1].target == totalPages)
  {
  }

  /** Builds the pagination control as the script does, the numbered buttons in
      a loop from max(1, p-2) up to min(t, p+2). */
  method PaginationButtons(page: int, totalPages: int) returns (buttons: seq<PageButton>)
    ensures buttons == Controls(page, totalPages)
  {
    buttons := [];
    if totalPages > 1 {
      var lo := Max(1, page - 2);
      var hi := Min(totalPages, page + 2);
      var numbers := [];
      var i := lo;
      while i <= hi
        invariant lo <= i <= Max(lo, hi + 1)
        invariant |numbers| == i - lo
        invariant forall k :: 0 <= k < |numbers| ==> numbers[k] == PageButton(Number, lo + k, lo + k == page)
      {
        numbers := numbers + [PageButton(Number, i, i == page)];
        i := i + 1;
      }
      assert numbers == NumberButtons(page, totalPages);
      buttons := [PageButton(First, 1, page == 1), PageButton(Prev, page - 1, page == 1)]
        + numbers
        + [PageButton(Next, page + 1, page == totalPages), PageButton(Last, totalPages, page == totalPages)];
    }
  }

  // ---- records line ----

  /** The first and last record numbers the records line shows. */
  function RecordsRange(page: int, perPage: int, totalRecords: int): (int, int)
  {
    ((page - 1) * perPage + 1, Min(totalRecords, page * perPage))
  }

  /** For a page that holds records, the line shows the numbers of exactly the
      records on that page: as many as fit, the last page holding the rest. */
  lemma RecordsRangeMeaning(page: int, perPage: int, totalRecords: int)
    requires page >= 1 && perPage >= 1
    requires (page - 1) * perPage < totalRecords
    ensures var (start, end) := RecordsRange(page, perPage, totalRecords);
            && 1 <= start <= end <= totalRecords
            && start - 1 == (page - 1) * perPage
            && end - start + 1 == Min(perPage, totalRecords - (page - 1) * perPage)
  {
    assert page * perPage == (page - 1) * perPage + perPage;
    assert (page - 1) * perPage >= 0 by {
      assert page - 1 >= 0;
    }
  }

  /** parseInt(value, 10) || 10: NaN and 0 fall back to 10. */
  function PerPageOrDefault(value: string): int
  {
    match ParseInt(value)
    case None => 10
    case Some(n) => if n == 0 then 10 else n
  }

  lemma PerPageOrDefaultSpec(n: int)
    ensures PerPageOrDefault(IntToString(n)) == if n == 0 then 10 else n
    ensures PerPageOrDefault("") == 10
  {
    ParseIntRoundTrip(n);
  }

  // ---- the controller ----

  datatype Order = ASC | DESC

  function Flip(o: Order): Order
  {
    if o == ASC then DESC else ASC
  }

  /** The query string of one fetch. */
  datatype Request = Request(table: string, page: int, search: string, sortField: string,
                             sortDir: Order, perPage: Option<string>)

  datatype Cell = Cell(field: string, text: string)
  type Row = seq<Cell>

  function FieldNames(row: Row): seq<string>
  {
    seq(|row|, i requires 0 <= i < |row| => row[i].field)
  }

  /** What a fetch resolves to: an unsuccessful answer with its message, a
      failure of the fetch or of decoding (with the error's message), or a page
      of rows with the record and page counts. */
  datatype Response = Refused(message: string) | Broken(error: string)
                    | Answered(rows: seq<Row>, totalRecords: int, totalPages: int)

  /** What the table container shows. */
  datatype View = Blank | Loading | Alert(message: string) | NoData | Grid(fields: seq<string>, rows: seq<Row>)

  /** The records line: not yet written, or first, last and total. */
  datatype Info = NoInfo | Showing(start: int, end: int, total: int)

  predicate IsSortable(sortable: Json, f: string)
  {
    sortable.JArr? && JStr(f) in sortable.items
  }

  class GridController {
    const table: string
    const headers: seq<string>
    const sortable: Json
    const hasSearch: bool
    const hasPerPage: bool

    var currentPage: int
    var currentSortField: string
    var currentSortOrder: Order
    /** A search timer is set and not yet fired. */
    var searchPending: bool

    var searchText: string
    var perPageValue: string
    var storedPerPage: Option<string>
    var storedColumns: Stored
    var checked: seq<bool>

    /** Every fetch issued, oldest first. */
    var requests: seq<Request>
    var view: View
    var hidden: seq<string>
    var buttons: seq<PageButton>
    var info: Info

    ghost predicate Valid()
      reads this
    {
      && |checked| == |headers|
      && (forall a, b :: 0 <= a < b < |headers| ==> headers[a] != headers[b])
    }

    /** The request the current state stands for. */
    function CurrentRequest(): Request
      reads this
    {
      Request(table, currentPage, if hasSearch then searchText else "", currentSortField, currentSortOrder,
              if hasPerPage then Some(perPageValue) else None)
    }

    /** The headers that carry a sort handler in the rendered grid. */
    function SortHeaders(): seq<string>
      reads this
    {
      if view.Grid? then SortableAmong(view.fields, sortable) else []
    }

    /** The records-per-page figure used by the records line. */
    function PerPage(): int
      reads this
    {
      if hasPerPage then PerPageOrDefault(perPageValue) else 10
    }

    /** Set-up: page 1, no sort field, ascending, the saved per-page choice
        restored, the column preference migrated, and the first fetch issued. */
    constructor(table: string, headers: seq<string>, sortable: Json, hasSearch: bool, hasPerPage: bool,
                searchText: string, perPageValue: string, storedPerPage: Option<string>, storedColumns: Stored)
      requires forall a, b :: 0 <= a < b < |headers| ==> headers[a] != headers[b]
      ensures Valid() && |checked| == |headers|
      ensures this.table == table && this.headers == headers && this.sortable == sortable
      ensures this.hasSearch == hasSearch && this.hasPerPage == hasPerPage && this.searchText == searchText
      ensures this.storedPerPage == storedPerPage
      ensures currentPage == 1 && currentSortField == "" && currentSortOrder == ASC && !searchPending
      ensures this.perPageValue ==
                if hasPerPage && storedPerPage.Some? && storedPerPage.value != "" then storedPerPage.value
                else perPageValue
      ensures this.storedColumns == Migrated(storedColumns, headers)
      ensures forall j :: 0 <= j < |headers| ==>
                checked[j] == IsVisible(ReadVisibility(storedColumns, headers), headers[j])
      ensures requests == [CurrentRequest()] && view == Loading && hidden == []
    {
      this.table := table;
      this.headers := headers;
      this.sortable := sortable;
      this.hasSearch := hasSearch;
      this.hasPerPage := hasPerPage;
      currentPage := 1;
      currentSortField := "";
      currentSortOrder := ASC;
      searchPending := false;
      this.searchText := searchText;
      this.perPageValue :=
        if hasPerPage && storedPerPage.Some? && storedPerPage.value != "" then storedPerPage.value
        else perPageValue;
      this.storedPerPage := storedPerPage;
      var visible := ReadVisibility(storedColumns, headers);
      this.storedColumns := Migrated(storedColumns, headers);
      checked := seq(|headers|, j requires 0 <= j < |headers| => IsVisible(visible, headers[j]));
      requests := [];
      view := Blank;
      hidden := [];
      buttons := [];
      info := NoInfo;
      new;
      LoadData();
    }

    /** loadData: records the fetch for the current state and shows the spinner,
        which replaces the grid and with it every hidden column. */
    method LoadData()
      modifies this`requests, this`view, this`hidden
      ensures requests == old(requests) + [CurrentRequest()]
      ensures view == Loading && hidden == []
    {
      requests := requests + [CurrentRequest()];
      view := Loading;
      hidden := [];
    }

    /** A keystroke in the search box: the pending timer is replaced by a new one. */
    method SearchInput(text: string)
      requires hasSearch
      modifies this`searchText, this`searchPending
      ensures searchText == text && searchPending
    {
      searchText := text;
      searchPending := true;
    }

    /** The search timer fires: back to page 1, then fetch. */
    method SearchTimerFired()
      requires searchPending
      modifies this`currentPage, this`searchPending, this`requests, this`view, this`hidden
      ensures currentPage == 1 && !searchPending
      ensures requests == old(requests) + [CurrentRequest()]
      ensures view == Loading && hidden == []
    {
      searchPending := false;
      currentPage := 1;
      LoadData();
    }

    /** A new per-page choice: back to page 1, remember it, then fetch. */
    method PerPageChanged(value: string)
      requires hasPerPage
      modifies this`perPageValue, this`currentPage, this`storedPerPage, this`requests, this`view, this`hidden
      ensures perPageValue == value && currentPage == 1 && storedPerPage == Some(value)
      ensures requests == old(requests) + [CurrentRequest()]
      ensures CurrentRequest().page == 1 && CurrentRequest().perPage == Some(value)
      ensures view == Loading && hidden == []
    {
      perPageValue := value;
      currentPage := 1;
      storedPerPage := Some(value);
      LoadData();
    }

    /** A click on a sortable header: the current field flips direction, another
        field becomes the sort field in ascending order; the page is kept. */
    method HeaderClicked(field: string)
      requires field in SortHeaders()
      modifies this`currentSortField, this`currentSortOrder, this`requests, this`view, this`hidden
      ensures currentSortField == field
      ensures currentSortOrder == if old(currentSortField) == field then Flip(old(currentSortOrder)) else ASC
      ensures requests == old(requests) + [CurrentRequest()]
      ensures view == Loading && hidden == []
    {
      if currentSortField == field {
        currentSortOrder := if currentSortOrder == ASC then DESC else ASC;
      } else {
        currentSortField := field;
        currentSortOrder := ASC;
      }
      LoadData();
    }

    /** A click on a pagination button: its data-page text is parsed back and,
        when it names another page, that page is fetched. */
    method PageButtonClicked(button: PageButton)
      requires button in buttons
      modifies this`currentPage, this`requests, this`view, this`hidden
      ensures button.target != old(currentPage) ==>
                && currentPage == button.target && requests == old(requests) + [CurrentRequest()]
                && view == Loading && hidden == []
      ensures button.target == old(currentPage) ==>
                && currentPage == old(currentPage) && requests == old(requests)
                && view == old(view) && hidden == old(hidden)
    {
      var p := ParseInt(IntToString(button.target));
      ParseIntRoundTrip(button.target);
      if p.Some? && p.value != currentPage {
        currentPage := p.value;
        LoadData();
      }
    }

    /** A column checkbox toggled: the ticked header keys are saved as an array
        and the grid's column visibility is applied again. */
    method ColumnToggled(j: int)
      requires Valid() && 0 <= j < |headers|
      modifies this`checked, this`storedColumns, this`hidden
      ensures Valid()
      ensures checked == old(checked)[j := !old(checked)[j]]
      ensures storedColumns == Parsed(JArr(JStrs(Ticked(headers, checked))))
      ensures forall i :: 0 <= i < |headers| ==>
                IsVisible(ReadVisibility(storedColumns, headers), headers[i]) == checked[i]
      ensures hidden == if view.Grid? then HiddenAmong(view.fields, ReadVisibility(storedColumns, headers)) else []
    {
      checked := checked[j := !checked[j]];
      storedColumns := Parsed(JArr(JStrs(Ticked(headers, checked))));
      forall i | 0 <= i < |headers|
        ensures IsVisible(ReadVisibility(storedColumns, headers), headers[i]) == checked[i]
      {
        SavedTicksRoundTrip(headers, checked, i);
      }
      ApplyColumnVisibility();
    }

    /** applyColumnVisibility: reads the preference again (migrating a legacy
        one) and hides the grid's columns it does not list. */
    method ApplyColumnVisibility()
      modifies this`storedColumns, this`hidden
      ensures storedColumns == Migrated(old(storedColumns), headers)
      ensures hidden == if view.Grid? then HiddenAmong(view.fields, ReadVisibility(old(storedColumns), headers)) else []
    {
      var visible := ReadVisibility(storedColumns, headers);
      storedColumns := Migrated(storedColumns, headers);
      var h := [];
      if view.Grid? {
        var fields := view.fields;
        var i := |fields|;
        while i > 0
          invariant 0 <= i <= |fields|
          invariant h == HiddenAmong(fields[i..], visible)
        {
          i := i - 1;
          assert fields[i..][1..] == fields[i + 1..];
          if !IsVisible(visible, fields[i]) {
            h := [fields[i]] + h;
          }
        }
        assert fields[0..] == fields;
      }
      hidden := h;
    }

    /** The fetch settles: an error shows an alert; an answer without rows shows
        the no-data notice, no pagination and 0–0 / 0; rows are shown with the
        column visibility, the pagination control and the records line. */
    method Render(response: Response)
      modifies this`view, this`hidden, this`buttons, this`info, this`storedColumns
      ensures response.Refused? ==> view == Alert(if response.message == "" then "Error" else response.message)
      ensures response.Broken? ==> view == Alert(response.error)
      ensures response.Answered? && response.rows == [] ==>
                view == NoData && buttons == [] && info == Showing(0, 0, 0)
      ensures response.Answered? && response.rows != [] ==>
                && view == Grid(FieldNames(response.rows[0]), response.rows)
                && hidden == HiddenAmong(view.fields, ReadVisibility(old(storedColumns), headers))
                && buttons == Controls(currentPage, response.totalPages)
                && info == Showing(RecordsRange(currentPage, PerPage(), response.totalRecords).0,
                                   RecordsRange(currentPage, PerPage(), response.totalRecords).1,
                                   response.totalRecords)
      ensures response.Answered? && response.rows != [] ==> storedColumns == Migrated(old(storedColumns), headers)
      ensures !(response.Answered? && response.rows != []) ==> hidden == [] && storedColumns == old(storedColumns)
      ensures !response.Answered? ==> buttons == old(buttons) && info == old(info)
    {
      match response
      case Refused(message) =>
        view := Alert(if message == "" then "Error" else message);
        hidden := [];
      case Broken(error) =>
        view := Alert(error);
        hidden := [];
      case Answered(rows, totalRecords, totalPages) =>
        if rows == [] {
          view := NoData;
          hidden := [];
          buttons := [];
          info := Showing(0, 0, 0);
        } else {
          view := Grid(FieldNames(rows[0]), rows);
          ApplyColumnVisibility();
          buttons := PaginationButtons(currentPage, totalPages);
          var per := PerPage();
          info := Showing((currentPage - 1) * per + 1, Min(totalRecords, currentPage * per), totalRecords);
        }
    }
  }

  /** The grid fields that carry a sort handler, in grid order. */
  function SortableAmong(fields: seq<string>, sortable: Json): (r: seq<string>)
    ensures forall f :: f in r <==> f in fields && IsSortable(sortable, f)
  {
    if fields == [] then []
    else if IsSortable(sortable, fields[0]) then [fields[0]] + SortableAmong(fields[1..], sortable)
    else SortableAmong(fields[1..], sortable)
  }

  /** Two quick keystrokes and the timer firing once: a single search fetch with
      the last text, on page 1, after the initial fetch. */
  method DebounceScenario() returns (requests: seq<Request>)
    ensures |requests| == 2
    ensures requests[1].search == "ab" && requests[1].page == 1
  {
    var grid := new GridController("users", ["id", "name"], JArr([JStr("name")]), true, true,
                                   "", "10", None, Missing);
    grid.SearchInput("a");
    grid.SearchInput("ab");
    grid.SearchTimerFired();
    requests := grid.requests;
  }

  /** Changing the per-page choice while on page 3 fetches page 1 with the new
      size and remembers the choice. */
  /** On the first of three pages, the fifth button of the control goes to page 3. */
  lemma ThreePageControls()
    ensures |Controls(1, 3)| == 7 && Controls(1, 3)[4] == PageButton(Number, 3, false)
  {
    assert Window(1, 3) == [1, 2, 3];
  }

  /** A grid with a page-size selector, after its first answer: thirty records
      over three pages, the first of them shown. */
  method ThreePageGrid() returns (grid: GridController)
    ensures fresh(grid)
    ensures grid.hasPerPage && grid.currentPage == 1 && |grid.requests| == 1
    ensures grid.buttons == Controls(1, 3)
  {
    grid := new GridController("users", ["id", "name"], JArr([]), true, true,
                               "", "10", None, Missing);
    grid.Render(Answered([[Cell("id", "1")]], 30, 3));
  }

  method PerPageScenario() returns (requests: seq<Request>, stored: Option<string>)
    ensures |requests| == 3
    ensures requests[1].page == 3
    ensures requests[2].page == 1 && requests[2].perPage == Some("20")
    ensures stored == Some("20")
  {
    var grid := ThreePageGrid();
    ThreePageControls();
    grid.PageButtonClicked(grid.buttons[4]);
    assert grid.currentPage == 3 && |grid.requests| == 2;
    grid.PerPageChanged("20");
    requests, stored := grid.requests, grid.storedPerPage;
  }

  /** Clicking a sortable header twice sorts by it ascending, then descending. */
  method SortScenario() returns (requests: seq<Request>)
    ensures |requests| == 3
    ensures requests[1].sortField == "name" && requests[1].sortDir == ASC
    ensures requests[2].sortField == "name" && requests[2].sortDir == DESC
  {
    var grid := new GridController("users", ["id", "name"], JArr([JStr("name")]), false, false,
                                   "", "", None, Missing);
    grid.Render(Answered([[Cell("id", "1"), Cell("name", "Nino")]], 1, 1));
    assert grid.view.fields == ["id", "name"];
    assert "name" in grid.SortHeaders();
    grid.HeaderClicked("name");
    grid.Render(Answered([[Cell("id", "1"), Cell("name", "Nino")]], 1, 1));
    assert "name" in grid.SortHeaders();
    grid.HeaderClicked("name");
    requests := grid.requests;
  }

  /** The previous-page arrow on page 1 is only marked disabled: its data-page
      is 0, so a click on it fetches page 0. */
  method PrevOnFirstPage() returns (requests: seq<Request>)
    ensures |requests| == 2 && requests[1].page == 0
  {
    var grid := new GridController("users", ["id"], JArr([]), false, false,
                                   "", "", None, Missing);
    grid.Render(Answered([[Cell("id", "1")]], 30, 3));
    assert grid.buttons[1] == PageButton(Prev, 0, true);
    grid.PageButtonClicked(grid.buttons[1]);
    requests := grid.requests;
  }
}
