/** The explorer's entity listing: fixed-size pages by ascending id, trimmed to a
    response size, followed by `next_after`. */
module Pagination {
  import opened Wrappers
  import opened IdSets
  import opened JsonText

  const PAGE_LIMIT: nat := 25
  const CELL_LIMIT: nat := 1024
  const TRIM_LIMIT: nat := 800_000

  // ---- Cells and their JSON ----

  const ELLIPSIS: CodePoint := 0x2026

  /** A stored value. A REAL is given by Python's text for it: JSON's when it is
      finite. */
  datatype Cell = Null | Integer(n: int) | Real(repr: Text, finite: bool) | Str(text: Text) | Blob

  /** 64-bit integers; the repr of a double has at most 24 characters, all ASCII. */
  ghost predicate Storable(c: Cell) {
    match c
    case Integer(n) => -0x8000_0000_0000_0000 <= n < 0x8000_0000_0000_0000
    case Real(repr, _) => |repr| <= 24 && forall i | 0 <= i < |repr| :: 0x20 <= repr[i] < 0x7F
    case _ => true
  }

  /** UTF-8 bytes of one character inside a JSON string (`ensure_ascii=False`). */
  function CharBytes(c: CodePoint): (n: nat)
    ensures 1 <= n <= 6
  {
    if c == 0x22 || c == 0x5C then 2
    else if c in {0x08, 0x09, 0x0A, 0x0C, 0x0D} then 2
    else if c < 0x20 then 6
    else if c < 0x80 then 1
    else if c < 0x800 then 2
    else if c < 0x1_0000 then 3
    else 4
  }

  function TextBytes(s: Text): (n: nat)
    ensures |s| <= n <= 6 * |s|
  {
    if s == [] then 0 else TextBytes(s[..|s| - 1]) + CharBytes(s[|s| - 1])
  }

  function Digits(n: nat): (d: nat)
    ensures d >= 1
  {
    if n < 10 then 1 else 1 + Digits(n / 10)
  }

  /** What `_row` shows of a selected value. */
  function Shown(c: Cell): Cell {
    match c
    case Blob => Str(BINARY)
    case Str(s) => if |s| > CELL_LIMIT then Str(s[..CELL_LIMIT] + [ELLIPSIS]) else c
    case Real(repr, finite) => if finite then c else Str(repr)
    case _ => c
  }

  predicate Cut(c: Cell) { c.Blob? || (c.Str? && |c.text| > CELL_LIMIT) }

  const BINARY: Text := Points("[binary value]")

  /** The query already cuts long text one character past the limit. */
  function Selected(c: Cell): Cell {
    if c.Str? && |c.text| > CELL_LIMIT + 1 then Str(c.text[..CELL_LIMIT + 1]) else c
  }

  /** Cutting in the query does not change what is shown. */
  lemma SelectedShown(c: Cell)
    ensures Shown(Selected(c)) == Shown(c) && Cut(Selected(c)) == Cut(c)
  {
    if c.Str? && |c.text| > CELL_LIMIT + 1 {
      assert c.text[..CELL_LIMIT + 1][..CELL_LIMIT] == c.text[..CELL_LIMIT];
    }
  }

  function CellBytes(c: Cell): nat {
    match c
    case Null => 4
    case Integer(n) => if n < 0 then 1 + Digits(-n) else Digits(n)
    case Real(repr, _) => |repr|
    case Str(s) => 2 + TextBytes(s)
    case Blob => 0
  }

  /** A 64-bit magnitude has at most 19 digits. */
  lemma DigitsBound(n: nat)
    requires n < 10_000_000_000_000_000_000
    ensures Digits(n) <= 19
  {
    var top := n / 10_000_000_000;
    DigitsSplit(n / 100_000, 5, 100_000);
    DigitsSplit(n, 5, 100_000);
    DigitsSplit(top, 5, 100_000);
    assert n / 100_000 / 100_000 == top;
    FewDigits(top / 100_000);
  }

  lemma FewDigits(n: nat)
    requires n < 10_000
    ensures Digits(n) <= 4
  {
    assert n / 10 / 10 / 10 < 10;
    assert Digits(n / 10 / 10) <= 2 && Digits(n / 10) <= 3;
  }

  lemma DigitsSplit(n: nat, k: nat, power: nat)
    requires k == 5 && power == 100_000
    ensures Digits(n) <= Digits(n / power) + k
  {
    assert n / 10 / 10 / 10 / 10 / 10 == n / 100_000;
    assert Digits(n) <= 1 + Digits(n / 10);
    assert Digits(n / 10) <= 1 + Digits(n / 10 / 10);
    assert Digits(n / 10 / 10) <= 1 + Digits(n / 10 / 10 / 10);
    assert Digits(n / 10 / 10 / 10) <= 1 + Digits(n / 10 / 10 / 10 / 10);
  }

  /** The largest a shown cell can be: every character escaped, and the ellipsis. */
  lemma CellBound(c: Cell)
    requires Storable(c)
    ensures CellBytes(Shown(c)) <= 2 + 6 * 1025
  {
    match c
    case Integer(n) =>
      DigitsBound(if n < 0 then -n else n);
    case _ =>
  }

  /** What is shown: text up to 1024 characters as it is, longer text cut there with
      an ellipsis after it, bytes as a label; and only the cut ones are flagged. */
  lemma WhatIsShown(c: Cell)
    ensures c.Str? ==> (Cut(c) <==> |c.text| > 1024) &&
                       Shown(c) == if |c.text| > 1024 then Str(c.text[..1024] + ['\U{2026}' as int]) else c
    ensures c.Blob? ==> Cut(c) && Shown(c) == Str(Points("[binary value]"))
    ensures !c.Str? && !c.Blob? ==> !Cut(c) && (c != Shown(c) <==> c.Real? && !c.finite)
    ensures c.Real? && !c.finite ==> Shown(c) == Str(c.repr)
  {
  }

  // ---- The JSON of a cell ----

  function JsonCell(c: Cell): Text {
    match c
    case Null => Points("null")
    case Integer(n) => Signed(n)
    case Real(repr, _) => repr
    case Str(s) => Quoted(s)
    case Blob => []
  }

  lemma EncodedOne(c: CodePoint)
    ensures Encoded([c]) == Utf8(c)
  {
    assert [c][..0] == [];
  }

  lemma {:induction false} AsciiBytes(t: Text)
    requires forall i | 0 <= i < |t| :: t[i] < 0x80
    ensures |Encoded(t)| == |t|
  {
    if t != [] { AsciiBytes(t[..|t| - 1]); }
  }

  lemma EscapeBytes(c: CodePoint)
    ensures |Encoded(Escape(c))| == CharBytes(c)
  {
    if Escape(c) == [c] {
      EncodedOne(c);
    } else {
      AsciiBytes(Escape(c));
    }
  }

  lemma {:induction false} TextSize(s: Text)
    ensures |Encoded(Escapes(s))| == TextBytes(s)
  {
    hide Escape, CharBytes;
    if s != [] {
      TextSize(s[..|s| - 1]);
      EscapeBytes(s[|s| - 1]);
      EncodedConcat(Escapes(s[..|s| - 1]), Escape(s[|s| - 1]));
    }
  }

  lemma QuotedSize(s: Text)
    ensures |Encoded(Quoted(s))| == 2 + TextBytes(s)
  {
    hide Encoded, Escapes;
    TextSize(s);
    EncodedOne(QUOTE);
    EncodedConcat([QUOTE], Escapes(s));
    EncodedConcat([QUOTE] + Escapes(s), [QUOTE]);
  }

  lemma {:induction false} DecimalSize(n: nat)
    ensures |Decimal(n)| == Digits(n)
  {
    if n >= 10 { DecimalSize(n / 10); }
  }

  /** The bytes of a cell's JSON are as many as are counted for it. */
  lemma CellSize(c: Cell)
    requires Storable(c)
    ensures |Encoded(JsonCell(c))| == CellBytes(c)
  {
    hide Encoded, Signed, Quoted, Digits, TextBytes;
    match c
    case Null => AsciiBytes(Points("null"));
    case Integer(n) => SignedSize(n);
    case Real(repr, _) => AsciiBytes(repr);
    case Str(s) => QuotedSize(s);
    case Blob => NoBytes();
  }

  lemma SignedSize(n: int)
    ensures |Encoded(Signed(n))| == if n < 0 then 1 + Digits(-n) else Digits(n)
  {
    hide Encoded, Digits, Decimal;
    var m := if n < 0 then -n else n;
    DecimalSize(m);
    DecimalValue(m);
    AsciiBytes(Signed(n));
  }

  lemma ShownStorable(c: Cell)
    requires Storable(c)
    ensures Storable(Shown(c))
  {}

  // ---- Rows and pages ----

  /** A row as read: one cell per column. */
  type Row = seq<Cell>

  /** The names of the columns. */
  type Columns = seq<Text>

  /** The members `"column": value`, each with its separator. */
  function MemberBytes(columns: Columns, row: Row): nat
    requires |columns| == |row|
  {
    if row == [] then 0
    else var k := |row| - 1; MemberBytes(columns[..k], row[..k]) + (|columns[k]| + 2) + 2 + CellBytes(Shown(row[k])) + 2
  }

  /** The names in `_truncated_fields`, each with its separator. */
  function TruncatedBytes(columns: Columns, row: Row): nat
    requires |columns| == |row|
  {
    if row == [] then 0
    else var k := |row| - 1; TruncatedBytes(columns[..k], row[..k]) + if Cut(row[k]) then |columns[k]| + 2 + 2 else 0
  }

  /** A row's JSON: braces and members without the last separator, and
      `"_truncated_fields": [...]` when a cell was cut. */
  function RowBytes(columns: Columns, row: Row): nat
    requires |columns| == |row|
  {
    var cut := TruncatedBytes(columns, row);
    MemberBytes(columns, row) + if cut > 0 then 23 + cut else 0
  }

  // ---- The JSON of a row ----

  function Member(column: Text, c: Cell): Text { Quoted(column) + Points(": ") + JsonCell(Shown(c)) }

  function Members(columns: Columns, row: Row): seq<Text>
    requires |columns| == |row|
  {
    seq(|row|, k requires 0 <= k < |row| => Member(columns[k], row[k]))
  }

  function TruncatedNames(columns: Columns, row: Row): seq<Text>
    requires |columns| == |row|
  {
    if row == [] then []
    else
      var k := |row| - 1;
      TruncatedNames(columns[..k], row[..k]) + if Cut(row[k]) then [Quoted(columns[k])] else []
  }

  /** The row as an object: its members in order, and last the names of its cut
      fields, if it has any. */
  function JsonRow(columns: Columns, row: Row): Text
    requires |columns| == |row|
  {
    var cut := TruncatedNames(columns, row);
    Points("{") +
    Joined(Members(columns, row) + if cut == [] then [] else
             [Points("\"_truncated_fields\": [") + Joined(cut) + Points("]")]) +
    Points("}")
  }

  /** The bytes of the parts, with two more for each separator. */
  function PartsBytes(parts: seq<Text>): nat {
    if parts == [] then 0 else PartsBytes(parts[..|parts| - 1]) + |Encoded(parts[|parts| - 1])| + 2
  }

  lemma {:induction false} JoinedSize(parts: seq<Text>)
    ensures parts != [] ==> |Encoded(Joined(parts))| + 2 == PartsBytes(parts)
    ensures parts == [] ==> Encoded(Joined(parts)) == []
  {
    hide Encoded;
    if parts == [] {
      NoBytes();
    } else if |parts| == 1 {
      assert parts[..0] == [];
    } else {
      var (before, last) := (parts[..|parts| - 1], parts[|parts| - 1]);
      JoinedSize(before);
      EncodedConcat(Joined(before), Points(", "));
      EncodedConcat(Joined(before) + Points(", "), last);
      AsciiBytes(Points(", "));
    }
  }

  lemma NoBytes()
    ensures Encoded([]) == []
  {}

  lemma PartsConcat(p: seq<Text>, t: Text)
    ensures PartsBytes(p + [t]) == PartsBytes(p) + |Encoded(t)| + 2
  {
    assert (p + [t])[..|p|] == p;
  }

  lemma NameSize(name: Text)
    requires Identifier(name)
    ensures |Encoded(Quoted(name))| == |name| + 2
  {
    QuotedSize(name);
    NameBytes(name);
  }

  lemma {:induction false} NameBytes(name: Text)
    requires forall i | 0 <= i < |name| :: Letter(name[i]) || Digit(name[i]) || name[i] == '_' as int
    ensures TextBytes(name) == |name|
  {
    if name != [] { NameBytes(name[..|name| - 1]); }
  }

  lemma MemberSize(column: Text, c: Cell)
    requires Identifier(column) && Storable(c)
    ensures |Encoded(Member(column, c))| == (|column| + 2) + 2 + CellBytes(Shown(c))
  {
    hide Encoded, Identifier, Storable, Shown, CellBytes, JsonCell, Quoted;
    NameSize(column);
    ShownStorable(c);
    CellSize(Shown(c));
    AsciiBytes(Points(": "));
    EncodedConcat(Quoted(column), Points(": "));
    EncodedConcat(Quoted(column) + Points(": "), JsonCell(Shown(c)));
  }

  lemma {:induction false} MembersSize(columns: Columns, row: Row)
    requires |columns| == |row| && (forall k | 0 <= k < |columns| :: Identifier(columns[k])) &&
             forall k | 0 <= k < |row| :: Storable(row[k])
    ensures PartsBytes(Members(columns, row)) == MemberBytes(columns, row)
    ensures PartsBytes(TruncatedNames(columns, row)) == TruncatedBytes(columns, row)
  {
    hide Encoded, Identifier, Storable, Member, Shown, CellBytes, Cut, Quoted;
    if row != [] {
      var k := |row| - 1;
      MembersSize(columns[..k], row[..k]);
      MemberSize(columns[k], row[k]);
      assert Members(columns, row) == Members(columns[..k], row[..k]) + [Member(columns[k], row[k])];
      PartsConcat(Members(columns[..k], row[..k]), Member(columns[k], row[k]));
      NameSize(columns[k]);
      var cut := TruncatedNames(columns[..k], row[..k]);
      PartsConcat(cut, Quoted(columns[k]));
      assert cut + [] == cut;
    }
  }

  /** The bytes of a row's JSON are as many as are counted for it. */
  lemma RowSize(columns: Columns, row: Row)
    requires Supported(columns) && |columns| == |row| && forall k | 0 <= k < |row| :: Storable(row[k])
    ensures |Encoded(JsonRow(columns, row))| == RowBytes(columns, row)
  {
    hide Encoded, Identifier, Storable, Members, TruncatedNames, MemberBytes, TruncatedBytes, PartsBytes, Joined;
    var (members, cut) := (Members(columns, row), TruncatedNames(columns, row));
    MembersSize(columns, row);
    MembersLength(columns, row);
    JoinedSize(members);
    JoinedSize(cut);
    PartsNone(cut);
    AsciiBytes(Points("{"));
    AsciiBytes(Points("}"));
    AsciiBytes(Points("]"));
    var title := Points("\"_truncated_fields\": [");
    AsciiBytes(title);
    assert |title| == 22;
    var fields := title + Joined(cut) + Points("]");
    EncodedConcat(title, Joined(cut));
    EncodedConcat(title + Joined(cut), Points("]"));
    PartsConcat(members, fields);
    JoinedSize(members + [fields]);
    var parts := if cut == [] then members else members + [fields];
    assert cut == [] ==> members + [] == members;
    EncodedConcat(Points("{"), Joined(parts));
    EncodedConcat(Points("{") + Joined(parts), Points("}"));
  }

  lemma MembersLength(columns: Columns, row: Row)
    requires |columns| == |row|
    ensures |Members(columns, row)| == |row|
  {}

  lemma PartsNone(parts: seq<Text>)
    ensures PartsBytes(parts) > 0 <==> parts != []
  {}

  /** An identifier: a letter or `_`, then letters, digits and `_`, 64 at most. */
  ghost predicate Identifier(name: Text) {
    0 < |name| <= 64 && !Digit(name[0]) &&
    forall i | 0 <= i < |name| :: Letter(name[i]) || Digit(name[i]) || name[i] == '_' as int
  }

  ghost predicate Letter(c: CodePoint) { 'A' as int <= c <= 'Z' as int || 'a' as int <= c <= 'z' as int }

  ghost predicate Digit(c: CodePoint) { '0' as int <= c <= '9' as int }

  ghost predicate Supported(columns: Columns) {
    0 < |columns| <= 32 && forall k | 0 <= k < |columns| :: Identifier(columns[k])
  }

  lemma {:induction false} FieldsBound(columns: Columns, row: Row)
    requires |columns| == |row| && (forall k | 0 <= k < |columns| :: |columns[k]| <= 64) &&
             forall k | 0 <= k < |row| :: Storable(row[k])
    ensures MemberBytes(columns, row) + TruncatedBytes(columns, row) <= |row| * 6300
  {
    hide Storable, Shown, CellBytes, Cut;
    if row != [] {
      var k := |row| - 1;
      FieldsBound(columns[..k], row[..k]);
      CellBound(row[k]);
    }
  }

  /** One row alone never reaches the trimming limit. */
  lemma RowFits(columns: Columns, row: Row)
    requires Supported(columns) && |columns| == |row| && forall k | 0 <= k < |row| :: Storable(row[k])
    ensures RowBytes(columns, row) + 2 <= TRIM_LIMIT
  {
    hide Storable, MemberBytes, TruncatedBytes;
    FieldsBound(columns, row);
  }

  /** The table as this page's query sees it: its rows by id, and which ids match
      the search, fixed for the database. */
  datatype Listing = Listing(columns: Columns, rows: map<int, Row>, matching: set<int>) {
    ghost predicate Valid() {
      Supported(columns) && matching <= rows.Keys &&
      forall id | id in rows :: |rows[id]| == |columns| && forall k | 0 <= k < |columns| :: Storable(rows[id][k])
    }

    ghost function After(id: int): set<int> { set x | x in matching && x > id }
  }

  function BytesAt(t: Listing, id: int): nat {
    if id in t.rows && |t.rows[id]| == |t.columns| then RowBytes(t.columns, t.rows[id]) else 0
  }

  /** `[row, row, ...]` */
  function PageBytes(t: Listing, ids: seq<int>): nat {
    if ids == [] then 2
    else if |ids| == 1 then 2 + BytesAt(t, ids[0])
    else PageBytes(t, ids[..|ids| - 1]) + 2 + BytesAt(t, ids[|ids| - 1])
  }

  /** The page as a list of rows. */
  function JsonPage(t: Listing, ids: seq<int>): Text {
    Points("[") + Joined(JsonRows(t, ids)) + Points("]")
  }

  function JsonRows(t: Listing, ids: seq<int>): seq<Text> {
    seq(|ids|, i requires 0 <= i < |ids| => JsonAt(t, ids[i]))
  }

  function JsonAt(t: Listing, id: int): Text {
    if id in t.rows && |t.rows[id]| == |t.columns| then JsonRow(t.columns, t.rows[id]) else []
  }

  /** The bytes of a page's JSON are as many as are counted for it. */
  lemma PageSize(t: Listing, ids: seq<int>)
    requires t.Valid()
    ensures |Encoded(JsonPage(t, ids))| == PageBytes(t, ids)
  {
    hide Encoded, Joined, PageBytes, Listing.Valid, PartsBytes;
    RowsSize(t, ids);
    RowsLength(t, ids);
    JoinedSize(JsonRows(t, ids));
    AsciiBytes(Points("["));
    AsciiBytes(Points("]"));
    EncodedConcat(Points("["), Joined(JsonRows(t, ids)));
    EncodedConcat(Points("[") + Joined(JsonRows(t, ids)), Points("]"));
  }

  lemma RowsLength(t: Listing, ids: seq<int>)
    ensures |JsonRows(t, ids)| == |ids|
  {}

  lemma {:induction false} RowsSize(t: Listing, ids: seq<int>)
    requires t.Valid()
    ensures if ids == [] then PartsBytes(JsonRows(t, ids)) == 0 && PageBytes(t, ids) == 2
            else PartsBytes(JsonRows(t, ids)) == PageBytes(t, ids)
  {
    hide Encoded, JsonAt, BytesAt;
    if ids != [] {
      var (before, id) := (ids[..|ids| - 1], ids[|ids| - 1]);
      RowsSize(t, before);
      OneRowSize(t, id);
      assert JsonRows(t, ids) == JsonRows(t, before) + [JsonAt(t, id)];
      PartsConcat(JsonRows(t, before), JsonAt(t, id));
      if |ids| == 1 { assert before == []; }
    }
  }

  lemma OneRowSize(t: Listing, id: int)
    requires t.Valid()
    ensures |Encoded(JsonAt(t, id))| == BytesAt(t, id)
  {
    hide Storable, JsonRow, RowBytes;
    NoBytes();
    if id in t.rows { RowSize(t.columns, t.rows[id]); }
  }

  datatype Page = Page(ids: seq<int>, nextAfter: Option<int>)

  /** A page: the next matching ids in order, none skipped; a continuation exactly
      when ids are left, pointing at the last one shown. */
  ghost predicate IsPage(t: Listing, after: int, page: Page) {
    var all := Ascend(t.After(after));
    |page.ids| <= 25 && page.ids <= all && (page.ids == [] ==> all == []) &&
    page.nextAfter == if |page.ids| < |all| then Some(page.ids[|page.ids| - 1]) else None
  }

  /** No page could be longer: it has 25 rows, or all there are, or one more row
      would be too long. */
  ghost predicate Full(t: Listing, all: seq<int>, n: nat) {
    n == 25 || n == |all| || (n < |all| && |Encoded(JsonPage(t, all[..n + 1]))| > 800_000)
  }

  /** The entity listing: up to 25 rows of `id > after`, trimmed while their JSON
      is too long. */
  method Entities(t: Listing, after: nat) returns (page: Page)
    requires t.Valid()
    ensures IsPage(t, after, page)
    ensures |Encoded(JsonPage(t, page.ids))| <= 800_000
    ensures Full(t, Ascend(t.After(after)), |page.ids|)
  {
    hide PageBytes, Supported, JsonPage, Encoded, Identifier, Storable;
    var found := Where(t.matching, after);
    var all := SortedIds(found);
    var rows := if |all| > PAGE_LIMIT + 1 then all[..PAGE_LIMIT + 1] else all;
    var visible := if |rows| > PAGE_LIMIT then rows[..PAGE_LIMIT] else rows;
    var more := |rows| > PAGE_LIMIT;
    while visible != [] && PageBytes(t, visible) > TRIM_LIMIT
      invariant visible <= all && |visible| <= PAGE_LIMIT
      invariant more <==> |visible| < |all|
      invariant visible == [] ==> all == []
      invariant Full(t, all, |visible|)
      decreases |visible|
    {
      OneRowFits(t, visible);
      assert visible == all[..|visible|];
      PageSize(t, visible);
      visible := visible[..|visible| - 1];
      more := true;
    }
    EmptyFits(t);
    PageSize(t, visible);
    return Page(visible, if more && visible != [] then Some(visible[|visible| - 1]) else None);
  }

  lemma EmptyFits(t: Listing)
    ensures PageBytes(t, []) <= TRIM_LIMIT
  {}

  /** A page that is too long has a second row. */
  lemma OneRowFits(t: Listing, ids: seq<int>)
    requires t.Valid() && ids != [] && PageBytes(t, ids) > TRIM_LIMIT
    ensures |ids| >= 2
  {
    hide RowBytes, Storable;
    var id := ids[0];
    if id in t.rows { RowFits(t.columns, t.rows[id]); }
  }

  method Where(matching: set<int>, after: int) returns (found: set<int>)
    ensures found == set x | x in matching && x > after
  {
    found := set x | x in matching && x > after;
  }

  /** Following `next_after` from 0 to the end terminates and lists every matching
      row with a positive id, once, in id order. */
  method FollowPages(t: Listing) returns (listed: seq<int>, pages: nat)
    requires t.Valid()
    ensures listed == Ascend(t.After(0))
    ensures pages <= |listed| + 1
  {
    hide Listing.Valid, PageBytes, Ascend, IsPage;
    listed, pages := [], 0;
    var after: nat := 0;
    while true
      invariant listed + Ascend(t.After(after)) == Ascend(t.After(0))
      invariant pages <= |listed|
      decreases |Ascend(t.After(after))|
    {
      var page := Entities(t, after);
      PageStep(t, after, page);
      pages := pages + 1;
      ghost var before := listed;
      listed := listed + page.ids;
      if page.nextAfter.None? { return; }
      assert before + (page.ids + Ascend(t.After(page.nextAfter.value))) ==
             listed + Ascend(t.After(page.nextAfter.value));
      after := page.nextAfter.value;
    }
  }

  /** A page and what its continuation lists are what there was to list. */
  lemma PageStep(t: Listing, after: nat, page: Page)
    requires IsPage(t, after, page)
    ensures page.nextAfter.None? ==> page.ids == Ascend(t.After(after))
    ensures page.nextAfter.Some? ==>
              page.ids != [] && page.nextAfter.value > after &&
              page.ids + Ascend(t.After(page.nextAfter.value)) == Ascend(t.After(after))
  {
    hide Ascend, Listing.After;
    var all := Ascend(t.After(after));
    if page.nextAfter.Some? {
      RestAfter(t, after, |page.ids|);
      assert all[..|page.ids|] == page.ids;
      assert all == all[..|page.ids|] + all[|page.ids|..];
    }
  }

  /** What comes after the last id shown is the rest of the list. */
  lemma RestAfter(t: Listing, after: nat, n: nat)
    requires 0 < n <= |Ascend(t.After(after))|
    ensures var all := Ascend(t.After(after)); all[n - 1] > after && Ascend(t.After(all[n - 1])) == all[n..]
  {
    hide Ascend;
    var all := Ascend(t.After(after));
    assert all[n - 1] in all;
    forall x ensures x in all[n..] <==> x in t.After(all[n - 1]) {
      if x in all[n..] {
        var i :| 0 <= i < |all[n..]| && all[n..][i] == x;
        assert x == all[n + i] && x in all;
      }
      if x in t.After(all[n - 1]) {
        assert x in all;
        var i :| 0 <= i < |all| && all[i] == x;
        assert all[n..][i - n] == x;
      }
    }
    IncreasingUnique(all[n..], Ascend(t.After(all[n - 1])));
  }
}
