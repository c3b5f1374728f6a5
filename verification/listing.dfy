/** The listing-table side of `src/main.py`: `MyrientTableRow` with its
    `link`, `title` and `file_name` properties, and
    `MyrientPlaystation3Parser.parse_content`.

    HTML parsing is not modelled: a document is given already structured as
    the optional `table#list` element, its rows, their cells and the anchor
    each cell holds.
 */
module Listing {

  import opened Errors
  import opened Text

  /** An attribute value: BeautifulSoup gives a string, or a list of
      strings for multi-valued attributes. */
  datatype AttrValue = Single(text: string) | Multi(items: seq<string>)

  /** The first `<a>` inside a cell, reduced to its attributes. */
  datatype Anchor = Anchor(attrs: map<string, AttrValue>)

  /** A `<td>`: its class list and its first `<a>`, if any. */
  datatype Cell = Cell(classes: seq<string>, anchor: Option<Anchor>)

  /** A `<tr>` with its `<td>` cells in document order. */
  datatype Row = Row(cells: seq<Cell>)

  datatype Table = Table(rows: seq<Row>)

  /** A fetched listing page: the `table` with id `list`, when there is one. */
  datatype Document = Document(listTable: Option<Table>)

  const NoLinkCell := "Could not find link tag in table row."
  const NoCells := "Could not find table data cells in table row."
  const NoAnchor := "Could not find a tag in table data cell."
  // `title` reuses the message of `link`
  const NoAttribute := "Could not obtain href from table data cell."
  const NoTable := "Could not find table in provided content."
  const ListIndexOutOfRange := "list index out of range"

  /** `find("td", attrs={"class": "link"})` matches a cell one of whose
      classes is `link`. */
  predicate IsLinkCell(c: Cell) {
    "link" in c.classes
  }

  /** The position of the first link cell, or `|cells|` when there is none. */
  function LinkCellIndex(cells: seq<Cell>): (i: nat)
    ensures i <= |cells|
    ensures forall j :: 0 <= j < i ==> !IsLinkCell(cells[j])
    ensures i < |cells| ==> IsLinkCell(cells[i])
  {
    if |cells| == 0 then 0
    else if IsLinkCell(cells[0]) then 0
    else 1 + LinkCellIndex(cells[1..])
  }

  /** Only one position holds the first link cell. */
  lemma FirstLinkCellIsIndex(cells: seq<Cell>)
    ensures forall i ::
      (0 <= i < |cells| && IsLinkCell(cells[i])
       && forall j :: 0 <= j < i ==> !IsLinkCell(cells[j])) ==> i == LinkCellIndex(cells)
  {
  }

  /** `tag.get(name)`, then the first element when the value is a list. */
  function AttributeText(a: Anchor, name: string): (r: Result<string>)
    ensures name !in a.attrs ==> r == Err(RuntimeError(NoAttribute))
    ensures r.Ok? <==> name in a.attrs && (a.attrs[name].Single? || |a.attrs[name].items| > 0)
    ensures r.Ok? && a.attrs[name].Single? ==> r.value == a.attrs[name].text
    ensures r.Ok? && a.attrs[name].Multi? ==> r.value == a.attrs[name].items[0]
    ensures r.Err? && name in a.attrs ==> r.error == IndexError(ListIndexOutOfRange)
  {
    if name !in a.attrs then Err(RuntimeError(NoAttribute))
    else match a.attrs[name]
      case Single(text) => Ok(text)
      case Multi(items) => if |items| == 0 then Err(IndexError(ListIndexOutOfRange)) else Ok(items[0])
  }

  /** `MyrientTableRow.link`: the `href` of the anchor in the first cell
      classed `link`. */
  function Link(row: Row): (r: Result<string>)
    ensures (forall j :: 0 <= j < |row.cells| ==> !IsLinkCell(row.cells[j])) ==>
      r == Err(RuntimeError(NoLinkCell))
    ensures forall i ::
      (0 <= i < |row.cells| && IsLinkCell(row.cells[i])
       && forall j :: 0 <= j < i ==> !IsLinkCell(row.cells[j])) ==>
      if row.cells[i].anchor.None? then r == Err(RuntimeError(NoAnchor))
      else r == AttributeText(row.cells[i].anchor.value, "href")
    ensures r.Ok? ==>
      exists i :: 0 <= i < |row.cells| && IsLinkCell(row.cells[i])
        && (forall j :: 0 <= j < i ==> !IsLinkCell(row.cells[j]))
        && row.cells[i].anchor.Some?
        && AttributeText(row.cells[i].anchor.value, "href") == Ok(r.value)
  {
    var i := LinkCellIndex(row.cells);
    FirstLinkCellIsIndex(row.cells);
    if i == |row.cells| then Err(RuntimeError(NoLinkCell))
    else match row.cells[i].anchor
      case None => Err(RuntimeError(NoAnchor))
      case Some(a) => AttributeText(a, "href")
  }

  /** `MyrientTableRow.title`: the `title` of the anchor in the first cell. */
  function Title(row: Row): (r: Result<string>)
    ensures |row.cells| == 0 ==> r == Err(RuntimeError(NoCells))
    ensures |row.cells| > 0 && row.cells[0].anchor.None? ==> r == Err(RuntimeError(NoAnchor))
    ensures |row.cells| > 0 && row.cells[0].anchor.Some? ==>
      r == AttributeText(row.cells[0].anchor.value, "title")
    ensures r.Ok? ==>
      |row.cells| > 0 && row.cells[0].anchor.Some?
      && AttributeText(row.cells[0].anchor.value, "title") == Ok(r.value)
  {
    if |row.cells| == 0 then Err(RuntimeError(NoCells))
    else match row.cells[0].anchor
      case None => Err(RuntimeError(NoAnchor))
      case Some(a) => AttributeText(a, "title")
  }

  /** The shape of a Myrient listing row: one `td.link` cell whose anchor
      carries both the title and the link. */
  function ListingRow(title: string, href: string): Row {
    Row([Cell(["link"], Some(Anchor(map["title" := Single(title), "href" := Single(href)])))])
  }

  /** Both properties read back what such a row was built from, and cells
      in front of the link cell change the title but not the link. */
  lemma ListingRowRoundTrip(title: string, href: string, front: Cell)
    requires !IsLinkCell(front) && front.anchor.None?
    ensures Title(ListingRow(title, href)) == Ok(title)
    ensures Link(ListingRow(title, href)) == Ok(href)
    ensures Link(Row([front] + ListingRow(title, href).cells)) == Ok(href)
    ensures Title(Row([front] + ListingRow(title, href).cells)) == Err(RuntimeError(NoAnchor))
  {
    var cells := [front] + ListingRow(title, href).cells;
    assert cells[1..] == ListingRow(title, href).cells;
    assert LinkCellIndex(cells) == 1;
  }

  // ---------------------------------------------------------------------
  // file_name: unquote, delete [^\w\s-], replace ' ' by '_'

  predicate IsHexDigit(c: char) {
    '0' <= c <= '9' || 'a' <= c <= 'f' || 'A' <= c <= 'F'
  }

  /** The lower-case hexadecimal digit of a value below 16. */
  function HexDigitChar(v: nat): (c: char)
    requires v < 16
    ensures IsHexDigit(c) && !IsUpper(c)
  {
    if v < 10 then ('0' as int + v) as char else ('a' as int + v - 10) as char
  }

  /** The value of a hexadecimal digit, in either case: the digit is the
      one that spells the value, up to case. */
  function HexValue(c: char): (v: nat)
    requires IsHexDigit(c)
    ensures v < 16
    ensures HexDigitChar(v) == LowerChar(c)
  {
    if '0' <= c <= '9' then c as int - '0' as int
    else if 'a' <= c <= 'f' then c as int - 'a' as int + 10
    else c as int - 'A' as int + 10
  }

  lemma HexDigitRoundTrip(v: nat)
    requires v < 16
    ensures HexValue(HexDigitChar(v)) == v
  {
  }

  /** The character a percent-escaped byte decodes to. ASCII bytes decode to
      themselves; the model gives every other byte the replacement
      character. */
  function DecodeByte(b: nat): char
    requires b < 256
  {
    if b < 128 then b as char else '\U{FFFD}'
  }

  /** `urllib.parse.unquote`: each `%` followed by two hex digits is replaced
      by the byte they spell (percent-decoding, section 2.1 of RFC 3986);
      any other `%` stays as it is. Decoded characters are not re-scanned. */
  function Unquote(s: string): (r: string)
    ensures |r| <= |s|
  {
    if |s| == 0 then []
    else if |s| >= 3 && s[0] == '%' && IsHexDigit(s[1]) && IsHexDigit(s[2]) then
      [DecodeByte(HexValue(s[1]) * 16 + HexValue(s[2]))] + Unquote(s[3..])
    else
      [s[0]] + Unquote(s[1..])
  }

  /** The characters `re.sub(r"[^\w\s-]", "", ...)` keeps. */
  predicate Kept(c: char) {
    IsWordChar(c) || IsSpace(c) || c == '-'
  }

  function DeleteDisallowed(s: string): (r: string)
    ensures forall c :: c in r <==> c in s && Kept(c)
    ensures (forall c :: c in s ==> Kept(c)) ==> r == s
  {
    if |s| == 0 then []
    else
      assert forall c :: c in s <==> c == s[0] || c in s[1..] by {
        assert s == [s[0]] + s[1..];
      }
      (if Kept(s[0]) then [s[0]] else []) + DeleteDisallowed(s[1..])
  }

  /** The deletion works character by character: it distributes over
      concatenation, so the kept characters stay in order and keep their
      multiplicity. */
  lemma {:induction false} DeleteDisallowedAppend(a: string, b: string)
    ensures DeleteDisallowed(a + b) == DeleteDisallowed(a) + DeleteDisallowed(b)
    decreases |a|
  {
    if |a| == 0 {
      assert a + b == b;
    } else {
      assert (a + b)[0] == a[0];
      assert (a + b)[1..] == a[1..] + b;
      DeleteDisallowedAppend(a[1..], b);
    }
  }

  lemma DeleteDisallowedChar(c: char)
    ensures DeleteDisallowed([c]) == if Kept(c) then [c] else []
  {
    assert [c][1..] == [];
  }

  function ReplaceSpaces(s: string): (r: string)
    ensures |r| == |s|
    ensures forall i :: 0 <= i < |s| ==> r[i] == if s[i] == ' ' then '_' else s[i]
  {
    if |s| == 0 then [] else [if s[0] == ' ' then '_' else s[0]] + ReplaceSpaces(s[1..])
  }

  /** The characters a derived file name may hold: word characters, the
      hyphen, and whitespace other than the space. */
  predicate FileNameChar(c: char) {
    IsWordChar(c) || c == '-' || (IsSpace(c) && c != ' ')
  }

  /** The transform of `MyrientTableRow.file_name` applied to a link. */
  function FileNameOf(link: string): (r: string)
    ensures forall c :: c in r ==> FileNameChar(c)
    ensures ' ' !in r && '%' !in r && '/' !in r && '.' !in r
  {
    var kept := DeleteDisallowed(Unquote(link));
    var r := ReplaceSpaces(kept);
    assert forall i :: 0 <= i < |r| ==> FileNameChar(r[i]) by {
      forall i | 0 <= i < |r|
        ensures FileNameChar(r[i])
      {
        assert kept[i] in kept;
      }
    }
    r
  }

  /** `MyrientTableRow.file_name`: fails exactly when `link` does. */
  function FileName(row: Row): (r: Result<string>)
    ensures r.Err? <==> Link(row).Err?
    ensures r.Err? ==> r.error == Link(row).error
    ensures r.Ok? ==> forall c :: c in r.value ==> FileNameChar(c)
    ensures Link(row).Ok? ==> r == Ok(FileNameOf(Link(row).value))
  {
    var link :- Link(row);
    Ok(FileNameOf(link))
  }

  /** Deriving a file name from a derived file name changes nothing: no `%`
      is left to decode, no character to delete, no space to replace. */
  lemma FileNameIdempotent(link: string)
    ensures FileNameOf(FileNameOf(link)) == FileNameOf(link)
  {
    var f := FileNameOf(link);
    assert forall i :: 0 <= i < |f| ==> f[i] != '%' by {
      assert forall i :: 0 <= i < |f| ==> f[i] in f;
    }
    UnquoteWithoutEscapes(f);
    assert DeleteDisallowed(f) == f;
    assert ReplaceSpaces(f) == f;
  }

  /** A link without escapes or punctuation other than hyphens only has its
      spaces replaced. */
  lemma FileNameOfPlainLink(link: string)
    requires forall c :: c in link ==> IsWordChar(c) || c == ' ' || c == '-'
    ensures FileNameOf(link) == ReplaceSpaces(link)
  {
    assert forall i :: 0 <= i < |link| ==> link[i] != '%' by {
      assert forall i :: 0 <= i < |link| ==> link[i] in link;
    }
    UnquoteWithoutEscapes(link);
  }

  lemma UnquoteCons(c: char, t: string)
    requires c != '%'
    ensures Unquote([c] + t) == [c] + Unquote(t)
  {
    assert ([c] + t)[0] == c;
    assert ([c] + t)[1..] == t;
  }

  lemma {:induction false} UnquotePlainPrefix(a: string, rest: string)
    requires forall i :: 0 <= i < |a| ==> a[i] != '%'
    ensures Unquote(a + rest) == a + Unquote(rest)
    decreases |a|
  {
    if |a| == 0 {
      assert a + rest == rest;
    } else {
      var tail := a[1..];
      assert a + rest == [a[0]] + (tail + rest);
      UnquoteCons(a[0], tail + rest);
      UnquotePlainPrefix(tail, rest);
      assert a == [a[0]] + tail;
    }
  }

  /** Text without `%` is returned unchanged. */
  lemma UnquoteWithoutEscapes(s: string)
    requires forall i :: 0 <= i < |s| ==> s[i] != '%'
    ensures Unquote(s) == s
  {
    UnquotePlainPrefix(s, []);
    assert s + [] == s;
  }

  lemma UnquoteEscape(hi: char, lo: char, t: string)
    requires IsHexDigit(hi) && IsHexDigit(lo)
    ensures Unquote(['%', hi, lo] + t) == [DecodeByte(HexValue(hi) * 16 + HexValue(lo))] + Unquote(t)
  {
    var e := ['%', hi, lo] + t;
    assert e[0] == '%' && e[1] == hi && e[2] == lo;
    assert e[3..] == t;
  }

  lemma UnquoteEscapedSpace(b: string)
    requires forall i :: 0 <= i < |b| ==> b[i] != '%'
    ensures Unquote("%20" + b) == " " + b
  {
    SpaceEscape();
    UnquoteWithoutEscapes(b);
    UnquoteEscape('2', '0', b);
    assert "%20" + b == ['%', '2', '0'] + b;
  }

  /** "%20" spells the space. */
  lemma SpaceEscape()
    ensures IsHexDigit('2') && IsHexDigit('0')
    ensures DecodeByte(HexValue('2') * 16 + HexValue('0')) == ' '
  {
    assert HexValue('2') == 2 && HexValue('0') == 0;
  }

  /** Percent-encoding of the two characters a listing link escapes, `%`
      and the space; every other character is kept. */
  function Quote(s: string): string {
    if |s| == 0 then []
    else if s[0] == '%' || s[0] == ' ' then
      ['%', HexDigitChar(s[0] as int / 16), HexDigitChar(s[0] as int % 16)] + Quote(s[1..])
    else [s[0]] + Quote(s[1..])
  }

  /** `unquote` undoes that encoding, for every string. */
  lemma {:induction false} UnquoteQuote(s: string)
    ensures Unquote(Quote(s)) == s
    decreases |s|
  {
    if |s| > 0 {
      var t := Quote(s[1..]);
      UnquoteQuote(s[1..]);
      if s[0] == '%' || s[0] == ' ' {
        var hi := HexDigitChar(s[0] as int / 16);
        var lo := HexDigitChar(s[0] as int % 16);
        HexDigitRoundTrip(s[0] as int / 16);
        HexDigitRoundTrip(s[0] as int % 16);
        UnquoteEscape(hi, lo, t);
        assert DecodeByte(HexValue(hi) * 16 + HexValue(lo)) == s[0];
      } else {
        UnquoteCons(s[0], t);
      }
      assert s == [s[0]] + s[1..];
    }
  }

  lemma ReplaceSpacesJoin(a: string, b: string)
    requires ' ' !in a && ' ' !in b
    ensures ReplaceSpaces(a + " " + b) == a + "_" + b
  {
    var u := a + " " + b;
    var w := a + "_" + b;
    forall i | 0 <= i < |w|
      ensures ReplaceSpaces(u)[i] == w[i]
    {
      if i < |a| {
        assert u[i] == a[i] && a[i] in a;
      } else if i > |a| {
        assert u[i] == b[i - |a| - 1] && b[i - |a| - 1] in b;
      }
    }
  }

  /** An escaped space between two plain names becomes an underscore. */
  lemma FileNameOfEscapedSpace(a: string, b: string)
    requires forall c :: c in a ==> IsWordChar(c) || c == '-'
    requires forall c :: c in b ==> IsWordChar(c) || c == '-'
    ensures FileNameOf(a + "%20" + b) == a + "_" + b
  {
    var link := a + "%20" + b;
    var u := a + " " + b;
    assert forall i :: 0 <= i < |a| ==> a[i] in a;
    assert forall i :: 0 <= i < |b| ==> b[i] in b;
    assert link == a + ("%20" + b);
    UnquotePlainPrefix(a, "%20" + b);
    UnquoteEscapedSpace(b);
    assert a + (" " + b) == u;
    assert Unquote(link) == u;
    FileNameOfDecoded(link, a, b);
  }

  lemma FileNameOfDecoded(link: string, a: string, b: string)
    requires forall c :: c in a ==> IsWordChar(c) || c == '-'
    requires forall c :: c in b ==> IsWordChar(c) || c == '-'
    requires Unquote(link) == a + " " + b
    ensures FileNameOf(link) == a + "_" + b
  {
    var u := a + " " + b;
    assert forall c :: c in u ==> c in a || c == ' ' || c in b;
    assert DeleteDisallowed(u) == u;
    ReplaceSpacesJoin(a, b);
  }

  // ---------------------------------------------------------------------
  // parse_content

  /** The `enumerate(table.find_all("tr"))` loop from position `index` on:
      positions 0 and 1 are skipped, every later row is kept. */
  function KeepFrom(rows: seq<Row>, index: nat): seq<Row> {
    if |rows| == 0 then []
    else (if index == 0 || index == 1 then [] else [rows[0]]) + KeepFrom(rows[1..], index + 1)
  }

  lemma {:induction false} KeepFromPastHeader(rows: seq<Row>, index: nat)
    requires index >= 2
    ensures KeepFrom(rows, index) == rows
    decreases |rows|
  {
    if |rows| > 0 {
      KeepFromPastHeader(rows[1..], index + 1);
    }
  }

  lemma KeepFromStart(rows: seq<Row>)
    ensures KeepFrom(rows, 0) == if |rows| >= 2 then rows[2..] else []
  {
    if |rows| >= 2 {
      KeepFromPastHeader(rows[2..], 2);
      assert rows[1..][1..] == rows[2..];
    } else if |rows| == 1 {
      assert KeepFrom(rows[1..], 1) == [];
    }
  }

  /** `MyrientPlaystation3Parser.parse_content`. */
  function ParseContent(doc: Document): (r: Result<seq<Row>>)
    ensures r.Err? <==> doc.listTable.None?
    ensures r.Err? ==> r.error == RuntimeError(NoTable)
    ensures r.Ok? ==> var rows := doc.listTable.value.rows;
      && |r.value| == (if |rows| >= 2 then |rows| - 2 else 0)
      && forall i :: 0 <= i < |r.value| ==> r.value[i] == rows[i + 2]
  {
    match doc.listTable
    case None => Err(RuntimeError(NoTable))
    case Some(table) =>
      KeepFromStart(table.rows);
      Ok(KeepFrom(table.rows, 0))
  }

  /** A table with a header row and a navigation row in front of `data`
      parses to exactly `data`. */
  lemma ParseContentDropsHeaderAndNavigation(header: Row, navigation: Row, data: seq<Row>)
    ensures ParseContent(Document(Some(Table([header, navigation] + data)))) == Ok(data)
  {
    var rows := [header, navigation] + data;
    assert rows[2..] == data;
    KeepFromStart(rows);
  }
}
