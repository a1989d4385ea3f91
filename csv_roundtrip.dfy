/** What the CSV reader makes of the file the discovery writer produces: the cells
    of every line come back trimmed, the header comes back as written, and a fresh
    discovered row comes back as the same record without its coin type. All of it
    needs cells without line breaks: the reader splits the text into lines before it
    looks at quotes, so a quoted cell holding a line feed is cut in two. */
module CsvRoundTrip {
  import opened Wrappers
  import opened Strings
  import opened Types
  import opened Collections
  import opened Provider
  import opened Io

  // ---------------------------------------------------------------------------
  // One cell, one line

  /** Inside quotes, an escaped cell reads back as the cell. */
  lemma {:induction false} ScanEscaped(v: string, tail: string, out: seq<string>, cur: string)
    ensures Scan(EscapeQuotes(v) + tail, out, cur, true) == Scan(tail, out, cur + v, true)
    decreases |v|
  {
    if v == [] {
      assert EscapeQuotes(v) + tail == tail;
      assert cur + v == cur;
    } else {
      EscapedStep(v, tail, out, cur);
      ScanEscaped(v[1..], tail, out, cur + [v[0]]);
      AppendFirst(cur, v);
    }
  }

  /** Inside quotes, the escape of a cell's first character reads back as that
      character. */
  lemma EscapedStep(v: string, tail: string, out: seq<string>, cur: string)
    requires v != []
    ensures Scan(EscapeQuotes(v) + tail, out, cur, true)
            == Scan(EscapeQuotes(v[1..]) + tail, out, cur + [v[0]], true)
  {
    var x := EscapeQuotes(v[1..]) + tail;
    assert EscapeQuotes(v) + tail == (if v[0] == '"' then "\"\"" else [v[0]]) + x;
    if v[0] == '"' {
      ScanQuotePair(x, out, cur);
      assert cur + "\"" == cur + [v[0]];
    } else {
      ScanInQuotes(v[0], x, out, cur);
    }
  }

  /** Inside quotes, a doubled quote stands for one quote. */
  lemma ScanQuotePair(x: string, out: seq<string>, cur: string)
    ensures Scan("\"\"" + x, out, cur, true) == Scan(x, out, cur + "\"", true)
  {
    assert ("\"\"" + x)[2..] == x;
  }

  /** Inside quotes, any other character, a comma too, belongs to the cell. */
  lemma ScanInQuotes(c: char, x: string, out: seq<string>, cur: string)
    requires c != '"'
    ensures Scan([c] + x, out, cur, true) == Scan(x, out, cur + [c], true)
  {
    assert ([c] + x)[1..] == x;
  }

  /** A written cell, followed by the end of the line or a comma, reads back as the
      cell. */
  lemma ScanCell(v: string, tail: string, out: seq<string>)
    requires tail == [] || tail[0] == ','
    ensures Scan(QuoteCell(v) + tail, out, "", false) == Scan(tail, out, v, false)
  {
    if NeedsQuotes(v) {
      var e := EscapeQuotes(v);
      assert QuoteCell(v) + tail == "\"" + (e + ("\"" + tail));
      assert ("\"" + (e + ("\"" + tail)))[1..] == e + ("\"" + tail);
      ScanEscaped(v, "\"" + tail, out, "");
      assert "" + v == v;
      assert ("\"" + tail)[1..] == tail;
    } else {
      ScanPlain(v, tail, out, "", false);
      assert "" + v == v;
    }
  }

  /** The cells of a written line, scanned after the cells `out`, come back as
      written. */
  lemma {:induction false} ScanLine(cells: seq<string>, out: seq<string>)
    requires |cells| >= 1
    ensures Scan(CsvLine(cells), out, "", false) == out + cells
    decreases |cells|
  {
    if |cells| == 1 {
      CsvLineSplit(cells);
      ScanCell(cells[0], [], out);
    } else {
      var rest := cells[1..];
      CsvLineSplit(cells);
      ScanCell(cells[0], "," + CsvLine(rest), out);
      DropComma(CsvLine(rest));
      ScanLine(rest, out + [cells[0]]);
      AppendFirst(out, cells);
    }
  }

  /** A line is its first cell, then a comma and the line of the other cells, if
      there are any. */
  lemma CsvLineSplit(cells: seq<string>)
    requires |cells| >= 1
    ensures |cells| == 1 ==> CsvLine(cells) == QuoteCell(cells[0]) + []
    ensures |cells| > 1 ==> CsvLine(cells) == QuoteCell(cells[0]) + ("," + CsvLine(cells[1..]))
  {
    var qs := seq(|cells|, i requires 0 <= i < |cells| => QuoteCell(cells[i]));
    if |cells| > 1 {
      var rest := cells[1..];
      assert qs[1..] == seq(|rest|, i requires 0 <= i < |rest| => QuoteCell(rest[i]));
    }
  }

  lemma DropComma(line: string)
    ensures ("," + line)[1..] == line
  {
  }

  lemma AppendFirst<T>(out: seq<T>, cells: seq<T>)
    requires cells != []
    ensures out + [cells[0]] + cells[1..] == out + cells
  {
    assert cells == [cells[0]] + cells[1..];
  }

  /** A written line parses back into its cells, trimmed. */
  lemma LineRoundTrip(cells: seq<string>)
    requires |cells| >= 1
    ensures ParseLine(CsvLine(cells)) == TrimAll(cells)
  {
    ScanLine(cells, []);
    assert [] + cells == cells;
  }

  // ---------------------------------------------------------------------------
  // The whole file

  lemma {:induction false} JoinSnoc(parts: seq<string>, x: string, sep: string)
    requires |parts| >= 1
    ensures Join(parts + [x], sep) == Join(parts, sep) + sep + x
    decreases |parts|
  {
    if |parts| > 1 {
      assert (parts + [x])[1..] == parts[1..] + [x];
      JoinSnoc(parts[1..], x, sep);
    }
  }

  lemma {:induction false} JoinNoChar(parts: seq<string>, sep: string, c: char)
    requires c !in sep
    requires forall i :: 0 <= i < |parts| ==> c !in parts[i]
    ensures c !in Join(parts, sep)
    decreases |parts|
  {
    if |parts| > 1 {
      JoinNoChar(parts[1..], sep, c);
    }
  }

  /** A line break is never introduced by the writer. */
  lemma LineNoChar(cells: seq<string>, c: char)
    requires c == '\n' || c == '\r'
    requires forall i :: 0 <= i < |cells| ==> c !in cells[i]
    ensures c !in CsvLine(cells)
  {
    var qs := seq(|cells|, i requires 0 <= i < |cells| => QuoteCell(cells[i]));
    forall i | 0 <= i < |qs| ensures c !in qs[i] {
      var e := EscapeQuotes(cells[i]);
      assert c !in e;
    }
    JoinNoChar(qs, ",", c);
  }

  /** A line of two or more cells holds a comma, so it is never blank. */
  lemma LineNotBlank(cells: seq<string>)
    requires |cells| >= 2
    ensures NotBlank(CsvLine(cells))
  {
    var qs := seq(|cells|, i requires 0 <= i < |cells| => QuoteCell(cells[i]));
    var l := CsvLine(cells);
    assert l == qs[0] + "," + Join(qs[1..], ",");
    assert l[|qs[0]|] == ',';
    assert !AllSpace(l);
  }

  /** A row whose cells hold no line feed and no carriage return. */
  predicate NoBreaks(cells: seq<string>) {
    forall i :: 0 <= i < |cells| ==> '\n' !in cells[i] && '\r' !in cells[i]
  }

  /** The column names are plain words. */
  lemma HeaderLetters()
    ensures forall i :: 0 <= i < |Header| ==> Letters(Header[i])
  {
  }

  lemma HeaderPlain()
    ensures forall i :: 0 <= i < |Header| ==> !NeedsQuotes(Header[i]) && NoEdgeSpace(Header[i])
    ensures NoBreaks(Header)
  {
    HeaderLetters();
    forall i | 0 <= i < |Header|
      ensures !NeedsQuotes(Header[i]) && NoEdgeSpace(Header[i])
      ensures '\n' !in Header[i] && '\r' !in Header[i]
    {
      LettersPlain(Header[i]);
    }
  }

  /** The header line, written as a line of cells. */
  lemma HeaderLine()
    ensures CsvLine(Header) == Join(Header, ",")
    ensures TrimAll(Header) == Header
    ensures NoBreaks(Header)
  {
    HeaderPlain();
    assert seq(|Header|, i requires 0 <= i < |Header| => QuoteCell(Header[i])) == Header;
  }

  /** Only ASCII letters. */
  predicate Letters(s: string) {
    forall j :: 0 <= j < |s| ==> 'a' <= s[j] <= 'z' || 'A' <= s[j] <= 'Z'
  }

  lemma LettersPlain(s: string)
    requires Letters(s)
    ensures !NeedsQuotes(s) && NoEdgeSpace(s) && '\n' !in s && '\r' !in s
  {
  }

  function WrittenLines(ts: seq<Token>): (lines: seq<string>)
    ensures |lines| == |ts|
  {
    seq(|ts|, i requires 0 <= i < |ts| => CsvLine(RowCells(ts[i])))
  }

  /** The pieces between line feeds of a header line `h`, the row lines, and a
      final line feed: the row lines are followed by the empty rest after the
      final line feed (one more empty piece when there are no rows). */
  function Pieces(h: string, lines: seq<string>): seq<string> {
    if lines == [] then [h, "", ""] else [h] + lines + [""]
  }

  lemma PiecesText(h: string, lines: seq<string>)
    ensures Join(Pieces(h, lines), "\n") == h + "\n" + Join(lines, "\n") + "\n"
  {
    var parts := Pieces(h, lines);
    if lines == [] {
      assert parts[1..] == ["", ""] && parts[1..][1..] == [""];
      assert Join(parts[1..], "\n") == "" + "\n" + "";
    } else {
      assert parts[1..] == lines + [""];
      JoinSnoc(lines, "", "\n");
      assert Join(parts, "\n") == h + "\n" + (Join(lines, "\n") + "\n" + "");
    }
  }

  /** The non-blank lines of such a text are the header line and the row lines,
      when none holds a line break and none is blank. */
  lemma PiecesLines(h: string, lines: seq<string>)
    requires '\n' !in h && '\r' !in h && NotBlank(h)
    requires forall i :: 0 <= i < |lines| ==> '\n' !in lines[i] && '\r' !in lines[i] && NotBlank(lines[i])
    ensures Lines(h + "\n" + Join(lines, "\n") + "\n") == [h] + lines
  {
    var parts := Pieces(h, lines);
    PiecesSplit(h, lines);
    PiecesKept(h, lines);
    PiecesNoCr(h, lines);
    DropCrNone(parts);
  }

  lemma DropCrNone(ls: seq<string>)
    requires forall i :: 0 <= i < |ls| ==> '\r' !in ls[i]
    ensures DropCrAll(ls) == ls
  {
    forall i | 0 <= i < |ls| ensures DropCr(ls[i]) == ls[i] {
      if ls[i] != [] {
        assert ls[i][|ls[i]| - 1] in ls[i];
      }
    }
  }

  lemma PiecesSplit(h: string, lines: seq<string>)
    requires '\n' !in h
    requires forall i :: 0 <= i < |lines| ==> '\n' !in lines[i]
    ensures Split(h + "\n" + Join(lines, "\n") + "\n", '\n') == Pieces(h, lines)
  {
    PiecesText(h, lines);
    SplitJoin(Pieces(h, lines), '\n');
  }

  lemma PiecesNoCr(h: string, lines: seq<string>)
    requires '\r' !in h
    requires forall i :: 0 <= i < |lines| ==> '\r' !in lines[i]
    ensures forall i :: 0 <= i < |Pieces(h, lines)| ==> '\r' !in Pieces(h, lines)[i]
  {
    var parts := Pieces(h, lines);
    forall i | 0 <= i < |parts| ensures '\r' !in parts[i] {
      if lines != [] && 0 < i < |parts| - 1 {
        assert parts[i] == lines[i - 1];
      }
    }
  }

  lemma KeptNotBlank(h: string, lines: seq<string>)
    requires NotBlank(h)
    requires forall i :: 0 <= i < |lines| ==> NotBlank(lines[i])
    ensures forall i :: 0 <= i < |[h] + lines| ==> NotBlank(([h] + lines)[i])
  {
    var kept := [h] + lines;
    forall i | 0 <= i < |kept| ensures NotBlank(kept[i]) {
      if i > 0 {
        assert kept[i] == lines[i - 1];
      }
    }
  }

  lemma PiecesKept(h: string, lines: seq<string>)
    requires NotBlank(h)
    requires forall i :: 0 <= i < |lines| ==> NotBlank(lines[i])
    ensures Filter(Pieces(h, lines), NotBlank) == [h] + lines
  {
    var kept := [h] + lines;
    var dropped := if lines == [] then ["", ""] else [""];
    assert Pieces(h, lines) == kept + dropped;
    KeptAll(h, lines);
    DroppedNone(dropped);
    FilterKeepDrop(kept, dropped, NotBlank);
  }

  lemma FilterKeepDrop<T>(kept: seq<T>, dropped: seq<T>, p: T -> bool)
    requires Filter(kept, p) == kept && Filter(dropped, p) == []
    ensures Filter(kept + dropped, p) == kept
  {
    FilterAppend(kept, dropped, p);
    assert kept + [] == kept;
  }

  lemma KeptAll(h: string, lines: seq<string>)
    requires NotBlank(h)
    requires forall i :: 0 <= i < |lines| ==> NotBlank(lines[i])
    ensures Filter([h] + lines, NotBlank) == [h] + lines
  {
    KeptNotBlank(h, lines);
    FilterAll([h] + lines, NotBlank);
  }

  lemma DroppedNone(dropped: seq<string>)
    requires dropped == [""] || dropped == ["", ""]
    ensures Filter(dropped, NotBlank) == []
  {
    FilterNone(dropped, NotBlank);
  }

  /** The row lines hold no line break and are not blank. */
  lemma WrittenLinesClean(ts: seq<Token>)
    requires forall i :: 0 <= i < |ts| ==> NoBreaks(RowCells(ts[i]))
    ensures forall i :: 0 <= i < |ts| ==>
              '\n' !in WrittenLines(ts)[i] && '\r' !in WrittenLines(ts)[i] && NotBlank(WrittenLines(ts)[i])
  {
    var lines := WrittenLines(ts);
    forall i | 0 <= i < |lines| ensures '\n' !in lines[i] && '\r' !in lines[i] && NotBlank(lines[i]) {
      LineNoChar(RowCells(ts[i]), '\n');
      LineNoChar(RowCells(ts[i]), '\r');
      LineNotBlank(RowCells(ts[i]));
    }
  }

  /** The header line holds no line break, is not blank and parses back into the
      column names. */
  lemma HeaderLineClean(h: string)
    requires h == Join(Header, ",")
    ensures '\n' !in h && '\r' !in h && NotBlank(h)
    ensures ParseLine(h) == Header
  {
    HeaderLine();
    HeaderLineNoBreaks();
    LineRoundTrip(Header);
  }

  lemma HeaderLineNoBreaks()
    ensures '\n' !in CsvLine(Header) && '\r' !in CsvLine(Header) && NotBlank(CsvLine(Header))
  {
    HeaderPlain();
    LineNoChar(Header, '\n');
    LineNoChar(Header, '\r');
    LineNotBlank(Header);
  }

  /** The rows the reader is expected to return for the written records: every
      record's cells, trimmed. */
  function TrimmedRows(ts: seq<Token>): (rows: seq<seq<string>>)
    ensures |rows| == |ts|
  {
    seq(|ts|, i requires 0 <= i < |ts| => TrimAll(RowCells(ts[i])))
  }

  lemma ParseAllCons(h: string, lines: seq<string>)
    ensures ParseAll([h] + lines) == [ParseLine(h)] + ParseAll(lines)
  {
    var rows := ParseAll([h] + lines);
    forall i | 0 <= i < |rows| ensures rows[i] == ([ParseLine(h)] + ParseAll(lines))[i] {
      if i > 0 {
        assert ([h] + lines)[i] == lines[i - 1];
      }
    }
  }

  lemma ParseWrittenLines(ts: seq<Token>)
    ensures ParseAll(WrittenLines(ts)) == TrimmedRows(ts)
  {
    forall i | 0 <= i < |ts| ensures ParseAll(WrittenLines(ts))[i] == TrimmedRows(ts)[i] {
      LineRoundTrip(RowCells(ts[i]));
    }
  }

  /** Reading the written file gives the header and then, line by line, every row's
      cells trimmed, as long as no cell holds a line break. */
  lemma ReadWritten(ts: seq<Token>)
    requires forall i :: 0 <= i < |ts| ==> NoBreaks(RowCells(ts[i]))
    ensures ReadCsv(DiscoveredCsv(ts)) == [Header] + TrimmedRows(ts)
  {
    var h := Join(Header, ",");
    var lines := WrittenLines(ts);
    HeaderLineClean(h);
    WrittenLinesClean(ts);
    assert DiscoveredCsv(ts) == h + "\n" + Join(lines, "\n") + "\n";
    PiecesLines(h, lines);
    ParseAllCons(h, lines);
    ParseWrittenLines(ts);
  }

  // ---------------------------------------------------------------------------
  // Where the reader finds the columns

  lemma IndexOfAt(header: seq<string>, name: string, r: nat)
    requires r < |header| && header[r] == name
    requires forall j :: 0 <= j < r ==> header[j] != name
    ensures IndexOf(header, name) == r
  {
  }

  /** A header line that reads as the written one, cell by cell. */
  predicate SameColumns(hd: seq<string>) {
    |hd| == |Header| && forall i :: 0 <= i < |Header| ==> hd[i] == Header[i]
  }

  lemma HeaderDistinct()
    ensures forall i, j :: 0 <= i < j < |Header| ==> Header[i] != Header[j]
  {
  }

  /** Every written column is found where it was written. */
  lemma ColumnAt(hd: seq<string>, k: nat, name: string)
    requires SameColumns(hd) && k < |Header| && Header[k] == name
    ensures IndexOf(hd, name) == k
  {
    HeaderDistinct();
    IndexOfAt(hd, name, k);
  }

  // The positions of the columns the token reader uses, in small groups.
  predicate IdentityAt(hd: seq<string>) {
    IndexOf(hd, "name") == 0 && IndexOf(hd, "symbol") == 1 && IndexOf(hd, "decimals") == 2
  }

  predicate AddressAt(hd: seq<string>) {
    IndexOf(hd, "objectId") == 4 && IndexOf(hd, "logoURI") == 5 && IndexOf(hd, "verified") == 6
  }

  predicate StampAt(hd: seq<string>) {
    IndexOf(hd, "verifiedBy") == 7 && IndexOf(hd, "addedAt") == 8 && IndexOf(hd, "tags") == 9
  }

  predicate SocialAt(hd: seq<string>) {
    IndexOf(hd, "website") == 10 && IndexOf(hd, "twitter") == 11 && IndexOf(hd, "github") == 12
  }

  predicate ChatAt(hd: seq<string>) {
    IndexOf(hd, "discord") == 13 && IndexOf(hd, "telegram") == 14
  }

  predicate TailAt(hd: seq<string>) {
    IndexOf(hd, "description") == 15 && IndexOf(hd, "version") == 16
  }

  /** The positions of all sixteen columns the token reader uses. */
  predicate Positions(hd: seq<string>) {
    |hd| == |Header| && IdentityAt(hd) && AddressAt(hd) && StampAt(hd)
    && SocialAt(hd) && ChatAt(hd) && TailAt(hd)
  }

  /** Every written column is found where it was written, all at once. */
  predicate ColumnsAt(hd: seq<string>) {
    forall k :: 0 <= k < |Header| ==> IndexOf(hd, Header[k]) == k
  }

  lemma ColumnsFound(hd: seq<string>)
    requires SameColumns(hd)
    ensures ColumnsAt(hd)
  {
    forall k | 0 <= k < |Header| ensures IndexOf(hd, Header[k]) == k {
      ColumnAt(hd, k, Header[k]);
    }
  }

  lemma IdentityFound(hd: seq<string>)
    requires ColumnsAt(hd)
    ensures IdentityAt(hd)
  {
    assert Header[0] == "name";
    assert Header[1] == "symbol";
    assert Header[2] == "decimals";
  }

  lemma AddressFound(hd: seq<string>)
    requires ColumnsAt(hd)
    ensures AddressAt(hd)
  {
    assert Header[4] == "objectId";
    assert Header[5] == "logoURI";
    assert Header[6] == "verified";
  }

  lemma StampFound(hd: seq<string>)
    requires ColumnsAt(hd)
    ensures StampAt(hd)
  {
    assert Header[7] == "verifiedBy";
    assert Header[8] == "addedAt";
    assert Header[9] == "tags";
  }

  lemma SocialFound(hd: seq<string>)
    requires ColumnsAt(hd)
    ensures SocialAt(hd)
  {
    assert Header[10] == "website";
    assert Header[11] == "twitter";
    assert Header[12] == "github";
  }

  lemma ChatFound(hd: seq<string>)
    requires ColumnsAt(hd)
    ensures ChatAt(hd)
  {
    assert Header[13] == "discord";
    assert Header[14] == "telegram";
  }

  lemma TailFound(hd: seq<string>)
    requires ColumnsAt(hd)
    ensures TailAt(hd)
  {
    assert Header[15] == "description";
    assert Header[16] == "version";
  }

  lemma PositionsFound(hd: seq<string>)
    requires SameColumns(hd)
    ensures Positions(hd)
  {
    ColumnsFound(hd);
    IdentityFound(hd);
    AddressFound(hd);
    StampFound(hd);
    SocialFound(hd);
    ChatFound(hd);
    TailFound(hd);
  }

  /** A header with these positions has every column the token reader requires. */
  lemma PositionsComplete(hd: seq<string>)
    requires Positions(hd)
    ensures FirstMissing(TokenColumns, hd).None?
  {
    assert IdentityAt(hd) && AddressAt(hd) && StampAt(hd);
    assert SocialAt(hd) && ChatAt(hd) && TailAt(hd);
  }

  // ---------------------------------------------------------------------------
  // Records

  /** A number that reads back as itself: any integer, or the non-empty text of a
      non-integer that is not integer syntax and has no white space at its ends. */
  predicate NumWritable(n: Num) {
    n.Int? || (n.text != "" && NoEdgeSpace(n.text) && ParseInt(n.text).None?)
  }

  lemma NumReadBack(n: Num)
    requires NumWritable(n)
    ensures NumText(n) != "" && Trim(NumText(n)) == NumText(n) && NumberOf(NumText(n)) == n
  {
    if n.Int? {
      ParseIntToString(n.value);
    }
  }

  /** An optional text that reads back as itself: absent, or non-empty with no
      white space at its ends (an empty one is read back as absent). */
  predicate OptWritable(o: Option<string>) {
    o.None? || (o.value != "" && NoEdgeSpace(o.value))
  }

  lemma OptReadBack(o: Option<string>)
    requires OptWritable(o)
    ensures NonEmpty(Trim(OrEmpty(o))) == o
  {
  }

  /** Tags that read back as themselves: at least one (none are written as
      "auto"), each non-empty, without commas and without edge white space. */
  predicate TagsWritable(tags: Option<seq<string>>) {
    tags.Some? && |tags.value| >= 1
    && forall i :: 0 <= i < |tags.value| ==>
         tags.value[i] != "" && NoEdgeSpace(tags.value[i]) && ',' !in tags.value[i]
  }

  /** A join of non-empty parts starts with the first part's first character and
      ends with the last part's last character. */
  lemma {:induction false} JoinEdges(parts: seq<string>, sep: string)
    requires |parts| >= 1 && forall i :: 0 <= i < |parts| ==> parts[i] != ""
    ensures var j := Join(parts, sep);
            var last := parts[|parts| - 1];
            j != "" && j[0] == parts[0][0] && j[|j| - 1] == last[|last| - 1]
    decreases |parts|
  {
    if |parts| >= 2 {
      var rest := parts[1..];
      assert forall i :: 0 <= i < |rest| ==> rest[i] == parts[i + 1];
      JoinEdges(rest, sep);
      assert rest[|rest| - 1] == parts[|parts| - 1];
      ConcatEdges(parts[0] + sep, Join(rest, sep));
    }
  }

  lemma ConcatEdges(a: string, b: string)
    requires a != [] && b != []
    ensures (a + b)[0] == a[0] && (a + b)[|a + b| - 1] == b[|b| - 1]
  {
  }

  /** Trimming tags that have no white space at their ends changes nothing. */
  lemma TagsTrimmed(tags: seq<string>)
    requires forall i :: 0 <= i < |tags| ==> NoEdgeSpace(tags[i])
    ensures TrimAll(tags) == tags
  {
  }

  lemma TagsReadBack(t: Token)
    requires TagsWritable(t.tags)
    ensures TagsOf(Trim(TagsCell(t))) == t.tags.value
  {
    var tags := t.tags.value;
    TagsCellJoined(t);
    SplitJoin(tags, ',');
    TagsTrimmed(tags);
    FilterAll(tags, NonEmptyText);
  }

  /** Extensions that read back as themselves: absent, or a non-empty map holding
      only a website and a description (the only ones written), each non-empty with
      no white space at its ends. */
  predicate ExtWritable(e: Option<map<string, string>>) {
    e.None?
    || (e.value != map[] && forall k :: k in e.value ==>
          (k == "website" || k == "description") && e.value[k] != "" && NoEdgeSpace(e.value[k]))
  }

  /** A token record the writer and the reader carry through unchanged, but for the
      coin type (never read) and letter case in the identifier (lower-cased on
      reading). */
  predicate Readable(t: Token) {
    && NoEdgeSpace(t.name) && NoEdgeSpace(t.symbol) && NumWritable(t.decimals)
    && NoEdgeSpace(t.objectId) && Lower(t.objectId) == t.objectId
    && OptWritable(t.logoURI) && OptWritable(t.verifiedBy) && NoEdgeSpace(t.addedAt)
    && TagsWritable(t.tags) && ExtWritable(t.extensions)
    && t.version.Some? && NumWritable(t.version.value)
  }

  /** The identity cells, where the reader looks for them. */
  lemma IdentityRead(hd: seq<string>, row: seq<string>)
    requires IdentityAt(hd) && AddressAt(hd) && |row| == |Header|
    ensures TextCell(hd, row, "name") == row[0] && TextCell(hd, row, "symbol") == row[1]
    ensures TextCell(hd, row, "decimals") == row[2] && TextCell(hd, row, "objectId") == row[4]
    ensures TextCell(hd, row, "logoURI") == row[5] && TextCell(hd, row, "verified") == row[6]
  {
  }

  lemma StampRead(hd: seq<string>, row: seq<string>)
    requires StampAt(hd) && TailAt(hd) && |row| == |Header|
    ensures TextCell(hd, row, "verifiedBy") == row[7] && TextCell(hd, row, "addedAt") == row[8]
    ensures TextCell(hd, row, "tags") == row[9] && TextCell(hd, row, "version") == row[16]
  {
  }

  lemma SocialRead(hd: seq<string>, row: seq<string>)
    requires SocialAt(hd) && ChatAt(hd) && TailAt(hd) && |row| == |Header|
    ensures TextCell(hd, row, "website") == row[10] && TextCell(hd, row, "twitter") == row[11]
    ensures TextCell(hd, row, "github") == row[12] && TextCell(hd, row, "discord") == row[13]
    ensures TextCell(hd, row, "telegram") == row[14] && TextCell(hd, row, "description") == row[15]
  {
  }

  /** Of the social cells, exactly the written website and description are
      non-empty. */
  lemma ExtCells(hd: seq<string>, row: seq<string>, t: Token)
    requires SocialAt(hd) && ChatAt(hd) && TailAt(hd) && |row| == |Header|
    requires row[10] == Ext(t, "website") && row[15] == Ext(t, "description")
    requires row[11] == "" && row[12] == "" && row[13] == "" && row[14] == ""
    ensures forall k :: k in ExtensionColumns && TextCell(hd, row, k) != "" <==>
              (k == "website" || k == "description") && Ext(t, k) != ""
    ensures forall k :: k == "website" || k == "description" ==> TextCell(hd, row, k) == Ext(t, k)
  {
    SocialRead(hd, row);
    assert forall k :: k in ExtensionColumns <==>
      k == "website" || k == "twitter" || k == "github" || k == "discord" || k == "telegram" || k == "description";
  }

  /** The extensions come back from the website and description cells. */
  lemma ExtReadBack(hd: seq<string>, row: seq<string>, t: Token)
    requires SocialAt(hd) && ChatAt(hd) && TailAt(hd) && |row| == |Header|
    requires ExtWritable(t.extensions)
    requires row[10] == Ext(t, "website") && row[15] == Ext(t, "description")
    requires row[11] == "" && row[12] == "" && row[13] == "" && row[14] == ""
    ensures var m := ExtMap(hd, row, ExtensionColumns);
            (if m == map[] then None else Some(m)) == t.extensions
  {
    ExtCells(hd, row, t);
    var m := ExtMap(hd, row, ExtensionColumns);
    if t.extensions.None? {
      assert forall k :: k !in m;
    } else {
      ExtMapIs(m, t.extensions.value, t);
    }
  }

  lemma ExtMapIs(m: map<string, string>, e: map<string, string>, t: Token)
    requires t.extensions == Some(e) && ExtWritable(t.extensions)
    requires forall k :: k in m <==> (k == "website" || k == "description") && Ext(t, k) != ""
    requires forall k :: k in m ==> m[k] == Ext(t, k)
    ensures m == e
  {
    forall k | k in e ensures k in m && m[k] == e[k] {
      assert Ext(t, k) == e[k];
    }
  }

  /** The tags cell of a readable record is the tags joined by commas. */
  lemma TagsCellJoined(t: Token)
    requires TagsWritable(t.tags)
    ensures TagsCell(t) == Join(t.tags.value, ",") && NoEdgeSpace(TagsCell(t))
  {
    JoinEdges(t.tags.value, ",");
  }

  /** `row` holds the cells written for `t`, in header order, but for the coin type. */
  predicate WrittenRow(row: seq<string>, t: Token) {
    |row| == |Header| && WrittenHead(row, t) && WrittenTail(row, t)
  }

  predicate WrittenHead(row: seq<string>, t: Token)
    requires |row| == |Header|
  {
    && row[0] == t.name && row[1] == t.symbol && row[2] == NumText(t.decimals)
    && row[4] == t.objectId && row[5] == OrEmpty(t.logoURI)
    && row[6] == (if t.verified then "true" else "false")
    && row[7] == OrEmpty(t.verifiedBy) && row[8] == t.addedAt
  }

  predicate WrittenTail(row: seq<string>, t: Token)
    requires |row| == |Header|
  {
    && row[9] == TagsCell(t)
    && row[10] == Ext(t, "website") && row[11] == "" && row[12] == "" && row[13] == ""
    && row[14] == "" && row[15] == Ext(t, "description")
    && row[16] == NumText(if t.version.Some? then t.version.value else Int(1))
  }

  /** The first nine cells of a row, one by one. */
  lemma CellsHead(t: Token)
    ensures var cells := RowCells(t);
            cells[0] == t.name && cells[1] == t.symbol && cells[2] == NumText(t.decimals)
            && cells[3] == OrEmpty(t.coinType) && cells[4] == t.objectId && cells[5] == OrEmpty(t.logoURI)
            && cells[6] == (if t.verified then "true" else "false")
            && cells[7] == OrEmpty(t.verifiedBy) && cells[8] == t.addedAt
  {
  }

  /** The last eight cells of a row, one by one. */
  lemma CellsTail(t: Token)
    ensures var cells := RowCells(t);
            cells[9] == TagsCell(t)
            && cells[10] == Ext(t, "website") && cells[11] == "" && cells[12] == ""
            && cells[13] == "" && cells[14] == "" && cells[15] == Ext(t, "description")
            && cells[16] == NumText(if t.version.Some? then t.version.value else Int(1))
  {
  }

  /** Trimming leaves a cell with no white space at its ends alone. */
  lemma TrimmedAt(cells: seq<string>, k: nat)
    requires k < |cells| && NoEdgeSpace(cells[k])
    ensures TrimAll(cells)[k] == cells[k]
  {
  }

  /** Trimming leaves the name, symbol and decimals cells alone. */
  lemma TrimmedNames(t: Token)
    requires NoEdgeSpace(t.name) && NoEdgeSpace(t.symbol) && NumWritable(t.decimals)
    ensures var row := TrimAll(RowCells(t));
            row[0] == t.name && row[1] == t.symbol && row[2] == NumText(t.decimals)
  {
    var cells := RowCells(t);
    CellsHead(t);
    NumReadBack(t.decimals);
    TrimmedAt(cells, 0);
    TrimmedAt(cells, 1);
    TrimmedAt(cells, 2);
  }

  /** Trimming leaves the identifier and logo cells alone. */
  lemma TrimmedAddress(t: Token)
    requires NoEdgeSpace(t.objectId) && OptWritable(t.logoURI)
    ensures var row := TrimAll(RowCells(t));
            row[4] == t.objectId && row[5] == OrEmpty(t.logoURI)
  {
    var cells := RowCells(t);
    CellsHead(t);
    TrimmedAt(cells, 4);
    TrimmedAt(cells, 5);
  }

  /** The verified flag is written without white space. */
  lemma FlagEdgeFree(b: bool)
    ensures NoEdgeSpace(if b then "true" else "false")
  {
    if b {
      assert "true"[0] == 't' && "true"[3] == 'e';
    } else {
      assert "false"[0] == 'f' && "false"[4] == 'e';
    }
  }

  /** Trimming leaves the verified cell alone. */
  lemma TrimmedFlag(t: Token)
    ensures TrimAll(RowCells(t))[6] == (if t.verified then "true" else "false")
  {
    CellsHead(t);
    FlagEdgeFree(t.verified);
    TrimmedAt(RowCells(t), 6);
  }

  /** Trimming leaves the verifier and timestamp cells alone. */
  lemma TrimmedStamp(t: Token)
    requires OptWritable(t.verifiedBy) && NoEdgeSpace(t.addedAt)
    ensures var row := TrimAll(RowCells(t));
            row[7] == OrEmpty(t.verifiedBy) && row[8] == t.addedAt
  {
    var cells := RowCells(t);
    CellsHead(t);
    TrimmedAt(cells, 7);
    TrimmedAt(cells, 8);
  }

  /** Trimming leaves the tags cell alone. */
  lemma TrimmedTags(t: Token)
    requires TagsWritable(t.tags)
    ensures TrimAll(RowCells(t))[9] == TagsCell(t)
  {
    CellsTail(t);
    TagsCellJoined(t);
    TrimmedAt(RowCells(t), 9);
  }

  /** An extension cell has no white space at its ends. */
  lemma ExtEdgeFree(t: Token, key: string)
    requires ExtWritable(t.extensions)
    ensures NoEdgeSpace(Ext(t, key))
  {
  }

  /** Trimming leaves the extension and social cells alone. */
  lemma TrimmedSocial(t: Token)
    requires ExtWritable(t.extensions)
    ensures var row := TrimAll(RowCells(t));
            row[10] == Ext(t, "website") && row[11] == "" && row[12] == "" && row[13] == ""
            && row[14] == "" && row[15] == Ext(t, "description")
  {
    var cells := RowCells(t);
    CellsTail(t);
    ExtEdgeFree(t, "website");
    ExtEdgeFree(t, "description");
    TrimmedAt(cells, 10);
    TrimmedAt(cells, 11);
    TrimmedAt(cells, 12);
    TrimmedAt(cells, 13);
    TrimmedAt(cells, 14);
    TrimmedAt(cells, 15);
  }

  /** Trimming leaves the version cell alone. */
  lemma TrimmedVersion(t: Token)
    requires t.version.Some? && NumWritable(t.version.value)
    ensures TrimAll(RowCells(t))[16] == NumText(t.version.value)
  {
    CellsTail(t);
    NumReadBack(t.version.value);
    TrimmedAt(RowCells(t), 16);
  }

  /** The trimmed row of a readable record holds the cells written for it. */
  lemma TrimmedWritten(t: Token)
    requires Readable(t)
    ensures WrittenRow(TrimAll(RowCells(t)), t)
  {
    TrimmedNames(t);
    TrimmedAddress(t);
    TrimmedFlag(t);
    TrimmedStamp(t);
    TrimmedTags(t);
    TrimmedSocial(t);
    TrimmedVersion(t);
  }

  /** The name and symbol come back. */
  lemma NamesBack(hd: seq<string>, row: seq<string>, t: Token)
    requires IdentityAt(hd) && |row| == |Header|
    requires row[0] == t.name && row[1] == t.symbol
    ensures RowToken(hd, row).name == t.name && RowToken(hd, row).symbol == t.symbol
  {
  }

  /** The decimals come back. */
  lemma DecimalsBack(hd: seq<string>, row: seq<string>, t: Token)
    requires IdentityAt(hd) && |row| == |Header|
    requires row[2] == NumText(t.decimals) && NumWritable(t.decimals)
    ensures RowToken(hd, row).decimals == t.decimals
  {
    NumReadBack(t.decimals);
  }

  /** The identifier and the logo come back. */
  lemma AddressBack(hd: seq<string>, row: seq<string>, t: Token)
    requires AddressAt(hd) && |row| == |Header|
    requires row[4] == t.objectId && Lower(t.objectId) == t.objectId
    requires row[5] == OrEmpty(t.logoURI) && OptWritable(t.logoURI)
    ensures RowToken(hd, row).objectId == t.objectId && RowToken(hd, row).logoURI == t.logoURI
  {
    OptReadBack(t.logoURI);
  }

  /** The verified flag comes back. */
  lemma FlagBack(hd: seq<string>, row: seq<string>, t: Token)
    requires AddressAt(hd) && |row| == |Header|
    requires row[6] == (if t.verified then "true" else "false")
    ensures RowToken(hd, row).verified == t.verified
  {
    assert Lower("true") == "true" && Lower("false") != "true";
  }

  /** The verifier and the timestamp come back. */
  lemma StampBack(hd: seq<string>, row: seq<string>, t: Token)
    requires StampAt(hd) && |row| == |Header|
    requires row[7] == OrEmpty(t.verifiedBy) && OptWritable(t.verifiedBy) && row[8] == t.addedAt
    ensures RowToken(hd, row).verifiedBy == t.verifiedBy && RowToken(hd, row).addedAt == t.addedAt
  {
    OptReadBack(t.verifiedBy);
  }

  /** The tags come back. */
  lemma TagsBack(hd: seq<string>, row: seq<string>, t: Token)
    requires StampAt(hd) && |row| == |Header|
    requires row[9] == TagsCell(t) && TagsWritable(t.tags)
    ensures RowToken(hd, row).tags == t.tags
  {
    TagsCellJoined(t);
    TagsReadBack(t);
  }

  /** The version comes back. */
  lemma VersionBack(hd: seq<string>, row: seq<string>, t: Token)
    requires TailAt(hd) && |row| == |Header|
    requires t.version.Some? && row[16] == NumText(t.version.value) && NumWritable(t.version.value)
    ensures RowToken(hd, row).version == t.version
  {
    NumReadBack(t.version.value);
  }

  /** The extensions come back. */
  lemma ExtensionsBack(hd: seq<string>, row: seq<string>, t: Token)
    requires SocialAt(hd) && ChatAt(hd) && TailAt(hd) && |row| == |Header|
    requires ExtWritable(t.extensions)
    requires row[10] == Ext(t, "website") && row[15] == Ext(t, "description")
    requires row[11] == "" && row[12] == "" && row[13] == "" && row[14] == ""
    ensures RowToken(hd, row).extensions == t.extensions
  {
    ExtReadBack(hd, row, t);
  }

  /** The cells of a written record read back as the record, without its coin type. */
  lemma RecordBack(hd: seq<string>, row: seq<string>, t: Token)
    requires Positions(hd) && Readable(t) && WrittenRow(row, t)
    ensures RowToken(hd, row) == t.(coinType := None)
  {
    NamesBack(hd, row, t);
    DecimalsBack(hd, row, t);
    AddressBack(hd, row, t);
    FlagBack(hd, row, t);
    StampBack(hd, row, t);
    TagsBack(hd, row, t);
    VersionBack(hd, row, t);
    ExtensionsBack(hd, row, t);
  }

  /** The reader gives back every record the writer wrote, without its coin type. */
  lemma RowReadBack(hd: seq<string>, t: Token)
    requires Positions(hd) && Readable(t)
    ensures RowToken(hd, TrimAll(RowCells(t))) == t.(coinType := None)
  {
    TrimmedWritten(t);
    RecordBack(hd, TrimAll(RowCells(t)), t);
  }

  /** The records without their coin types. */
  function WithoutCoinType(ts: seq<Token>): (r: seq<Token>)
    ensures |r| == |ts|
  {
    seq(|ts|, i requires 0 <= i < |ts| => ts[i].(coinType := None))
  }

  lemma RowTokensBack(hd: seq<string>, ts: seq<Token>)
    requires Positions(hd) && forall i :: 0 <= i < |ts| ==> Readable(ts[i])
    ensures RowTokens(hd, TrimmedRows(ts)) == WithoutCoinType(ts)
  {
    var rows := TrimmedRows(ts);
    RowTokensEach(hd, rows);
    forall i | 0 <= i < |ts| ensures RowToken(hd, rows[i]) == ts[i].(coinType := None) {
      RowReadBack(hd, ts[i]);
    }
  }

  /** A file whose header has the written columns reads as the records of its
      data rows. */
  lemma ReadTokensWith(rows: seq<seq<string>>)
    requires rows != [] && Positions(rows[0])
    ensures ReadTokens(rows) == Ok(RowTokens(rows[0], rows[1..]))
  {
    PositionsComplete(rows[0]);
  }

  lemma HeaderSame()
    ensures SameColumns(Header)
  {
  }

  /** Rows under a header with the written columns, holding the trimmed cells of
      readable records, read as those records without their coin types. */
  lemma ReadTokensOf(rows: seq<seq<string>>, ts: seq<Token>)
    requires rows != [] && SameColumns(rows[0]) && rows[1..] == TrimmedRows(ts)
    requires forall i :: 0 <= i < |ts| ==> Readable(ts[i])
    ensures ReadTokens(rows) == Ok(WithoutCoinType(ts))
  {
    PositionsFound(rows[0]);
    ReadTokensWith(rows);
    RowTokensBack(rows[0], ts);
  }

  /** Reading the file written for records the reader can carry gives the records
      back, in order, without their coin types. */
  lemma ReadTokensBack(ts: seq<Token>)
    requires forall i :: 0 <= i < |ts| ==> Readable(ts[i]) && NoBreaks(RowCells(ts[i]))
    ensures ReadTokens(ReadCsv(DiscoveredCsv(ts))) == Ok(WithoutCoinType(ts))
  {
    ReadWritten(ts);
    var rows := ReadCsv(DiscoveredCsv(ts));
    assert rows[0] == Header && rows[1..] == TrimmedRows(ts);
    HeaderSame();
    ReadTokensOf(rows, ts);
  }

  /** The identifier cell of a written record reads back lower-cased, when it has no
      white space at its ends; no other field matters. */
  lemma IdRead(t: Token)
    requires NoEdgeSpace(t.objectId)
    ensures RowToken(Header, TrimAll(RowCells(t))).objectId == Lower(t.objectId)
  {
    var row := TrimAll(RowCells(t));
    CellsHead(t);
    TrimmedAt(RowCells(t), 4);
    HeaderSame();
    PositionsFound(Header);
    IdentityRead(Header, row);
  }

  /** The records of the trimmed rows carry the lower-cased identifiers. */
  lemma RowIdsBack(ts: seq<Token>)
    requires forall i :: 0 <= i < |ts| ==> NoEdgeSpace(ts[i].objectId)
    ensures var r := RowTokens(Header, TrimmedRows(ts));
            |r| == |ts| && forall i :: 0 <= i < |ts| ==> r[i].objectId == Lower(ts[i].objectId)
  {
    var data := TrimmedRows(ts);
    assert forall i :: 0 <= i < |data| ==> |data[i]| == |Header|;
    RowTokensEach(Header, data);
    forall i | 0 <= i < |ts| ensures RowToken(Header, data[i]).objectId == Lower(ts[i].objectId) {
      IdRead(ts[i]);
    }
  }

  /** Reading back a written list succeeds with one record per written record, each
      carrying the lower-cased identifier, whenever no cell holds a line break and
      no identifier has white space at its ends. */
  lemma IdsReadBack(ts: seq<Token>)
    requires forall i :: 0 <= i < |ts| ==> NoBreaks(RowCells(ts[i])) && NoEdgeSpace(ts[i].objectId)
    ensures var r := ReadTokens(ReadCsv(DiscoveredCsv(ts)));
            r.Ok? && |r.value| == |ts|
            && forall i :: 0 <= i < |ts| ==> r.value[i].objectId == Lower(ts[i].objectId)
  {
    WrittenRowTokens(ts);
    RowIdsBack(ts);
  }

  /** Reading back a written list gives the records of its trimmed rows. */
  lemma WrittenRowTokens(ts: seq<Token>)
    requires forall i :: 0 <= i < |ts| ==> NoBreaks(RowCells(ts[i]))
    ensures ReadTokens(ReadCsv(DiscoveredCsv(ts))) == Ok(RowTokens(Header, TrimmedRows(ts)))
  {
    ReadWritten(ts);
    var rows := ReadCsv(DiscoveredCsv(ts));
    assert rows[0] == Header && rows[1..] == TrimmedRows(ts);
    HeaderSame();
    ReadTokensRows(rows);
  }

  /** Rows under a header with the written columns read as the records of the
      data rows. */
  lemma ReadTokensRows(rows: seq<seq<string>>)
    requires rows != [] && SameColumns(rows[0])
    ensures ReadTokens(rows) == Ok(RowTokens(rows[0], rows[1..]))
  {
    PositionsFound(rows[0]);
    ReadTokensWith(rows);
  }

  // ---------------------------------------------------------------------------
  // Fresh discovered rows

  /** No line feed and no carriage return. */
  predicate Unbroken(s: string) {
    '\n' !in s && '\r' !in s
  }

  /** A discovered coin whose fresh row survives writing and reading: no written
      cell holds a line break, the identifier and the timestamp have no white space
      at their ends, a logo is non-empty with no white space at its ends, and so
      is a website (an empty one is not stored). */
  predicate Writable(c: DiscoveredCoin, now: string) {
    && Unbroken(c.name) && Unbroken(c.symbol) && Unbroken(c.objectId) && Unbroken(now)
    && NoEdgeSpace(c.objectId) && NoEdgeSpace(now)
    && (c.coinType.Some? ==> Unbroken(c.coinType.value))
    && OptWritable(c.logoURI) && (c.logoURI.Some? ==> Unbroken(c.logoURI.value))
    && (c.website.Some? ==> Unbroken(c.website.value) && NoEdgeSpace(c.website.value))
  }

  lemma TrimUnbroken(s: string)
    requires Unbroken(s)
    ensures Unbroken(Trim(s))
  {
    TrimNoNewChar(s, '\n');
    TrimNoNewChar(s, '\r');
  }

  /** Lower-casing keeps line breaks out and white space off the ends. */
  lemma LowerUnbroken(s: string)
    requires Unbroken(s) && NoEdgeSpace(s)
    ensures Unbroken(Lower(s)) && NoEdgeSpace(Lower(s))
  {
  }

  lemma NumberUnbroken(n: int)
    ensures Unbroken(IntToString(n))
  {
    var d := NatToString(if n < 0 then -n else n);
    assert forall k :: 0 <= k < |d| ==> IsDigit(d[k]);
    if n < 0 {
      assert forall k :: 1 <= k < |IntToString(n)| ==> IntToString(n)[k] == d[k - 1];
    }
  }

  /** A row whose every written cell is free of line breaks. */
  lemma RowUnbroken(t: Token)
    requires Unbroken(t.name) && Unbroken(t.symbol) && Unbroken(NumText(t.decimals))
    requires Unbroken(OrEmpty(t.coinType)) && Unbroken(t.objectId) && Unbroken(OrEmpty(t.logoURI))
    requires Unbroken(OrEmpty(t.verifiedBy)) && Unbroken(t.addedAt) && Unbroken(TagsCell(t))
    requires Unbroken(Ext(t, "website")) && Unbroken(Ext(t, "description"))
    requires Unbroken(NumText(if t.version.Some? then t.version.value else Int(1)))
    ensures NoBreaks(RowCells(t))
  {
    var cells := RowCells(t);
    CellsHead(t);
    CellsTail(t);
    forall i | 0 <= i < |cells| ensures Unbroken(cells[i]) {
      if i < 9 {
        assert i == 0 || i == 1 || i == 2 || i == 3 || i == 4 || i == 5 || i == 6 || i == 7 || i == 8;
      } else {
        assert i == 9 || i == 10 || i == 11 || i == 12 || i == 13 || i == 14 || i == 15 || i == 16;
      }
    }
  }

  /** No cell of a fresh row holds a line break. */
  lemma FreshUnbroken(c: DiscoveredCoin, now: string)
    requires Writable(c, now)
    ensures NoBreaks(RowCells(ToTokenRow(c, now)))
  {
    var t := ToTokenRow(c, now);
    TrimUnbroken(c.name);
    TrimUnbroken(c.symbol);
    LowerUnbroken(c.objectId);
    NumberUnbroken(c.decimals);
    NumberUnbroken(1);
    assert Ext(t, "description") == "";
    assert TagsCell(t) == "auto";
    RowUnbroken(t);
  }

  /** The one tag of a fresh row is one the reader carries. */
  lemma AutoTagWritable()
    ensures TagsWritable(Some(["auto"]))
  {
    assert NoEdgeSpace("auto");
  }

  /** The website extension of a fresh row is one the reader carries. */
  lemma WebsiteWritable(w: Option<string>)
    requires w.Some? ==> NoEdgeSpace(w.value)
    ensures ExtWritable(if w.Some? && w.value != "" then Some(map["website" := w.value]) else None)
  {
    if w.Some? && w.value != "" {
      var m := map["website" := w.value];
      assert "website" in m;
      forall k | k in m
        ensures (k == "website" || k == "description") && m[k] != "" && NoEdgeSpace(m[k])
      {
        assert k == "website";
      }
    }
  }

  /** A fresh row is a record the reader carries. */
  lemma FreshReadable(c: DiscoveredCoin, now: string)
    requires Writable(c, now)
    ensures Readable(ToTokenRow(c, now))
  {
    LowerUnbroken(c.objectId);
    LowerIdempotent(c.objectId);
    AutoTagWritable();
    WebsiteWritable(c.website);
  }

  /** Discovery's file read back: every fresh row comes back as written, in order,
      without its coin type. */
  lemma DiscoveredReadBack(coins: seq<DiscoveredCoin>, now: string)
    requires forall i :: 0 <= i < |coins| ==> Writable(coins[i], now)
    ensures ReadTokens(ReadCsv(DiscoveredCsv(ToTokenRows(coins, now))))
            == Ok(WithoutCoinType(ToTokenRows(coins, now)))
  {
    var ts := ToTokenRows(coins, now);
    forall i | 0 <= i < |ts| ensures Readable(ts[i]) && NoBreaks(RowCells(ts[i])) {
      FreshReadable(coins[i], now);
      FreshUnbroken(coins[i], now);
    }
    ReadTokensBack(ts);
  }
}
