/** The CSV reading side: the quote-aware line scanner, the split of a file into
    non-blank lines, and the readers that turn rows into token records and into
    the ban list. Reading the file itself is left out; the readers take its text. */
module Io {
  import opened Wrappers
  import opened Strings
  import opened Types
  import opened Collections

  // ---------------------------------------------------------------------------
  // One line

  /** The scan of `parseCsvLine` over the characters still to read, with the cells
      finished so far, the cell being built and whether a quoted section is open.
      Inside quotes a doubled quote stands for one quote; any other quote opens or
      closes the section; a comma outside quotes ends the cell. */
  function Scan(rest: string, out: seq<string>, cur: string, inQuotes: bool): seq<string>
    decreases |rest|
  {
    if rest == [] then out + [cur]
    else if rest[0] == '"' then
      if inQuotes && |rest| > 1 && rest[1] == '"' then Scan(rest[2..], out, cur + "\"", inQuotes)
      else Scan(rest[1..], out, cur, !inQuotes)
    else if rest[0] == ',' && !inQuotes then Scan(rest[1..], out + [cur], "", inQuotes)
    else Scan(rest[1..], out, cur + [rest[0]], inQuotes)
  }

  /** Each string trimmed. */
  function TrimAll(s: seq<string>): (r: seq<string>)
    ensures |r| == |s|
    ensures forall i :: 0 <= i < |r| ==> r[i] == Trim(s[i]) && NoEdgeSpace(r[i])
  {
    seq(|s|, i requires 0 <= i < |s| => Trim(s[i]))
  }

  /** The scan never drops finished cells and always ends with one more. */
  lemma {:induction false} ScanExtends(rest: string, out: seq<string>, cur: string, inQuotes: bool)
    ensures |Scan(rest, out, cur, inQuotes)| > |out|
    ensures Scan(rest, out, cur, inQuotes)[..|out|] == out
    decreases |rest|
  {
    if rest != [] {
      if rest[0] == '"' {
        if inQuotes && |rest| > 1 && rest[1] == '"' {
          ScanExtends(rest[2..], out, cur + "\"", inQuotes);
        } else {
          ScanExtends(rest[1..], out, cur, !inQuotes);
        }
      } else if rest[0] == ',' && !inQuotes {
        ScanExtends(rest[1..], out + [cur], "", inQuotes);
        assert (out + [cur])[..|out|] == out;
      } else {
        ScanExtends(rest[1..], out, cur + [rest[0]], inQuotes);
      }
    }
  }

  /** `parseCsvLine`: the cells of one line, each trimmed; there is always at least
      one. */
  function ParseLine(line: string): (r: seq<string>)
    ensures |r| >= 1
    ensures forall i :: 0 <= i < |r| ==> NoEdgeSpace(r[i])
  {
    ScanExtends(line, [], "", false);
    TrimAll(Scan(line, [], "", false))
  }

  /** The loop of `parseCsvLine`, character by character; an escaped quote consumes
      two characters. */
  method ParseCsvLine(line: string) returns (cells: seq<string>)
    ensures cells == ParseLine(line)
  {
    var out: seq<string> := [];
    var cur := "";
    var inQuotes := false;
    var i := 0;
    while i < |line|
      invariant 0 <= i <= |line|
      invariant Scan(line[i..], out, cur, inQuotes) == Scan(line, [], "", false)
    {
      var ch := line[i];
      if ch == '"' {
        if inQuotes && i + 1 < |line| && line[i + 1] == '"' {
          assert line[i..][2..] == line[i + 2..];
          cur := cur + "\"";
          i := i + 1;
        } else {
          assert line[i..][1..] == line[i + 1..];
          inQuotes := !inQuotes;
        }
      } else if ch == ',' && !inQuotes {
        assert line[i..][1..] == line[i + 1..];
        out := out + [cur];
        cur := "";
      } else {
        assert line[i..][1..] == line[i + 1..];
        cur := cur + [ch];
      }
      i := i + 1;
    }
    out := out + [cur];
    cells := TrimAll(out);
  }

  /** Scanning text without quotes or commas only extends the current cell. */
  lemma {:induction false} ScanPlain(v: string, rest: string, out: seq<string>, cur: string, inQuotes: bool)
    requires '"' !in v && ',' !in v
    ensures Scan(v + rest, out, cur, inQuotes) == Scan(rest, out, cur + v, inQuotes)
    decreases |v|
  {
    if v != [] {
      assert (v + rest)[0] == v[0];
      assert (v + rest)[1..] == v[1..] + rest;
      ScanPlain(v[1..], rest, out, cur + [v[0]], inQuotes);
      assert cur + [v[0]] + v[1..] == cur + v;
    } else {
      assert v + rest == rest;
      assert cur + v == cur;
    }
  }

  /** Without quotes, a comma always ends a cell. */
  lemma {:induction false} ScanNoQuotes(s: string, out: seq<string>, cur: string)
    requires '"' !in s
    ensures Scan(s, out, cur, false) == out + [cur + Split(s, ',')[0]] + Split(s, ',')[1..]
    decreases |s|
  {
    if s == [] {
      assert Split(s, ',') == [""];
      assert cur + "" == cur;
    } else if s[0] == ',' {
      ScanNoQuotes(s[1..], out + [cur], "");
      ScanComma(s, out, cur);
    } else {
      ScanNoQuotes(s[1..], out, cur + [s[0]]);
      ScanOther(s, out, cur);
    }
  }

  lemma ScanComma(s: string, out: seq<string>, cur: string)
    requires s != [] && s[0] == ','
    requires var rest := Split(s[1..], ',');
             Scan(s[1..], out + [cur], "", false) == out + [cur] + ["" + rest[0]] + rest[1..]
    ensures Scan(s, out, cur, false) == out + [cur + Split(s, ',')[0]] + Split(s, ',')[1..]
  {
    SplitCons(s, ',');
    CommaPieces(out, cur, Split(s[1..], ','));
  }

  /** The pieces after a comma: an empty first piece closes the current cell. */
  lemma CommaPieces(out: seq<string>, cur: string, rest: seq<string>)
    requires rest != []
    ensures out + [cur] + ["" + rest[0]] + rest[1..] == out + [cur + ([""] + rest)[0]] + ([""] + rest)[1..]
  {
    assert "" + rest[0] == rest[0];
    assert [rest[0]] + rest[1..] == rest;
    assert cur + "" == cur;
    assert ([""] + rest)[1..] == rest;
  }

  lemma ScanOther(s: string, out: seq<string>, cur: string)
    requires s != [] && s[0] != ',' && s[0] != '"'
    requires var rest := Split(s[1..], ',');
             Scan(s[1..], out, cur + [s[0]], false) == out + [cur + [s[0]] + rest[0]] + rest[1..]
    ensures Scan(s, out, cur, false) == out + [cur + Split(s, ',')[0]] + Split(s, ',')[1..]
  {
    SplitCons(s, ',');
    var rest := Split(s[1..], ',');
    assert cur + [s[0]] + rest[0] == cur + ([s[0]] + rest[0]);
  }

  /** A line without quotes is split at every comma and each piece trimmed. */
  lemma ParseLineNoQuotes(line: string)
    requires '"' !in line
    ensures ParseLine(line) == TrimAll(Split(line, ','))
  {
    ScanNoQuotes(line, [], "");
    var p := Split(line, ',');
    assert "" + p[0] == p[0];
    assert [] + [p[0]] + p[1..] == p;
    assert Scan(line, [], "", false) == p;
  }

  // ---------------------------------------------------------------------------
  // Lines of a file

  /** A line that is not blank (`l.trim().length > 0`): it holds a character that
      is not white space. */
  predicate NotBlank(l: string) {
    !AllSpace(l)
  }

  lemma NotBlankTrim(l: string)
    ensures NotBlank(l) <==> Trim(l) != ""
  {
  }

  /** One line of `split(/\r?\n/)`: a piece between line feeds without the carriage
      return that may end it. */
  function DropCr(l: string): (r: string)
    ensures r == l || (l == r + "\r")
  {
    if l != [] && l[|l| - 1] == '\r' then l[..|l| - 1] else l
  }

  function DropCrAll(ls: seq<string>): (r: seq<string>)
    ensures |r| == |ls|
    ensures forall i :: 0 <= i < |r| ==> r[i] == DropCr(ls[i])
  {
    seq(|ls|, i requires 0 <= i < |ls| => DropCr(ls[i]))
  }

  /** The non-blank lines of a file, in order; none holds a line feed. */
  function Lines(raw: string): (r: seq<string>)
    ensures forall i :: 0 <= i < |r| ==> NotBlank(r[i]) && '\n' !in r[i]
  {
    var pieces := Split(raw, '\n');
    var lines := DropCrAll(pieces);
    forall i | 0 <= i < |lines| ensures '\n' !in lines[i] {
      assert '\n' !in pieces[i];
    }
    Filter(lines, NotBlank)
  }

  /** Lines that hold neither a line feed nor a carriage return. */
  predicate PlainLines(ls: seq<string>) {
    forall i :: 0 <= i < |ls| ==> '\n' !in ls[i] && '\r' !in ls[i]
  }

  /** A file of plain lines joined with line feeds gives back those lines, without
      the blank ones. */
  lemma LinesOfLf(ls: seq<string>)
    requires |ls| >= 1 && PlainLines(ls)
    ensures Lines(Join(ls, "\n")) == Filter(ls, NotBlank)
  {
    SplitJoin(ls, '\n');
    assert DropCrAll(ls) == ls;
  }

  /** The carriage-return-and-line-feed join is the line-feed join of the lines
      each followed by a carriage return but the last. */
  lemma CrLfJoin(ls: seq<string>)
    requires |ls| >= 1
    ensures Join(ls, "\r\n") == Join(Wrap(ls, "", "\r", ""), "\n")
  {
    JoinWrap(ls, "", "\r", '\n', "");
    assert "\r" + ['\n'] + "" == "\r\n";
    assert "" + Join(ls, "\r\n") == Join(ls, "\r\n");
  }

  /** Dropping the carriage returns of the widened lines gives the lines back. */
  lemma CrLfPieces(ls: seq<string>)
    requires PlainLines(ls)
    ensures PlainLines(ls)
    ensures var w := Wrap(ls, "", "\r", "");
            (forall i :: 0 <= i < |w| ==> '\n' !in w[i]) && DropCrAll(w) == ls
  {
    var w := Wrap(ls, "", "\r", "");
    forall i | 0 <= i < |w| ensures '\n' !in w[i] && DropCr(w[i]) == ls[i] {
      if i < |w| - 1 {
        assert w[i] == ls[i] + "\r";
        assert w[i][..|w[i]| - 1] == ls[i];
      } else {
        assert w[i] == "" + ls[i] + "";
      }
    }
  }

  /** The same lines joined with carriage return and line feed read alike: the
      carriage returns are dropped. */
  lemma LinesOfCrLf(ls: seq<string>)
    requires |ls| >= 1 && PlainLines(ls)
    ensures Lines(Join(ls, "\r\n")) == Filter(ls, NotBlank)
  {
    var w := Wrap(ls, "", "\r", "");
    CrLfJoin(ls);
    CrLfPieces(ls);
    SplitJoin(w, '\n');
  }

  function ParseAll(lines: seq<string>): (rows: seq<seq<string>>)
    ensures |rows| == |lines|
    ensures forall i :: 0 <= i < |rows| ==> rows[i] == ParseLine(lines[i])
  {
    seq(|lines|, i requires 0 <= i < |lines| => ParseLine(lines[i]))
  }

  /** `readCsv`: the cells of every non-blank line, one row per line and in line
      order. No row is empty. */
  function ReadCsv(raw: string): (rows: seq<seq<string>>)
    ensures |rows| == |Lines(raw)|
    ensures forall i :: 0 <= i < |rows| ==> rows[i] == ParseLine(Lines(raw)[i]) && |rows[i]| >= 1
  {
    ParseAll(Lines(raw))
  }

  // ---------------------------------------------------------------------------
  // Columns

  /** `header.indexOf(name)`: the first position of `name`, or -1. */
  function IndexOf(header: seq<string>, name: string): (r: int)
    ensures r == -1 <==> name !in header
    ensures r != -1 ==> 0 <= r < |header| && header[r] == name
                        && forall j :: 0 <= j < r ==> header[j] != name
  {
    if header == [] then -1
    else if header[0] == name then 0
    else
      var r := IndexOf(header[1..], name);
      assert name in header[1..] ==> name in header;
      if r == -1 then -1 else r + 1
  }

  /** `row[idx(name)]`: the cell of the column, or `None` when the row is shorter
      than the header (or the column is absent). */
  function Cell(header: seq<string>, row: seq<string>, name: string): (r: Option<string>)
    ensures r.Some? <==> 0 <= IndexOf(header, name) < |row|
  {
    var i := IndexOf(header, name);
    if 0 <= i < |row| then Some(row[i]) else None
  }

  /** A token cell, with a missing cell read as "". Every use of a token field in
      the model treats the two alike (an empty and a missing name or identifier
      both fail validation, and neither counts as a known identifier). */
  function TextCell(header: seq<string>, row: seq<string>, name: string): string {
    Cell(header, row, name).GetOr("")
  }

  /** The first column of `required`, in order, that the header lacks. */
  function FirstMissing(required: seq<string>, header: seq<string>): (r: Option<string>)
    ensures r.None? <==> forall i :: 0 <= i < |required| ==> required[i] in header
    ensures r.Some? ==> r.value in required && r.value !in header
  {
    if required == [] then None
    else if required[0] !in header then Some(required[0])
    else
      var r := FirstMissing(required[1..], header);
      assert forall i :: 1 <= i < |required| ==> required[i] == required[1..][i - 1];
      r
  }

  /** The message of the exception thrown when the file has no lines. */
  const NoHeaderMessage: string := "Cannot read properties of undefined (reading 'indexOf')"

  function MissingColumnMessage(c: string): string {
    "CSV missing column: " + c
  }

  // ---------------------------------------------------------------------------
  // Token rows

  /** The columns `readTokensFromCsv` requires, in the order it checks them. The
      coin-type column is not among them and is never read. */
  const TokenColumns: seq<string> := [
    "name", "symbol", "decimals", "objectId", "logoURI", "verified", "verifiedBy",
    "addedAt", "tags", "website", "twitter", "github", "discord", "telegram",
    "description", "version"
  ]

  /** The columns copied into the extensions, in order. */
  const ExtensionColumns: seq<string> := ["website", "twitter", "github", "discord", "telegram", "description"]

  /** `Number(text)` for a trimmed non-empty cell: an integer exactly when the text
      is integer syntax, and the integer it spells; the decimal spelling of any
      integer reads as that integer. */
  function NumberOf(text: string): (r: Num)
    ensures r.Int? <==> ParseInt(text).Some?
    ensures r.Int? ==> ParseInt(text) == Some(r.value)
    ensures r.NonInteger? ==> r.text == text
    ensures forall n :: text == IntToString(n) ==> r == Int(n)
  {
    forall n | text == IntToString(n) ensures ParseInt(text) == Some(n) {
      ParseIntToString(n);
    }
    match ParseInt(text)
    case Some(n) => Int(n)
    case None => NonInteger(text)
  }

  /** A truthy cell, or `None`: `cell || undefined`. */
  function NonEmpty(v: string): (r: Option<string>)
    ensures r.Some? <==> v != ""
    ensures r.Some? ==> r.value == v
  {
    if v == "" then None else Some(v)
  }

  predicate NonEmptyText(v: string) {
    v != ""
  }

  /** The tags of a row: for a non-empty cell, the split at commas with the white
      space around each comma dropped, without empty pieces; otherwise none. */
  function TagsOf(cell: string): (tags: seq<string>)
    ensures forall i :: 0 <= i < |tags| ==> tags[i] != "" && NoEdgeSpace(tags[i]) && ',' !in tags[i]
  {
    if cell == "" then []
    else
      var pieces := TrimAll(Split(cell, ','));
      var kept := Filter(pieces, NonEmptyText);
      forall i | 0 <= i < |kept| ensures ',' !in kept[i] {
        var j :| 0 <= j < |pieces| && pieces[j] == kept[i];
        TrimNoNewChar(Split(cell, ',')[j], ',');
      }
      kept
  }

  /** The spaced join is the comma join of the tags padded with a space inside
      each gap. */
  lemma SpacedJoin(ts: seq<string>)
    requires ts != []
    ensures Join(ts, " , ") == Join(Wrap(ts, "", " ", " "), [','])
  {
    JoinWrap(ts, "", " ", ',', " ");
    assert " " + [','] + " " == " , ";
    assert "" + Join(ts, " , ") == Join(ts, " , ");
  }

  /** Each padded tag holds no comma and trims back to the tag. */
  lemma SpacedPieces(ts: seq<string>)
    requires forall i :: 0 <= i < |ts| ==> ts[i] != "" && NoEdgeSpace(ts[i]) && ',' !in ts[i]
    ensures var w := Wrap(ts, "", " ", " ");
            forall i :: 0 <= i < |w| ==> ',' !in w[i] && Trim(w[i]) == ts[i] && w[i] != ""
  {
    var w := Wrap(ts, "", " ", " ");
    forall i | 0 <= i < |w| ensures ',' !in w[i] && Trim(w[i]) == ts[i] && w[i] != "" {
      var p := if i == 0 then "" else " ";
      var q := if i < |ts| - 1 then " " else "";
      assert w[i] == p + ts[i] + q;
      TrimPadded(p, ts[i], q);
    }
  }

  /** A non-empty cell whose trimmed pieces are all non-empty has those pieces as
      its tags. */
  lemma TagsOfPieces(cell: string, ts: seq<string>)
    requires cell != "" && TrimAll(Split(cell, ',')) == ts
    requires forall i :: 0 <= i < |ts| ==> ts[i] != ""
    ensures TagsOf(cell) == ts
  {
    FilterAll(ts, NonEmptyText);
  }

  lemma TrimAllTo(w: seq<string>, ts: seq<string>)
    requires |w| == |ts| && forall i :: 0 <= i < |w| ==> Trim(w[i]) == ts[i]
    ensures TrimAll(w) == ts
  {
  }

  /** The spaced join splits at its commas into the padded tags, which trim back
      to the tags, and it is not empty. */
  lemma SpacedSplit(ts: seq<string>)
    requires ts != []
    requires forall i :: 0 <= i < |ts| ==> ts[i] != "" && NoEdgeSpace(ts[i]) && ',' !in ts[i]
    ensures Split(Join(ts, " , "), ',') == Wrap(ts, "", " ", " ")
    ensures TrimAll(Wrap(ts, "", " ", " ")) == ts
    ensures Join(ts, " , ") != ""
  {
    var w := Wrap(ts, "", " ", " ");
    SpacedPieces(ts);
    SpacedJoin(ts);
    SplitJoin(w, ',');
    SplitEmpty(',');
    TrimAllTo(w, ts);
  }

  /** Tags written with a comma and a space on either side read back as written. */
  lemma TagsOfSpaced(ts: seq<string>)
    requires ts != []
    requires forall i :: 0 <= i < |ts| ==> ts[i] != "" && NoEdgeSpace(ts[i]) && ',' !in ts[i]
    ensures TagsOf(Join(ts, " , ")) == ts
  {
    SpacedSplit(ts);
    TagsOfPieces(Join(ts, " , "), ts);
  }

  /** Trimming only removes characters. */
  lemma NotInSlice(s: string, c: char, a: nat, b: nat)
    requires c !in s && a <= b <= |s|
    ensures c !in s[a..b]
  {
    forall k | a <= k < b ensures s[a..b][k - a] == s[k] { }
  }

  /** The extensions from the six social columns: every non-empty cell under its
      column name. */
  function ExtMap(header: seq<string>, row: seq<string>, keys: seq<string>): (m: map<string, string>)
    ensures forall k :: k in m <==> k in keys && TextCell(header, row, k) != ""
    ensures forall k :: k in m ==> m[k] == TextCell(header, row, k)
  {
    if keys == [] then map[]
    else
      var n := |keys| - 1;
      var m := ExtMap(header, row, keys[..n]);
      assert keys == keys[..n] + [keys[n]];
      var v := TextCell(header, row, keys[n]);
      if v != "" then m[keys[n] := v] else m
  }

  /** One row as a token record: never a coin type, an identifier lower-cased from
      its cell (so as long as the cell), no empty logo, verifier or tag, and no
      empty extension map. */
  function RowToken(header: seq<string>, row: seq<string>): (t: Token)
    ensures t.coinType.None? && Lower(t.objectId) == t.objectId
    ensures |t.objectId| == |TextCell(header, row, "objectId")|
    ensures t.logoURI.Some? ==> t.logoURI.value != ""
    ensures t.verifiedBy.Some? ==> t.verifiedBy.value != ""
    ensures t.tags.Some? && forall i :: 0 <= i < |t.tags.value| ==> t.tags.value[i] != ""
    ensures t.extensions.Some? ==> t.extensions.value != map[]
  {
    LowerIdempotent(TextCell(header, row, "objectId"));
    var decimals := TextCell(header, row, "decimals");
    var version := TextCell(header, row, "version");
    var exts := ExtMap(header, row, ExtensionColumns);
    Token(
      name := TextCell(header, row, "name"),
      symbol := TextCell(header, row, "symbol"),
      decimals := if decimals != "" then NumberOf(decimals) else Int(0),
      objectId := Lower(TextCell(header, row, "objectId")),
      coinType := None,
      logoURI := NonEmpty(TextCell(header, row, "logoURI")),
      verified := Lower(TextCell(header, row, "verified")) == "true",
      verifiedBy := NonEmpty(TextCell(header, row, "verifiedBy")),
      addedAt := TextCell(header, row, "addedAt"),
      tags := Some(TagsOf(TextCell(header, row, "tags"))),
      extensions := if exts == map[] then None else Some(exts),
      version := if version != "" then Some(NumberOf(version)) else None
    )
  }

  /** `f` of every data row, in order, skipping empty rows. */
  function EachRow<T>(data: seq<seq<string>>, f: seq<string> -> T): (r: seq<T>)
    ensures |r| <= |data|
  {
    if data == [] then []
    else
      var n := |data| - 1;
      EachRow(data[..n], f) + (if |data[n]| == 0 then [] else [f(data[n])])
  }

  /** The records of the data rows, skipping empty rows. */
  function RowTokens(header: seq<string>, data: seq<seq<string>>): (ts: seq<Token>)
    ensures |ts| <= |data|
  {
    EachRow(data, row => RowToken(header, row))
  }

  /** `readTokensFromCsv` on the rows of a file: fails when there is no header line
      or the header lacks a required column (the first one missing, in the order
      they are checked, is named); otherwise one record per data row. */
  function ReadTokens(rows: seq<seq<string>>): (r: Result<seq<Token>>)
    ensures r.Ok? <==> rows != [] && forall i :: 0 <= i < |TokenColumns| ==> TokenColumns[i] in rows[0]
    ensures r.Err? && rows != [] ==>
              exists i :: 0 <= i < |TokenColumns| && TokenColumns[i] !in rows[0] && r.error == MissingColumnMessage(TokenColumns[i])
    ensures r.Ok? ==> |r.value| <= |rows| - 1
  {
    if rows == [] then Err(NoHeaderMessage)
    else
      match FirstMissing(TokenColumns, rows[0])
      case Some(c) => Err(MissingColumnMessage(c))
      case None => Ok(RowTokens(rows[0], rows[1..]))
  }

  /** The check that every required column is present, in order; the first one
      missing is returned. */
  method CheckColumns(required: seq<string>, header: seq<string>) returns (missing: Option<string>)
    ensures missing == FirstMissing(required, header)
  {
    for k := 0 to |required|
      invariant forall j :: 0 <= j < k ==> required[j] in header
    {
      if IndexOf(header, required[k]) == -1 {
        assert FirstMissing(required[..k + 1], header) == Some(required[k]) by {
          FirstMissingPrefix(required[..k], required[k], header);
          assert required[..k] + [required[k]] == required[..k + 1];
        }
        FirstMissingExtend(required[..k + 1], required[k + 1..], header);
        assert required[..k + 1] + required[k + 1..] == required;
        return Some(required[k]);
      }
    }
    return None;
  }

  /** The reader: the header check, then the loop over the data rows. */
  method ReadTokensFromCsv(rows: seq<seq<string>>) returns (r: Result<seq<Token>>)
    ensures r == ReadTokens(rows)
  {
    if |rows| == 0 {
      return Err(NoHeaderMessage);
    }
    var header := rows[0];
    var data := rows[1..];
    var missing := CheckColumns(TokenColumns, header);
    if missing.Some? {
      return Err(MissingColumnMessage(missing.value));
    }
    var tokens := ConvertRows(header, data);
    return Ok(tokens);
  }

  /** The loop over the data rows: empty rows are skipped, every other row becomes
      a record, in order. */
  method ConvertRows(header: seq<string>, data: seq<seq<string>>) returns (tokens: seq<Token>)
    ensures tokens == RowTokens(header, data)
  {
    tokens := [];
    for i := 0 to |data|
      invariant tokens == RowTokens(header, data[..i])
    {
      RowTokensSnoc(header, data, i);
      if |data[i]| == 0 {
        continue;
      }
      var t := RowToken(header, data[i]);
      tokens := tokens + [t];
    }
    assert data[..|data|] == data;
  }

  /** With no empty row, every data row gives one element, in order. */
  lemma {:induction false} EachRowAll<T>(data: seq<seq<string>>, f: seq<string> -> T)
    requires forall i :: 0 <= i < |data| ==> |data[i]| > 0
    ensures EachRow(data, f) == seq(|data|, i requires 0 <= i < |data| => f(data[i]))
    decreases |data|
  {
    if data != [] {
      var n := |data| - 1;
      EachRowAll(data[..n], f);
    }
  }

  lemma EachRowSnoc<T>(data: seq<seq<string>>, f: seq<string> -> T, i: nat)
    requires i < |data|
    ensures EachRow(data[..i + 1], f) == EachRow(data[..i], f) + (if |data[i]| == 0 then [] else [f(data[i])])
  {
    assert data[..i + 1][..i] == data[..i];
  }

  /** With no empty row, every data row gives one record, in order. */
  lemma RowTokensEach(header: seq<string>, data: seq<seq<string>>)
    requires forall i :: 0 <= i < |data| ==> |data[i]| > 0
    ensures RowTokens(header, data) == seq(|data|, i requires 0 <= i < |data| => RowToken(header, data[i]))
  {
    EachRowAll(data, row => RowToken(header, row));
  }

  lemma RowTokensSnoc(header: seq<string>, data: seq<seq<string>>, i: nat)
    requires i < |data|
    ensures RowTokens(header, data[..i + 1])
            == RowTokens(header, data[..i]) + (if |data[i]| == 0 then [] else [RowToken(header, data[i])])
  {
    EachRowSnoc(data, row => RowToken(header, row), i);
  }

  lemma {:induction false} FirstMissingPrefix(before: seq<string>, c: string, header: seq<string>)
    requires forall j :: 0 <= j < |before| ==> before[j] in header
    requires c !in header
    ensures FirstMissing(before + [c], header) == Some(c)
    decreases |before|
  {
    if before == [] {
      assert before + [c] == [c];
    } else {
      assert (before + [c])[1..] == before[1..] + [c];
      FirstMissingPrefix(before[1..], c, header);
    }
  }

  /** Columns after the first missing one do not change what is reported. */
  lemma {:induction false} FirstMissingExtend(a: seq<string>, b: seq<string>, header: seq<string>)
    requires FirstMissing(a, header).Some?
    ensures FirstMissing(a + b, header) == FirstMissing(a, header)
    decreases |a|
  {
    if a[0] in header {
      assert (a + b)[1..] == a[1..] + b;
      FirstMissingExtend(a[1..], b, header);
    }
  }

  // ---------------------------------------------------------------------------
  // The ban list

  const BannedColumns: seq<string> := ["objectId", "reason", "addedAt"]

  const BannedListName: string := "Polar Banned Tokens"

  function RowEntry(header: seq<string>, row: seq<string>): BannedEntry {
    var id := Cell(header, row, "objectId");
    BannedEntry(
      objectId := if id.Some? then Some(Lower(id.value)) else None,
      reason := NonEmpty(Cell(header, row, "reason").GetOr("")),
      addedAt := NonEmpty(Cell(header, row, "addedAt").GetOr(""))
    )
  }

  /** `readBannedFromCsv` on the rows of a file, stamped with `now`: it fails exactly
      when there is no header or the header lacks one of the three columns, and
      otherwise keeps one entry per data row (empty rows included), in order. An
      empty or missing reason or timestamp cell is read as absent. */
  function ReadBanned(rows: seq<seq<string>>, now: string): (r: Result<BannedList>)
    ensures r.Ok? <==> rows != [] && forall i :: 0 <= i < |BannedColumns| ==> BannedColumns[i] in rows[0]
    ensures r.Err? && rows != [] ==>
              exists i :: 0 <= i < |BannedColumns| && BannedColumns[i] !in rows[0] && r.error == MissingColumnMessage(BannedColumns[i])
    ensures r.Ok? ==> r.value.updatedAt == now && |r.value.banned| == |rows| - 1
    ensures r.Ok? ==> 0 <= IndexOf(rows[0], "objectId")
    ensures r.Ok? ==> forall i :: 1 <= i < |rows| ==>
              var e := r.value.banned[i - 1];
              (e.objectId.Some? <==> IndexOf(rows[0], "objectId") < |rows[i]|)
              && (e.objectId.Some? ==> e.objectId.value == Lower(rows[i][IndexOf(rows[0], "objectId")]))
    ensures r.Ok? ==> forall i :: 1 <= i < |rows| ==>
              var e := r.value.banned[i - 1];
              (e.reason.Some? <==> TextCell(rows[0], rows[i], "reason") != "")
              && (e.reason.Some? ==> e.reason.value == TextCell(rows[0], rows[i], "reason"))
              && (e.addedAt.Some? <==> TextCell(rows[0], rows[i], "addedAt") != "")
              && (e.addedAt.Some? ==> e.addedAt.value == TextCell(rows[0], rows[i], "addedAt"))
  {
    if rows == [] then Err(NoHeaderMessage)
    else
      match FirstMissing(BannedColumns, rows[0])
      case Some(c) => Err(MissingColumnMessage(c))
      case None =>
        var data := rows[1..];
        Ok(BannedList(BannedListName, "sui", now,
                      seq(|data|, i requires 0 <= i < |data| => RowEntry(rows[0], data[i]))))
  }
}
