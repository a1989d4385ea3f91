/** The provider-neutral part of discovery: a discovered coin, the token row made
    from it, and the CSV text the discovered rows are written as. */
module Provider {
  import opened Wrappers
  import opened Strings
  import opened Types
  import opened Validate

  /** A coin as a discovery provider reports it. */
  datatype DiscoveredCoin = DiscoveredCoin(
    name: string,
    symbol: string,
    decimals: int,
    objectId: string,
    coinType: Option<string>,
    logoURI: Option<string>,
    website: Option<string>
  )

  /** `toTokenRows` for one coin: trimmed name and symbol, lower-cased identifier,
      unverified, stamped with `now`, tagged "auto", version 1, and a website
      extension exactly when the coin has a non-empty website. */
  function ToTokenRow(c: DiscoveredCoin, now: string): Token {
    Token(
      name := Trim(c.name),
      symbol := Trim(c.symbol),
      decimals := Int(c.decimals),
      objectId := Lower(c.objectId),
      coinType := c.coinType,
      logoURI := c.logoURI,
      verified := false,
      verifiedBy := None,
      addedAt := now,
      tags := Some(["auto"]),
      extensions := if c.website.Some? && c.website.value != "" then Some(map["website" := c.website.value]) else None,
      version := Some(Int(1))
    )
  }

  /** `toTokenRows`: one fresh row per coin, in order. */
  function ToTokenRows(coins: seq<DiscoveredCoin>, now: string): (rows: seq<Token>)
    ensures |rows| == |coins|
    ensures forall i :: 0 <= i < |rows| ==>
              rows[i].objectId == Lower(coins[i].objectId) && !rows[i].verified && rows[i].addedAt == now
    ensures forall i :: 0 <= i < |rows| ==> rows[i] == ToTokenRow(coins[i], now)
  {
    seq(|coins|, i requires 0 <= i < |coins| => ToTokenRow(coins[i], now))
  }

  /** A fresh row is unverified, carries no verifier, has no edge white space in
      its name and symbol, and its identifier is already lower-case. Name, symbol
      and identifier are the coin's, trimmed and lower-cased; the coin type,
      decimals and logo are the coin's; the only extension is the website, present
      exactly when the coin has a non-empty one, and the writer's website cell is
      that website or empty. */
  lemma ToTokenRowFresh(c: DiscoveredCoin, now: string)
    ensures var t := ToTokenRow(c, now);
            !t.verified && t.verifiedBy.None? && t.addedAt == now
            && t.tags == Some(["auto"]) && t.version == Some(Int(1))
            && Trim(t.name) == t.name && Trim(t.symbol) == t.symbol && Lower(t.objectId) == t.objectId
    ensures var t := ToTokenRow(c, now);
            t.name == Trim(c.name) && t.symbol == Trim(c.symbol) && t.objectId == Lower(c.objectId)
            && t.coinType == c.coinType && t.decimals == Int(c.decimals) && t.logoURI == c.logoURI
    ensures var t := ToTokenRow(c, now);
            (t.extensions.Some? <==> c.website.Some? && c.website.value != "")
            && (t.extensions.Some? ==> t.extensions.value.Keys == {"website"})
            && Ext(t, "website") == OrEmpty(c.website) && Ext(t, "description") == ""
  {
    var l := Lower(c.objectId);
    assert Lower(l) == l;
  }

  /** A fresh row passes validation exactly when the coin's trimmed name and symbol
      are non-empty, its decimals lie in 0..18, its lower-cased identifier is
      hexadecimal, `now` has the timestamp shape, and the logo is absent, empty or
      HTTPS. */
  lemma {:induction false} ToTokenRowAccepted(c: DiscoveredCoin, now: string)
    ensures ValidateToken(ToTokenRow(c, now)) == [] <==>
            Trim(c.name) != "" && Trim(c.symbol) != "" && 0 <= c.decimals <= 18
            && IsHexLower(Lower(c.objectId)) && IsIsoDate(now)
            && (c.logoURI.None? || c.logoURI.value == "" || StartsWith(c.logoURI.value, "https://"))
  {
    ToTokenRowValid(c, now);
    ValidateTokenEmptyIffValid(ToTokenRow(c, now));
  }

  lemma {:induction false} ToTokenRowValid(c: DiscoveredCoin, now: string)
    ensures IsValid(ToTokenRow(c, now)) <==>
            Trim(c.name) != "" && Trim(c.symbol) != "" && 0 <= c.decimals <= 18
            && IsHexLower(Lower(c.objectId)) && IsIsoDate(now)
            && (c.logoURI.None? || c.logoURI.value == "" || StartsWith(c.logoURI.value, "https://"))
  {
    var t := ToTokenRow(c, now);
    assert NameOk(t) == (Trim(c.name) != "") && SymbolOk(t) == (Trim(c.symbol) != "");
    assert DecimalsOk(t) == (0 <= c.decimals <= 18);
    assert IsHexLower(t.objectId) == IsHexLower(Lower(c.objectId)) && IsIsoDate(t.addedAt) == IsIsoDate(now);
    assert LogoOk(t) == (c.logoURI.None? || c.logoURI.value == "" || StartsWith(c.logoURI.value, "https://"));
  }

  // ---------------------------------------------------------------------------
  // The CSV text

  const Header: seq<string> := [
    "name", "symbol", "decimals", "coinType", "objectId", "logoURI", "verified",
    "verifiedBy", "addedAt", "tags", "website", "twitter", "github", "discord",
    "telegram", "description", "version"
  ]

  /** `x || ""` for an optional string. */
  function OrEmpty(o: Option<string>): string {
    if o.Some? then o.value else ""
  }

  /** `String(n)` for the numbers the model carries. A non-integer is written as
      the text it was read from. */
  function NumText(n: Num): string {
    match n
    case Int(v) => IntToString(v)
    case NonInteger(text) => text
  }

  /** An extension value, or "" when there is none. */
  function Ext(t: Token, key: string): string {
    if t.extensions.Some? && key in t.extensions.value then t.extensions.value[key] else ""
  }

  /** The tags joined by commas, or "auto" when there are none. */
  function TagsCell(t: Token): string {
    var joined := if t.tags.Some? then Join(t.tags.value, ",") else "";
    if joined != "" then joined else "auto"
  }

  /** The seventeen cells of a row, in header order. The social columns other than
      website and description are always written empty; a missing version is
      written as 1. */
  function RowCells(t: Token): (cells: seq<string>)
    ensures |cells| == |Header|
  {
    [t.name, t.symbol, NumText(t.decimals), OrEmpty(t.coinType), t.objectId, OrEmpty(t.logoURI),
     if t.verified then "true" else "false", OrEmpty(t.verifiedBy), t.addedAt, TagsCell(t),
     Ext(t, "website"), "", "", "", "", Ext(t, "description"),
     NumText(if t.version.Some? then t.version.value else Int(1))]
  }

  /** A cell is quoted when it is non-empty and holds a double quote, a comma or a
      line feed. */
  predicate NeedsQuotes(v: string) {
    v != "" && ('"' in v || ',' in v || '\n' in v)
  }

  /** Doubles every double quote. */
  function EscapeQuotes(v: string): (r: string)
    ensures |r| >= |v|
    ensures ',' in r <==> ',' in v
    ensures '\n' in r <==> '\n' in v
    ensures '\r' in r <==> '\r' in v
  {
    if v == [] then []
    else (if v[0] == '"' then "\"\"" else [v[0]]) + EscapeQuotes(v[1..])
  }

  /** A cell as written: left alone unless it needs quotes, and then wrapped in
      double quotes with its quotes doubled. Quoting adds no line break. */
  function QuoteCell(v: string): (r: string)
    ensures r == v <==> !NeedsQuotes(v)
    ensures NeedsQuotes(v) ==> |r| >= |v| + 2 && r[0] == '"' && r[|r| - 1] == '"'
    ensures '\n' in r <==> '\n' in v
    ensures '\r' in r <==> '\r' in v
  {
    if NeedsQuotes(v) then "\"" + EscapeQuotes(v) + "\"" else v
  }

  function CsvLine(cells: seq<string>): string {
    Join(seq(|cells|, i requires 0 <= i < |cells| => QuoteCell(cells[i])), ",")
  }

  /** The whole file `writeDiscoveredCsv` writes: the header line, one line per
      row, and a final line feed. */
  function DiscoveredCsv(tokens: seq<Token>): (text: string)
    ensures text != [] && text[|text| - 1] == '\n'
  {
    var head := Join(Header, ",");
    var lines := seq(|tokens|, i requires 0 <= i < |tokens| => CsvLine(RowCells(tokens[i])));
    head + "\n" + Join(lines, "\n") + "\n"
  }
}
