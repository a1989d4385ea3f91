/** The discovery script: collect the object identifiers already known from the
    discovered, validated and banned files, run the provider's discovery with the
    page cap taken from the environment, keep the coins whose identifier is not
    known, and append them as fresh rows to the discovered list. Each file is given
    as its text (absent when the file does not exist), the environment setting and
    the clock as parameters, and the provider's responses as the sequence of page
    results; the list and the text to write come back as the result. */
module DiscoverScript {
  import opened Wrappers
  import opened Strings
  import opened Types
  import opened Collections
  import opened Validate
  import opened Provider
  import opened Blockberry
  import opened Io
  import opened CsvRoundTrip

  /** The three data files, each absent or holding its text. */
  datatype DataFiles = DataFiles(discovered: Option<string>, validated: Option<string>, banned: Option<string>)

  /** How a run ends: a file or the discovery failed; nothing new was found (with
      the number of known identifiers and of coins discovered); or the discovered
      list was extended and is written as `text`. */
  datatype RunResult =
    | Failed(message: string)
    | NothingNew(known: nat, found: nat)
    | Wrote(tokens: seq<Token>, text: string)

  // ---------------------------------------------------------------------------
  // Known identifiers

  /** The identifiers of a token list that are truthy, that is non-empty. */
  function TokenIds(ts: seq<Token>): set<string> {
    IdSet(ts) - {""}
  }

  /** The truthy identifiers of a banned list; an entry read without the column
      has none. */
  function BanIds(bs: seq<BannedEntry>): set<string> {
    set i | 0 <= i < |bs| && bs[i].objectId.Some? && bs[i].objectId.value != "" :: bs[i].objectId.value
  }

  /** The identifiers the script treats as known. */
  function KnownIds(discovered: seq<Token>, validated: seq<Token>, banned: seq<BannedEntry>): set<string> {
    TokenIds(discovered + validated) + BanIds(banned)
  }

  /** An identifier is known exactly when it is non-empty and some discovered,
      validated or banned entry carries it. */
  lemma KnownIdsMembership(discovered: seq<Token>, validated: seq<Token>, banned: seq<BannedEntry>, id: string)
    ensures id in KnownIds(discovered, validated, banned) <==>
            id != "" && ((exists i :: 0 <= i < |discovered| && discovered[i].objectId == id)
                         || (exists i :: 0 <= i < |validated| && validated[i].objectId == id)
                         || (exists i :: 0 <= i < |banned| && banned[i].objectId == Some(id)))
  {
    IdSetAppend(discovered, validated);
  }

  lemma BanIdsSnoc(bs: seq<BannedEntry>, b: BannedEntry)
    ensures BanIds(bs + [b])
            == BanIds(bs) + (if b.objectId.Some? && b.objectId.value != "" then {b.objectId.value} else {})
  {
    var s := bs + [b];
    forall id | id in BanIds(bs) ensures id in BanIds(s) {
      var i :| 0 <= i < |bs| && bs[i].objectId.Some? && bs[i].objectId.value == id;
      assert s[i] == bs[i];
    }
    assert s[|bs|] == b;
  }

  /** The two loops that fill `knownObjectIds`: the records of both token lists,
      then the banned entries, each added when its identifier is truthy. */
  method CollectKnown(discovered: seq<Token>, validated: seq<Token>, banned: seq<BannedEntry>)
    returns (known: set<string>)
    ensures known == KnownIds(discovered, validated, banned)
  {
    known := {};
    var all := discovered + validated;
    var i := 0;
    while i < |all|
      invariant 0 <= i <= |all|
      invariant known == TokenIds(all[..i])
    {
      IdSetSnoc(all[..i], all[i]);
      assert all[..i + 1] == all[..i] + [all[i]];
      if all[i].objectId != "" {
        known := known + {all[i].objectId};
      }
      i := i + 1;
    }
    assert all[..i] == all;
    var j := 0;
    while j < |banned|
      invariant 0 <= j <= |banned|
      invariant known == TokenIds(all) + BanIds(banned[..j])
    {
      BanIdsSnoc(banned[..j], banned[j]);
      assert banned[..j + 1] == banned[..j] + [banned[j]];
      if banned[j].objectId.Some? && banned[j].objectId.value != "" {
        known := known + {banned[j].objectId.value};
      }
      j := j + 1;
    }
    assert banned[..j] == banned;
  }

  // ---------------------------------------------------------------------------
  // The page cap

  /** `BLOCKBERRY_MAX_PAGES`: every page when it is unset, "all" in any letter case,
      or exactly "0"; otherwise `Math.max(1, Number(value))`. `Number` ignores
      white space at the ends and reads empty text as 0; a value that is not a
      number gives NaN, which discovery treats as every page. */
  function PageLimitSetting(env: Option<string>): (limit: PageLimit)
    ensures limit.Limit? ==> limit.n >= 1
  {
    if env.None? || Lower(env.value) == "all" || env.value == "0" then Unbounded
    else
      var s := Trim(env.value);
      if s == "" then Limit(1)
      else
        match ParseInt(s)
        case Some(n) => Limit(if n < 1 then 1 else n)
        case None => Unbounded
  }

  /** The text of an integer `n` asks for every page when `n` is 0 and for
      `max(1, n)` pages otherwise. */
  lemma PageLimitOfCount(n: int)
    ensures PageLimitSetting(Some(IntToString(n))) == if n == 0 then Unbounded else Limit(if n < 1 then 1 else n)
  {
    var s := IntToString(n);
    ParseIntToString(n);
    CountNotAll(n);
    if n == 0 {
      assert s == "0";
    } else {
      CountNotZero(n);
    }
  }

  /** Only the exact text "0" means every page: "00" and " 0" give one page, as
      does empty text. */
  lemma ZeroSpellings()
    ensures PageLimitSetting(Some("0")) == Unbounded
    ensures PageLimitSetting(Some("00")) == Limit(1)
    ensures PageLimitSetting(Some(" 0")) == Limit(1)
    ensures PageLimitSetting(Some("")) == Limit(1)
    ensures PageLimitSetting(Some("ALL")) == Unbounded
  {
    assert Trim(" 0") == "0" by {
      assert IsSpace(" 0"[0]) && !IsSpace(" 0"[1]);
    }
  }

  /** Integer text is never "all". */
  lemma CountNotAll(n: int)
    ensures Lower(IntToString(n)) != "all"
  {
    var s := IntToString(n);
    ParseIntToString(n);
    if n < 0 {
      assert s[0] == '-';
    } else {
      NatDigits(n);
    }
    assert Lower(s)[0] == LowerChar(s[0]);
  }

  /** The text of a non-zero integer is not "0". */
  lemma CountNotZero(n: int)
    requires n != 0
    ensures IntToString(n) != "0"
  {
    ParseIntToString(n);
  }

  lemma NatDigits(n: int)
    requires n >= 0
    ensures IntToString(n) != [] && IsDigit(IntToString(n)[0])
  {
    ParseIntToString(n);
    var d := NatToString(n);
    assert forall k :: 0 <= k < |d| ==> IsDigit(d[k]);
  }

  // ---------------------------------------------------------------------------
  // New coins and the run

  /** `discoveredCoins.filter(coin => !knownObjectIds.has(coin.objectId))`. */
  function NewCoins(coins: seq<DiscoveredCoin>, known: set<string>): (unseen: seq<DiscoveredCoin>)
    ensures forall i :: 0 <= i < |unseen| ==> unseen[i] in coins && unseen[i].objectId !in known
    ensures forall i :: 0 <= i < |coins| && coins[i].objectId !in known ==> coins[i] in unseen
  {
    Filter(coins, (c: DiscoveredCoin) => c.objectId !in known)
  }

  /** Nothing is new exactly when every discovered identifier is known. */
  lemma NewCoinsEmpty(coins: seq<DiscoveredCoin>, known: set<string>)
    ensures NewCoins(coins, known) == [] <==> forall i :: 0 <= i < |coins| ==> coins[i].objectId in known
  {
    if forall i :: 0 <= i < |coins| ==> coins[i].objectId in known {
      FilterNone(coins, (c: DiscoveredCoin) => c.objectId !in known);
    }
  }

  /** The filter works coin by coin: the new coins of a concatenation are the new
      coins of each part, in order. */
  lemma NewCoinsAppend(a: seq<DiscoveredCoin>, b: seq<DiscoveredCoin>, known: set<string>)
    ensures NewCoins(a + b, known) == NewCoins(a, known) + NewCoins(b, known)
  {
    FilterAppend(a, b, (c: DiscoveredCoin) => c.objectId !in known);
  }

  /** One coin is new exactly when its identifier is not known. With
      `NewCoinsAppend` this fixes the result: the unknown coins in their
      discovered order, repeats included. */
  lemma NewCoinsSingle(c: DiscoveredCoin, known: set<string>)
    ensures NewCoins([c], known) == (if c.objectId in known then [] else [c])
  {
    assert [c][..0] == [];
  }

  /** A token file: none when it does not exist, else the records read from it. */
  function TokensIn(file: Option<string>): Result<seq<Token>> {
    if file.None? then Ok([]) else ReadTokens(ReadCsv(file.value))
  }

  /** The banned entries: none when the file does not exist. */
  function BannedIn(file: Option<string>, now: string): Result<seq<BannedEntry>> {
    if file.None? then Ok([])
    else
      match ReadBanned(ReadCsv(file.value), now)
      case Ok(list) => Ok(list.banned)
      case Err(e) => Err(e)
  }

  /** The whole run: read the three files, collect the known identifiers, discover
      with the configured cap, keep the coins not known, and append their fresh
      rows, stamped `now`, to the discovered records read. */
  function Run(files: DataFiles, env: Option<string>, pages: seq<FetchResult>, now: string): RunResult {
    var d := TokensIn(files.discovered);
    var v := TokensIn(files.validated);
    var b := BannedIn(files.banned, now);
    if d.Err? then Failed(d.error)
    else if v.Err? then Failed(v.error)
    else if b.Err? then Failed(b.error)
    else RunWith(d.value, KnownIds(d.value, v.value, b.value), env, pages, now)
  }

  /** The run once the files are read: `discovered` holds the discovered records
      and `known` the identifiers collected from all three files. */
  function RunWith(discovered: seq<Token>, known: set<string>, env: Option<string>, pages: seq<FetchResult>,
                   now: string): RunResult {
    var found := Harvest(PageCoins, pages, PageLimitSetting(env), 0, None, [], 0);
    if found.DiscoveryFailed? then Failed(found.message)
    else
      var unseen := NewCoins(found.coins, known);
      if unseen == [] then NothingNew(|known|, |found.coins|)
      else
        var tokens := discovered + ToTokenRows(unseen, now);
        Wrote(tokens, DiscoveredCsv(tokens))
  }

  /** `main`, with the file reads, the environment, the provider and the clock
      given as parameters. */
  method RunDiscovery(files: DataFiles, env: Option<string>, pages: seq<FetchResult>, now: string)
    returns (r: RunResult)
    ensures r == Run(files, env, pages, now)
  {
    var d := TokensIn(files.discovered);
    var v := TokensIn(files.validated);
    var b := BannedIn(files.banned, now);
    if d.Err? {
      return Failed(d.error);
    }
    if v.Err? {
      return Failed(v.error);
    }
    if b.Err? {
      return Failed(b.error);
    }
    var known := CollectKnown(d.value, v.value, b.value);
    var found := Discover(pages, PageLimitSetting(env));
    if found.DiscoveryFailed? {
      return Failed(found.message);
    }
    var unseen := NewCoins(found.coins, known);
    if unseen == [] {
      return NothingNew(|known|, |found.coins|);
    }
    var tokens := d.value + ToTokenRows(unseen, now);
    r := Wrote(tokens, DiscoveredCsv(tokens));
  }

  // ---------------------------------------------------------------------------
  // Properties of a run

  /** A run fails exactly when a file cannot be read or discovery fails, and then
      it reports the first of these errors, in the order the script meets them. */
  lemma RunFails(files: DataFiles, env: Option<string>, pages: seq<FetchResult>, now: string)
    ensures var r := Run(files, env, pages, now);
            var d := TokensIn(files.discovered);
            var v := TokensIn(files.validated);
            var b := BannedIn(files.banned, now);
            var found := Harvest(PageCoins, pages, PageLimitSetting(env), 0, None, [], 0);
            (r.Failed? <==> d.Err? || v.Err? || b.Err? || found.DiscoveryFailed?)
            && (r.Failed? ==> r.message == (if d.Err? then d.error else if v.Err? then v.error
                                           else if b.Err? then b.error else found.message))
  {
  }

  /** A run that writes keeps the discovered records read, in order, and appends
      the fresh rows of the new coins, one per coin in discovered order, each
      unverified, stamped `now` and with an identifier that was not known. */
  lemma RunAppendsUnknown(files: DataFiles, env: Option<string>, pages: seq<FetchResult>, now: string)
    ensures var r := Run(files, env, pages, now);
            r.Wrote? ==>
              TokensIn(files.discovered).Ok? && TokensIn(files.validated).Ok? && BannedIn(files.banned, now).Ok?
              && var d := TokensIn(files.discovered).value;
                 var known := KnownIds(d, TokensIn(files.validated).value, BannedIn(files.banned, now).value);
                 var found := Harvest(PageCoins, pages, PageLimitSetting(env), 0, None, [], 0);
                 |r.tokens| > |d| && r.tokens[..|d|] == d && r.text == DiscoveredCsv(r.tokens)
                 && r.tokens[|d|..] == ToTokenRows(NewCoins(found.coins, known), now)
                 && forall k :: |d| <= k < |r.tokens| ==>
                      r.tokens[k].objectId !in known && !r.tokens[k].verified && r.tokens[k].addedAt == now
  {
    var r := Run(files, env, pages, now);
    if r.Wrote? {
      var d := TokensIn(files.discovered).value;
      var known := KnownIds(d, TokensIn(files.validated).value, BannedIn(files.banned, now).value);
      assert r == RunWith(d, known, env, pages, now);
      RunWithAppends(d, known, env, pages, now);
    }
  }

  /** The same, once the files are read. */
  lemma RunWithAppends(d: seq<Token>, known: set<string>, env: Option<string>, pages: seq<FetchResult>,
                       now: string)
    ensures var r := RunWith(d, known, env, pages, now);
            var found := Harvest(PageCoins, pages, PageLimitSetting(env), 0, None, [], 0);
            r.Wrote? ==>
              |r.tokens| > |d| && r.tokens[..|d|] == d && r.text == DiscoveredCsv(r.tokens)
              && r.tokens[|d|..] == ToTokenRows(NewCoins(found.coins, known), now)
              && forall k :: |d| <= k < |r.tokens| ==>
                   r.tokens[k].objectId !in known && !r.tokens[k].verified && r.tokens[k].addedAt == now
  {
    var r := RunWith(d, known, env, pages, now);
    if r.Wrote? {
      var found := Harvest(PageCoins, pages, PageLimitSetting(env), 0, None, [], 0);
      var unseen := NewCoins(found.coins, known);
      var rows := ToTokenRows(unseen, now);
      assert r.tokens == d + rows;
      assert r.tokens[|d|..] == rows;
      DiscoverGathers(pages, PageLimitSetting(env));
      forall k | |d| <= k < |r.tokens|
        ensures r.tokens[k].objectId !in known && !r.tokens[k].verified && r.tokens[k].addedAt == now
      {
        var c := unseen[k - |d|];
        FreshIdKept(found.coins, c);
        assert r.tokens[k] == rows[k - |d|];
      }
    }
  }

  /** A discovered coin keeps its identifier in its fresh row. */
  lemma FreshIdKept(coins: seq<DiscoveredCoin>, c: DiscoveredCoin)
    requires AllWellFormed(coins) && c in coins
    ensures c.objectId != "" && Lower(c.objectId) == c.objectId
  {
    var i :| 0 <= i < |coins| && coins[i] == c;
  }

  /** A run finds nothing new exactly when the files read, discovery completes and
      every discovered identifier is already known. */
  lemma RunNothingNew(files: DataFiles, env: Option<string>, pages: seq<FetchResult>, now: string)
    ensures var r := Run(files, env, pages, now);
            var found := Harvest(PageCoins, pages, PageLimitSetting(env), 0, None, [], 0);
            r.NothingNew? <==>
              TokensIn(files.discovered).Ok? && TokensIn(files.validated).Ok? && BannedIn(files.banned, now).Ok?
              && found.Discovered?
              && forall i :: 0 <= i < |found.coins| ==>
                   found.coins[i].objectId in KnownIds(TokensIn(files.discovered).value,
                                                       TokensIn(files.validated).value,
                                                       BannedIn(files.banned, now).value)
  {
    var found := Harvest(PageCoins, pages, PageLimitSetting(env), 0, None, [], 0);
    if TokensIn(files.discovered).Ok? && TokensIn(files.validated).Ok? && BannedIn(files.banned, now).Ok?
       && found.Discovered? {
      var known := KnownIds(TokensIn(files.discovered).value, TokensIn(files.validated).value,
                            BannedIn(files.banned, now).value);
      NewCoinsEmpty(found.coins, known);
    }
  }

  /** Reading the banned file does not depend on the clock but for the stamp. */
  lemma BannedInStamp(file: Option<string>, now: string, now': string)
    ensures BannedIn(file, now) == BannedIn(file, now')
  {
  }

  /** Appending rows to the discovered list adds their identifiers to the known
      ones. */
  lemma KnownAppend(d: seq<Token>, rows: seq<Token>, v: seq<Token>, b: seq<BannedEntry>)
    ensures KnownIds(d + rows, v, b) == KnownIds(d, v, b) + TokenIds(rows)
  {
    IdSetAppend(d, rows);
    IdSetAppend(d + rows, v);
    IdSetAppend(d, v);
  }

  /** The identifier of every new coin is among the identifiers of its rows. */
  lemma FreshRowIds(unseen: seq<DiscoveredCoin>, now: string)
    requires forall i :: 0 <= i < |unseen| ==> unseen[i].objectId != "" && Lower(unseen[i].objectId) == unseen[i].objectId
    ensures forall i :: 0 <= i < |unseen| ==> unseen[i].objectId in TokenIds(ToTokenRows(unseen, now))
  {
    var rows := ToTokenRows(unseen, now);
    forall i | 0 <= i < |unseen| ensures unseen[i].objectId in TokenIds(rows) {
      assert rows[i].objectId == unseen[i].objectId;
    }
  }

  /** Every discovered coin is known once the rows of the coins that were not
      known are added. */
  lemma UnseenNowKnown(coins: seq<DiscoveredCoin>, known: set<string>, now: string)
    requires AllWellFormed(coins)
    ensures forall i :: 0 <= i < |coins| ==>
              coins[i].objectId in known + TokenIds(ToTokenRows(NewCoins(coins, known), now))
  {
    var unseen := NewCoins(coins, known);
    forall i | 0 <= i < |unseen| ensures unseen[i].objectId != "" && Lower(unseen[i].objectId) == unseen[i].objectId {
      FreshIdKept(coins, unseen[i]);
    }
    FreshRowIds(unseen, now);
  }

  /** A lower-case identifier known from records is still known from records that
      carry the same identifiers lower-cased. */
  lemma RereadKnownId(ts: seq<Token>, reread: seq<Token>, v: seq<Token>, b: seq<BannedEntry>, id: string)
    requires |reread| == |ts|
    requires forall i :: 0 <= i < |ts| ==> reread[i].objectId == Lower(ts[i].objectId)
    requires id in KnownIds(ts, v, b) && Lower(id) == id
    ensures id in KnownIds(reread, v, b)
  {
    KnownIdsMembership(ts, v, b, id);
    KnownIdsMembership(reread, v, b, id);
    if exists i :: 0 <= i < |ts| && ts[i].objectId == id {
      var i :| 0 <= i < |ts| && ts[i].objectId == id;
      assert reread[i].objectId == id;
    }
  }

  /** Every discovered coin is known from the records read back from the written
      list. */
  lemma CoinsKnownAfter(coins: seq<DiscoveredCoin>, ts: seq<Token>, reread: seq<Token>, v: seq<Token>,
                        b: seq<BannedEntry>)
    requires AllWellFormed(coins)
    requires forall i :: 0 <= i < |coins| ==> coins[i].objectId in KnownIds(ts, v, b)
    requires |reread| == |ts|
    requires forall i :: 0 <= i < |ts| ==> reread[i].objectId == Lower(ts[i].objectId)
    ensures forall i :: 0 <= i < |coins| ==> coins[i].objectId in KnownIds(reread, v, b)
  {
    forall i | 0 <= i < |coins| ensures coins[i].objectId in KnownIds(reread, v, b) {
      FreshIdKept(coins, coins[i]);
      RereadKnownId(ts, reread, v, b, coins[i].objectId);
    }
  }

  /** Running the script again on the file it wrote, with the same other files and
      the same provider responses, adds nothing: every coin it appended is now
      known. This needs the written records to survive the CSV round trip. */
  lemma SecondRunAddsNothing(files: DataFiles, env: Option<string>, pages: seq<FetchResult>, now: string, now': string)
    requires Run(files, env, pages, now).Wrote?
    requires var ts := Run(files, env, pages, now).tokens;
             forall i :: 0 <= i < |ts| ==> NoBreaks(RowCells(ts[i])) && NoEdgeSpace(ts[i].objectId)
    ensures Run(files.(discovered := Some(Run(files, env, pages, now).text)), env, pages, now').NothingNew?
  {
    var r := Run(files, env, pages, now);
    var d := TokensIn(files.discovered).value;
    var v := TokensIn(files.validated).value;
    var b := BannedIn(files.banned, now).value;
    var known := KnownIds(d, v, b);
    var found := Harvest(PageCoins, pages, PageLimitSetting(env), 0, None, [], 0);
    var rows := ToTokenRows(NewCoins(found.coins, known), now);
    assert r.tokens == d + rows && r.text == DiscoveredCsv(d + rows);
    IdsReadBack(d + rows);
    var reread := TokensIn(Some(r.text)).value;
    BannedInStamp(files.banned, now, now');
    DiscoverGathers(pages, PageLimitSetting(env));
    UnseenNowKnown(found.coins, known, now);
    KnownAppend(d, rows, v, b);
    CoinsKnownAfter(found.coins, d + rows, reread, v, b);
    RunNothingNew(files.(discovered := Some(r.text)), env, pages, now');
  }
}
