/** Discovery through the Blockberry coin listing: the raw coin record with its
    alternative field names, the spam test, the validity filter, the conversion to
    a discovered coin, and the paged fetch loop. The HTTP request itself is a
    parameter: `pages[k]` is what the request for API page `k` returns. */
module Blockberry {
  import opened Wrappers
  import opened Strings
  import opened Validate
  import opened Provider

  /** A coin as the listing returns it. Absent JSON fields are `None`. The coin-type
      aliases and the market fields are read by nothing that reaches the result and
      are left out. */
  datatype RawCoin = RawCoin(
    objectId: Option<string>,
    name: Option<string>,
    coinName: Option<string>,
    symbol: Option<string>,
    coinDenom: Option<string>,
    coinSymbol: Option<string>,
    decimals: Option<int>,
    description: Option<string>,
    iconUrl: Option<string>,
    icon_url: Option<string>,
    imgUrl: Option<string>,
    websiteUrl: Option<string>,
    website_url: Option<string>
  )

  /** A present, non-empty string. */
  predicate Truthy(o: Option<string>) {
    o.Some? && o.value != ""
  }

  /** `a || b` on optional strings: `a` when it is truthy, otherwise `b`. */
  function Or(a: Option<string>, b: Option<string>): (r: Option<string>)
    ensures Truthy(r) <==> Truthy(a) || Truthy(b)
  {
    if Truthy(a) then a else b
  }

  /** `a || d` with a string default. */
  function OrElse(a: Option<string>, d: string): (r: string)
    ensures Truthy(a) ==> r == a.value
    ensures !Truthy(a) ==> r == d
  {
    if Truthy(a) then a.value else d
  }

  // ---------------------------------------------------------------------------
  // Validity and spam

  /** The identifier as both the filter and the conversion read it. */
  function RawId(c: RawCoin): string {
    Lower(OrElse(c.objectId, ""))
  }

  /** The name the filter checks: `name`, else `coinName`, trimmed. */
  function FilterName(c: RawCoin): string {
    Trim(OrElse(Or(c.name, c.coinName), ""))
  }

  /** The symbol the filter checks: `symbol`, else `coinDenom`, else `coinSymbol`,
      trimmed. */
  function FilterSymbol(c: RawCoin): string {
    Trim(OrElse(Or(Or(c.symbol, c.coinDenom), c.coinSymbol), ""))
  }

  /** The text the spam patterns are matched against. */
  function SpamText(name: string, symbol: string, description: Option<string>): string {
    name + " " + symbol + " " + OrElse(description, "")
  }

  /** The characters U+00F0 U+0178 U+0161 followed by three U+20AC: the shortest
      text the rocket pattern matches. The pattern is the UTF-8 encoding of the
      rocket emoji read as Windows-1252, so its last character is the one
      repeated. */
  const RocketPattern: string := "\U{00F0}\U{0178}\U{0161}\U{20AC}\U{20AC}\U{20AC}"

  /** The anchored pattern "only x's, at least three", case-insensitive. */
  predicate OnlyXs(text: string) {
    |text| >= 3 && forall i :: 0 <= i < |text| ==> text[i] == 'x' || text[i] == 'X'
  }

  /** `isSpamToken`: any of the eight patterns matches. Case-insensitive patterns
      test the lower-cased text. */
  predicate IsSpam(text: string) {
    Contains(Lower(text), "test") || Contains(Lower(text), "fake") || Contains(Lower(text), "scam")
    || Contains(text, "$$$") || Contains(text, RocketPattern) || Contains(text, "...")
    || OnlyXs(text) || Contains(Lower(text), "admin")
  }

  /** `isValidToken`. Lengths are counted in UTF-16 code units. A coin that passes
      converts with exactly the name, symbol, identifier and decimals checked here
      (the fallbacks to "Unknown" and "UNKNOWN" are never taken), so it is well
      formed. */
  function IsValidToken(c: RawCoin): (b: bool)
    ensures b ==> Convert(c).name == FilterName(c) && Convert(c).symbol == FilterSymbol(c)
    ensures b ==> Convert(c).objectId == RawId(c) && c.decimals.Some? && Convert(c).decimals == c.decimals.value
    ensures b ==> WellFormed(Convert(c))
  {
    var name := FilterName(c);
    var symbol := FilterSymbol(c);
    assert Trim("") == "";
    LowerIdempotent(OrElse(c.objectId, ""));
    IsHexLower(RawId(c)) && name != "" && symbol != ""
    && c.decimals.Some? && 0 <= c.decimals.value <= 18
    && Utf16Length(symbol) <= 16 && Utf16Length(name) <= 64
    && !IsSpam(SpamText(name, symbol, c.description))
  }

  /** The "only x's" pattern never fires: the text always holds a space. */
  lemma OnlyXsNeverFires(name: string, symbol: string, description: Option<string>)
    ensures !OnlyXs(SpamText(name, symbol, description))
  {
    var text := SpamText(name, symbol, description);
    assert text[|name|] == ' ';
  }

  /** A name holding "test", "fake", "scam" or "admin" in any letter case makes the
      coin spam. */
  lemma SpamWordInName(name: string, symbol: string, description: Option<string>, word: string)
    requires word in ["test", "fake", "scam", "admin"]
    requires Contains(Lower(name), word)
    ensures IsSpam(SpamText(name, symbol, description))
  {
    WordInLowerText(name, symbol, description, word);
    SpamWord(SpamText(name, symbol, description), word);
  }

  /** What the lower-cased name contains, the lower-cased spam text contains. */
  lemma WordInLowerText(name: string, symbol: string, description: Option<string>, word: string)
    requires Contains(Lower(name), word)
    ensures Contains(Lower(SpamText(name, symbol, description)), word)
  {
    var rest := " " + symbol + " " + OrElse(description, "");
    SpamTextSplit(name, symbol, description);
    LowerAppend(name, rest);
    ContainsPrefix(Lower(name), Lower(rest), word);
  }

  lemma SpamTextSplit(name: string, symbol: string, description: Option<string>)
    ensures SpamText(name, symbol, description) == name + (" " + symbol + " " + OrElse(description, ""))
  {
  }

  /** Any of the four case-insensitive words in the text makes it spam. */
  lemma SpamWord(text: string, word: string)
    requires word in ["test", "fake", "scam", "admin"]
    requires Contains(Lower(text), word)
    ensures IsSpam(text)
  {
    if word == "test" {
      assert Contains(Lower(text), "test");
    } else if word == "fake" {
      assert Contains(Lower(text), "fake");
    } else if word == "scam" {
      assert Contains(Lower(text), "scam");
    } else {
      assert Contains(Lower(text), "admin");
    }
  }

  /** Three dots anywhere in the description make the coin spam. */
  lemma DotsInDescription(name: string, symbol: string, d: string)
    requires Contains(d, "...")
    ensures IsSpam(SpamText(name, symbol, Some(d)))
  {
    ContainsInfix(name + " " + symbol + " ", d, [], "...");
    assert name + " " + symbol + " " + d + [] == SpamText(name, symbol, Some(d));
  }

  /** Real rocket emoji (U+1F680) do not match the rocket pattern. */
  lemma RocketEmojiNotMatched()
    ensures !Contains("\U{1F680}\U{1F680}\U{1F680}", RocketPattern)
  {
  }

  /** A pattern whose first character the text never holds does not occur in it. */
  lemma {:induction false} FirstCharAbsent(s: string, pat: string)
    requires pat != [] && forall i :: 0 <= i < |s| ==> s[i] != pat[0]
    ensures !Contains(s, pat)
    decreases |s|
  {
    if s != [] {
      FirstCharAbsent(s[1..], pat);
    }
  }

  /** The characters a match of one of the eight patterns can start with, in
      either letter case. */
  const PatternStarts: set<char> := {'t', 'T', 'f', 'F', 's', 'S', 'a', 'A', '$', '.', '\U{00F0}'}

  /** The filter does not reject everything: a coin whose name, symbol and
      description hold none of those characters matches none of the eight
      patterns. */
  lemma NoPatternStartNotSpam(name: string, symbol: string, description: Option<string>)
    requires forall c :: c in SpamText(name, symbol, description) ==> c !in PatternStarts
    ensures !IsSpam(SpamText(name, symbol, description))
  {
    var text := SpamText(name, symbol, description);
    forall i | 0 <= i < |text|
      ensures Lower(text)[i] !in {'t', 'f', 's', 'a'}
    {
      assert text[i] in text;
    }
    FirstCharAbsent(Lower(text), "test");
    FirstCharAbsent(Lower(text), "fake");
    FirstCharAbsent(Lower(text), "scam");
    FirstCharAbsent(Lower(text), "admin");
    FirstCharAbsent(text, "$$$");
    FirstCharAbsent(text, RocketPattern);
    FirstCharAbsent(text, "...");
    OnlyXsNeverFires(name, symbol, description);
  }

  // ---------------------------------------------------------------------------
  // Conversion

  /** `convertBlockberryToken`. The name falls back through `coinName`,
      `coinDenom` and `coinSymbol` to "Unknown", the symbol through `coinDenom`
      and `coinSymbol` to "UNKNOWN"; the coin type is computed but not returned. */
  function Convert(c: RawCoin): (d: DiscoveredCoin)
    ensures NoEdgeSpace(d.name) && NoEdgeSpace(d.symbol)
    ensures Lower(d.objectId) == d.objectId && d.coinType.None?
    ensures c.decimals.None? ==> d.decimals == 0
  {
    LowerIdempotent(OrElse(c.objectId, ""));
    DiscoveredCoin(
      name := Trim(OrElse(Or(Or(Or(c.name, c.coinName), c.coinDenom), c.coinSymbol), "Unknown")),
      symbol := Trim(OrElse(Or(Or(c.symbol, c.coinDenom), c.coinSymbol), "UNKNOWN")),
      decimals := if c.decimals.Some? then c.decimals.value else 0,
      objectId := RawId(c),
      coinType := None,
      logoURI := Or(Or(c.iconUrl, c.icon_url), c.imgUrl),
      website := Or(c.websiteUrl, c.website_url)
    )
  }

  /** What every coin that passed the filter looks like after conversion. */
  predicate WellFormed(d: DiscoveredCoin) {
    IsHexLower(d.objectId) && Lower(d.objectId) == d.objectId
    && d.name != "" && Trim(d.name) == d.name && Utf16Length(d.name) <= 64
    && d.symbol != "" && Trim(d.symbol) == d.symbol && Utf16Length(d.symbol) <= 16
    && 0 <= d.decimals <= 18 && d.coinType.None?
  }

  /** The row made from a coin that passed the filter passes validation exactly
      when `now` has the timestamp shape and the logo is absent, empty or HTTPS. */
  lemma {:induction false} DiscoveredRowAccepted(c: RawCoin, now: string)
    requires IsValidToken(c)
    ensures var d := Convert(c);
            ValidateToken(ToTokenRow(d, now)) == [] <==>
            IsIsoDate(now) && (d.logoURI.None? || d.logoURI.value == "" || StartsWith(d.logoURI.value, "https://"))
  {
    var d := Convert(c);
    ToTokenRowAccepted(d, now);
    LowerIdempotent(d.objectId);
  }

  // ---------------------------------------------------------------------------
  // The paged fetch loop

  /** Items requested per page. */
  const PageSize: nat := 100

  /** The outcome of one page request: the coins and the reported page total, or a
      failed request. */
  datatype FetchResult = Page(coins: seq<RawCoin>, totalPages: Option<int>) | FetchError(message: string)

  /** The page cap asked for: none, or at most `n` pages (`n <= 0` also means none). */
  datatype PageLimit = Unbounded | Limit(n: int)

  /** The result of `discover`: the coins kept, with the number of requests made,
      the number of raw coins seen and the page total captured; or the error that
      aborted it. */
  datatype Outcome =
    | Discovered(coins: seq<DiscoveredCoin>, fetches: nat, rawCount: nat, totalPages: Option<int>)
    | DiscoveryFailed(message: string)

  /** The response to the request for page `k`; requests past the listing's end
      return no coins. */
  function FetchAt(pages: seq<FetchResult>, k: nat): FetchResult {
    if k < |pages| then pages[k] else Page([], None)
  }

  predicate TruthyNum(o: Option<int>) {
    o.Some? && o.value != 0
  }

  predicate WantsAll(limit: PageLimit) {
    limit.Unbounded? || limit.n <= 0
  }

  /** `page > cap`, where the cap is the captured total (unbounded when none) and,
      unless all pages are wanted, also the asked-for limit. */
  predicate PastCap(page: int, limit: PageLimit, total: Option<int>) {
    (total.Some? && page > total.value) || (!WantsAll(limit) && page > limit.n)
  }

  /** The coins kept from one page: the valid ones, converted, in page order. */
  function PageCoins(coins: seq<RawCoin>): (r: seq<DiscoveredCoin>)
    ensures |r| <= |coins|
  {
    if coins == [] then []
    else
      PageCoins(coins[..|coins| - 1]) + Kept(coins[|coins| - 1])
  }

  predicate AllWellFormed(ds: seq<DiscoveredCoin>) {
    forall i :: 0 <= i < |ds| ==> WellFormed(ds[i])
  }

  lemma AllWellFormedConcat(a: seq<DiscoveredCoin>, b: seq<DiscoveredCoin>)
    requires AllWellFormed(a) && AllWellFormed(b)
    ensures AllWellFormed(a + b)
  {
    forall i | 0 <= i < |a + b| ensures WellFormed((a + b)[i]) {
      if i < |a| {
        assert (a + b)[i] == a[i];
      } else {
        assert (a + b)[i] == b[i - |a|];
      }
    }
  }

  /** What one coin contributes to its page. */
  function Kept(c: RawCoin): seq<DiscoveredCoin> {
    if IsValidToken(c) then [Convert(c)] else []
  }

  lemma KeptWellFormed(c: RawCoin)
    ensures AllWellFormed(Kept(c))
  {
  }

  /** Every coin kept from a page is well formed. */
  lemma {:induction false} PageCoinsWellFormed(coins: seq<RawCoin>)
    ensures AllWellFormed(PageCoins(coins))
  {
    if coins != [] {
      var n := |coins| - 1;
      PageCoinsWellFormed(coins[..n]);
      KeptWellFormed(coins[n]);
      AllWellFormedConcat(PageCoins(coins[..n]), Kept(coins[n]));
    }
  }

  /** The loop from request `k` on, with the coins kept so far `acc`, the raw count
      so far `seen` and the total captured so far. The per-page step `keep` is a
      parameter so that the loop's properties hold for any filter; `Discover` uses
      `PageCoins`. */
  function Harvest(keep: seq<RawCoin> -> seq<DiscoveredCoin>, pages: seq<FetchResult>, limit: PageLimit,
                   k: nat, total: Option<int>, acc: seq<DiscoveredCoin>, seen: nat): Outcome
    decreases |pages| - k
  {
    match FetchAt(pages, k)
    case FetchError(m) => DiscoveryFailed(m)
    case Page(coins, reported) =>
      if coins == [] then Discovered(acc, k + 1, seen, total)
      else
        var acc' := acc + keep(coins);
        var seen' := seen + |coins|;
        var total' := if TruthyNum(reported) && !TruthyNum(total) then reported else total;
        if |coins| < PageSize || PastCap(k + 2, limit, total') then Discovered(acc', k + 1, seen', total')
        else Harvest(keep, pages, limit, k + 1, total', acc', seen')
  }

  /** The page number the request computes from the offset is the 0-based number of
      the loop's page. */
  lemma PageOfOffset(q: nat)
    ensures (q * PageSize) / PageSize == q
  {
  }

  /** One turn of the loop, for a request that returned coins. */
  lemma HarvestStep(keep: seq<RawCoin> -> seq<DiscoveredCoin>, pages: seq<FetchResult>, limit: PageLimit,
                    k: nat, total: Option<int>, acc: seq<DiscoveredCoin>, seen: nat)
    requires FetchAt(pages, k).Page? && FetchAt(pages, k).coins != []
    ensures var res := FetchAt(pages, k);
            var total' := if TruthyNum(res.totalPages) && !TruthyNum(total) then res.totalPages else total;
            var acc' := acc + keep(res.coins);
            var seen' := seen + |res.coins|;
            Harvest(keep, pages, limit, k, total, acc, seen)
            == if |res.coins| < PageSize || PastCap(k + 2, limit, total') then Discovered(acc', k + 1, seen', total')
               else Harvest(keep, pages, limit, k + 1, total', acc', seen')
  {
  }

  /** The loop of `discover`, for any per-page step `keep`: requests pages in order
      until one is empty or short, or the page cap is passed; a failed request
      aborts the whole run. */
  method Crawl(keep: seq<RawCoin> -> seq<DiscoveredCoin>, pages: seq<FetchResult>, limit: PageLimit) returns (r: Outcome)
    ensures r == Harvest(keep, pages, limit, 0, None, [], 0)
  {
    var allTokens: seq<DiscoveredCoin> := [];
    var offset: nat := 0;
    var totalFetched: nat := 0;
    var page: nat := 1;
    var total: Option<int> := None;
    while true
      invariant page >= 1 && offset == (page - 1) * PageSize
      invariant Harvest(keep, pages, limit, page - 1, total, allTokens, totalFetched)
                == Harvest(keep, pages, limit, 0, None, [], 0)
      decreases |pages| - (page - 1)
    {
      var apiPage := offset / PageSize;
      PageOfOffset(page - 1);
      var res := FetchAt(pages, apiPage);
      if res.FetchError? {
        return DiscoveryFailed(res.message);
      }
      var pageTokens := res.coins;
      if |pageTokens| == 0 {
        return Discovered(allTokens, page, totalFetched, total);
      }
      HarvestStep(keep, pages, limit, page - 1, total, allTokens, totalFetched);
      allTokens := allTokens + keep(pageTokens);
      totalFetched := totalFetched + |pageTokens|;
      if TruthyNum(res.totalPages) && !TruthyNum(total) {
        total := res.totalPages;
      }
      if |pageTokens| < PageSize {
        return Discovered(allTokens, page, totalFetched, total);
      }
      offset := offset + PageSize;
      page := page + 1;
      if PastCap(page, limit, total) {
        return Discovered(allTokens, page - 1, totalFetched, total);
      }
    }
  }

  /** `discover`: the loop with the validity filter and the conversion as its
      per-page step. */
  method Discover(pages: seq<FetchResult>, limit: PageLimit) returns (r: Outcome)
    ensures r == Harvest(PageCoins, pages, limit, 0, None, [], 0)
  {
    r := Crawl(PageCoins, pages, limit);
  }

  /** The coins kept from requests `from` up to `to`. */
  function Gathered(keep: seq<RawCoin> -> seq<DiscoveredCoin>, pages: seq<FetchResult>, from: nat, to: nat): seq<DiscoveredCoin>
    decreases to - from
  {
    if from >= to then []
    else
      var res := FetchAt(pages, from);
      (if res.Page? && res.coins != [] then keep(res.coins) else []) + Gathered(keep, pages, from + 1, to)
  }

  /** The raw coins returned by requests `from` up to `to`. */
  function RawCount(pages: seq<FetchResult>, from: nat, to: nat): nat
    decreases to - from
  {
    if from >= to then 0
    else
      var res := FetchAt(pages, from);
      (if res.Page? then |res.coins| else 0) + RawCount(pages, from + 1, to)
  }

  lemma {:induction false} GatheredWellFormed(pages: seq<FetchResult>, from: nat, to: nat)
    ensures AllWellFormed(Gathered(PageCoins, pages, from, to))
    decreases (to as int) - (from as int)
  {
    if from < to {
      GatheredWellFormed(pages, from + 1, to);
      var res := FetchAt(pages, from);
      var head := if res.Page? && res.coins != [] then PageCoins(res.coins) else [];
      if res.Page? && res.coins != [] {
        PageCoinsWellFormed(res.coins);
      }
      assert AllWellFormed(head);
      AllWellFormedConcat(head, Gathered(PageCoins, pages, from + 1, to));
    }
  }

  lemma {:induction false} HarvestGathers(keep: seq<RawCoin> -> seq<DiscoveredCoin>, pages: seq<FetchResult>,
                                          limit: PageLimit, k: nat, total: Option<int>,
                                          acc: seq<DiscoveredCoin>, seen: nat)
    ensures var r := Harvest(keep, pages, limit, k, total, acc, seen);
            r.Discovered? ==>
              k < r.fetches
              && r.coins == acc + Gathered(keep, pages, k, r.fetches)
              && r.rawCount == seen + RawCount(pages, k, r.fetches)
              && (forall i :: k <= i < r.fetches ==> FetchAt(pages, i).Page?)
              && (forall i :: k <= i < r.fetches - 1 ==> |FetchAt(pages, i).coins| >= PageSize)
    decreases |pages| - k
  {
    match FetchAt(pages, k)
    case FetchError(m) =>
    case Page(coins, reported) =>
      if coins == [] {
        assert Gathered(keep, pages, k + 1, k + 1) == [];
      } else {
        var acc' := acc + keep(coins);
        var seen' := seen + |coins|;
        var total' := if TruthyNum(reported) && !TruthyNum(total) then reported else total;
        assert Gathered(keep, pages, k + 1, k + 1) == [];
        if !(|coins| < PageSize || PastCap(k + 2, limit, total')) {
          HarvestGathers(keep, pages, limit, k + 1, total', acc', seen');
        }
      }
  }

  /** A completed run returns exactly the converted valid coins of the pages it
      requested, in order; every page but the last was full (held at least
      `PageSize` coins); and every coin
      returned is well formed. */
  lemma DiscoverGathers(pages: seq<FetchResult>, limit: PageLimit)
    ensures var r := Harvest(PageCoins, pages, limit, 0, None, [], 0);
            r.Discovered? ==>
              r.fetches >= 1
              && r.coins == Gathered(PageCoins, pages, 0, r.fetches)
              && r.rawCount == RawCount(pages, 0, r.fetches)
              && (forall i :: 0 <= i < r.fetches - 1 ==> FetchAt(pages, i).Page? && |FetchAt(pages, i).coins| >= PageSize)
              && AllWellFormed(r.coins)
  {
    HarvestGathers(PageCoins, pages, limit, 0, None, [], 0);
    var r := Harvest(PageCoins, pages, limit, 0, None, [], 0);
    if r.Discovered? {
      GatheredWellFormed(pages, 0, r.fetches);
    }
  }

  lemma {:induction false} HarvestFails(keep: seq<RawCoin> -> seq<DiscoveredCoin>, pages: seq<FetchResult>,
                                        limit: PageLimit, k: nat, total: Option<int>,
                                        acc: seq<DiscoveredCoin>, seen: nat)
    ensures var r := Harvest(keep, pages, limit, k, total, acc, seen);
            r.DiscoveryFailed? ==> exists i :: k <= i < |pages| && pages[i] == FetchError(r.message)
    decreases |pages| - k
  {
    match FetchAt(pages, k)
    case FetchError(m) =>
    case Page(coins, reported) =>
      if coins != [] {
        var total' := if TruthyNum(reported) && !TruthyNum(total) then reported else total;
        HarvestFails(keep, pages, limit, k + 1, total', acc + keep(coins), seen + |coins|);
      }
  }

  /** A run fails only with the error of one of the requests. */
  lemma DiscoverFails(pages: seq<FetchResult>, limit: PageLimit)
    ensures var r := Harvest(PageCoins, pages, limit, 0, None, [], 0);
            r.DiscoveryFailed? ==> exists i :: 0 <= i < |pages| && pages[i] == FetchError(r.message)
  {
    HarvestFails(PageCoins, pages, limit, 0, None, [], 0);
  }

  lemma {:induction false} HarvestLimit(keep: seq<RawCoin> -> seq<DiscoveredCoin>, pages: seq<FetchResult>,
                                        n: int, k: nat, total: Option<int>,
                                        acc: seq<DiscoveredCoin>, seen: nat)
    requires k < n
    ensures var r := Harvest(keep, pages, Limit(n), k, total, acc, seen);
            r.Discovered? ==> r.fetches <= n
    decreases |pages| - k
  {
    match FetchAt(pages, k)
    case FetchError(m) =>
    case Page(coins, reported) =>
      if coins != [] {
        var total' := if TruthyNum(reported) && !TruthyNum(total) then reported else total;
        if !(|coins| < PageSize || PastCap(k + 2, Limit(n), total')) {
          HarvestLimit(keep, pages, n, k + 1, total', acc + keep(coins), seen + |coins|);
        }
      }
  }

  /** With a positive page limit `n`, at most `n` pages are requested. */
  lemma DiscoverRespectsLimit(pages: seq<FetchResult>, n: int)
    requires n >= 1
    ensures var r := Harvest(PageCoins, pages, Limit(n), 0, None, [], 0);
            r.Discovered? ==> r.fetches <= n
  {
    HarvestLimit(PageCoins, pages, n, 0, None, [], 0);
  }

  lemma {:induction false} HarvestTotal(keep: seq<RawCoin> -> seq<DiscoveredCoin>, pages: seq<FetchResult>,
                                        limit: PageLimit, k: nat, t: int,
                                        acc: seq<DiscoveredCoin>, seen: nat)
    requires t != 0 && k < t
    ensures var r := Harvest(keep, pages, limit, k, Some(t), acc, seen);
            r.Discovered? ==> r.fetches <= t && r.totalPages == Some(t)
    decreases |pages| - k
  {
    match FetchAt(pages, k)
    case FetchError(m) =>
    case Page(coins, reported) =>
      if coins != [] && !(|coins| < PageSize || PastCap(k + 2, limit, Some(t))) {
        HarvestTotal(keep, pages, limit, k + 1, t, acc + keep(coins), seen + |coins|);
      }
  }

  lemma {:induction false} HarvestFirstTotal(keep: seq<RawCoin> -> seq<DiscoveredCoin>, pages: seq<FetchResult>,
                                             limit: PageLimit)
    requires |pages| >= 1 && pages[0].Page? && pages[0].coins != [] && TruthyNum(pages[0].totalPages)
    ensures var r := Harvest(keep, pages, limit, 0, None, [], 0);
            var t := pages[0].totalPages.value;
            r.Discovered? ==> r.fetches <= (if t > 1 then t else 1) && r.totalPages == Some(t)
  {
    var coins := pages[0].coins;
    var t := pages[0].totalPages.value;
    if !(|coins| < PageSize || PastCap(2, limit, Some(t))) {
      HarvestTotal(keep, pages, limit, 1, t, [] + keep(coins), 0 + |coins|);
    }
  }

  /** When the first page is non-empty and reports a non-zero page total `t`, that
      total is kept to the end and at most max(1, t) pages are requested, whatever
      the limit. */
  lemma DiscoverRespectsReportedTotal(pages: seq<FetchResult>, limit: PageLimit)
    requires |pages| >= 1 && pages[0].Page? && pages[0].coins != [] && TruthyNum(pages[0].totalPages)
    ensures var r := Harvest(PageCoins, pages, limit, 0, None, [], 0);
            var t := pages[0].totalPages.value;
            r.Discovered? ==> r.fetches <= (if t > 1 then t else 1) && r.totalPages == Some(t)
  {
    HarvestFirstTotal(PageCoins, pages, limit);
  }

  /** Two full pages and a short one: three requests, 240 raw coins. A short page
      ends the run even when more pages would follow. */
  lemma ShortPageEndsRun(keep: seq<RawCoin> -> seq<DiscoveredCoin>, c: RawCoin, more: seq<FetchResult>)
    ensures var full := Page(seq(100, _ => c), None);
            var short := Page(seq(40, _ => c), None);
            var r := Harvest(keep, [full, full, short] + more, Unbounded, 0, None, [], 0);
            r.Discovered? && r.fetches == 3 && r.rawCount == 240
  {
    var full := Page(seq(100, _ => c), None);
    var short := Page(seq(40, _ => c), None);
    var pages := [full, full, short] + more;
    assert FetchAt(pages, 0) == full && FetchAt(pages, 1) == full && FetchAt(pages, 2) == short;
    var a1 := [] + keep(full.coins);
    var a2 := a1 + keep(full.coins);
    var a3 := a2 + keep(short.coins);
    assert Harvest(keep, pages, Unbounded, 2, None, a2, 200) == Discovered(a3, 3, 240, None);
    assert Harvest(keep, pages, Unbounded, 1, None, a1, 100) == Discovered(a3, 3, 240, None);
  }
}
