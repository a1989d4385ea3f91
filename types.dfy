/** The records of the token list: a curated token, the ban list and an output list. */
module Types {
  import opened Wrappers

  /** A JavaScript number as the core produces it. `Int` is an integer; `NonInteger`
      stands for every other result of `Number(text)` (a fraction, or NaN for text
      that is not a number) and keeps the text it came from. */
  datatype Num = Int(value: int) | NonInteger(text: string)

  /** A token record. `coinType` is not part of the declared record type but is
      carried by the rows that discovery builds and is written to the CSV file.
      The opaque `signature` field is never read or written by the core and is
      left out. Extension values are strings: the only ones the core stores or
      reads are CSV cells and a website URL. */
  datatype Token = Token(
    name: string,
    symbol: string,
    decimals: Num,
    objectId: string,
    coinType: Option<string>,
    logoURI: Option<string>,
    verified: bool,
    verifiedBy: Option<string>,
    addedAt: string,
    tags: Option<seq<string>>,
    extensions: Option<map<string, string>>,
    version: Option<Num>
  )

  /** One entry of the ban list. The identifier is optional because the CSV reader
      produces an entry without one when a row is shorter than the header. */
  datatype BannedEntry = BannedEntry(objectId: Option<string>, reason: Option<string>, addedAt: Option<string>)

  datatype BannedList = BannedList(name: string, chain: string, updatedAt: string, banned: seq<BannedEntry>)

  datatype OutputList = OutputList(
    name: string,
    chain: string,
    updatedAt: string,
    tokens: seq<Token>,
    filters: Option<seq<string>>
  )

  /** The object identifiers of a sequence of tokens. */
  function IdSet(ts: seq<Token>): set<string> {
    set i | 0 <= i < |ts| :: ts[i].objectId
  }

  lemma IdSetSnoc(ts: seq<Token>, t: Token)
    ensures IdSet(ts + [t]) == IdSet(ts) + {t.objectId}
  {
    var s := ts + [t];
    forall id | id in IdSet(ts) ensures id in IdSet(s) {
      var i :| 0 <= i < |ts| && ts[i].objectId == id;
      assert s[i] == ts[i];
    }
    assert s[|ts|] == t;
  }

  lemma IdSetAppend(a: seq<Token>, b: seq<Token>)
    ensures IdSet(a + b) == IdSet(a) + IdSet(b)
  {
    var s := a + b;
    forall id | id in IdSet(a) ensures id in IdSet(s) {
      var i :| 0 <= i < |a| && a[i].objectId == id;
      assert s[i] == a[i];
    }
    forall id | id in IdSet(b) ensures id in IdSet(s) {
      var i :| 0 <= i < |b| && b[i].objectId == id;
      assert s[|a| + i] == b[i];
    }
    forall id | id in IdSet(s) ensures id in IdSet(a) + IdSet(b) {
      var i :| 0 <= i < |s| && s[i].objectId == id;
      if i < |a| {
        assert a[i] == s[i];
      } else {
        assert b[i - |a|] == s[i];
      }
    }
  }
}
