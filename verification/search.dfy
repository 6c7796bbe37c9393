/** The search half of `SearchEngine`: the two request URLs it builds and
    the way `search_all` shapes a search response into a list of songs.
    The HTTP exchange itself is abstracted into a `Response` value. */
module Search {

  import opened Options
  import opened Entity

  /** The `limit` that `search_all` uses when its caller gives none. */
  const DefaultLimit: int := 10

  const WordQuery: string := "?word="
  const IdQuery: string := "?id="

  /** `search_by_word`: the configured base URL, `?word=` and the keyword,
      concatenated with no escaping. */
  function SearchUrl(base: string, keyword: string): (u: string)
    ensures |u| == |base| + |WordQuery| + |keyword|
    ensures u[..|base|] == base
    ensures u[|base|..|base| + |WordQuery|] == WordQuery
    ensures u[|base| + |WordQuery|..] == keyword
  {
    base + WordQuery + keyword
  }

  /** `get_url_by_id`: the configured base URL, `?id=` and the id, with no
      escaping. */
  function ResolveUrl(base: string, id: string): (u: string)
    ensures |u| == |base| + |IdQuery| + |id|
    ensures u[..|base|] == base
    ensures u[|base|..|base| + |IdQuery|] == IdQuery
    ensures u[|base| + |IdQuery|..] == id
  {
    base + IdQuery + id
  }

  /** What follows the prefix `base + q` in `u`, or `None` when `u` does
      not start with that prefix. This only removes a prefix; it is not a
      query-string parser. */
  function AfterPrefix(base: string, q: string, u: string): Option<string>
  {
    if |base| + |q| <= |u| && u[..|base| + |q|] == base + q then Some(u[|base| + |q|..])
    else None
  }

  /** The keyword is appended unchanged: removing `base + "?word="` from
      the search URL gives exactly the keyword, and a URL that gives the
      keyword this way is that keyword's search URL. */
  lemma SearchUrlRoundTrip(base: string, keyword: string, u: string)
    ensures AfterPrefix(base, WordQuery, SearchUrl(base, keyword)) == Some(keyword)
    ensures AfterPrefix(base, WordQuery, u) == Some(keyword) ==> u == SearchUrl(base, keyword)
  {
  }

  /** The id is appended unchanged: removing `base + "?id="` from the
      resolve URL gives exactly the id, and a URL that gives the id this way
      is that id's resolve URL. */
  lemma ResolveUrlRoundTrip(base: string, id: string, u: string)
    ensures AfterPrefix(base, IdQuery, ResolveUrl(base, id)) == Some(id)
    ensures AfterPrefix(base, IdQuery, u) == Some(id) ==> u == ResolveUrl(base, id)
  {
  }

  /** On the same base URL a search request and a resolve request never
      coincide, whatever the keyword and the id. */
  lemma SearchAndResolveDiffer(base: string, keyword: string, id: string)
    ensures SearchUrl(base, keyword) != ResolveUrl(base, id)
  {
    assert SearchUrl(base, keyword)[|base| + 1] == 'w';
    assert ResolveUrl(base, id)[|base| + 1] == 'i';
  }

  /** One element of the response's `data` array: a JSON object whose
      `id`, `song` and `singer` members may each be absent, or some other
      JSON value, which cannot be indexed by a member name. */
  datatype Entry =
    | Record(id: Option<string>, song: Option<string>, singer: Option<string>)
    | NotARecord

  /** What `search_by_word` hands to `search_all`. */
  datatype Response =
    | RequestFailed        // network error, HTTP error status or undecodable body
    | MissingData          // the body is not an object with a `data` member
    | DataNotArray         // `data` is present but is not a JSON array
    | Data(entries: seq<Entry>)

  /** Reading `id`, `song` and `singer` from the entry raises nothing. */
  predicate WellFormed(e: Entry)
  {
    e.Record? && e.id.Some? && e.song.Some? && e.singer.Some?
  }

  /** `Song(song['id'], song['song'], song['singer'])`. */
  function SongOf(e: Entry): (s: Song)
    requires WellFormed(e)
    ensures s.id == e.id.value && s.title == e.song.value && s.artist == e.singer.value
    ensures s.url == None
  {
    NewSong(e.id.value, e.song.value, e.singer.value)
  }

  /** How many entries the loop of `search_all` reads before `count >= limit`
      stops it: `min(max(limit, 0), n)`. */
  function Inspected(limit: int, n: nat): (k: nat)
    ensures k <= n
  {
    if limit <= 0 then 0 else if limit < n then limit else n
  }

  predicate AllWellFormed(es: seq<Entry>)
  {
    forall i :: 0 <= i < |es| ==> WellFormed(es[i])
  }

  /** The songs of a list of well-formed entries, one per entry, in order. */
  function SongsOf(es: seq<Entry>): (r: seq<Song>)
    requires AllWellFormed(es)
    ensures |r| == |es|
    ensures forall i :: 0 <= i < |es| ==> r[i] == SongOf(es[i])
  {
    if |es| == 0 then [] else [SongOf(es[0])] + SongsOf(es[1..])
  }

  /** Reference definition of `search_all`, independent of the loop: the
      songs of the first `Inspected` entries when all of them are
      well-formed, and the empty list in every other case. */
  function Expected(resp: Response, limit: int): seq<Song>
  {
    match resp
    case Data(es) =>
      var head := es[..Inspected(limit, |es|)];
      if AllWellFormed(head) then SongsOf(head) else []
    case _ => []
  }

  /** `search_all`. Everything between `try` and `except` is here: a failed
      request, a missing `data` member, a `data` that cannot be iterated as
      an array of records or an entry that lacks a field raises, and the
      blanket handler turns every such exception into the empty list. */
  method SearchAll(resp: Response, limit: int := DefaultLimit) returns (songs: seq<Song>)
    ensures songs == Expected(resp, limit)
    ensures !resp.Data? ==> songs == []
    ensures resp.Data? ==> |songs| <= Inspected(limit, |resp.entries|)
    ensures resp.Data? && songs != [] ==> |songs| == Inspected(limit, |resp.entries|)
    ensures forall i :: 0 <= i < |songs| ==>
      resp.Data? && i < |resp.entries| && WellFormed(resp.entries[i]) && songs[i] == SongOf(resp.entries[i])
  {
    if !resp.Data? {
      return [];
    }
    var source := resp.entries;
    var k := Inspected(limit, |source|);
    songs := [];
    var count := 0;
    var i := 0;
    while i < |source|
      invariant 0 <= i <= k
      invariant count == i
      invariant AllWellFormed(source[..i])
      invariant |songs| == i
      invariant forall j :: 0 <= j < i ==> WellFormed(source[j]) && songs[j] == SongOf(source[j])
    {
      if count >= limit {
        break;
      }
      count := count + 1;
      var e := source[i];
      if !WellFormed(e) {
        assert source[..k][i] == e;
        return [];
      }
      songs := songs + [SongOf(e)];
      i := i + 1;
      assert source[..i] == source[..i - 1] + [e];
    }
    assert i == k;
    assert songs == SongsOf(source[..k]);
  }

  /** `search_all` is all-or-nothing: it returns every inspected entry or
      none at all, and a non-empty result means the request succeeded and
      every inspected entry was well-formed. */
  lemma SearchAllAllOrNothing(resp: Response, limit: int)
    ensures var r := Expected(resp, limit);
      r != [] <==>
        resp.Data? && Inspected(limit, |resp.entries|) > 0
        && AllWellFormed(resp.entries[..Inspected(limit, |resp.entries|)])
    ensures resp.Data? && AllWellFormed(resp.entries[..Inspected(limit, |resp.entries|)]) ==>
      |Expected(resp, limit)| == Inspected(limit, |resp.entries|)
  {
  }

  /** Entries past the limit are never inspected: replacing them changes
      nothing. */
  lemma NothingPastLimit(es: seq<Entry>, rest: seq<Entry>, limit: int)
    requires Inspected(limit, |es|) == Inspected(limit, |es + rest|)
    ensures Expected(Data(es), limit) == Expected(Data(es + rest), limit)
  {
    var k := Inspected(limit, |es|);
    assert (es + rest)[..k] == es[..k];
  }

  /** A smaller limit yields a prefix of the larger limit's result, as long
      as the larger search succeeds: truncation keeps the response order. */
  lemma SearchAllMonotone(resp: Response, m: int, n: int)
    requires m <= n
    requires Expected(resp, n) != []
    ensures Expected(resp, m) == Expected(resp, n)[..|Expected(resp, m)|]
  {
  }
}
