# DownloadMusic search engine — Dafny model

A functional model of the pure core of the `SearchEngine` class of
DownloadMusic, a small client that searches a music API by keyword, lists
the tracks found and downloads chosen tracks as `.flac` files:

- `filenames.dfy` (module `Filenames`): the file-name sanitiser
  `_sanitize_filename`. It deletes the nine characters `\ / : * ? " < > |`,
  then applies Python's `str.strip()`. The whitespace set is the one of
  `str.isspace()`, and the strip is written as CPython's two index scans.
- `search.dfy` (module `Search`): the two request URLs (`?word=` and
  `?id=`, concatenated verbatim), and `search_all`. The HTTP exchange
  becomes an abstract `Response`: a failed request, a body without `data`,
  a `data` that is not an array, or an array of entries. Each entry's
  `id`, `song` and `singer` members may be absent. `SearchAll` is a method
  that follows the source loop step by step, including the `count >= limit`
  break and the blanket `except` that turns every error into `[]`. It is
  proved equal to the loop-free reference definition `Expected`.
- `download.dfy` (module `Download`): the decision and path part of
  `download_song`. Nothing happens unless `song.url` is truthy. Otherwise
  the target is `save_path + "/" + sanitize(title) + "-" + sanitize(artist) + ".flac"`.
- `entity.dfy` (module `Entity`): the `Song` record. It has its
  constructor, with `url` starting as `None`, and its `repr`, whose layout
  is kept as written: the quote opened before the artist closes only after
  the URL.
- `options.dfy` (module `Options`): the `Option` type.

Facts about the code that the model keeps:
- the file name joins title and artist with a bare `-`, with no spaces
  around it;
- the file name is never truncated, whatever its length;
- `search_all` answers every failure, including a missing `data` member,
  with the empty list and raises nothing;
- when no argument is given, `limit` is 10 and `save_path` is
  `../../downloads`. These are the default parameters of `SearchAll` and
  `DownloadSong`.

## Model

| member | source | states |
|---|---|---|
| `Entity.NewSong` | src/search_engine/Entity/__init__.py:3-7 | The constructor keeps id, title and artist exactly as passed, and the URL starts unresolved (`None`). |
| `Entity.Repr` | src/search_engine/Entity/__init__.py:8-9 | The representation is 35 characters of fixed layout plus the four rendered fields. It opens with `Song(id=` and closes with `')`. |
| `Entity.ReprLayout` | src/search_engine/Entity/__init__.py:8-9 | Id, title, artist and URL text sit at offsets fixed by the field lengths. The fixed pieces lie between them, and ` url=` follows the artist directly with no closing quote. |
| `Entity.ReprDeterminesFields` | src/search_engine/Entity/__init__.py:8-9 | Two songs with equal field lengths and equal representations agree on id, title, artist and rendered URL. |
| `Entity.NewSongRepr` | src/search_engine/Entity/__init__.py:7-9 | A freshly built song renders its URL as the text `None`: its representation ends with ` url=None')` right after the artist. |
| `Entity.ReprUrlAmbiguous` | src/search_engine/Entity/__init__.py:7-9 | An unresolved song and one whose URL is the text `None` have the same representation. |
| `Filenames.IllegalCharsExact` | src/search_engine/search.py:40-41 | The illegal-character test accepts exactly the nine characters of the regular-expression class. |
| `Filenames.RemoveIllegal` | src/search_engine/search.py:41-42 | After the deletion step no illegal character remains, and the text is no longer than before. |
| `Filenames.RemoveIllegalConcat` | src/search_engine/search.py:41-42 | Deletion distributes over concatenation, so each character is kept or dropped on its own and the kept ones stay in order. |
| `Filenames.RemoveIllegalCounts` | src/search_engine/search.py:41-42 | Each legal character keeps its number of occurrences and each illegal one has none. |
| `Filenames.RemoveIllegalFixedPoints` | src/search_engine/search.py:41-42 | The deletion step leaves a text unchanged if and only if it has no illegal character. |
| `Filenames.Strip` | src/search_engine/search.py:43 | The stripped text has no whitespace at either end and is no longer than the input. |
| `Filenames.StripIsInfix` | src/search_engine/search.py:43 | The input is the stripped text with whitespace-only text on each side, so only surrounding whitespace is cut. |
| `Filenames.StripPadded` | src/search_engine/search.py:43 | A trimmed text surrounded by any whitespace strips back to exactly itself. |
| `Filenames.Sanitize` | src/search_engine/search.py:35-43 | The sanitised name has no illegal character, no surrounding whitespace and is no longer than the input. |
| `Filenames.SanitizeCharacterization` | src/search_engine/search.py:41-43 | `t` is the sanitised form of `s` if and only if `t` is trimmed and deleting the illegal characters of `s` leaves `t` between two whitespace-only texts. |
| `Filenames.SanitizeOnlyDeletes` | src/search_engine/search.py:41-43 | The sanitised name is a subsequence of the input: characters are only removed, and the rest keep their order. |
| `Filenames.SanitizeFixedPoints` | src/search_engine/search.py:35-43 | The sanitiser returns a text unchanged if and only if it has no illegal character and no surrounding whitespace. |
| `Filenames.SanitizeIdempotent` | src/search_engine/search.py:35-43 | Sanitising twice gives the same result as sanitising once. |
| `Search.SearchUrl` | src/search_engine/search.py:52 | The search URL is the base URL, then exactly `?word=`, then the keyword, with nothing added or escaped; its length is the sum of the three. |
| `Search.ResolveUrl` | src/search_engine/search.py:96 | The resolve URL is the base URL, then exactly `?id=`, then the id, with nothing added or escaped; its length is the sum of the three. |
| `Search.SearchUrlRoundTrip` | src/search_engine/search.py:52 | Removing the prefix `base + "?word="` from the search URL gives exactly the keyword. Any URL from which removing that prefix gives the keyword is that keyword's search URL. |
| `Search.ResolveUrlRoundTrip` | src/search_engine/search.py:96 | Removing the prefix `base + "?id="` from the resolve URL gives exactly the id. Any URL from which removing that prefix gives the id is that id's resolve URL. |
| `Search.SearchAndResolveDiffer` | src/search_engine/search.py:96 | On one base URL, a search request and a resolve request are never the same URL. |
| `Search.SongOf` | src/search_engine/search.py:85 | A song built from a record takes its id from `id`, its title from `song` and its artist from `singer`, and has no URL yet. |
| `Search.SongsOf` | src/search_engine/search.py:81-86 | Well-formed entries give exactly one song each, in response order. |
| `Search.SearchAll` | src/search_engine/search.py:71-93 | The loop equals the reference definition. Any failure before the loop gives `[]`. The result is either empty or one song for each inspected entry, where the i-th song comes from the i-th entry. The inspected entries are the first `min(max(limit, 0), n)` of the `n` entries. |
| `Search.SearchAllAllOrNothing` | src/search_engine/search.py:71-93 | The result is non-empty if and only if the response has an array with at least one inspected entry and every inspected entry is well-formed. In that case its length is the inspected count. |
| `Search.NothingPastLimit` | src/search_engine/search.py:81-84 | Entries after the inspected ones never affect the result, well-formed or not. |
| `Search.SearchAllMonotone` | src/search_engine/search.py:79-86 | A smaller limit gives a prefix of the successful result for a larger limit: truncation keeps the response order. |
| `Download.FileName` | src/search_engine/search.py:106-108 | The file name is the sanitised title, a bare `-`, the sanitised artist and `.flac`. It contains no illegal character. |
| `Download.DownloadSong` | src/search_engine/search.py:103-108 | Nothing is written exactly when the URL is `None` or empty. Otherwise the song's URL is fetched and written under `save_path + "/"`, with the song's file name. |
| `Download.TargetInSaveDirectory` | src/search_engine/search.py:106-108 | As text, the target path is `save_path + "/"` followed by a name with no `/` or `\`, so it names a file directly in `save_path`; it ends in `.flac`. |
| `Download.DashNotPadded` | src/search_engine/search.py:108 | The characters on either side of the joining dash are never whitespace, so the name never has ` - ` around that dash. |
| `Download.FileNameOfSanitized` | src/search_engine/search.py:106-108 | Sanitising title and artist beforehand does not change the file name. |
| `Download.UnresolvedSongSkipped` | src/search_engine/search.py:103 | A song straight from a search has no URL, so `download_song` does nothing with it. |

## Left out

- HTTP access: `requests.get`, `raise_for_status`, `response.json()` and `iter_content` are library calls. The search response is the abstract `Response`. The resolved URL is whatever the caller puts in `Song.url`. `get_url_by_id` is modelled only as its request URL.
- Reading `data['data']['url']` in `get_url_by_id`, and the errors it raises, belong to the opaque resolver and are not modelled.
- Configuration loading in `SearchEngine.__init__` is file I/O and JSON parsing. The base URL is a parameter.
- Directory creation, the chunked file write and all `print` logging, including `printa`, are I/O. A transfer that fails partway leaves the partly written file in place.
- Download.DownloadSong: when `save_path` is empty, the model still gives the target `"/" + name`. The source instead fails at `os.makedirs('')` and writes nothing. The same goes for a name containing NUL, which the sanitiser keeps and `open` rejects. File-system errors after the fetch are not modelled, so `Write` names the path the code would try to open, not a file that is known to be created.
- Download.TargetInSaveDirectory: "directly in `save_path`" is a statement about the path text only. Whether that path can be created is left to the file system, as the line above explains.
- How a server splits a search or resolve URL whose keyword or id contains `&`, `#`, `=` or `%` is not modelled. The code escapes nothing, so such a keyword can add query parameters or start a URL fragment. The model only says that the text after `?word=` or `?id=` is the keyword or id verbatim.
- Download.DownloadSong: the HTTP fetch runs before the path is built, and its failure raises out of `download_song`. The model only says which URL would be fetched and which path would receive the bytes.
- `downloadAll` only sequences network and disk calls. It sets `song.url` from `get_url_by_id` before calling `download_song`, and an exception from either ends the whole loop.
- `download` has the body `pass`, so it defines no behaviour.
- `gui.py` is widget wiring. Its checkbox filter and its `int()` fallback for the limit depend on widget state and Python parsing.
- The root-level `search.py` is an early revision that adds only the same URL concatenation.
- Search.Entry: JSON values other than strings for `id`, `song` or `singer`, such as a numeric id or `null`, are not modelled. The source would store them as they are, and `str(id)` would render them.
- Search.SearchAll: `limit` is an integer. Python comparisons with other `limit` types are not modelled.
- Text is a sequence of Unicode scalar values, so a lone surrogate code point, which a Python `str` decoded from JSON can hold, cannot be represented. Neither the illegal-character class nor `isspace()` matches a surrogate, so such a character would only be kept like any other legal character.
