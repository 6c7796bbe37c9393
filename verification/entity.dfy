/** The `Song` record of the search engine's `Entity` package: an id, a
    title and an artist as the search response gave them, and a download
    URL that is unknown (`None`) until it is resolved. */
module Entity {

  import opened Options

  datatype Song = Song(id: string, title: string, artist: string, url: Option<string>)

  /** `Song(id, title, artist)`: the constructor stores its three arguments
      unconverted and unvalidated, and leaves the URL unresolved. */
  function NewSong(id: string, title: string, artist: string): (s: Song)
    ensures s.id == id && s.title == title && s.artist == artist
    ensures s.url == None
  {
    Song(id, title, artist, None)
  }

  /** Python's `str` of the `url` attribute: `None` or the URL text itself. */
  function UrlText(url: Option<string>): (t: string)
    ensures url.None? ==> t == "None"
  {
    match url
    case None => "None"
    case Some(u) => u
  }

  /** `Song.__repr__`. The layout is kept as the source writes it: the quote
      that opens the artist closes only after the URL. */
  function Repr(s: Song): (r: string)
    ensures |r| == 35 + |s.id| + |s.title| + |s.artist| + |UrlText(s.url)|
    ensures r[..8] == "Song(id=" && r[|r| - 2..] == "')"
  {
    "Song(id=" + s.id + ", title='" + s.title + "', artist='" + s.artist
      + " url=" + UrlText(s.url) + "')"
  }

  /** Position in `Repr(s)` just past the artist text. */
  function AfterArtist(s: Song): nat
  {
    8 + |s.id| + 9 + |s.title| + 11 + |s.artist|
  }

  /** The layout of the representation can be read back: at the offsets the
      field lengths determine sit the id, the title, the artist and the URL
      text, each separated by the fixed literal pieces. */
  lemma ReprLayout(s: Song)
    ensures var r := Repr(s);
      var a := 8 + |s.id|;
      var b := a + 9 + |s.title|;
      var c := AfterArtist(s);
      && r[8..a] == s.id
      && r[a..a + 9] == ", title='"
      && r[a + 9..b] == s.title
      && r[b..b + 11] == "', artist='"
      && r[b + 11..c] == s.artist
      && r[c..c + 5] == " url="
      && r[c + 5..|r| - 2] == UrlText(s.url)
  {
  }

  /** Two songs with the same field lengths have the same representation
      only if their id, title, artist and rendered URL agree. */
  lemma ReprDeterminesFields(s: Song, t: Song)
    requires |s.id| == |t.id| && |s.title| == |t.title| && |s.artist| == |t.artist|
    requires Repr(s) == Repr(t)
    ensures s.id == t.id && s.title == t.title && s.artist == t.artist
    ensures UrlText(s.url) == UrlText(t.url)
  {
    ReprLayout(s);
    ReprLayout(t);
  }

  /** A freshly constructed song renders its URL as the text `None`, and the
      artist is followed by ` url=` rather than by a closing quote. */
  lemma NewSongRepr(id: string, title: string, artist: string)
    ensures var s := NewSong(id, title, artist);
      var r := Repr(s);
      && |r| == 39 + |id| + |title| + |artist|
      && r[AfterArtist(s)..] == " url=None')"
      && r[AfterArtist(s) - |artist|..AfterArtist(s)] == artist
  {
  }

  /** The rendering cannot tell an unresolved song from one whose URL is
      the four-letter text `None`. */
  lemma ReprUrlAmbiguous(s: Song)
    requires s.url == None
    ensures Repr(s) == Repr(s.(url := Some("None")))
  {
  }
}
