/** The path half of `SearchEngine.download_song`: whether a song is
    written at all, and where. Fetching the audio and writing the bytes are
    abstracted away; the model says which file would receive them. */
module Download {

  import opened Options
  import opened Entity
  import opened Filenames

  /** The `save_path` that `download_song` uses when its caller gives none. */
  const DefaultSavePath: string := "../../downloads"

  const Extension: string := ".flac"

  /** Python truthiness of the `url` attribute: `None` and the empty string
      are false. */
  predicate Truthy(url: Option<string>)
  {
    url.Some? && url.value != ""
  }

  /** What `download_song` does with a song. */
  datatype Action =
    | Skip                             // `song.url` is falsy: nothing is fetched or written
    | Write(url: string, path: string)  // fetch `url` and write its body at `path`

  /** The file name: sanitised title, a bare `-`, sanitised artist and
      `.flac`. */
  function FileName(title: string, artist: string): (name: string)
    ensures NoIllegal(name)
    ensures |name| == |Sanitize(title)| + 1 + |Sanitize(artist)| + |Extension|
    ensures name[|name| - |Extension|..] == Extension
    ensures name[..|Sanitize(title)|] == Sanitize(title)
    ensures name[|Sanitize(title)|] == '-'
    ensures name[|Sanitize(title)| + 1..|name| - |Extension|] == Sanitize(artist)
  {
    JoinLegal(Sanitize(title), Sanitize(artist));
    Sanitize(title) + "-" + Sanitize(artist) + Extension
  }

  /** Joining two legal parts with `-` and the extension adds no illegal
      character. */
  lemma JoinLegal(t: string, a: string)
    requires NoIllegal(t) && NoIllegal(a)
    ensures NoIllegal(t + "-" + a + Extension)
    ensures t + "-" + a + Extension == t + ("-" + a + Extension)
  {
    assert NoIllegal("-") && NoIllegal(Extension);
    NoIllegalConcat(t, "-");
    NoIllegalConcat(t + "-", a);
    NoIllegalConcat(t + "-" + a, Extension);
  }

  /** `download_song`, path part. */
  /** The path `dir + "/" + name` splits back into the directory with its
      separator and the name. */
  lemma PathSplits(dir: string, name: string)
    ensures (dir + "/" + name)[..|dir| + 1] == dir + "/"
    ensures (dir + "/" + name)[|dir| + 1..] == name
  {
  }

  function DownloadSong(song: Song, savePath: string := DefaultSavePath): (a: Action)
    ensures a.Skip? <==> !Truthy(song.url)
    ensures a.Write? ==> a.url == song.url.value
    ensures a.Write? ==> |a.path| > |savePath| && a.path[..|savePath| + 1] == savePath + "/"
    ensures a.Write? ==> a.path[|savePath| + 1..] == FileName(song.title, song.artist)
  {
    if Truthy(song.url) then
      var name := FileName(song.title, song.artist);
      PathSplits(savePath, name);
      Write(song.url.value, savePath + "/" + name)
    else Skip
  }

  /** The target file sits directly in the save directory: the part after
      `save_path + "/"` contains no path separator of either kind, and the
      path ends in `.flac`. */
  lemma TargetInSaveDirectory(song: Song, savePath: string) returns (name: string)
    requires Truthy(song.url)
    ensures DownloadSong(song, savePath) == Write(song.url.value, savePath + "/" + name)
    ensures '/' !in name && '\\' !in name
    ensures |name| >= |Extension| && name[|name| - |Extension|..] == Extension
  {
    name := FileName(song.title, song.artist);
    assert IsIllegal('/') && IsIllegal('\\');
  }

  /** Title and artist are joined by a bare `-`: the characters next to the
      dash are never whitespace, so the file name never has the ` - `
      layout around the joining dash. */
  lemma DashNotPadded(title: string, artist: string)
    ensures var name := FileName(title, artist);
      var t := Sanitize(title);
      var a := Sanitize(artist);
      && name[|t|] == '-'
      && (|t| > 0 ==> !IsSpace(name[|t| - 1]))
      && (|a| > 0 ==> !IsSpace(name[|t| + 1]))
  {
  }

  /** Sanitising the title and artist beforehand changes nothing: the file
      name depends on them only through their sanitised forms. */
  lemma FileNameOfSanitized(title: string, artist: string)
    ensures FileName(Sanitize(title), Sanitize(artist)) == FileName(title, artist)
  {
    SanitizeIdempotent(title);
    SanitizeIdempotent(artist);
  }

  /** A song fresh from a search has no URL yet, so `download_song` does
      nothing with it until the URL has been resolved. */
  lemma UnresolvedSongSkipped(id: string, title: string, artist: string, savePath: string)
    ensures DownloadSong(NewSong(id, title, artist), savePath) == Skip
  {
  }
}
