/** The home page's server load (src/routes/+page.server.ts): builds the
    music list from the file names in the music directory and the thumbnail
    directory, both given as inputs in the order the directory read lists them. */
module MusicPage {
  import opened Js
  import opened JsString

  datatype MusicItem = MusicItem(title: string, artist: string, src: string, thumbnail: string)

  /** What `load` returns: `{ musicList }` and nothing else. */
  datatype PageData = PageData(musicList: seq<MusicItem>)

  const Extension := ".mp3"
  const Separator := '-'
  const UnknownArtist := "Unknown"
  const MusicRoute := "/music/"
  const ThumbnailRoute := "/thumbnail/"
  const MissingThumbnail := "/thumbnail/none.jpg"

  /** `files.filter(f => f.endsWith('.mp3'))`. */
  function Mp3Files(files: seq<string>): (r: seq<string>)
    ensures |r| <= |files|
    ensures forall f :: f in r <==> f in files && EndsWith(f, Extension)
  {
    if files == [] then []
    else (if EndsWith(files[0], Extension) then [files[0]] else []) + Mp3Files(files[1..])
  }

  /** The filter keeps the listing order: it distributes over concatenation. */
  lemma {:induction false} Mp3FilesAppend(a: seq<string>, b: seq<string>)
    ensures Mp3Files(a + b) == Mp3Files(a) + Mp3Files(b)
  {
    if a == [] {
      assert a + b == b;
    } else {
      assert (a + b)[0] == a[0];
      assert (a + b)[1..] == a[1..] + b;
      Mp3FilesAppend(a[1..], b);
      var head := if EndsWith(a[0], Extension) then [a[0]] else [];
      assert Mp3Files(a + b) == head + (Mp3Files(a[1..]) + Mp3Files(b));
      assert head + (Mp3Files(a[1..]) + Mp3Files(b)) == (head + Mp3Files(a[1..])) + Mp3Files(b);
    }
  }

  /** `thumbs.find(t => t.startsWith(prefix))`, as the position of the first
      name that starts with `prefix`. */
  function FindThumbnail(thumbs: seq<string>, prefix: string): (r: Option<nat>)
    ensures r.Some? ==> r.value < |thumbs| && StartsWith(thumbs[r.value], prefix)
    ensures r.Some? ==> forall j :: 0 <= j < r.value ==> !StartsWith(thumbs[j], prefix)
    ensures r.None? ==> forall j :: 0 <= j < |thumbs| ==> !StartsWith(thumbs[j], prefix)
  {
    if thumbs == [] then None
    else if StartsWith(thumbs[0], prefix) then Some(0)
    else match FindThumbnail(thumbs[1..], prefix)
      case Some(k) => Some(k + 1)
      case None => None
  }

  /** The file name with its first `.mp3` removed: a name ending in `.mp3`
      always has one to remove, so it is four characters shorter. */
  function BaseName(file: string): (name: string)
    ensures EndsWith(file, Extension) ==> |name| == |file| - |Extension|
  {
    assert EndsWith(file, Extension) ==> OccursAt(file, Extension, |file| - |Extension|);
    RemoveFirst(file, Extension)
  }

  /** `const [title, artist] = name.split('-')`: the artist is the second
      piece, and `undefined` when there is no `-`; pieces after the second
      are ignored. */
  function ArtistPart(name: string): (artist: Option<string>)
    ensures artist.None? <==> Separator !in name
  {
    SplitAtFirst(name, Separator);
    var parts := Split(name, Separator);
    if |parts| >= 2 then Some(parts[1]) else None
  }

  /** The argument `startsWith` sees: the untrimmed artist, or the text
      "undefined" to which JavaScript converts a missing one. */
  function ArtistProbe(artist: Option<string>): string
  {
    match artist
    case Some(a) => a
    case None => "undefined"
  }

  /** The thumbnail path: the first thumbnail name starting with the probe,
      if it is a truthy (non-empty) string, else the fallback image. So the
      path is always a listed thumbnail name under `/thumbnail/` or the
      fallback. */
  function ThumbnailFor(thumbs: seq<string>, artist: Option<string>): (path: string)
    ensures path == MissingThumbnail || exists t :: t in thumbs && path == ThumbnailRoute + t
  {
    match FindThumbnail(thumbs, ArtistProbe(artist))
    case Some(i) =>
      assert thumbs[i] in thumbs;
      if thumbs[i] != "" then ThumbnailRoute + thumbs[i] else MissingThumbnail
    case None => MissingThumbnail
  }

  /** The `map` callback for one music file: served under `/music/` by its
      own name, and with the artist "Unknown" when its base name has no `-`. */
  function MakeItem(file: string, thumbs: seq<string>): (item: MusicItem)
    ensures item.src == MusicRoute + file
    ensures Separator !in BaseName(file) ==> item.artist == UnknownArtist
  {
    var name := BaseName(file);
    var title := Split(name, Separator)[0];
    var artist := ArtistPart(name);
    MusicItem(
      Trim(title),
      if artist.Some? then Trim(artist.value) else UnknownArtist,
      MusicRoute + file,
      ThumbnailFor(thumbs, artist))
  }

  /** `files.map(file => MakeItem(file, thumbs))`. */
  function MapItems(files: seq<string>, thumbs: seq<string>): (r: seq<MusicItem>)
    ensures |r| == |files|
    ensures forall i :: 0 <= i < |files| ==> r[i] == MakeItem(files[i], thumbs)
  {
    if files == [] then [] else [MakeItem(files[0], thumbs)] + MapItems(files[1..], thumbs)
  }

  /** `load`: one item per `.mp3` file, in listing order. */
  function Load(musicDir: seq<string>, thumbnailDir: seq<string>): (p: PageData)
    ensures |p.musicList| == |Mp3Files(musicDir)|
    ensures forall i :: 0 <= i < |p.musicList| ==>
              p.musicList[i] == MakeItem(Mp3Files(musicDir)[i], thumbnailDir)
    ensures forall i :: 0 <= i < |p.musicList| ==>
              p.musicList[i].src == MusicRoute + Mp3Files(musicDir)[i]
  {
    PageData(MapItems(Mp3Files(musicDir), thumbnailDir))
  }

  /** Items whose sources are `/music/` plus, position by position, the
      names of a list that holds exactly the `.mp3` names of a listing. */
  lemma SourcesFromListing(list: seq<MusicItem>, files: seq<string>, musicDir: seq<string>)
    requires |list| == |files|
    requires forall i :: 0 <= i < |list| ==> list[i].src == MusicRoute + files[i]
    requires forall f :: f in files <==> f in musicDir && EndsWith(f, Extension)
    ensures forall i :: 0 <= i < |list| ==>
              exists f :: f in musicDir && EndsWith(f, Extension) && list[i].src == MusicRoute + f
    ensures forall f :: f in musicDir && EndsWith(f, Extension) ==>
              exists i :: 0 <= i < |list| && list[i].src == MusicRoute + f
  {
    forall i | 0 <= i < |list|
      ensures exists f :: f in musicDir && EndsWith(f, Extension) && list[i].src == MusicRoute + f
    {
      assert files[i] in files;
    }
    forall f | f in musicDir && EndsWith(f, Extension)
      ensures exists i :: 0 <= i < |list| && list[i].src == MusicRoute + f
    {
      var i :| 0 <= i < |files| && files[i] == f;
    }
  }

  /** Every item comes from a listed `.mp3` file, served under `/music/`
      by its original name, and every listed `.mp3` file has an item. */
  lemma LoadSources(musicDir: seq<string>, thumbnailDir: seq<string>)
    ensures var list := Load(musicDir, thumbnailDir).musicList;
            && (forall i :: 0 <= i < |list| ==>
                  exists f :: f in musicDir && EndsWith(f, Extension) && list[i].src == MusicRoute + f)
            && (forall f :: f in musicDir && EndsWith(f, Extension) ==>
                  exists i :: 0 <= i < |list| && list[i].src == MusicRoute + f)
  {
    var list := Load(musicDir, thumbnailDir).musicList;
    var files := Mp3Files(musicDir);
    SourcesFromListing(list, files, musicDir);
  }

  /** The title is the trimmed text before the first `-` of the base name,
      all of it when there is none. Being always defined, it never falls
      back to "Unknown". */
  lemma ItemTitle(file: string, thumbs: seq<string>)
    ensures var name := BaseName(file);
            MakeItem(file, thumbs).title == Trim(name[..FirstIndex(name, Separator)])
  {
    var name := BaseName(file);
    SplitAtFirst(name, Separator);
    if FirstIndex(name, Separator) == |name| {
      assert name[..|name|] == name;
    }
  }

  /** The artist piece is the text between the first and the second `-`
      (or the end) of the base name, and there is none without a `-`. */
  lemma ArtistPartAt(name: string)
    ensures var k := FirstIndex(name, Separator);
            && (k == |name| ==> ArtistPart(name) == None)
            && (k < |name| ==>
                  var rest := name[k + 1..];
                  ArtistPart(name) == Some(rest[..FirstIndex(rest, Separator)]))
  {
    var k := FirstIndex(name, Separator);
    SplitAtFirst(name, Separator);
    if k < |name| {
      var rest := name[k + 1..];
      SplitAtFirst(rest, Separator);
      assert Split(name, Separator)[1] == Split(rest, Separator)[0];
      assert rest[..|rest|] == rest;
      assert Split(rest, Separator)[0] == rest[..FirstIndex(rest, Separator)];
    }
  }

  /** The artist shown is that piece trimmed, and "Unknown" when the base
      name has no `-`. */
  lemma ItemArtist(file: string, thumbs: seq<string>)
    ensures var name := BaseName(file);
            var k := FirstIndex(name, Separator);
            && (k == |name| ==> MakeItem(file, thumbs).artist == UnknownArtist)
            && (k < |name| ==>
                  var rest := name[k + 1..];
                  MakeItem(file, thumbs).artist == Trim(rest[..FirstIndex(rest, Separator)]))
  {
    ArtistPartAt(BaseName(file));
  }

  /** The thumbnail is the first thumbnail name that starts with the
      UNTRIMMED artist (or with "undefined" when there is no artist). */
  lemma ThumbnailFirstMatch(thumbs: seq<string>, artist: Option<string>, i: nat)
    requires i < |thumbs| && thumbs[i] != "" && StartsWith(thumbs[i], ArtistProbe(artist))
    requires forall j :: 0 <= j < i ==> !StartsWith(thumbs[j], ArtistProbe(artist))
    ensures ThumbnailFor(thumbs, artist) == ThumbnailRoute + thumbs[i]
  {
    var r := FindThumbnail(thumbs, ArtistProbe(artist));
    assert r.Some? && r.value == i;
  }

  /** Without a thumbnail name starting with the probe, the fallback is used. */
  lemma ThumbnailFallback(thumbs: seq<string>, artist: Option<string>)
    requires forall j :: 0 <= j < |thumbs| ==> !StartsWith(thumbs[j], ArtistProbe(artist))
    ensures ThumbnailFor(thumbs, artist) == MissingThumbnail
  {
  }

  /** A base name without `-` has no artist, and its thumbnail is looked up
      by the prefix "undefined": the first thumbnail file whose name starts
      with "undefined" is picked for it. */
  lemma MissingArtistProbesUndefined(file: string, thumbs: seq<string>, i: nat)
    requires Separator !in BaseName(file)
    requires i < |thumbs| && StartsWith(thumbs[i], "undefined")
    requires forall j :: 0 <= j < i ==> !StartsWith(thumbs[j], "undefined")
    ensures MakeItem(file, thumbs).artist == UnknownArtist
    ensures MakeItem(file, thumbs).thumbnail == ThumbnailRoute + thumbs[i]
  {
    SplitNoSeparator(BaseName(file), Separator);
    ThumbnailFirstMatch(thumbs, None, i);
  }

  /** The lookup uses the artist before trimming: an artist written after
      "title - " keeps its leading space, so no thumbnail whose name starts
      with a non-space character can match it. */
  lemma UntrimmedArtistMisses(file: string, thumbs: seq<string>)
    requires ArtistPart(BaseName(file)).Some?
    requires ArtistPart(BaseName(file)).value != "" && IsWhitespace(ArtistPart(BaseName(file)).value[0])
    requires forall j :: 0 <= j < |thumbs| ==> thumbs[j] == "" || !IsWhitespace(thumbs[j][0])
    ensures MakeItem(file, thumbs).thumbnail == MissingThumbnail
  {
    var artist := ArtistPart(BaseName(file));
    forall j | 0 <= j < |thumbs|
      ensures !StartsWith(thumbs[j], ArtistProbe(artist))
    {
      assert thumbs[j] == "" || thumbs[j][0] != artist.value[0];
    }
    ThumbnailFallback(thumbs, artist);
  }
}
