/**
 * The metadata the writer attaches to each video and the transcoder command
 * that writes it. A Python dict is a sequence of entries in insertion order
 * (the order in which `metadata.items()` yields them) with distinct keys.
 */
module Metadata {
  import opened Wrappers
  import opened EpisodeTags
  import opened PathNames

  datatype Entry = Entry(key: string, value: string)

  type MetadataMap = seq<Entry>

  const TitleKey: string := "title"
  const AlbumKey: string := "album"
  const ShowKey: string := "show"
  const EpisodeIdKey: string := "episode_id"

  /** The four keys differ already in their first letter, and none holds `=`. */
  lemma WriterKeys()
    ensures TitleKey[0] == 't' && AlbumKey[0] == 'a' && ShowKey[0] == 's' && EpisodeIdKey[0] == 'e'
    ensures TitleKey != AlbumKey && TitleKey != ShowKey && TitleKey != EpisodeIdKey
    ensures AlbumKey != ShowKey && AlbumKey != EpisodeIdKey && ShowKey != EpisodeIdKey
    ensures '=' !in TitleKey && '=' !in AlbumKey && '=' !in ShowKey && '=' !in EpisodeIdKey
  {
  }

  function Keys(m: MetadataMap): set<string> {
    if m == [] then {} else {m[0].key} + Keys(m[1..])
  }

  predicate DistinctKeys(m: MetadataMap) {
    m == [] || (m[0].key !in Keys(m[1..]) && DistinctKeys(m[1..]))
  }

  /** `m.get(k)`. */
  function Get(m: MetadataMap, k: string): (v: Option<string>)
    ensures v.Some? <==> k in Keys(m)
  {
    if m == [] then None
    else if m[0].key == k then Some(m[0].value)
    else Get(m[1..], k)
  }

  /** `m[k] = v`: replace the value in place when the key is there, append otherwise. */
  function Put(m: MetadataMap, k: string, v: string): (r: MetadataMap)
    ensures Keys(r) == Keys(m) + {k}
    ensures Get(r, k) == Some(v)
    ensures forall k' :: k' != k ==> Get(r, k') == Get(m, k')
    ensures k !in Keys(m) ==> r == m + [Entry(k, v)]
    ensures DistinctKeys(m) ==> DistinctKeys(r)
  {
    if m == [] then [Entry(k, v)]
    else if m[0].key == k then
      var r := [Entry(k, v)] + m[1..];
      assert r[1..] == m[1..];
      r
    else
      var rest := Put(m[1..], k, v);
      var r := [m[0]] + rest;
      assert r[1..] == rest;
      assert k !in Keys(m) ==> m == [m[0]] + (m[1..]);
      r
  }

  /** The content type chosen at the prompt: a movie, or episodes of a named show. */
  datatype Content = Movie | TvShow(show: string)

  /** The metadata of a movie: its title and the album "Movies". */
  function MovieMetadata(stem: string): (m: MetadataMap)
    ensures DistinctKeys(m) && Keys(m) == {TitleKey, AlbumKey}
    ensures Get(m, TitleKey) == Some(stem) && Get(m, AlbumKey) == Some("Movies")
  {
    WriterKeys();
    var m := [Entry(TitleKey, stem), Entry(AlbumKey, "Movies")];
    assert m[1..] == [Entry(AlbumKey, "Movies")] && m[1..][1..] == [];
    assert Keys(m[1..]) == {AlbumKey};
    assert DistinctKeys(m[1..]);
    assert Keys(m) == {TitleKey, AlbumKey};
    m
  }

  /**
   * The metadata of an episode: title, album and show, and an `episode_id`
   * exactly when the extractor finds a tag in the stem.
   */
  function TvMetadata(stem: string, show: string): (m: MetadataMap)
    ensures DistinctKeys(m)
    ensures Keys(m) == {TitleKey, AlbumKey, ShowKey} + (if ExtractEpisodeNumber(stem).Some? then {EpisodeIdKey} else {})
    ensures Get(m, TitleKey) == Some(stem)
    ensures Get(m, AlbumKey) == Some(show) && Get(m, ShowKey) == Some(show)
    ensures Get(m, EpisodeIdKey) == ExtractEpisodeNumber(stem)
  {
    WriterKeys();
    var m := [Entry(TitleKey, stem), Entry(AlbumKey, show), Entry(ShowKey, show)];
    assert m[1..] == [Entry(AlbumKey, show), Entry(ShowKey, show)];
    assert m[1..][1..] == [Entry(ShowKey, show)] && m[1..][1..][1..] == [];
    assert Keys(m[1..][1..]) == {ShowKey};
    assert Keys(m[1..]) == {AlbumKey, ShowKey};
    assert DistinctKeys(m[1..][1..]);
    assert DistinctKeys(m[1..]);
    assert Keys(m) == {TitleKey, AlbumKey, ShowKey};
    assert DistinctKeys(m);
    assert Get(m[1..][1..], ShowKey) == Some(show);
    assert Get(m[1..], ShowKey) == Some(show);
    assert Get(m, ShowKey) == Some(show);
    assert Get(m, AlbumKey) == Some(show);
    assert Get(m, TitleKey) == Some(stem);
    var episode := ExtractEpisodeNumber(stem);
    if episode.Some? && episode.value != "" then Put(m, EpisodeIdKey, episode.value) else m
  }

  /** The metadata of one video, from its stem. */
  function MetadataFor(content: Content, stem: string): (m: MetadataMap)
    ensures DistinctKeys(m) && Get(m, TitleKey) == Some(stem)
    ensures Get(m, AlbumKey) == Some(match content case Movie => "Movies" case TvShow(show) => show)
  {
    match content
    case Movie => MovieMetadata(stem)
    case TvShow(show) => TvMetadata(stem, show)
  }

  /** The pair of arguments for one entry: `-metadata key=value`. */
  function EntryArgs(e: Entry): seq<string> {
    ["-metadata", e.key + "=" + e.value]
  }

  /** The metadata arguments of the whole map, in insertion order. */
  function MetadataArgs(m: MetadataMap): (args: seq<string>)
    ensures |args| == 2 * |m|
    ensures forall j :: 0 <= j < |m| ==> args[2 * j] == "-metadata" && args[2 * j + 1] == m[j].key + "=" + m[j].value
  {
    if m == [] then [] else MetadataArgs(m[..|m| - 1]) + EntryArgs(m[|m| - 1])
  }

  /**
   * The remux command of `add_metadata_to_video`, grown with `extend` as the
   * source does: input, stream copy, one `-metadata` pair per entry, then
   * overwrite and the temporary output.
   */
  method BuildRemuxCommand(video: string, metadata: MetadataMap) returns (cmd: seq<string>)
    ensures cmd == ["ffmpeg", "-i", video, "-c", "copy"] + MetadataArgs(metadata) + ["-y", TempName(video)]
  {
    cmd := ["ffmpeg", "-i", video, "-c", "copy"];
    for i := 0 to |metadata|
      invariant cmd == ["ffmpeg", "-i", video, "-c", "copy"] + MetadataArgs(metadata[..i])
    {
      assert metadata[..i + 1][..i] == metadata[..i];
      cmd := cmd + EntryArgs(metadata[i]);
    }
    assert metadata[..|metadata|] == metadata;
    cmd := cmd + ["-y", TempName(video)];
  }

  /** The index of the first `=` in `s`, or `|s|` when there is none. */
  function FirstEquals(s: string): (i: nat)
    ensures i <= |s|
    ensures forall k :: 0 <= k < i ==> s[k] != '='
    ensures i < |s| ==> s[i] == '='
  {
    if s == [] then 0
    else if s[0] == '=' then 0
    else 1 + FirstEquals(s[1..])
  }

  /**
   * How the transcoder reads `-metadata` pairs back: the key runs up to the
   * first `=`, the value is the rest.
   */
  function DecodeMetadataArgs(args: seq<string>): Option<MetadataMap> {
    if args == [] then Some([])
    else if |args| >= 2 && args[|args| - 2] == "-metadata" && FirstEquals(args[|args| - 1]) < |args[|args| - 1]| then
      var pair := args[|args| - 1];
      var i := FirstEquals(pair);
      match DecodeMetadataArgs(args[..|args| - 2])
      case None => None
      case Some(m) => Some(m + [Entry(pair[..i], pair[i + 1..])])
    else None
  }

  predicate PlainKeys(m: MetadataMap) {
    forall j :: 0 <= j < |m| ==> '=' !in m[j].key
  }

  /** A key without `=` is read back whole, and so is its value, whatever it holds. */
  lemma SplitEntry(e: Entry)
    requires '=' !in e.key
    ensures var pair := e.key + "=" + e.value;
            FirstEquals(pair) == |e.key| && pair[..|e.key|] == e.key && pair[|e.key| + 1..] == e.value
  {
    var pair := e.key + "=" + e.value;
    assert pair[|e.key|] == '=';
  }

  /** The command carries exactly the map: decoding its metadata arguments gives the map back. */
  lemma {:induction false} MetadataArgsRoundTrip(m: MetadataMap)
    requires PlainKeys(m)
    ensures DecodeMetadataArgs(MetadataArgs(m)) == Some(m)
  {
    if m != [] {
      var init, last := m[..|m| - 1], m[|m| - 1];
      var args := MetadataArgs(m);
      MetadataArgsRoundTrip(init);
      SplitEntry(last);
      var pair := last.key + "=" + last.value;
      assert args == MetadataArgs(init) + ["-metadata", pair];
      assert args[..|args| - 2] == MetadataArgs(init);
      assert DecodeMetadataArgs(args) == Some(init + [Entry(last.key, last.value)]);
      InitThenLast(m);
    }
  }

  /** A non-empty sequence is its front followed by its last element. */
  lemma InitThenLast<T>(s: seq<T>)
    requires |s| > 0
    ensures s[..|s| - 1] + [s[|s| - 1]] == s
  {
  }

  /** The writer's maps use only the keys title, album, show and episode_id, none holding `=`. */
  lemma WriterKeysArePlain(content: Content, stem: string)
    ensures PlainKeys(MetadataFor(content, stem))
  {
    WriterKeys();
    var m := MetadataFor(content, stem);
    forall j | 0 <= j < |m|
      ensures '=' !in m[j].key
    {
      KeyInKeys(m, j);
    }
  }

  lemma {:induction false} KeyInKeys(m: MetadataMap, j: nat)
    requires j < |m|
    ensures m[j].key in Keys(m)
  {
    if j > 0 {
      KeyInKeys(m[1..], j - 1);
    }
  }
}
