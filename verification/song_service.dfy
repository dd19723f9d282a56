/** The front-facing song service: the identifier cache plus the queue of
    finished downloads, reconciled into the cache lazily on every read. */
module SongService {
  import opened Basics
  import opened SongDatabase
  import PosixPath

  /** `MUSIC_EXTENSION` */
  const MusicExtension := "mp3"

  /** The service as the control thread sees it: the download directory,
      `_available_song_ids`, and the IDs in `_downloaded_queue` not yet
      taken out, oldest first. */
  datatype Service = Service(
    downloadDir: PosixPath.Path,
    cache: IdCache,
    downloaded: seq<string>)

  /** `SongService()`: an empty cache and an empty completion queue. The
      directory is computed from the program's location at run time, so it
      is a parameter here. */
  function New(downloadDir: PosixPath.Path): (s: Service)
    ensures Valid(s.cache) && Len(s.cache) == 0
    ensures s.downloaded == []
    ensures s.downloadDir == downloadDir
  {
    Service(downloadDir, Empty(), [])
  }

  /** The downloader worker's `_downloaded_queue.put(youtube_id)`, seen from
      the control thread: one more completion waits at the back. */
  function Downloaded(s: Service, youtubeId: string): (r: Service)
    ensures r.downloaded == s.downloaded + [youtubeId]
    ensures r.cache == s.cache && r.downloadDir == s.downloadDir
  {
    s.(downloaded := s.downloaded + [youtubeId])
  }

  /** `_song_path`: the download directory joined with the ID, plus ".mp3".
      Below a directory with at least one component, an ordinary ID gives
      the directory, a slash, the ID and the extension. */
  function SongPath(downloadDir: PosixPath.Path, youtubeId: string): (r: string)
    ensures |r| >= 4 && r[|r| - 4..] == ".mp3"
    ensures |downloadDir.parts| > 0 && PosixPath.PlainName(youtubeId) ==>
      r == PosixPath.Text(downloadDir) + "/" + youtubeId + ".mp3"
  {
    var base := PosixPath.Text(PosixPath.Child(downloadDir, youtubeId));
    assert |downloadDir.parts| > 0 && PosixPath.PlainName(youtubeId) ==>
      base == PosixPath.Text(downloadDir) + "/" + youtubeId by {
      if |downloadDir.parts| > 0 && PosixPath.PlainName(youtubeId) {
        PosixPath.PlainChildText(downloadDir, youtubeId);
      }
    }
    var r := base + ("." + MusicExtension);
    ExtensionSuffix(base, r);
    r
  }

  /** Appending the extension leaves ".mp3" as the last four characters. */
  lemma ExtensionSuffix(base: string, r: string)
    requires r == base + ("." + MusicExtension)
    ensures |r| >= 4 && r[|r| - 4..] == ".mp3"
    ensures r == base + ".mp3"
  {
    assert "." + MusicExtension == ".mp3";
    assert r[|base|..] == ".mp3";
  }

  /** `_process_downloaded_queue`: register every completed ID, oldest
      first, and leave the queue empty. */
  function ProcessDownloadedQueue(s: Service): (r: Service)
    requires Valid(s.cache)
    ensures Valid(r.cache)
    ensures r.downloaded == []
    ensures r.downloadDir == s.downloadDir
    ensures Registered(r.cache) == Registered(s.cache) + NewIds(Registered(s.cache), s.downloaded)
  {
    s.(cache := RegisterAll(s.cache, s.downloaded).0, downloaded := [])
  }

  /** `get_song_path_by_song_id`: after draining, the path of the song with
      that ID, or `None` when no song has it. */
  function GetSongPathBySongId(s: Service, songId: int): (r: (Service, Option<string>))
    requires Valid(s.cache)
    ensures r.0 == ProcessDownloadedQueue(s)
    ensures r.1.None? <==> !(0 <= songId < Len(r.0.cache))
    ensures r.1.Some? ==> r.1.value == SongPath(s.downloadDir, Registered(r.0.cache)[songId])
  {
    var drained := ProcessDownloadedQueue(s);
    match YoutubeIdOf(drained.cache, songId)
    case None => (drained, None)
    case Some(youtubeId) => (drained, Some(SongPath(drained.downloadDir, youtubeId)))
  }

  /** `__iter__`: after draining, the `(song_id, youtube_id)` pairs in
      ascending song ID order. */
  function Iter(s: Service): (r: (Service, seq<(int, string)>))
    requires Valid(s.cache)
    ensures r.0 == ProcessDownloadedQueue(s)
    ensures |r.1| == Len(r.0.cache)
    ensures forall i :: 0 <= i < |r.1| ==> r.1[i] == (i, Registered(r.0.cache)[i])
  {
    var drained := ProcessDownloadedQueue(s);
    (drained, Entries(drained.cache))
  }

  /** `__len__`: after draining, how many songs are available. */
  function Length(s: Service): (r: (Service, nat))
    requires Valid(s.cache)
    ensures r.0 == ProcessDownloadedQueue(s)
    ensures r.1 == Len(r.0.cache)
    ensures r.1 == |Elements(Registered(s.cache)) + Elements(s.downloaded)|
  {
    var drained := ProcessDownloadedQueue(s);
    LenCountsDistinctIds(s.cache, s.downloaded);
    (drained, Len(drained.cache))
  }

  /** `song_available`: some song is registered, or about to be. */
  function SongAvailable(s: Service): (r: (Service, bool))
    requires Valid(s.cache)
    ensures r.0 == ProcessDownloadedQueue(s)
    ensures r.1 <==> Len(r.0.cache) > 0
    ensures r.1 <==> (Len(s.cache) > 0 || s.downloaded != [])
  {
    var (drained, n) := Length(s);
    assert s.downloaded != [] ==> s.downloaded[0] in Elements(s.downloaded);
    (drained, n > 0)
  }

  /** Draining twice is the same as draining once. */
  lemma DrainIdempotent(s: Service)
    requires Valid(s.cache)
    ensures ProcessDownloadedQueue(ProcessDownloadedQueue(s)) == ProcessDownloadedQueue(s)
  {
  }

  /** Draining never renumbers or drops a song: every existing song ID
      still names the same YouTube ID afterwards. */
  lemma DrainKeepsSongIds(s: Service, songId: int)
    requires Valid(s.cache)
    requires 0 <= songId < Len(s.cache)
    ensures Len(ProcessDownloadedQueue(s).cache) >= Len(s.cache)
    ensures YoutubeIdOf(ProcessDownloadedQueue(s).cache, songId) == YoutubeIdOf(s.cache, songId)
  {
    var before := Registered(s.cache);
    var after := Registered(ProcessDownloadedQueue(s).cache);
    assert after[songId] == (before + NewIds(before, s.downloaded))[songId] == before[songId];
  }

  /** Draining numbers the completions not seen before in queue order:
      iteration lists the old songs, then those completions oldest first. */
  lemma DrainKeepsQueueOrder(s: Service)
    requires Valid(s.cache)
    ensures var added := NewIds(Registered(s.cache), s.downloaded);
            Iter(s).1 == Entries(s.cache)
                         + seq(|added|, i requires 0 <= i < |added| => (Len(s.cache) + i, added[i]))
  {
    var added := NewIds(Registered(s.cache), s.downloaded);
    var it := Iter(s);
    var n := Len(s.cache);
    EntriesExtend(it.1, Registered(it.0.cache), Entries(s.cache), Registered(s.cache), added, n);
  }

  /** Numbered entries of `before + added` are the numbered entries of
      `before` followed by those of `added`, numbered on from |before|. */
  lemma EntriesExtend(entries: seq<(int, string)>, registered: seq<string>,
                      oldEntries: seq<(int, string)>, before: seq<string>, added: seq<string>, n: int)
    requires registered == before + added
    requires n == |before|
    requires |entries| == |registered|
    requires forall i :: 0 <= i < |entries| ==> entries[i] == (i, registered[i])
    requires |oldEntries| == |before|
    requires forall i :: 0 <= i < |oldEntries| ==> oldEntries[i] == (i, before[i])
    ensures entries == oldEntries + seq(|added|, i requires 0 <= i < |added| => (n + i, added[i]))
  {
  }

  /** Completions `a` then `b` waiting on an empty cache are numbered 0
      and 1 in that order. */
  lemma FifoExample(s: Service, a: string, b: string)
    requires Valid(s.cache) && Len(s.cache) == 0
    requires s.downloaded == [a, b] && a != b
    ensures Iter(s).1 == [(0, a), (1, b)]
  {
    NewIdsOfTwo(a, b);
    DrainKeepsQueueOrder(s);
  }

  lemma NewIdsOfTwo(a: string, b: string)
    requires a != b
    ensures NewIds([], [a, b]) == [a, b]
  {
    assert [a, b][1..] == [b];
    assert [] + [a] == [a];
    assert [b][1..] == [];
    assert NewIds([a], [b]) == [b] + NewIds([a, b], []);
  }

  /** A completion already registered, or repeated in the queue, gets no
      song ID of its own: the length counts distinct IDs. */
  lemma DuplicateCompletionsAddNothing(s: Service, youtubeId: string)
    requires Valid(s.cache)
    requires youtubeId in Registered(s.cache) || youtubeId in s.downloaded
    ensures Length(Downloaded(s, youtubeId)).1 == Length(s).1
  {
    var s' := Downloaded(s, youtubeId);
    var before := Elements(Registered(s.cache)) + Elements(s.downloaded);
    var after := Elements(Registered(s'.cache)) + Elements(s'.downloaded);
    assert Elements(s'.downloaded) == Elements(s.downloaded) + {youtubeId};
    assert youtubeId in before;
    assert after == before;
  }
}
