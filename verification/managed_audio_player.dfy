/** The sequencer: a player that walks forwards and backwards through the
    songs of a song service by their song IDs. */
module ManagedAudioPlayer {
  import opened Basics
  import opened SongDatabase
  import SongService
  import SimpleAudioPlayer
  import PosixPath

  /** `INITIAL_SONG_ID`: no song selected yet. */
  const InitialSongId := -1

  /** The player state, `_current_song_id` and `_song_service`. */
  datatype Managed = Managed(
    player: SimpleAudioPlayer.Player,
    currentSongId: int,
    service: SongService.Service)

  /** What `play_current_song` returns: Python's `None`, `False` or `True`. */
  datatype Returned = ReturnedNone | ReturnedFalse | ReturnedTrue {
    predicate Truthy() {
      ReturnedTrue?
    }
  }

  /** The state after `play_current_song`, what it returned, and how many
      decoder lines it read. */
  datatype PlayStep = PlayStep(state: Managed, returned: Returned, consumed: nat)

  /** The cursor is unset or names a registered song. */
  ghost predicate CursorValid(m: Managed) {
    && SongDatabase.Valid(m.service.cache)
    && InitialSongId <= m.currentSongId < Len(m.service.cache)
  }

  /** A valid cursor, and the player's cache agrees with its decoder. */
  ghost predicate Valid(m: Managed) {
    CursorValid(m) && SimpleAudioPlayer.Consistent(m.player)
  }

  /** `ManagedAudioPlayer()`: a new player and service, no song selected.
      Starting the service's workers is not part of this model. */
  function New(downloadDir: PosixPath.Path): (m: Managed)
    ensures Valid(m)
    ensures m.currentSongId == InitialSongId
    ensures m.player == SimpleAudioPlayer.New()
    ensures Len(m.service.cache) == 0 && m.service.downloaded == []
    ensures m.service.downloadDir == downloadDir
  {
    Managed(SimpleAudioPlayer.New(), InitialSongId, SongService.New(downloadDir))
  }

  /** A download finishing in the background, between calls. */
  function Downloaded(m: Managed, youtubeId: string): (r: Managed)
    ensures r.service == SongService.Downloaded(m.service, youtubeId)
    ensures r.player == m.player && r.currentSongId == m.currentSongId
    ensures CursorValid(m) ==> CursorValid(r)
    ensures Valid(m) ==> Valid(r)
  {
    m.(service := SongService.Downloaded(m.service, youtubeId))
  }

  /** `next_song`: move forward one song when the next song ID is below the
      (freshly drained) number of songs; otherwise stay put. */
  function NextSong(m: Managed): (r: (Managed, bool))
    requires SongDatabase.Valid(m.service.cache)
    ensures r.0.service == SongService.ProcessDownloadedQueue(m.service)
    ensures r.0.player == m.player
    ensures r.1 <==> m.currentSongId + 1 < Len(r.0.service.cache)
    ensures r.0.currentSongId == if r.1 then m.currentSongId + 1 else m.currentSongId
    ensures CursorValid(m) ==> CursorValid(r.0)
    ensures Valid(m) ==> Valid(r.0)
  {
    var (service, availableSongs) := SongService.Length(m.service);
    var nextSongId := m.currentSongId + 1;
    if nextSongId < availableSongs then (m.(service := service, currentSongId := nextSongId), true)
    else (m.(service := service), false)
  }

  /** `previous_song`: move back one song unless the cursor is below 1. */
  function PreviousSong(m: Managed): (r: (Managed, bool))
    ensures r.1 <==> m.currentSongId >= 1
    ensures r.1 ==> r.0 == m.(currentSongId := m.currentSongId - 1)
    ensures !r.1 ==> r.0 == m
    ensures CursorValid(m) ==> CursorValid(r.0)
    ensures Valid(m) ==> Valid(r.0)
  {
    if m.currentSongId < 1 then (m, false)
    else (m.(currentSongId := m.currentSongId - 1), true)
  }

  /** `play_current_song`. With no song selected it only selects song 0 when
      one is available and returns `None` without playing, or returns
      `False`. With a song selected it plays that song's file and returns
      `True`, or returns `False` if no song has that ID. */
  function PlayCurrentSong(m: Managed, lines: seq<string>): (r: PlayStep)
    requires SongDatabase.Valid(m.service.cache)
    ensures SongDatabase.Valid(r.state.service.cache)
    ensures r.state.service == SongService.ProcessDownloadedQueue(m.service)
    ensures m.currentSongId == InitialSongId ==>
      && r.consumed == 0
      && r.state.player == m.player
      && (if Len(r.state.service.cache) > 0
          then r.returned == ReturnedNone && r.state.currentSongId == 0
          else r.returned == ReturnedFalse && r.state.currentSongId == InitialSongId)
    ensures m.currentSongId != InitialSongId ==>
      && r.state.currentSongId == m.currentSongId
      && (if 0 <= m.currentSongId < Len(r.state.service.cache)
          then
            var path := SongService.SongPath(m.service.downloadDir,
                                             Registered(r.state.service.cache)[m.currentSongId]);
            var played := SimpleAudioPlayer.PlayFromPath(m.player, path, lines);
            r.returned == ReturnedTrue && r.state.player == played.0 && r.consumed == played.1
          else
            r.returned == ReturnedFalse && r.state.player == m.player && r.consumed == 0)
    ensures r.returned.Truthy() <==> |r.state.player.sent| > |m.player.sent|
    ensures CursorValid(m) ==> CursorValid(r.state)
    ensures Valid(m) ==> Valid(r.state)
  {
    if m.currentSongId == InitialSongId then
      var (service, available) := SongService.SongAvailable(m.service);
      var m1 := m.(service := service);
      if available then
        var (m2, _) := NextSong(m1);
        PlayStep(m2, ReturnedNone, 0)
      else
        PlayStep(m1, ReturnedFalse, 0)
    else
      var (service, songPath) := SongService.GetSongPathBySongId(m.service, m.currentSongId);
      var m1 := m.(service := service);
      match songPath
      case None => PlayStep(m1, ReturnedFalse, 0)
      case Some(path) =>
        var (player, consumed) := SimpleAudioPlayer.PlayFromPath(m.player, path, lines);
        assert SimpleAudioPlayer.Consistent(m.player) ==> SimpleAudioPlayer.Consistent(player) by {
          if SimpleAudioPlayer.Consistent(m.player) {
            SimpleAudioPlayer.PlayKeepsConsistency(m.player, path, lines);
          }
        }
        PlayStep(m1.(player := player), ReturnedTrue, consumed)
  }

  /** A successful step forward from a selected song is undone by a step
      back. */
  lemma NextThenPrevious(m: Managed)
    requires CursorValid(m)
    requires m.currentSongId >= 0
    ensures NextSong(m).1 ==> PreviousSong(NextSong(m).0).1
    ensures NextSong(m).1 ==> PreviousSong(NextSong(m).0).0 == NextSong(m).0.(currentSongId := m.currentSongId)
  {
  }

  /** A successful step back is undone by a step forward, even when new
      songs have arrived in between. */
  lemma PreviousThenNext(m: Managed)
    requires CursorValid(m)
    requires PreviousSong(m).1
    ensures NextSong(PreviousSong(m).0).1
    ensures NextSong(PreviousSong(m).0).0.currentSongId == m.currentSongId
  {
    SongService.DrainKeepsSongIds(m.service, m.currentSongId);
  }

  /** From the unset cursor a step forward selects song 0, and a step back
      from song 0 fails: the unset state is not restored. */
  lemma NextFromUnsetIsNotUndone(m: Managed)
    requires CursorValid(m)
    requires m.currentSongId == InitialSongId
    ensures NextSong(m).1 ==> NextSong(m).0.currentSongId == 0
    ensures NextSong(m).1 ==> !PreviousSong(NextSong(m).0).1
    ensures NextSong(m).1 ==> PreviousSong(NextSong(m).0).0.currentSongId == 0
  {
  }

  /** At the last song, with nothing new downloaded, a step forward fails
      and only the (empty) drain happens. */
  lemma NextAtLastSongFails(m: Managed)
    requires CursorValid(m)
    requires m.service.downloaded == []
    requires m.currentSongId == Len(m.service.cache) - 1
    ensures !NextSong(m).1
    ensures NextSong(m).0 == m
  {
  }

  /** With a valid cursor, a selected song always resolves and plays: the
      `False` branch for a missing path is unreachable. */
  lemma SelectedSongAlwaysPlays(m: Managed, lines: seq<string>)
    requires CursorValid(m)
    requires m.currentSongId != InitialSongId
    ensures PlayCurrentSong(m, lines).returned == ReturnedTrue
    ensures PlayCurrentSong(m, lines).state.player.sent[..|m.player.sent|] == m.player.sent
    ensures PlayCurrentSong(m, lines).state.player.sent[|m.player.sent|].Load?
  {
    SongService.DrainKeepsSongIds(m.service, m.currentSongId);
  }

  /** The first call with songs available only selects song 0; the next
      call plays song 0's file and returns `True`. */
  lemma FirstSongNeedsTwoCalls(m: Managed, lines: seq<string>, lines': seq<string>)
    requires CursorValid(m)
    requires m.currentSongId == InitialSongId
    requires Len(m.service.cache) > 0 || m.service.downloaded != []
    ensures var first := PlayCurrentSong(m, lines);
            && first.returned == ReturnedNone
            && first.state.player == m.player
            && var second := PlayCurrentSong(first.state, lines');
               && second.returned == ReturnedTrue
               && second.state.player.sent
                  == m.player.sent + [SimpleAudioPlayer.Load(
                       SongService.SongPath(m.service.downloadDir, Registered(first.state.service.cache)[0]))]
  {
    var first := PlayCurrentSong(m, lines);
    var available := SongService.SongAvailable(m.service);
    assert Len(first.state.service.cache) > 0;
  }

  /** With no song available, the first call returns `False` and plays
      nothing. */
  lemma NothingToPlay(m: Managed, lines: seq<string>)
    requires CursorValid(m)
    requires m.currentSongId == InitialSongId
    requires Len(m.service.cache) == 0 && m.service.downloaded == []
    ensures PlayCurrentSong(m, lines).returned == ReturnedFalse
    ensures PlayCurrentSong(m, lines).state.player == m.player
    ensures PlayCurrentSong(m, lines).state.currentSongId == InitialSongId
  {
    var available := SongService.SongAvailable(m.service);
  }
}
