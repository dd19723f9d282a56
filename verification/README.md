# music-pi core, modelled in Dafny

music-pi is a Raspberry Pi jukebox. Song requests (YouTube video IDs) come in
over MQTT. A worker process downloads each request as an mp3. The control
thread then plays the downloads in order through an `mpg123 -R` decoder
subprocess. This project models the control-thread core of that program as
pure functions over immutable state:

- `SongDatabase`: the `IDCache`. It is a two-way association between YouTube
  IDs and local song IDs, where song IDs are handed out densely from 0 in
  registration order. Both directions are Python dicts. `PyDict` models a
  dict as its insertion-ordered entry list, so iteration order is part of
  the model.
- `SongService`: the cache plus the queue of finished downloads. Every read
  first drains that queue into the cache, oldest completion first. The
  service also builds a song's file path. That needs the part of
  `PurePosixPath` modelled in `PosixPath`: parsing, joining with `/`, and
  `str`.
- `SimpleAudioPlayer`: the cached decoder state (volume, pitch, mute,
  loaded), every command line sent to the decoder, the player's log, and
  the scan of the decoder's output lines during playback. The ghost
  predicate `Consistent` says the cache agrees with the decoder state that
  the commands sent so far imply.
- `ManagedAudioPlayer`: the cursor over song IDs. It steps forward and back
  and plays the current song.

Time and the environment are explicit:

- The decoder's output is a parameter: a sequence of lines. "" or running
  out of lines means end of stream.
- A download finishing in the background is the explicit step
  `Downloaded`. It is taken between calls.

## Model

| member | source | states |
|---|---|---|
| PyDict.Get | song_database.py:30-34 | `dict.get` returns nothing exactly when the key is absent; on a well-formed dict it returns the value stored for that key |
| PyDict.Set | song_database.py:15-17 | dict assignment adds the key; a new key goes last and an existing key keeps its position; no key is duplicated; the key reads back its new value; every other key reads as before |
| PyDict.Len | song_database.py:43-44 | `len` of a well-formed dict is its number of distinct keys |
| SongDatabase.SongIdsAreDense | song_database.py:19-28 | in a valid cache the song IDs are exactly 0 .. next-1, in insertion order |
| SongDatabase.Empty | song_database.py:8-13 | a new cache is valid, holds nothing, and its next ID is 0 |
| SongDatabase.Associate | song_database.py:15-17 | the song ID reads back the YouTube ID and the YouTube ID reads back the song ID; every other key reads as before |
| SongDatabase.Register | song_database.py:19-28 | registering keeps the cache valid; an unseen ID gets the next song ID and is appended; a known ID leaves the cache unchanged and returns the song ID it already has |
| SongDatabase.YoutubeIdOf | song_database.py:30-31 | there is a YouTube ID exactly for song IDs 0 .. next-1, and it is the one registered at that position |
| SongDatabase.SongIdOf | song_database.py:33-34 | there is a song ID exactly for registered YouTube IDs, and that song ID maps back to the YouTube ID |
| SongDatabase.NextSongId | song_database.py:36-37 | in a valid cache the next song ID is the number of registered IDs: every lower song ID is taken and it is not |
| SongDatabase.Entries | song_database.py:39-41 | iteration yields `(i, youtube_id_i)` for every song ID in ascending order |
| SongDatabase.Len | song_database.py:36-44 | the length equals the next song ID and the number of registered IDs |
| SongDatabase.MutualInverse | song_database.py:15-34 | the two lookups are inverse: song ID s maps to y iff y maps to s |
| SongDatabase.RegisterIdempotent | song_database.py:19-28 | registering the same ID twice changes nothing the second time and returns the same song ID |
| SongDatabase.RegisterAll | song_database.py:19-28 | registering a batch appends its first occurrences of unseen IDs in order; each ID of the batch gets the song ID that now maps back to it |
| SongDatabase.DistinctNewIdsNumberedInOrder | song_database.py:19-28 | distinct unseen IDs get consecutive song IDs from the current next ID, in order |
| SongDatabase.FreshCacheNumbersFromZero | song_database.py:8-28 | on an empty cache, distinct IDs are numbered 0, 1, 2, ... and the length is their count |
| SongDatabase.NewIdsExtendDistinctly | song_database.py:19-28 | registration never duplicates an ID; the registered set grows by exactly the batch's IDs |
| SongDatabase.LenCountsDistinctIds | song_database.py:19-44 | after a batch the length is the number of distinct IDs, old and new |
| PosixPath.Split | song_service.py:38-39 | splitting on "/" gives at least one piece, no piece contains "/", and a string without "/" is one piece |
| PosixPath.JoinSplit | song_service.py:38-39 | joining the pieces of a split with "/" gives the string back |
| PosixPath.Join | song_service.py:38-39 | joining at least one slash-free piece with "/" and splitting the result gives the pieces back |
| PosixPath.KeptParts | song_service.py:38-39 | parsing keeps exactly the nonempty, non-"." components: each one kept comes from the input, and each such component of the input is kept |
| PosixPath.KeptPartsIsFilter | song_service.py:38-39 | dropping components is a filter: a single component survives exactly when it is kept, and the filter distributes over concatenation, so order is preserved |
| PosixPath.Anchor | song_service.py:38-39 | the anchor is "", "/" or "//"; it is "" exactly when the text does not start with "/", and "//" exactly when the text starts with two slashes but not three |
| PosixPath.Parse | song_service.py:38-39 | a parsed path takes its anchor from the leading slashes by the rule `Anchor` states, has one of the three anchors and only nonempty, non-"." components without "/"; it is relative exactly when the text does not start with "/"; text without "/" is its own single component, or none when it is empty or "." |
| PosixPath.SplitConcat | song_service.py:38-39 | splitting `a + "/" + b` on "/" gives the pieces of `a` followed by those of `b` |
| PosixPath.ParseJoin | song_service.py:38-39 | the components of `a + "/" + b` are those of `a` followed by those of `b`, so with the single-component case every input component that is kept survives, in order |
| PosixPath.AnchorOfJoin | song_service.py:38-39 | appending "/" and a relative text to a nonempty text not ending in "/" does not change the anchor |
| PosixPath.Text | song_service.py:38-39 | rendering a parsed path and parsing the text again gives the same path |
| PosixPath.Child | song_service.py:38-39 | joining keeps a path parsed; a relative name keeps the base's anchor and components as a prefix; an absolute name gives an absolute path |
| PosixPath.ChildJoinsText | song_service.py:38-39 | for a nonempty base text not ending in "/" and a relative name, `PurePosixPath(a) / b` is `PurePosixPath(a + "/" + b)`: the name's components are appended and nothing else |
| PosixPath.PlainChildText | song_service.py:38-39 | a plain file name below a directory renders as directory, "/", name |
| PosixPath.AbsoluteChildIgnoresBase | song_service.py:38-39 | joining an absolute name discards the base directory |
| SongService.New | song_service.py:51-55 | a new service has a valid empty cache and an empty completion queue |
| SongService.Downloaded | song_service.py:100-104 | a finished download joins the back of the completion queue and nothing else changes |
| SongService.SongPath | song_service.py:38-39 | every song path ends in ".mp3"; below a download directory with at least one component, an ID that is one plain component (not empty, not ".", no "/") gives the directory, "/", the ID and ".mp3" |
| SongService.ProcessDownloadedQueue | song_service.py:115-125 | draining empties the queue, keeps the cache valid, and registers the queue's new IDs in order after the existing ones |
| SongService.GetSongPathBySongId | song_service.py:127-136 | after draining, there is a path exactly for song IDs 0 .. len-1, and it is the path of that song's YouTube ID |
| SongService.Iter | song_service.py:138-141 | after draining, iteration lists `(i, youtube_id_i)` for every song |
| SongService.Length | song_service.py:143-146 | after draining, the length is the number of distinct IDs registered or completed |
| SongService.SongAvailable | song_service.py:148-149 | a song is available iff one is registered or a completion is waiting |
| SongService.DrainIdempotent | song_service.py:115-125 | draining a drained service changes nothing |
| SongService.DrainKeepsSongIds | song_service.py:115-125 | draining never renumbers or drops a song |
| SongService.DrainKeepsQueueOrder | song_service.py:115-141 | completions not seen before are numbered in queue order after the existing songs |
| SongService.FifoExample | song_service.py:115-141 | two distinct completions on an empty cache become songs 0 and 1 in arrival order |
| SongService.DuplicateCompletionsAddNothing | song_service.py:115-146 | a completion of an ID already registered or already queued does not change the length |
| SimpleAudioPlayer.Clamp | simple_audio_player.py:16-17 | the result never exceeds the upper bound; with ordered bounds it lies between them and is the input when the input is in range; an empty range gives the upper bound |
| SimpleAudioPlayer.Send | simple_audio_player.py:44-49 | one command is sent after all earlier ones, and nothing else about the player changes |
| SimpleAudioPlayer.SetVolume | simple_audio_player.py:74-76 | the cached volume is the level clamped to 0..100, that level is sent, and nothing else changes |
| SimpleAudioPlayer.SetPitch | simple_audio_player.py:96-98 | the pitch is stored unclamped and sent, and nothing else changes |
| SimpleAudioPlayer.New | simple_audio_player.py:23-42 | a new player has volume 100 and pitch 0, has sent both once, is unloaded and unmuted, and is consistent with the decoder |
| SimpleAudioPlayer.Stop | simple_audio_player.py:64-69 | a loaded player sends "stop" and becomes unloaded; an unloaded player sends nothing and logs a warning |
| SimpleAudioPlayer.TogglePause | simple_audio_player.py:71-72 | "pause" is sent and no cached state changes |
| SimpleAudioPlayer.AdjustVolume | simple_audio_player.py:78-81 | the new volume is the old volume plus the amount, clamped to 0..100 |
| SimpleAudioPlayer.ToggleMute | simple_audio_player.py:83-88 | "unmute" is sent when muted and "mute" otherwise, and the flag flips |
| SimpleAudioPlayer.SeekBy | simple_audio_player.py:90-91 | one relative seek command is sent and no cached state changes |
| SimpleAudioPlayer.AdjustPitch | simple_audio_player.py:93-94 | the new pitch is the old pitch plus the amount, and is sent |
| SimpleAudioPlayer.ScanResponses | simple_audio_player.py:56-62 | the loop reads up to and including the first line that starts with "@P 0" or is the end of stream, and logs the payload of every "@E" line it read |
| SimpleAudioPlayer.StopsAfterUnique | simple_audio_player.py:57-62 | the stopping point of the response loop is unique |
| SimpleAudioPlayer.PlayFromPath | simple_audio_player.py:51-62 | "load" is sent, the player is loaded, the response loop stops at the first end line, every error read is logged, and volume, pitch and mute are unchanged |
| SimpleAudioPlayer.ErrorThenFinished | simple_audio_player.py:57-62 | an error line then the finished line: two lines are read and one error is logged |
| SimpleAudioPlayer.StreamEndFinishesPlayback | simple_audio_player.py:61-62 | with no finished line, playback ends when the stream ends |
| SimpleAudioPlayer.OperationsKeepConsistency | simple_audio_player.py:26-98 | every control operation keeps the cached volume, pitch, mute and loaded state equal to what the commands sent imply, and never sends "stop" before a "load" |
| SimpleAudioPlayer.PlayKeepsConsistency | simple_audio_player.py:51-62 | playing a song leaves the cache consistent with the decoder: loaded, and volume, pitch and mute as sent |
| SimpleAudioPlayer.SendKeepsConsistency | simple_audio_player.py:44-49 | sending one command and updating the cache as that command changes the decoder keeps them consistent |
| SimpleAudioPlayer.StopsFollowLoadsAppend | simple_audio_player.py:36-39 | a "stop" sent only while loaded keeps every stop preceded by a load |
| SimpleAudioPlayer.ToggleMuteTwice | simple_audio_player.py:83-88 | toggling mute twice restores the flag and sends both commands |
| SimpleAudioPlayer.AdjustVolumeClampsAfterAdding | simple_audio_player.py:78-81 | clamping happens after adding, so a saturated adjustment is not remembered |
| SimpleAudioPlayer.StopTwiceSendsOnce | simple_audio_player.py:64-69 | a second stop in a row sends nothing |
| SimpleAudioPlayer.StopAfterPlaybackSends | simple_audio_player.py:51-69 | the player stays loaded after playback finishes, so a later stop still sends "stop" |
| ManagedAudioPlayer.New | managed_audio_player.py:14-19 | a new managed player has no song selected, a fresh player and an empty service over the given download directory |
| ManagedAudioPlayer.Downloaded | song_service.py:100-104 | a background completion reaches the service only and keeps the player valid |
| ManagedAudioPlayer.NextSong | managed_audio_player.py:39-50 | advancing succeeds iff the next song ID is below the drained song count; the cursor moves by one on success and stays otherwise |
| ManagedAudioPlayer.PreviousSong | managed_audio_player.py:52-60 | retreating succeeds iff the cursor is at least 1; the cursor moves back by one on success, and nothing changes otherwise |
| ManagedAudioPlayer.PlayCurrentSong | managed_audio_player.py:21-37 | with no song selected it selects song 0 without playing and returns None, or returns False when no song is available; with a song selected it plays that song's file and returns True, or returns False when the ID is unknown; it returns a true value exactly when it sent a "load"; the cursor stays valid and the player stays consistent with its decoder |
| ManagedAudioPlayer.NextThenPrevious | managed_audio_player.py:39-60 | from a selected song, a successful advance is undone by a retreat |
| ManagedAudioPlayer.PreviousThenNext | managed_audio_player.py:39-60 | a successful retreat is undone by an advance, even if songs arrived in between |
| ManagedAudioPlayer.NextFromUnsetIsNotUndone | managed_audio_player.py:39-60 | from the unset cursor, advancing selects song 0 and retreating then fails |
| ManagedAudioPlayer.NextAtLastSongFails | managed_audio_player.py:39-50 | at the last song with nothing pending, advancing fails and changes nothing |
| ManagedAudioPlayer.SelectedSongAlwaysPlays | managed_audio_player.py:30-37 | with a valid cursor, a selected song always resolves to a path and plays, so the False branch is unreachable |
| ManagedAudioPlayer.FirstSongNeedsTwoCalls | managed_audio_player.py:21-37 | the first call only selects song 0; the second plays song 0 and returns True |
| ManagedAudioPlayer.NothingToPlay | managed_audio_player.py:25-29 | with no songs registered or pending, the first call returns False, plays nothing and keeps the cursor unset |

## Left out

- Subprocesses and I/O are not modelled. The `mpg123` process, its pipes
  and `terminate` are out. The decoder's output is an input sequence, and
  the commands sent are recorded as `Command` values rather than encoded
  as ASCII text.
- The logger is not modelled as a file. Log records are kept in the
  player's `log` field, in order.
- SimpleAudioPlayer.Send: cannot fail. The source can fail in two ways.
  First, if the decoder has exited, the scan sees end of stream and
  playback counts as finished, but the next command written (the next
  `load`) raises `BrokenPipeError` on `flush()`. Second, the source
  encodes every command as ASCII, so a `load` of a path with a non-ASCII
  character raises `UnicodeEncodeError`. That happens whenever the
  program is installed under a non-ASCII directory, since the download
  directory comes from the program's own location. `play_from_path` then raises before setting
  `_is_loaded`, and `play_current_song` passes the exception on. In the
  model, `PlayFromPath` always loads and `PlayCurrentSong` returns True.
- SimpleAudioPlayer.SetPitch: the pitch is an exact `real`. The source
  sends `pitch {p:f}`, rounded to six decimals, so the decoder's pitch
  can differ from the cached `_pitch`. `Consistent`'s pitch conjunct
  holds for the exact value only.
- Command text formatting is not modelled. The pitch is a `real`, so
  Python's float rounding and `%f` formatting are not modelled. The seek
  amount is an integer; the source formats it with `%+f`, so "seek +5"
  is really "seek +5.000000".
- The MQTT receiver, the downloader worker and `youtube_downloader` are
  not part of this model. Only their effect is modelled: a completed ID
  appears at the back of the completion queue (`Downloaded`).
- Download errors that stop the worker are not modelled, nor the
  `OSError` that a closed queue can raise during shutdown.
- Completions are modelled only between calls. A completion arriving
  between the two drains inside one `play_current_song` call, or between
  `empty()` and `get()`, is not modelled.
- The download directory is a parameter. The source computes it from the
  program's own location. `_clear_downloaded` is not part of this model.
- `PosixPath` covers only what `_song_path` needs: the anchor, dropping
  empty and "." components, joining, and `str`. It does not cover Windows
  paths.
- `SongDatabase.Entries` and `SongService.Iter` return a snapshot. In the
  source, `__iter__` is a lazy generator over the live dict. Registering
  a song while iterating raises `RuntimeError` ("dictionary changed size
  during iteration"). That interleaving is not modelled.
- The decoder's output lines and the logged error payloads are bytes in
  the source (`b"@P 0"`, `b"@E"`). The model uses strings.
- `main.py`, `controls.py` and the test scripts are not part of this model.

The code and its documentation disagree in three places. The model
follows the code:

- `play_current_song` says it plays the song and returns whether that
  succeeded. With no song selected yet, it only calls `next_song`, falls
  off the end and returns `None` (`ReturnedNone`). Playing starts on the
  second call (`FirstSongNeedsTwoCalls`).
- `toggle_mute` says it returns True if the audio was muted and False
  otherwise. The code returns `None`. The model returns the new player
  only; the flag it sets is `isMuted`.
- `seek_by` is documented as an integer seek. The code formats it as a
  signed float.

One expectation that no docstring states also fails. One might expect
advancing then retreating to restore the cursor. The code does so only
from a selected song. From the unset cursor, advancing selects song 0,
and retreating from 0 fails (`NextFromUnsetIsNotUndone`).
