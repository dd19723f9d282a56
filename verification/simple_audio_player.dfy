/** The control side of the wrapper around `mpg123 -R`: cached volume,
    pitch, mute and "loaded" state, the command lines written to the
    decoder, and the scan of its response lines during playback. */
module SimpleAudioPlayer {
  import opened Basics

  /** `END_PLAYBACK_SENTINEL`: the decoder reports "0 frames left". */
  const EndPlaybackSentinel := "@P 0"
  /** `ERROR_SENTINEL` */
  const ErrorSentinel := "@E"

  /** One command line written to the decoder's standard input. */
  datatype Command =
    | Load(path: string)    // "load <path>"
    | Stop                  // "stop"
    | Pause                 // "pause"
    | Volume(level: int)    // "volume <level>"
    | Pitch(offset: real)   // "pitch <offset>"
    | Seek(amount: int)     // "seek <amount>"
    | Mute                  // "mute"
    | Unmute                // "unmute"

  /** What the player writes to its log. */
  datatype LogEntry =
    | DecoderError(payload: string)  // an "@E" line, prefix removed
    | StopWhileUnloaded              // the warning of a guarded `stop`

  /** The cached decoder state, every command sent so far, and the log. */
  datatype Player = Player(
    volume: int,
    pitch: real,
    isLoaded: bool,
    isMuted: bool,
    sent: seq<Command>,
    log: seq<LogEntry>)

  function Max(a: int, b: int): int { if a < b then b else a }
  function Min(a: int, b: int): int { if a < b then a else b }

  /** `clamp`: `min(max_n, max(min_n, n))`. */
  function Clamp(n: int, lo: int, hi: int): (r: int)
    ensures r <= hi
    ensures lo <= hi ==> lo <= r
    ensures lo <= n <= hi ==> r == n
    ensures lo <= hi && n < lo ==> r == lo
    ensures hi < n ==> r == hi
    ensures hi < lo ==> r == hi
  {
    Min(hi, Max(lo, n))
  }

  /** `_send_command`: one more line to the decoder, after everything sent
      so far; nothing else changes. */
  function Send(p: Player, c: Command): (r: Player)
    ensures |r.sent| == |p.sent| + 1
    ensures r.sent[..|p.sent|] == p.sent && r.sent[|p.sent|] == c
    ensures r == p.(sent := r.sent)
  {
    p.(sent := p.sent + [c])
  }

  /** `set_volume`: store the clamped level, then send it. */
  function SetVolume(p: Player, newVolume: int): (r: Player)
    ensures 0 <= r.volume <= 100
    ensures 0 <= newVolume <= 100 ==> r.volume == newVolume
    ensures newVolume < 0 ==> r.volume == 0
    ensures 100 < newVolume ==> r.volume == 100
    ensures r.sent == p.sent + [Volume(r.volume)]
    ensures r == p.(volume := r.volume, sent := r.sent)
  {
    var v := Clamp(newVolume, 0, 100);
    Send(p.(volume := v), Volume(v))
  }

  /** `set_pitch`: store the pitch, unclamped, then send it. */
  function SetPitch(p: Player, newPitch: real): (r: Player)
    ensures r.pitch == newPitch
    ensures r.sent == p.sent + [Pitch(newPitch)]
    ensures r == p.(pitch := r.pitch, sent := r.sent)
  {
    Send(p.(pitch := newPitch), Pitch(newPitch))
  }

  /** `SimpleAudioPlayer()`: volume 100 and pitch 0, each sent once so the
      decoder starts from the cached values; nothing loaded, not muted. */
  function New(): (p: Player)
    ensures p.volume == 100 && p.pitch == 0.0
    ensures !p.isLoaded && !p.isMuted
    ensures p.sent == [Volume(100), Pitch(0.0)]
    ensures p.log == []
    ensures Consistent(p)
  {
    var p := SetPitch(SetVolume(Player(100, 0.0, false, false, [], []), 100), 0.0);
    assert p.sent[..1] == [Volume(100)];
    p
  }

  /** `stop`: only a loaded player sends "stop"; otherwise a warning is
      logged and nothing is sent. */
  function Stop(p: Player): (r: Player)
    ensures !r.isLoaded
    ensures p.isLoaded ==> r.sent == p.sent + [Command.Stop] && r.log == p.log
    ensures !p.isLoaded ==> r.sent == p.sent && r.log == p.log + [StopWhileUnloaded]
    ensures r.volume == p.volume && r.pitch == p.pitch && r.isMuted == p.isMuted
  {
    if p.isLoaded then Send(p, Command.Stop).(isLoaded := false)
    else p.(log := p.log + [StopWhileUnloaded])
  }

  /** `toggle_pause`: sends "pause"; the cache does not track pausing. */
  function TogglePause(p: Player): (r: Player)
    ensures r.sent == p.sent + [Pause]
    ensures r == p.(sent := r.sent)
  {
    Send(p, Pause)
  }

  /** `adjust_volume`: add, then clamp. */
  function AdjustVolume(p: Player, amount: int): (r: Player)
    ensures r.volume == Clamp(p.volume + amount, 0, 100)
    ensures r.sent == p.sent + [Volume(r.volume)]
    ensures r == p.(volume := r.volume, sent := r.sent)
  {
    SetVolume(p, p.volume + amount)
  }

  /** `toggle_mute`: "unmute" when muted, "mute" otherwise, then flip. */
  function ToggleMute(p: Player): (r: Player)
    ensures r.isMuted == !p.isMuted
    ensures r.sent == p.sent + [if p.isMuted then Unmute else Mute]
    ensures r == p.(isMuted := r.isMuted, sent := r.sent)
  {
    Send(p, if p.isMuted then Unmute else Mute).(isMuted := !p.isMuted)
  }

  /** `seek_by`: a relative seek; nothing cached. */
  function SeekBy(p: Player, offset: int): (r: Player)
    ensures r.sent == p.sent + [Seek(offset)]
    ensures r == p.(sent := r.sent)
  {
    Send(p, Seek(offset))
  }

  /** `adjust_pitch`: add to the cached pitch and send the sum. */
  function AdjustPitch(p: Player, amount: real): (r: Player)
    ensures r.pitch == p.pitch + amount
    ensures r.sent == p.sent + [Pitch(p.pitch + amount)]
    ensures r == p.(pitch := r.pitch, sent := r.sent)
  {
    SetPitch(p, p.pitch + amount)
  }

  // ---------------------------------------------------------------------
  // The response scan of `play_from_path`. Each element of `lines` is one
  // line of the decoder's output with its newline; "" is what `readline`
  // returns at end of stream, and running out of lines is end of stream.

  predicate IsError(line: string) {
    StartsWith(line, ErrorSentinel)
  }

  /** A line that ends playback: the finished sentinel, or end of stream. */
  predicate EndsPlayback(line: string) {
    StartsWith(line, EndPlaybackSentinel) || line == ""
  }

  /** An error line with its prefix removed. */
  function Payload(line: string): string
    requires IsError(line)
  {
    line[|ErrorSentinel|..]
  }

  /** The payloads of the error lines among `lines`, in order. */
  function ErrorPayloads(lines: seq<string>): seq<string> {
    if |lines| == 0 then []
    else (if IsError(lines[0]) then [Payload(lines[0])] else []) + ErrorPayloads(lines[1..])
  }

  /** Reading `k` lines is exactly reading up to and including the first
      line that ends playback, or every line when none does. */
  predicate StopsAfter(lines: seq<string>, k: int) {
    && 0 <= k <= |lines|
    && (forall j :: 0 <= j < k - 1 ==> !EndsPlayback(lines[j]))
    && (k < |lines| ==> 0 < k && EndsPlayback(lines[k - 1]))
  }

  /** How many lines the loop of `play_from_path` reads, and the error
      payloads it logs on the way. */
  datatype Scan = Scan(consumed: nat, errors: seq<string>)

  function ScanResponses(lines: seq<string>): (r: Scan)
    ensures StopsAfter(lines, r.consumed)
    ensures r.consumed <= |lines| && r.errors == ErrorPayloads(lines[..r.consumed])
  {
    if |lines| == 0 then Scan(0, [])
    else
      var line := lines[0];
      var logged := if IsError(line) then [Payload(line)] else [];
      if EndsPlayback(line) then
        assert lines[..1] == [line];
        Scan(1, logged)
      else
        var rest := ScanResponses(lines[1..]);
        assert lines[..rest.consumed + 1] == [line] + lines[1..][..rest.consumed];
        Scan(rest.consumed + 1, logged + rest.errors)
  }

  /** There is only one place where the scan can stop. */
  lemma {:induction false} StopsAfterUnique(lines: seq<string>, k: int, k': int)
    requires StopsAfter(lines, k) && StopsAfter(lines, k')
    ensures k == k'
  {
  }

  /** `player_logger.error` applied to each payload, in order. */
  function AsLog(errors: seq<string>): seq<LogEntry> {
    seq(|errors|, i requires 0 <= i < |errors| => DecoderError(errors[i]))
  }

  /** `play_from_path`: send "load", mark the player loaded, then read
      response lines until playback ends; returns the player and the number
      of lines read. Nothing resets the loaded flag afterwards. */
  function PlayFromPath(p: Player, songPath: string, lines: seq<string>): (r: (Player, nat))
    ensures r.0.isLoaded
    ensures r.0.sent == p.sent + [Load(songPath)]
    ensures StopsAfter(lines, r.1)
    ensures r.1 <= |lines| && r.0.log == p.log + AsLog(ErrorPayloads(lines[..r.1]))
    ensures r.0.volume == p.volume && r.0.pitch == p.pitch && r.0.isMuted == p.isMuted
  {
    var loaded := Send(p, Load(songPath)).(isLoaded := true);
    var scan := ScanResponses(lines);
    (loaded.(log := loaded.log + AsLog(scan.errors)), scan.consumed)
  }

  /** An error line followed by the finished sentinel: both lines are read,
      one error is logged, and playback is over. */
  lemma ErrorThenFinished(p: Player, songPath: string, rest: seq<string>)
    ensures var lines := ["@E disk full\n", "@P 0\n"] + rest;
            var r := PlayFromPath(p, songPath, lines);
            r.1 == 2 && r.0.log == p.log + [DecoderError(" disk full\n")]
  {
    var lines := ["@E disk full\n", "@P 0\n"] + rest;
    var k := PlayFromPath(p, songPath, lines).1;
    assert lines[0][..2] == "@E" && lines[0][1] != EndPlaybackSentinel[1];
    assert lines[1][..4] == "@P 0" && lines[1][1] != ErrorSentinel[1];
    assert StopsAfter(lines, 2);
    StopsAfterUnique(lines, k, 2);
    assert lines[..2] == [lines[0], lines[1]];
    assert ErrorPayloads([lines[1]]) == [];
  }

  /** A stream that closes without the sentinel is read to the end. */
  lemma StreamEndFinishesPlayback(p: Player, songPath: string, lines: seq<string>)
    requires forall j :: 0 <= j < |lines| ==> !EndsPlayback(lines[j])
    ensures PlayFromPath(p, songPath, lines).1 == |lines|
  {
  }

  // ---------------------------------------------------------------------
  // The decoder's state as the command log determines it, and the cache's
  // agreement with it.

  /** The level of the last "volume" command. */
  function LastVolume(sent: seq<Command>): Option<int> {
    if |sent| == 0 then None
    else if sent[|sent| - 1].Volume? then Some(sent[|sent| - 1].level)
    else LastVolume(sent[..|sent| - 1])
  }

  /** The offset of the last "pitch" command. */
  function LastPitch(sent: seq<Command>): Option<real> {
    if |sent| == 0 then None
    else if sent[|sent| - 1].Pitch? then Some(sent[|sent| - 1].offset)
    else LastPitch(sent[..|sent| - 1])
  }

  /** The last of "mute" / "unmute" was "mute". */
  function MutedBy(sent: seq<Command>): bool {
    if |sent| == 0 then false
    else if sent[|sent| - 1].Mute? then true
    else if sent[|sent| - 1].Unmute? then false
    else MutedBy(sent[..|sent| - 1])
  }

  /** The last of "load" / "stop" was "load". */
  function LoadSinceStop(sent: seq<Command>): bool {
    if |sent| == 0 then false
    else if sent[|sent| - 1].Load? then true
    else if sent[|sent| - 1].Stop? then false
    else LoadSinceStop(sent[..|sent| - 1])
  }

  /** Every "stop" ever sent followed a "load" with no "stop" in between:
      the ordering the loaded flag exists to guarantee. */
  ghost predicate StopsFollowLoads(sent: seq<Command>) {
    forall i :: 0 <= i < |sent| && sent[i].Stop? ==> LoadSinceStop(sent[..i])
  }

  /** The cached values are what the commands sent so far have set, and no
      "stop" has been sent without a "load" before it. */
  ghost predicate Consistent(p: Player) {
    && 0 <= p.volume <= 100
    && LastVolume(p.sent) == Some(p.volume)
    && LastPitch(p.sent) == Some(p.pitch)
    && MutedBy(p.sent) == p.isMuted
    && LoadSinceStop(p.sent) == p.isLoaded
    && StopsFollowLoads(p.sent)
  }

  lemma StopsFollowLoadsAppend(sent: seq<Command>, c: Command)
    requires StopsFollowLoads(sent)
    requires c.Stop? ==> LoadSinceStop(sent)
    ensures StopsFollowLoads(sent + [c])
  {
    var s := sent + [c];
    forall i | 0 <= i < |s| && s[i].Stop? ensures LoadSinceStop(s[..i]) {
      if i < |sent| {
        assert s[..i] == sent[..i];
      } else {
        assert s[..i] == sent;
      }
    }
  }

  /** Every control operation keeps the cache consistent with the decoder. */
  lemma {:induction false} OperationsKeepConsistency(
    p: Player, volume: int, delta: int, pitch: real, pitchDelta: real,
    offset: int, songPath: string, lines: seq<string>)
    requires Consistent(p)
    ensures Consistent(SetVolume(p, volume))
    ensures Consistent(AdjustVolume(p, delta))
    ensures Consistent(SetPitch(p, pitch))
    ensures Consistent(AdjustPitch(p, pitchDelta))
    ensures Consistent(Stop(p))
    ensures Consistent(TogglePause(p))
    ensures Consistent(ToggleMute(p))
    ensures Consistent(SeekBy(p, offset))
    ensures Consistent(PlayFromPath(p, songPath, lines).0)
  {
    LevelOperationsKeepConsistency(p, volume, delta, pitch, pitchDelta);
    TransportOperationsKeepConsistency(p, offset, songPath, lines);
  }

  /** The volume and pitch setters keep the cache consistent. */
  lemma LevelOperationsKeepConsistency(p: Player, volume: int, delta: int, pitch: real, pitchDelta: real)
    requires Consistent(p)
    ensures Consistent(SetVolume(p, volume))
    ensures Consistent(AdjustVolume(p, delta))
    ensures Consistent(SetPitch(p, pitch))
    ensures Consistent(AdjustPitch(p, pitchDelta))
  {
    SendKeepsConsistency(p, Volume(Clamp(volume, 0, 100)), SetVolume(p, volume));
    SendKeepsConsistency(p, Volume(Clamp(p.volume + delta, 0, 100)), AdjustVolume(p, delta));
    SendKeepsConsistency(p, Pitch(pitch), SetPitch(p, pitch));
    SendKeepsConsistency(p, Pitch(p.pitch + pitchDelta), AdjustPitch(p, pitchDelta));
  }

  /** Stopping, pausing, muting, seeking and playing keep the cache consistent. */
  lemma TransportOperationsKeepConsistency(p: Player, offset: int, songPath: string, lines: seq<string>)
    requires Consistent(p)
    ensures Consistent(Stop(p))
    ensures Consistent(TogglePause(p))
    ensures Consistent(ToggleMute(p))
    ensures Consistent(SeekBy(p, offset))
    ensures Consistent(PlayFromPath(p, songPath, lines).0)
  {
    if p.isLoaded {
      SendKeepsConsistency(p, Command.Stop, Stop(p));
    }
    SendKeepsConsistency(p, Pause, TogglePause(p));
    SendKeepsConsistency(p, if p.isMuted then Unmute else Mute, ToggleMute(p));
    SendKeepsConsistency(p, Seek(offset), SeekBy(p, offset));
    PlayKeepsConsistency(p, songPath, lines);
  }

  /** Playing a song keeps the cache consistent. */
  lemma PlayKeepsConsistency(p: Player, songPath: string, lines: seq<string>)
    requires Consistent(p)
    ensures Consistent(PlayFromPath(p, songPath, lines).0)
  {
    SendKeepsConsistency(p, Load(songPath), PlayFromPath(p, songPath, lines).0);
  }

  /** Sending one command and updating the cache the way that command
      changes the decoder keeps the two consistent. */
  lemma SendKeepsConsistency(p: Player, c: Command, q: Player)
    requires Consistent(p)
    requires q.sent == p.sent + [c]
    requires c.Stop? ==> p.isLoaded
    requires q.volume == (if c.Volume? then c.level else p.volume) && 0 <= q.volume <= 100
    requires q.pitch == (if c.Pitch? then c.offset else p.pitch)
    requires q.isMuted == (if c.Mute? then true else if c.Unmute? then false else p.isMuted)
    requires q.isLoaded == (if c.Load? then true else if c.Stop? then false else p.isLoaded)
    ensures Consistent(q)
  {
    StopsFollowLoadsAppend(p.sent, c);
    AppendViewHolds(p.sent, c);
  }

  /** What appending one command does to the decoder's view. */
  ghost predicate AppendView(sent: seq<Command>, c: Command) {
    var s := sent + [c];
    && LastVolume(s) == (if c.Volume? then Some(c.level) else LastVolume(sent))
    && LastPitch(s) == (if c.Pitch? then Some(c.offset) else LastPitch(sent))
    && MutedBy(s) == (if c.Mute? then true else if c.Unmute? then false else MutedBy(sent))
    && LoadSinceStop(s) == (if c.Load? then true else if c.Stop? then false else LoadSinceStop(sent))
  }

  lemma AppendViewHolds(sent: seq<Command>, c: Command)
    ensures AppendView(sent, c)
  {
    assert (sent + [c])[..|sent|] == sent;
  }

  /** Toggling mute twice restores the flag, having sent both commands. */
  lemma ToggleMuteTwice(p: Player)
    ensures ToggleMute(ToggleMute(p)).isMuted == p.isMuted
    ensures ToggleMute(ToggleMute(p)).sent == p.sent + (if p.isMuted then [Unmute, Mute] else [Mute, Unmute])
  {
  }

  /** Clamping happens after the addition: from 50, +1000 gives 100 and
      -1000 gives 0, and a later -10 then starts from the clamped 100. */
  lemma AdjustVolumeClampsAfterAdding(p: Player)
    requires p.volume == 50
    ensures AdjustVolume(p, 1000).volume == 100
    ensures AdjustVolume(p, -1000).volume == 0
    ensures AdjustVolume(AdjustVolume(p, 1000), -10).volume == 90
  {
  }

  /** A second `stop` in a row sends nothing more. */
  lemma StopTwiceSendsOnce(p: Player)
    ensures Stop(Stop(p)).sent == Stop(p).sent
    ensures |Stop(Stop(p)).sent| <= |p.sent| + 1
  {
  }

  /** Finishing playback leaves the player marked loaded, so a later `stop`
      still sends "stop". */
  lemma StopAfterPlaybackSends(p: Player, songPath: string, lines: seq<string>)
    ensures var played := PlayFromPath(p, songPath, lines).0;
            Stop(played).sent == p.sent + [Load(songPath), Command.Stop]
  {
  }
}
