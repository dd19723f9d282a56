/** The identifier cache: a two-way association between external (YouTube)
    IDs and densely assigned local song IDs 0, 1, 2, ... */
module SongDatabase {
  import opened Basics
  import PyDict

  /** `_next_id`, `_sid_to_yid` and `_yid_to_sid`. */
  datatype IdCache = IdCache(
    nextId: int,
    sidToYid: PyDict.Dict<int, string>,
    yidToSid: PyDict.Dict<string, int>)

  /** The registered YouTube IDs, in registration order. */
  function Registered(c: IdCache): seq<string> {
    PyDict.KeySeq(c.yidToSid)
  }

  /** Both dictionaries hold one entry per registered ID, inserted in step:
      the i-th entry of each relates song ID i and the i-th registered ID,
      and no YouTube ID is registered twice. */
  ghost predicate Valid(c: IdCache) {
    && |c.sidToYid.entries| == c.nextId
    && |c.yidToSid.entries| == c.nextId
    && (forall i :: 0 <= i < c.nextId ==>
          c.sidToYid.entries[i] == (i, c.yidToSid.entries[i].0) && c.yidToSid.entries[i].1 == i)
    && PyDict.WellFormed(c.yidToSid)
  }

  /** The song IDs of a valid cache are exactly 0 .. nextId-1, in that order. */
  lemma SongIdsAreDense(c: IdCache)
    requires Valid(c)
    ensures PyDict.KeySeq(c.sidToYid) == seq(c.nextId, i => i)
    ensures PyDict.WellFormed(c.sidToYid)
    ensures forall s :: s in PyDict.Keys(c.sidToYid) <==> 0 <= s < c.nextId
  {
    var ks := PyDict.KeySeq(c.sidToYid);
    assert ks == seq(c.nextId, i => i);
    forall s ensures s in ks <==> 0 <= s < c.nextId {
      if 0 <= s < c.nextId {
        assert ks[s] == s;
      }
    }
  }

  /** `IDCache()` */
  function Empty(): (c: IdCache)
    ensures Valid(c)
    ensures Registered(c) == []
    ensures c.nextId == 0
  {
    IdCache(0, PyDict.Empty(), PyDict.Empty())
  }

  /** `_associate`: record the pair in both directions; every other
      association is left as it was. */
  function Associate(c: IdCache, songId: int, youtubeId: string): (r: IdCache)
    ensures r.nextId == c.nextId
    ensures PyDict.WellFormed(c.sidToYid) ==>
      && PyDict.Get(r.sidToYid, songId) == Some(youtubeId)
      && forall s :: s != songId ==> PyDict.Get(r.sidToYid, s) == PyDict.Get(c.sidToYid, s)
    ensures PyDict.WellFormed(c.yidToSid) ==>
      && PyDict.Get(r.yidToSid, youtubeId) == Some(songId)
      && forall y :: y != youtubeId ==> PyDict.Get(r.yidToSid, y) == PyDict.Get(c.yidToSid, y)
  {
    c.(sidToYid := PyDict.Set(c.sidToYid, songId, youtubeId),
       yidToSid := PyDict.Set(c.yidToSid, youtubeId, songId))
  }

  /** `register_song`: an unseen ID gets the next song ID; a known ID gets
      its existing song ID back and nothing changes. */
  function Register(c: IdCache, youtubeId: string): (r: (IdCache, int))
    requires Valid(c)
    ensures Valid(r.0)
    ensures youtubeId !in Registered(c) ==>
      && r.1 == c.nextId
      && r.0.nextId == c.nextId + 1
      && Registered(r.0) == Registered(c) + [youtubeId]
    ensures youtubeId in Registered(c) ==>
      && r.0 == c
      && 0 <= r.1 < c.nextId
      && Registered(c)[r.1] == youtubeId
  {
    SongIdsAreDense(c);
    match PyDict.Get(c.yidToSid, youtubeId)
    case None =>
      var songId := c.nextId;
      var r := Associate(c.(nextId := c.nextId + 1), songId, youtubeId);
      assert Registered(r) == Registered(c) + [youtubeId];
      (r, songId)
    case Some(existing) =>
      var i :| 0 <= i < |Registered(c)| && Registered(c)[i] == youtubeId;
      assert c.yidToSid.entries[i].0 == youtubeId;
      (c, existing)
  }

  /** `get_youtube_id_from_song_id` */
  function YoutubeIdOf(c: IdCache, songId: int): (r: Option<string>)
    requires Valid(c)
    ensures r.Some? <==> 0 <= songId < c.nextId
    ensures r.Some? ==> r.value == Registered(c)[songId]
  {
    SongIdsAreDense(c);
    var r := PyDict.Get(c.sidToYid, songId);
    assert 0 <= songId < c.nextId ==> c.sidToYid.entries[songId].0 == songId;
    r
  }

  /** `get_song_id_from_youtube_id` */
  function SongIdOf(c: IdCache, youtubeId: string): (r: Option<int>)
    requires Valid(c)
    ensures r.Some? <==> youtubeId in Registered(c)
    ensures r.Some? ==> 0 <= r.value < c.nextId && Registered(c)[r.value] == youtubeId
  {
    var r := PyDict.Get(c.yidToSid, youtubeId);
    if r.Some? then
      var i :| 0 <= i < |Registered(c)| && Registered(c)[i] == youtubeId;
      assert c.yidToSid.entries[i].0 == youtubeId;
      r
    else
      r
  }

  /** `next_song_id`: in a valid cache, the number of registered IDs, which
      is the lowest song ID not yet handed out. */
  function NextSongId(c: IdCache): (r: int)
    ensures Valid(c) ==>
      && r == |Registered(c)|
      && YoutubeIdOf(c, r) == None
      && forall s :: 0 <= s < r ==> YoutubeIdOf(c, s).Some?
  {
    c.nextId
  }

  /** `__iter__`: the `(song_id, youtube_id)` pairs in dictionary order. */
  function Entries(c: IdCache): (r: seq<(int, string)>)
    requires Valid(c)
    ensures |r| == NextSongId(c)
    ensures forall i :: 0 <= i < |r| ==> r[i] == (i, Registered(c)[i])
  {
    c.sidToYid.entries
  }

  /** `__len__`: the number of song IDs, which is the next one to assign. */
  function Len(c: IdCache): (n: nat)
    requires Valid(c)
    ensures n == NextSongId(c) == |Registered(c)|
  {
    SongIdsAreDense(c);
    PyDict.Len(c.sidToYid)
  }

  /** The two directions stay mutually inverse. */
  lemma MutualInverse(c: IdCache, songId: int, youtubeId: string)
    requires Valid(c)
    ensures YoutubeIdOf(c, songId) == Some(youtubeId) <==> SongIdOf(c, youtubeId) == Some(songId)
  {
    if SongIdOf(c, youtubeId) == Some(songId) {
      assert Registered(c)[songId] == youtubeId;
    }
    if YoutubeIdOf(c, songId) == Some(youtubeId) {
      var s := SongIdOf(c, youtubeId).value;
      assert Registered(c)[s] == Registered(c)[songId];
    }
  }

  /** Registering twice returns the same song ID and changes nothing more. */
  lemma RegisterIdempotent(c: IdCache, youtubeId: string)
    requires Valid(c)
    ensures var (c1, s1) := Register(c, youtubeId);
            Register(c1, youtubeId) == (c1, s1)
  {
    var (c1, s1) := Register(c, youtubeId);
    assert youtubeId in Registered(c1);
    var (c2, s2) := Register(c1, youtubeId);
    assert Registered(c1)[s2] == Registered(c1)[s1];
  }

  /** The IDs of `ids` not seen before (in `seen` or earlier in `ids`),
      in order of first occurrence. */
  function NewIds(seen: seq<string>, ids: seq<string>): seq<string>
    decreases |ids|
  {
    if |ids| == 0 then []
    else if ids[0] in seen then NewIds(seen, ids[1..])
    else [ids[0]] + NewIds(seen + [ids[0]], ids[1..])
  }

  /** `register_song` called on each ID in turn: the song IDs returned, and
      the cache afterwards. */
  function RegisterAll(c: IdCache, ids: seq<string>): (r: (IdCache, seq<int>))
    requires Valid(c)
    ensures Valid(r.0)
    ensures Registered(r.0) == Registered(c) + NewIds(Registered(c), ids)
    ensures |r.1| == |ids|
    ensures forall i :: 0 <= i < |ids| ==> 0 <= r.1[i] < r.0.nextId && Registered(r.0)[r.1[i]] == ids[i]
    decreases |ids|
  {
    if |ids| == 0 then (c, [])
    else
      var (c1, s) := Register(c, ids[0]);
      var (c2, rest) := RegisterAll(c1, ids[1..]);
      var sids := [s] + rest;
      RegisterAllStep(Registered(c), Registered(c1), Registered(c2), ids[0], ids[1..], s, rest);
      assert ids == [ids[0]] + ids[1..];
      (c2, sids)
  }

  /** One step of `RegisterAll`, stated on the registration orders alone. */
  lemma RegisterAllStep(reg0: seq<string>, reg1: seq<string>, reg2: seq<string>,
                        y: string, tail: seq<string>, s: int, rest: seq<int>)
    requires reg1 == if y in reg0 then reg0 else reg0 + [y]
    requires reg2 == reg1 + NewIds(reg1, tail)
    requires 0 <= s < |reg1| && reg1[s] == y
    requires |rest| == |tail|
    requires forall i :: 0 <= i < |tail| ==> 0 <= rest[i] < |reg2| && reg2[rest[i]] == tail[i]
    ensures reg2 == reg0 + NewIds(reg0, [y] + tail)
    ensures forall i :: 0 <= i < 1 + |tail| ==>
      0 <= ([s] + rest)[i] < |reg2| && reg2[([s] + rest)[i]] == ([y] + tail)[i]
  {
    NewIdsStep(reg0, reg1, reg2, y, tail);
    assert reg2[s] == reg1[s];
    forall i | 1 <= i < 1 + |tail|
      ensures 0 <= ([s] + rest)[i] < |reg2| && reg2[([s] + rest)[i]] == ([y] + tail)[i]
    {
      assert ([s] + rest)[i] == rest[i - 1] && ([y] + tail)[i] == tail[i - 1];
    }
  }

  /** Registering one ID and then the rest appends what registering them
      all at once appends. */
  lemma NewIdsStep(reg0: seq<string>, reg1: seq<string>, reg2: seq<string>, y: string, tail: seq<string>)
    requires reg1 == if y in reg0 then reg0 else reg0 + [y]
    requires reg2 == reg1 + NewIds(reg1, tail)
    ensures reg2 == reg0 + NewIds(reg0, [y] + tail)
  {
    var ys := [y] + tail;
    assert |ys| > 0 && ys[0] == y && ys[1..] == tail;
    if y in reg0 {
      assert NewIds(reg0, ys) == NewIds(reg0, tail);
    } else {
      assert NewIds(reg0, ys) == [y] + NewIds(reg1, tail);
      assert reg0 + ([y] + NewIds(reg1, tail)) == (reg0 + [y]) + NewIds(reg1, tail);
    }
  }

  /** IDs that are distinct and new get consecutive song IDs starting at
      `nextId`, in the order they are registered. */
  lemma {:induction false} DistinctNewIdsNumberedInOrder(c: IdCache, ids: seq<string>)
    requires Valid(c)
    requires Distinct(ids)
    requires forall i :: 0 <= i < |ids| ==> ids[i] !in Registered(c)
    ensures RegisterAll(c, ids).1 == seq(|ids|, i => c.nextId + i)
    ensures RegisterAll(c, ids).0.nextId == c.nextId + |ids|
    ensures Registered(RegisterAll(c, ids).0) == Registered(c) + ids
  {
    NewIdsOfDistinctFresh(Registered(c), ids);
    var r := RegisterAll(c, ids);
    assert Registered(r.0) == Registered(c) + ids;
    PositionsInDistinct(Registered(c), ids, r.1);
  }

  /** In a duplicate-free `pre + ids`, the positions holding `ids` in order
      are |pre|, |pre|+1, ... */
  lemma PositionsInDistinct(pre: seq<string>, ids: seq<string>, positions: seq<int>)
    requires Distinct(pre + ids)
    requires |positions| == |ids|
    requires forall i :: 0 <= i < |ids| ==>
      0 <= positions[i] < |pre + ids| && (pre + ids)[positions[i]] == ids[i]
    ensures positions == seq(|ids|, i => |pre| + i)
  {
    var all := pre + ids;
    forall i | 0 <= i < |ids| ensures positions[i] == |pre| + i {
      assert all[|pre| + i] == ids[i];
      SameElementSameIndex(all, positions[i], |pre| + i);
    }
  }

  lemma SameElementSameIndex(s: seq<string>, i: int, j: int)
    requires Distinct(s)
    requires 0 <= i < |s| && 0 <= j < |s| && s[i] == s[j]
    ensures i == j
  {
  }

  /** When nothing in `ids` repeats or was seen, every ID is new. */
  lemma {:induction false} NewIdsOfDistinctFresh(seen: seq<string>, ids: seq<string>)
    requires Distinct(ids)
    requires forall i :: 0 <= i < |ids| ==> ids[i] !in seen
    ensures NewIds(seen, ids) == ids
    decreases |ids|
  {
    if |ids| > 0 {
      var rest := ids[1..];
      assert ids[0] !in seen;
      forall i | 0 <= i < |rest| ensures rest[i] !in seen + [ids[0]] {
        assert rest[i] == ids[i + 1];
      }
      assert Distinct(rest) by {
        forall i, j | 0 <= i < j < |rest| ensures rest[i] != rest[j] {
          assert rest[i] == ids[i + 1] && rest[j] == ids[j + 1];
        }
      }
      NewIdsOfDistinctFresh(seen + [ids[0]], rest);
      assert ids == [ids[0]] + rest;
    }
  }

  /** Registering K distinct IDs into an empty cache numbers them 0..K-1. */
  lemma FreshCacheNumbersFromZero(c: IdCache, ids: seq<string>)
    requires Valid(c) && Len(c) == 0
    requires Distinct(ids)
    ensures RegisterAll(c, ids).1 == seq(|ids|, i => i)
    ensures Len(RegisterAll(c, ids).0) == |ids|
  {
    DistinctNewIdsNumberedInOrder(c, ids);
    assert seq(|ids|, i => c.nextId + i) == seq(|ids|, i => i);
  }

  /** Whatever repeats, the IDs registered are exactly those seen so far,
      each once; so the length counts distinct IDs. */
  lemma {:induction false} NewIdsExtendDistinctly(seen: seq<string>, ids: seq<string>)
    requires Distinct(seen)
    ensures Distinct(seen + NewIds(seen, ids))
    ensures Elements(seen + NewIds(seen, ids)) == Elements(seen) + Elements(ids)
    decreases |ids|
  {
    if |ids| > 0 {
      var rest := ids[1..];
      assert ids == [ids[0]] + rest;
      if ids[0] in seen {
        NewIdsExtendDistinctly(seen, rest);
      } else {
        var seen' := seen + [ids[0]];
        assert Distinct(seen') by {
          forall i, j | 0 <= i < j < |seen'| ensures seen'[i] != seen'[j] {
            if j < |seen| { assert seen'[i] == seen[i] && seen'[j] == seen[j]; }
          }
        }
        NewIdsExtendDistinctly(seen', rest);
        assert seen + NewIds(seen, ids) == seen' + NewIds(seen', rest);
      }
    }
  }

  /** After registering a list of IDs into any valid cache, the length is
      the number of distinct IDs registered before or now. */
  lemma LenCountsDistinctIds(c: IdCache, ids: seq<string>)
    requires Valid(c)
    ensures Len(RegisterAll(c, ids).0) == |Elements(Registered(c)) + Elements(ids)|
  {
    var c2 := RegisterAll(c, ids).0;
    NewIdsExtendDistinctly(Registered(c), ids);
    DistinctCardinality(Registered(c2));
  }
}
