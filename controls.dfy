/**
 * The meeting control bar: microphone and camera toggles, and the leave sequence.
 *
 * A media stream is an array of track records (`null` when there is no stream),
 * the peer list is an array of `{userId, peer}` entries, and `track.stop()`,
 * `peer.destroy()`, the socket calls and the navigation are also recorded, in the
 * order they happen, as a returned list of effects.
 */
module Controls {
  import opened Wrappers

  datatype TrackKind = Audio | Video

  datatype Track = Track(kind: TrackKind, enabled: bool, stopped: bool)

  datatype PeerConnection = PeerConnection(destroyed: bool)

  datatype PeerEntry = PeerEntry(userId: string, peer: Option<PeerConnection>)

  /** The `media-state-change` payload. */
  datatype MediaStateChange = MediaStateChange(meetingId: string, userId: string, kind: TrackKind, enabled: bool)

  datatype StreamName = Camera | ScreenCapture

  datatype Effect =
    | StopTrack(stream: StreamName, index: nat)
    | DestroyPeer(userId: string)
    | EmitLeaveMeeting(meetingId: string, userId: string)
    | DisconnectSocket
    | Navigate(path: string)

  /** `track.enabled = v` applied to the tracks of one kind. */
  function SetEnabled(ts: seq<Track>, kind: TrackKind, v: bool): seq<Track> {
    seq(|ts|, k requires 0 <= k < |ts| => if ts[k].kind == kind then ts[k].(enabled := v) else ts[k])
  }

  /** Every track of `kind` is enabled exactly when `v`. */
  predicate Consistent(ts: seq<Track>, kind: TrackKind, v: bool) {
    forall k :: 0 <= k < |ts| && ts[k].kind == kind ==> ts[k].enabled == v
  }

  /** Setting the flag of one kind makes that kind consistent and leaves the other kind, and all else, alone. */
  lemma SetEnabledEffect(ts: seq<Track>, kind: TrackKind, v: bool)
    ensures |SetEnabled(ts, kind, v)| == |ts|
    ensures Consistent(SetEnabled(ts, kind, v), kind, v)
    ensures forall k :: 0 <= k < |ts| ==>
      var t := SetEnabled(ts, kind, v)[k];
      t.kind == ts[k].kind && t.stopped == ts[k].stopped && (ts[k].kind != kind ==> t == ts[k])
  {
  }

  /** Toggling twice restores the tracks exactly when they agreed with the flag to begin with. */
  lemma ToggleTwiceRestores(ts: seq<Track>, kind: TrackKind, v: bool)
    ensures SetEnabled(SetEnabled(ts, kind, !v), kind, v) == ts <==> Consistent(ts, kind, v)
  {
    var twice := SetEnabled(SetEnabled(ts, kind, !v), kind, v);
    if Consistent(ts, kind, v) {
      forall k | 0 <= k < |ts| ensures twice[k] == ts[k] {
      }
    }
    if twice == ts {
      forall k | 0 <= k < |ts| && ts[k].kind == kind ensures ts[k].enabled == v {
        assert twice[k].enabled == v;
      }
    }
  }

  /** `track.stop()` on every track. */
  function StopAll(ts: seq<Track>): seq<Track> {
    seq(|ts|, k requires 0 <= k < |ts| => ts[k].(stopped := true))
  }

  /** Stopping a stopped track again changes nothing. */
  lemma StopAllIdempotent(ts: seq<Track>)
    ensures StopAll(StopAll(ts)) == StopAll(ts)
  {
  }

  /** The stop calls on a stream of `n` tracks, in order. */
  function StopEffects(name: StreamName, n: nat): (r: seq<Effect>)
    ensures |r| == n && forall k :: 0 <= k < n ==> r[k] == StopTrack(name, k)
  {
    if n == 0 then [] else StopEffects(name, n - 1) + [StopTrack(name, n - 1)]
  }

  /** The optional stop calls on a stream that may be absent. */
  function StreamStopEffects(name: StreamName, n: Option<nat>): seq<Effect> {
    if n.Some? then StopEffects(name, n.value) else []
  }

  /** `peer.destroy()` on an entry with a peer; entries without one are skipped. */
  function Destroyed(e: PeerEntry): PeerEntry {
    if e.peer.Some? then e.(peer := Some(PeerConnection(true))) else e
  }

  /** The peer list after the destroy loop: each entry with a peer has it destroyed, the others are as they were. */
  function DestroyAll(ps: seq<PeerEntry>): (r: seq<PeerEntry>)
    ensures |r| == |ps|
    ensures forall k :: 0 <= k < |ps| ==> r[k].userId == ps[k].userId
    ensures forall k :: 0 <= k < |ps| && ps[k].peer.None? ==> r[k] == ps[k]
    ensures forall k :: 0 <= k < |ps| && ps[k].peer.Some? ==> r[k].peer == Some(PeerConnection(true))
  {
    seq(|ps|, k requires 0 <= k < |ps| => Destroyed(ps[k]))
  }

  function DestroyEffect(e: PeerEntry): seq<Effect> {
    if e.peer.Some? then [DestroyPeer(e.userId)] else []
  }

  /** The destroy calls, in list order, one for every entry that has a peer. */
  function DestroyEffects(ps: seq<PeerEntry>): (r: seq<Effect>)
    ensures |r| <= |ps|
    ensures forall k :: 0 <= k < |r| ==> r[k].DestroyPeer?
  {
    if ps == [] then [] else DestroyEffects(ps[..|ps| - 1]) + DestroyEffect(ps[|ps| - 1])
  }

  /** The destroy calls of a concatenated list are those of the first part followed by those of the second. */
  lemma {:induction false} DestroyEffectsAppend(a: seq<PeerEntry>, b: seq<PeerEntry>)
    ensures DestroyEffects(a + b) == DestroyEffects(a) + DestroyEffects(b)
  {
    if b != [] {
      var b' := b[..|b| - 1];
      assert (a + b)[..|a + b| - 1] == a + b';
      assert (a + b)[|a + b| - 1] == b[|b| - 1];
      DestroyEffectsAppend(a, b');
    } else {
      assert a + b == a;
    }
  }

  /** A user's peer is destroyed exactly when some entry for that user has a peer. */
  lemma {:induction false} DestroyEffectsMembers(ps: seq<PeerEntry>, u: string)
    ensures DestroyPeer(u) in DestroyEffects(ps) <==> exists k :: 0 <= k < |ps| && ps[k].peer.Some? && ps[k].userId == u
  {
    if ps != [] {
      var n := |ps| - 1;
      var init := ps[..n];
      DestroyEffectsMembers(init, u);
      assert DestroyEffects(ps) == DestroyEffects(init) + DestroyEffect(ps[n]);
      if exists k :: 0 <= k < |ps| && ps[k].peer.Some? && ps[k].userId == u {
        var k :| 0 <= k < |ps| && ps[k].peer.Some? && ps[k].userId == u;
        if k < n {
          assert init[k] == ps[k];
        }
      }
      if exists k :: 0 <= k < |init| && init[k].peer.Some? && init[k].userId == u {
        var k :| 0 <= k < |init| && init[k].peer.Some? && init[k].userId == u;
        assert ps[k] == init[k];
      }
    }
  }

  /** The positions of the entries that have a peer. */
  ghost function PeerIndices(ps: seq<PeerEntry>): set<int> {
    set k | 0 <= k < |ps| && ps[k].peer.Some?
  }

  /** The peer positions of a list are those of all but its last entry, plus the last one if it has a peer. */
  lemma PeerIndicesLast(ps: seq<PeerEntry>)
    requires ps != []
    ensures var n := |ps| - 1;
      && n !in PeerIndices(ps[..n])
      && PeerIndices(ps) == PeerIndices(ps[..n]) + (if ps[n].peer.Some? then {n} else {})
  {
    var n := |ps| - 1;
    forall k | 0 <= k < n ensures ps[..n][k] == ps[k] {}
  }

  /** Exactly one destroy call per entry that has a peer. */
  lemma {:induction false} DestroyEffectsCount(ps: seq<PeerEntry>)
    ensures |DestroyEffects(ps)| == |PeerIndices(ps)|
  {
    if ps != [] {
      var n := |ps| - 1;
      DestroyEffectsCount(ps[..n]);
      PeerIndicesLast(ps);
      assert |DestroyEffects(ps)| == |DestroyEffects(ps[..n])| + |DestroyEffect(ps[n])|;
    }
  }

  /** Sets `enabled` on every track of one kind, visiting the tracks in order. */
  method SetTracksEnabled(tracks: array<Track>, kind: TrackKind, v: bool)
    modifies tracks
    ensures tracks[..] == SetEnabled(old(tracks[..]), kind, v)
  {
    var i := 0;
    while i < tracks.Length
      invariant 0 <= i <= tracks.Length
      invariant forall k :: 0 <= k < i ==>
        tracks[k] == if old(tracks[k]).kind == kind then old(tracks[k]).(enabled := v) else old(tracks[k])
      invariant forall k :: i <= k < tracks.Length ==> tracks[k] == old(tracks[k])
    {
      if tracks[i].kind == kind {
        tracks[i] := tracks[i].(enabled := v);
      }
      i := i + 1;
    }
  }

  /** Stops every track of a stream, in index order, recording one stop call per track. */
  method StopTracks(tracks: array<Track>, name: StreamName) returns (effects: seq<Effect>)
    modifies tracks
    ensures tracks[..] == StopAll(old(tracks[..]))
    ensures effects == StopEffects(name, tracks.Length)
  {
    effects := [];
    var i := 0;
    while i < tracks.Length
      invariant 0 <= i <= tracks.Length
      invariant forall k :: 0 <= k < i ==> tracks[k] == old(tracks[k]).(stopped := true)
      invariant forall k :: i <= k < tracks.Length ==> tracks[k] == old(tracks[k])
      invariant effects == StopEffects(name, i)
    {
      tracks[i] := tracks[i].(stopped := true);
      effects := effects + [StopTrack(name, i)];
      i := i + 1;
    }
  }

  /** Walks the peer list in order and destroys the peer of each entry that has one; entries without a peer are skipped. */
  method DestroyPeers(peers: array<PeerEntry>) returns (effects: seq<Effect>)
    modifies peers
    ensures peers[..] == DestroyAll(old(peers[..]))
    ensures effects == DestroyEffects(old(peers[..]))
  {
    effects := [];
    var i := 0;
    while i < peers.Length
      invariant 0 <= i <= peers.Length
      invariant forall k :: 0 <= k < i ==> peers[k] == Destroyed(old(peers[k]))
      invariant forall k :: i <= k < peers.Length ==> peers[k] == old(peers[k])
      invariant effects == DestroyEffects(old(peers[..])[..i])
    {
      ghost var done := old(peers[..])[..i + 1];
      assert done[..i] == old(peers[..])[..i];
      effects := effects + DestroyEffect(peers[i]);
      peers[i] := Destroyed(peers[i]);
      i := i + 1;
    }
    assert old(peers[..])[..peers.Length] == old(peers[..]);
  }

  class MediaControls {
    var isAudioEnabled: bool
    var isVideoEnabled: bool

    constructor ()
      ensures isAudioEnabled && isVideoEnabled
    {
      isAudioEnabled, isVideoEnabled := true, true;
    }

    /**
     * `toggleAudio`: with a camera stream, flips the flag, sets every audio track to the
     * new value and, when the socket exists, announces it; without a stream, nothing.
     */
    method ToggleAudio(stream: array?<Track>, connected: bool, meetingId: string, userId: string) returns (emitted: seq<MediaStateChange>)
      modifies this, stream
      ensures isVideoEnabled == old(isVideoEnabled)
      ensures stream == null ==> isAudioEnabled == old(isAudioEnabled) && emitted == []
      ensures stream != null ==>
        && isAudioEnabled == !old(isAudioEnabled)
        && stream[..] == SetEnabled(old(stream[..]), Audio, isAudioEnabled)
        && emitted == if connected then [MediaStateChange(meetingId, userId, Audio, isAudioEnabled)] else []
    {
      emitted := [];
      if stream != null {
        SetTracksEnabled(stream, Audio, !isAudioEnabled);
        isAudioEnabled := !isAudioEnabled;
        if connected {
          emitted := [MediaStateChange(meetingId, userId, Audio, isAudioEnabled)];
        }
      }
    }

    /** `toggleVideo`: the same for the camera's video tracks; audio is not touched. */
    method ToggleVideo(stream: array?<Track>, connected: bool, meetingId: string, userId: string) returns (emitted: seq<MediaStateChange>)
      modifies this, stream
      ensures isAudioEnabled == old(isAudioEnabled)
      ensures stream == null ==> isVideoEnabled == old(isVideoEnabled) && emitted == []
      ensures stream != null ==>
        && isVideoEnabled == !old(isVideoEnabled)
        && stream[..] == SetEnabled(old(stream[..]), Video, isVideoEnabled)
        && emitted == if connected then [MediaStateChange(meetingId, userId, Video, isVideoEnabled)] else []
    {
      emitted := [];
      if stream != null {
        SetTracksEnabled(stream, Video, !isVideoEnabled);
        isVideoEnabled := !isVideoEnabled;
        if connected {
          emitted := [MediaStateChange(meetingId, userId, Video, isVideoEnabled)];
        }
      }
    }
  }

  /**
   * Two audio toggles on a camera stream: the flag is back where it was, and the tracks
   * are back exactly when every audio track already agreed with the flag; otherwise
   * the second toggle has brought the stragglers into line.
   */
  method ToggleAudioTwice(c: MediaControls, stream: array<Track>, connected: bool, meetingId: string, userId: string)
    returns (emitted: seq<MediaStateChange>)
    modifies c, stream
    ensures c.isAudioEnabled == old(c.isAudioEnabled) && c.isVideoEnabled == old(c.isVideoEnabled)
    ensures stream[..] == old(stream[..]) <==> Consistent(old(stream[..]), Audio, old(c.isAudioEnabled))
    ensures emitted == if connected then [MediaStateChange(meetingId, userId, Audio, !old(c.isAudioEnabled)),
                                          MediaStateChange(meetingId, userId, Audio, old(c.isAudioEnabled))] else []
  {
    ToggleTwiceRestores(stream[..], Audio, c.isAudioEnabled);
    var first := c.ToggleAudio(stream, connected, meetingId, userId);
    var second := c.ToggleAudio(stream, connected, meetingId, userId);
    emitted := first + second;
  }

  /** Two video toggles: the same as `ToggleAudioTwice`, for the video tracks and flag. */
  method ToggleVideoTwice(c: MediaControls, stream: array<Track>, connected: bool, meetingId: string, userId: string)
    returns (emitted: seq<MediaStateChange>)
    modifies c, stream
    ensures c.isAudioEnabled == old(c.isAudioEnabled) && c.isVideoEnabled == old(c.isVideoEnabled)
    ensures stream[..] == old(stream[..]) <==> Consistent(old(stream[..]), Video, old(c.isVideoEnabled))
    ensures emitted == if connected then [MediaStateChange(meetingId, userId, Video, !old(c.isVideoEnabled)),
                                          MediaStateChange(meetingId, userId, Video, old(c.isVideoEnabled))] else []
  {
    ToggleTwiceRestores(stream[..], Video, c.isVideoEnabled);
    var first := c.ToggleVideo(stream, connected, meetingId, userId);
    var second := c.ToggleVideo(stream, connected, meetingId, userId);
    emitted := first + second;
  }

  function Length(a: array?<Track>): Option<nat> {
    if a == null then None else Some(a.Length)
  }

  /**
   * The first step of leaving: stops every camera track, then every screen track. When
   * both names refer to the same stream, its tracks are stopped twice, which
   * changes nothing more.
   */
  method StopStreams(stream: array?<Track>, screenStream: array?<Track>) returns (effects: seq<Effect>)
    modifies stream, screenStream
    ensures stream != null ==> stream[..] == StopAll(old(stream[..]))
    ensures screenStream != null ==> screenStream[..] == StopAll(old(screenStream[..]))
    ensures effects == StreamStopEffects(Camera, Length(stream)) + StreamStopEffects(ScreenCapture, Length(screenStream))
  {
    effects := [];
    if stream != null {
      effects := StopTracks(stream, Camera);
    }
    if screenStream != null {
      ghost var before := screenStream[..];
      assert before == old(screenStream[..]) || (stream == screenStream && before == StopAll(old(screenStream[..])));
      var stops := StopTracks(screenStream, ScreenCapture);
      StopAllIdempotent(old(screenStream[..]));
      effects := effects + stops;
    }
  }

  /**
   * `handleLeave`: stops every camera and screen track, destroys every peer that
   * exists, then (when the socket exists) emits `leave-meeting` once and disconnects,
   * and finally navigates to the meetings list.
   */
  method HandleLeave(stream: array?<Track>, screenStream: array?<Track>, peers: array<PeerEntry>,
                     connected: bool, meetingId: string, userId: string) returns (effects: seq<Effect>)
    modifies stream, screenStream, peers
    ensures stream != null ==> stream[..] == StopAll(old(stream[..]))
    ensures screenStream != null ==> screenStream[..] == StopAll(old(screenStream[..]))
    ensures peers[..] == DestroyAll(old(peers[..]))
    ensures effects ==
      StreamStopEffects(Camera, Length(stream)) + StreamStopEffects(ScreenCapture, Length(screenStream))
      + DestroyEffects(old(peers[..]))
      + (if connected then [EmitLeaveMeeting(meetingId, userId), DisconnectSocket] else [])
      + [Navigate("/meetings")]
  {
    effects := StopStreams(stream, screenStream);
    var destroys := DestroyPeers(peers);
    effects := effects + destroys;
    if connected {
      effects := effects + [EmitLeaveMeeting(meetingId, userId), DisconnectSocket];
    }
    effects := effects + [Navigate("/meetings")];
  }
}
