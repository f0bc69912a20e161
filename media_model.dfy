/**
 * The entities of lib/media/index.js and the pure definitions its state is
 * specified by: the derived registry views, the re-emission of a track's
 * signals as session events, and which `_attach` listeners are still live.
 */
module MediaModel {

  /** A track identity, unique among the tracks registered at one time. */
  type TrackId = string
  /** Opaque handle of a backing MediaStream, compared by identity. */
  type StreamId = nat
  /** Opaque handle of a rendering surface (an HTML container). */
  type Surface = nat
  /** Opaque handle of a rendered `<audio>`/`<video>` element. */
  type Element = nat

  datatype Kind = Audio | Video

  /** The signals a track emits on its own. */
  datatype Signal = DimensionsChanged | Disabled | Enabled | Ended | Started

  /** The session events a Media object emits. */
  datatype EventName =
    | TrackAdded
    | TrackDimensionsChanged
    | TrackDisabled
    | TrackEnabled
    | TrackEnded
    | TrackRemoved
    | TrackStarted

  /** A track: its identity, kind and backing stream never change; whether it is enabled does. */
  class Track {
    const id: TrackId
    const kind: Kind
    const stream: StreamId
    var isEnabled: bool

    constructor (id: TrackId, kind: Kind, stream: StreamId, isEnabled: bool)
      ensures this.id == id && this.kind == kind && this.stream == stream && this.isEnabled == isEnabled
    {
      this.id := id;
      this.kind := kind;
      this.stream := stream;
      this.isEnabled := isEnabled;
    }
  }

  /** A session event and the track it carries. */
  datatype SessionEvent = SessionEvent(name: EventName, track: Track)

  /** The handler `_reemitTrackEvent` registers on `track` for `signal`, re-emitting it as `event`. */
  datatype Reemitter = Reemitter(track: Track, signal: Signal, event: EventName)

  /** A `trackAdded` or `trackRemoved` listener registered by `_attach` for a surface and the sub-map it created. */
  datatype SurfaceListener = SurfaceListener(surface: Surface, subMap: nat)

  /** The one-shot `'ended'` listener `_attachTrack` registers for a track rendered into a sub-map. */
  datatype EndedListener = EndedListener(track: Track, subMap: nat)

  /** A track a MediaStream reports, as the track factories read it. */
  datatype TrackInfo = TrackInfo(id: TrackId, enabled: bool)

  /** What a MediaStream reports: its audio tracks, then its video tracks. */
  datatype StreamTracks = StreamTracks(audio: seq<TrackInfo>, video: seq<TrackInfo>)

  // ---------------------------------------------------------------------------
  // Registry views

  /** The backing streams of the tracks of `tracks`. */
  function StreamsOf(tracks: map<TrackId, Track>): set<StreamId>
  {
    set id | id in tracks :: tracks[id].stream
  }

  /** The entries of `tracks` whose track has kind `kind`. */
  function OfKind(tracks: map<TrackId, Track>, kind: Kind): map<TrackId, Track>
  {
    map id | id in tracks && tracks[id].kind == kind :: tracks[id]
  }

  /** Every registered track is in exactly one kind map, the one of its kind. */
  lemma KindsPartition(tracks: map<TrackId, Track>, id: TrackId)
    requires id in tracks
    ensures id in OfKind(tracks, Audio) <==> id !in OfKind(tracks, Video)
    ensures id in OfKind(tracks, tracks[id].kind) && OfKind(tracks, tracks[id].kind)[id] == tracks[id]
  {
  }

  /** Registering a new track adds its stream to the stream set. */
  lemma {:induction false} StreamsOfInsert(tracks: map<TrackId, Track>, track: Track)
    requires track.id !in tracks
    ensures StreamsOf(tracks[track.id := track]) == StreamsOf(tracks) + {track.stream}
  {
    var after := tracks[track.id := track];
    forall s | s in StreamsOf(after) ensures s in StreamsOf(tracks) + {track.stream} {
      var id :| id in after && after[id].stream == s;
      if id != track.id {
        assert tracks[id].stream == s;
      }
    }
    forall s | s in StreamsOf(tracks) ensures s in StreamsOf(after) {
      var id :| id in tracks && tracks[id].stream == s;
      assert after[id].stream == s;
    }
    assert track.stream in StreamsOf(after) by {
      assert after[track.id].stream == track.stream;
    }
  }

  /** A sub-registry has no stream its super-registry lacks. */
  lemma StreamsOfSubmap(small: map<TrackId, Track>, large: map<TrackId, Track>)
    requires forall id :: id in small ==> id in large && large[id] == small[id]
    ensures StreamsOf(small) <= StreamsOf(large)
  {
    forall s | s in StreamsOf(small) ensures s in StreamsOf(large) {
      var id :| id in small && small[id].stream == s;
      assert large[id].stream == s;
    }
  }

  /** Registering a track puts it in the kind map of its kind and leaves the other kind map alone. */
  lemma OfKindInsert(tracks: map<TrackId, Track>, track: Track)
    requires track.id !in tracks
    ensures OfKind(tracks[track.id := track], track.kind) == OfKind(tracks, track.kind)[track.id := track]
    ensures forall k :: k != track.kind ==> OfKind(tracks[track.id := track], k) == OfKind(tracks, k)
  {
  }

  /** Unregistering an id takes it out of both kind maps and nothing else. */
  lemma OfKindRemove(tracks: map<TrackId, Track>, id: TrackId)
    ensures forall k :: OfKind(tracks - {id}, k) == OfKind(tracks, k) - {id}
  {
  }

  // ---------------------------------------------------------------------------
  // Re-emission of track signals

  /** The session event a track signal is re-emitted as. */
  function EventFor(signal: Signal): EventName
  {
    match signal
    case DimensionsChanged => TrackDimensionsChanged
    case Disabled => TrackDisabled
    case Enabled => TrackEnabled
    case Ended => TrackEnded
    case Started => TrackStarted
  }

  /** The five handlers `_addTrack` registers for a new track, in registration order. */
  function ReemitHandlers(track: Track): seq<Reemitter>
  {
    [ Reemitter(track, DimensionsChanged, TrackDimensionsChanged),
      Reemitter(track, Disabled, TrackDisabled),
      Reemitter(track, Enabled, TrackEnabled),
      Reemitter(track, Ended, TrackEnded),
      Reemitter(track, Started, TrackStarted) ]
  }

  predicate Handles(h: Reemitter, track: Track, signal: Signal)
  {
    h.track == track && h.signal == signal
  }

  /** How many of `hs` handle `signal` of `track`. */
  function CountHandling(hs: seq<Reemitter>, track: Track, signal: Signal): nat
  {
    if hs == [] then 0
    else CountHandling(hs[..|hs| - 1], track, signal) + (if Handles(hs[|hs| - 1], track, signal) then 1 else 0)
  }

  /**
   * The handlers still registered after `track` emits `signal`: a handler for
   * it whose track is no longer in its kind map removes itself.
   */
  function KeptReemitters(hs: seq<Reemitter>, track: Track, signal: Signal, registered: bool): seq<Reemitter>
  {
    if hs == [] then []
    else KeptReemitters(hs[..|hs| - 1], track, signal, registered)
         + (if Handles(hs[|hs| - 1], track, signal) && !registered then [] else [hs[|hs| - 1]])
  }

  /** The session events emitted when `track` emits `signal`: one per handler, while the track is registered. */
  function Reemitted(hs: seq<Reemitter>, track: Track, signal: Signal, registered: bool): seq<SessionEvent>
  {
    if hs == [] then []
    else Reemitted(hs[..|hs| - 1], track, signal, registered)
         + (if Handles(hs[|hs| - 1], track, signal) && registered
            then [SessionEvent(hs[|hs| - 1].event, track)] else [])
  }

  /**
   * Once the track is gone from its kind map, its handlers for the signal
   * emit nothing and unsubscribe themselves; every other handler stays.
   */
  lemma {:induction false} ReemitAfterRemoval(hs: seq<Reemitter>, track: Track, signal: Signal)
    ensures Reemitted(hs, track, signal, false) == []
    ensures forall h :: h in KeptReemitters(hs, track, signal, false) <==> h in hs && !Handles(h, track, signal)
  {
    if hs != [] {
      ReemitAfterRemoval(hs[..|hs| - 1], track, signal);
      assert hs == hs[..|hs| - 1] + [hs[|hs| - 1]];
    }
  }

  /**
   * While the track is registered every handler stays, and each of its
   * handlers for the signal emits one session event carrying the track.
   */
  lemma {:induction false} ReemitWhileRegistered(hs: seq<Reemitter>, track: Track, signal: Signal)
    ensures KeptReemitters(hs, track, signal, true) == hs
    ensures |Reemitted(hs, track, signal, true)| == CountHandling(hs, track, signal)
    ensures forall e :: e in Reemitted(hs, track, signal, true) ==> e.track == track
  {
    if hs != [] {
      ReemitWhileRegistered(hs[..|hs| - 1], track, signal);
      assert hs == hs[..|hs| - 1] + [hs[|hs| - 1]];
    }
  }

  lemma {:induction false} CountHandlingAppend(a: seq<Reemitter>, b: seq<Reemitter>, track: Track, signal: Signal)
    ensures CountHandling(a + b, track, signal) == CountHandling(a, track, signal) + CountHandling(b, track, signal)
  {
    if b == [] {
      assert a + b == a;
    } else {
      assert (a + b)[..|a + b| - 1] == a + b[..|b| - 1];
      CountHandlingAppend(a, b[..|b| - 1], track, signal);
    }
  }

  /** `_addTrack` registers exactly one handler per signal of the new track. */
  lemma AddedHandlersOnePerSignal(track: Track, signal: Signal)
    ensures CountHandling(ReemitHandlers(track), track, signal) == 1
  {
    var hs := ReemitHandlers(track);
    assert hs[..4][..3][..2][..1][..0] == [];
    assert CountHandling(hs[..1], track, signal) == (if signal == DimensionsChanged then 1 else 0);
    assert CountHandling(hs[..2], track, signal) == (if signal in {DimensionsChanged, Disabled} then 1 else 0) by {
      assert hs[..2][..1] == hs[..1];
    }
    assert CountHandling(hs[..3], track, signal) == (if signal in {DimensionsChanged, Disabled, Enabled} then 1 else 0) by {
      assert hs[..3][..2] == hs[..2];
    }
    assert CountHandling(hs[..4], track, signal) == (if signal != Started then 1 else 0) by {
      assert hs[..4][..3] == hs[..3];
    }
    assert hs[..|hs| - 1] == hs[..4];
  }

  /** A sequence with a handler for the signal counts at least one. */
  lemma {:induction false} CountHandlingPositive(hs: seq<Reemitter>, track: Track, signal: Signal, h: Reemitter)
    requires h in hs && Handles(h, track, signal)
    ensures CountHandling(hs, track, signal) > 0
  {
    if h != hs[|hs| - 1] {
      assert hs == hs[..|hs| - 1] + [hs[|hs| - 1]];
      CountHandlingPositive(hs[..|hs| - 1], track, signal, h);
    }
  }

  /**
   * A track added once, with no handler of an earlier registration left,
   * has each of its signals re-emitted exactly once, as the matching event.
   */
  lemma ReemittedOnceAfterAdd(older: seq<Reemitter>, track: Track, signal: Signal)
    requires CountHandling(older, track, signal) == 0
    ensures Reemitted(older + ReemitHandlers(track), track, signal, true) == [SessionEvent(EventFor(signal), track)]
  {
    var hs := older + ReemitHandlers(track);
    CountHandlingAppend(older, ReemitHandlers(track), track, signal);
    AddedHandlersOnePerSignal(track, signal);
    ReemitWhileRegistered(hs, track, signal);
    var e := Reemitted(hs, track, signal, true)[0];
    ReemittedFrom(hs, track, signal, e);
    var h :| h in hs && Handles(h, track, signal) && e == SessionEvent(h.event, track);
    if h in older {
      CountHandlingPositive(older, track, signal, h);
    }
  }

  /** Every re-emitted event is the event of some handler for the signal. */
  lemma {:induction false} ReemittedFrom(hs: seq<Reemitter>, track: Track, signal: Signal, e: SessionEvent)
    requires e in Reemitted(hs, track, signal, true)
    ensures exists h :: h in hs && Handles(h, track, signal) && e == SessionEvent(h.event, track)
  {
    var init := hs[..|hs| - 1];
    if e in Reemitted(init, track, signal, true) {
      ReemittedFrom(init, track, signal, e);
      var h :| h in init && Handles(h, track, signal) && e == SessionEvent(h.event, track);
      assert h in hs;
    } else {
      assert hs[|hs| - 1] in hs;
    }
  }

  /**
   * Re-adding a track whose earlier handlers have not yet removed themselves
   * (they only do so when their signal fires while the track is absent)
   * leaves two live handlers per signal, so each signal is re-emitted twice.
   */
  lemma ReaddedTrackReemitsTwice(track: Track, signal: Signal)
    ensures |Reemitted(ReemitHandlers(track) + ReemitHandlers(track), track, signal, true)| == 2
  {
    CountHandlingAppend(ReemitHandlers(track), ReemitHandlers(track), track, signal);
    AddedHandlersOnePerSignal(track, signal);
    ReemitWhileRegistered(ReemitHandlers(track) + ReemitHandlers(track), track, signal);
  }

  // ---------------------------------------------------------------------------
  // Liveness of the listeners `_attach` registers

  /**
   * The guard of the `trackAdded`/`trackRemoved` listeners as written:
   * the listener acts while its surface is attached.
   */
  predicate LiveAsWritten(attachments: map<Surface, nat>, l: SurfaceListener)
  {
    l.surface in attachments
  }

  /**
   * The guard as intended: the listener acts while its surface is attached
   * with the very sub-map the listener was registered for.
   */
  predicate Live(attachments: map<Surface, nat>, l: SurfaceListener)
  {
    l.surface in attachments && attachments[l.surface] == l.subMap
  }

  /** The listeners that survive an emission: the dead ones remove themselves. */
  function LiveOnly(ls: seq<SurfaceListener>, attachments: map<Surface, nat>): (r: seq<SurfaceListener>)
    ensures forall l :: l in r <==> l in ls && Live(attachments, l)
  {
    if ls == [] then []
    else LiveOnly(ls[..|ls| - 1], attachments)
         + (if Live(attachments, ls[|ls| - 1]) then [ls[|ls| - 1]] else [])
  }

  /** The sub-maps that the live listeners of `ls` act on. */
  function Targets(ls: seq<SurfaceListener>, attachments: map<Surface, nat>): set<nat>
  {
    set l | l in ls && Live(attachments, l) :: l.subMap
  }

  lemma TargetsSnoc(ls: seq<SurfaceListener>, l: SurfaceListener, attachments: map<Surface, nat>)
    ensures Targets(ls + [l], attachments) == Targets(ls, attachments) + (if Live(attachments, l) then {l.subMap} else {})
  {
  }

  /**
   * When every attached surface still has the listener for its current
   * sub-map, the listeners act on exactly the sub-maps of the attached
   * surfaces.
   */
  lemma TargetsAreAttached(ls: seq<SurfaceListener>, attachments: map<Surface, nat>)
    requires forall p :: p in attachments ==> SurfaceListener(p, attachments[p]) in ls
    ensures Targets(ls, attachments) == attachments.Values
  {
    forall g | g in attachments.Values ensures g in Targets(ls, attachments) {
      var p :| p in attachments && attachments[p] == g;
      assert Live(attachments, SurfaceListener(p, g));
    }
  }

  /**
   * What running `trackAdded` listeners leaves behind: the sub-maps, the
   * next element handle, the `'ended'` listeners subscribed so far and the
   * surface listeners still subscribed.
   */
  datatype Rendering = Rendering(maps: seq<map<Track, Element>>, next: nat, ended: seq<EndedListener>,
                                 kept: seq<SurfaceListener>)

  /**
   * A `trackAdded` listener that passes its guard: it stays subscribed and
   * renders the track into its sub-map with a fresh element, subscribing the
   * `'ended'` listener of `_attachTrack`.
   */
  function RenderInto(st: Rendering, l: SurfaceListener, track: Track): Rendering
  {
    if l.subMap < |st.maps| then
      var rendered: map<Track, Element> := st.maps[l.subMap][track := st.next];
      Rendering(st.maps[l.subMap := rendered], st.next + 1, st.ended + [EndedListener(track, l.subMap)], st.kept + [l])
    else st.(kept := st.kept + [l])
  }

  /** One `trackAdded` listener of `_attach`: a dead one unsubscribes; a live one renders. */
  function RenderStep(st: Rendering, l: SurfaceListener, attachments: map<Surface, nat>, track: Track): Rendering
  {
    if !Live(attachments, l) then st else RenderInto(st, l, track)
  }

  /** The state after the `trackAdded` listeners of `ls` ran in order, starting from `start`. */
  function RenderThrough(start: Rendering, ls: seq<SurfaceListener>, attachments: map<Surface, nat>,
                         track: Track): Rendering
  {
    if ls == [] then start
    else RenderStep(RenderThrough(start, ls[..|ls| - 1], attachments, track), ls[|ls| - 1], attachments, track)
  }

  lemma RenderThroughSnoc(start: Rendering, ls: seq<SurfaceListener>, l: SurfaceListener,
                          attachments: map<Surface, nat>, track: Track)
    ensures RenderThrough(start, ls + [l], attachments, track)
            == RenderStep(RenderThrough(start, ls, attachments, track), l, attachments, track)
  {
    assert (ls + [l])[..|ls + [l]| - 1] == ls;
  }

  /**
   * Running the listeners keeps exactly the live ones, hands out one
   * element per live listener and subscribes one `'ended'` listener for
   * each, in listener order; the number of sub-maps is unchanged.
   */
  lemma {:induction false} RenderThroughTotals(start: Rendering, ls: seq<SurfaceListener>,
                                               attachments: map<Surface, nat>, track: Track)
    requires forall l :: l in ls && Live(attachments, l) ==> l.subMap < |start.maps|
    ensures var r := RenderThrough(start, ls, attachments, track);
      && |r.maps| == |start.maps|
      && r.kept == start.kept + LiveOnly(ls, attachments)
      && r.next == start.next + |LiveOnly(ls, attachments)|
      && r.ended == start.ended + EndedFor(track, LiveOnly(ls, attachments))
  {
    if ls != [] {
      var init := ls[..|ls| - 1];
      var l := ls[|ls| - 1];
      assert ls == init + [l];
      RenderThroughTotals(start, init, attachments, track);
      var live := LiveOnly(init, attachments);
      assert LiveOnly(ls, attachments) == live + (if Live(attachments, l) then [l] else []);
      if Live(attachments, l) {
        assert l.subMap < |start.maps|;
        assert (live + [l])[..|live + [l]| - 1] == live;
        assert EndedFor(track, live + [l]) == EndedFor(track, live) + [EndedListener(track, l.subMap)];
        assert start.kept + (live + [l]) == (start.kept + live) + [l];
        var e := EndedFor(track, live);
        assert start.ended + (e + [EndedListener(track, l.subMap)]) == (start.ended + e) + [EndedListener(track, l.subMap)];
      } else {
        assert live + [] == live;
      }
    }
  }

  /**
   * Rendering through the listeners changes exactly the sub-maps they act
   * on, and each of those only by an entry for the track with a fresh element.
   */
  lemma {:induction false} RenderThroughEffect(start: Rendering, ls: seq<SurfaceListener>,
                                               attachments: map<Surface, nat>, track: Track, g: nat)
    requires forall l :: l in ls && Live(attachments, l) ==> l.subMap < |start.maps|
    requires g < |start.maps|
    ensures |RenderThrough(start, ls, attachments, track).maps| == |start.maps|
    ensures var r := RenderThrough(start, ls, attachments, track).maps;
      && (g !in Targets(ls, attachments) ==> r[g] == start.maps[g])
      && (g in Targets(ls, attachments) ==>
            track in r[g] && r[g] == start.maps[g][track := r[g][track]]
            && start.next <= r[g][track] < start.next + |LiveOnly(ls, attachments)|)
  {
    if ls != [] {
      var init := ls[..|ls| - 1];
      var l := ls[|ls| - 1];
      assert ls == init + [l];
      var prev := RenderThrough(start, init, attachments, track);
      assert RenderThrough(start, ls, attachments, track) == RenderStep(prev, l, attachments, track);
      RenderThroughEffect(start, init, attachments, track, g);
      RenderThroughTotals(start, init, attachments, track);
      TargetsSnoc(init, l, attachments);
      assert LiveOnly(ls, attachments) == LiveOnly(init, attachments) + (if Live(attachments, l) then [l] else []);
      RenderStepEffect(prev, l, attachments, track, g);
      if Live(attachments, l) && g == l.subMap && g in Targets(init, attachments) {
        UpdateTwice(start.maps[g], track, prev.maps[g][track], prev.next);
      }
    }
  }

  lemma UpdateTwice<K, V>(m: map<K, V>, k: K, a: V, b: V)
    ensures m[k := a][k := b] == m[k := b]
  {
  }

  /** One `trackAdded` listener changes at most its own sub-map, by rendering the track with the next element. */
  lemma RenderStepEffect(st: Rendering, l: SurfaceListener, attachments: map<Surface, nat>, track: Track, g: nat)
    requires Live(attachments, l) ==> l.subMap < |st.maps|
    requires g < |st.maps|
    ensures var r := RenderStep(st, l, attachments, track);
      && |r.maps| == |st.maps|
      && (Live(attachments, l) && g == l.subMap ==> r.maps[g] == st.maps[g][track := st.next])
      && (!Live(attachments, l) || g != l.subMap ==> r.maps[g] == st.maps[g])
  {
  }

  /** The sub-maps after `trackRemoved` ran the listeners of `ls`: each live listener drops the track's rendering. */
  function DetachThrough(maps: seq<map<Track, Element>>, ls: seq<SurfaceListener>,
                         attachments: map<Surface, nat>, track: Track): seq<map<Track, Element>>
  {
    if ls == [] then maps
    else
      var prev := DetachThrough(maps, ls[..|ls| - 1], attachments, track);
      var l := ls[|ls| - 1];
      if Live(attachments, l) then DropFrom(prev, l.subMap, track) else prev
  }

  /** `_detachTrack` on sub-map `g`: the track's rendering leaves it. */
  function DropFrom(maps: seq<map<Track, Element>>, g: nat, track: Track): seq<map<Track, Element>>
  {
    if g < |maps| then maps[g := maps[g] - {track}] else maps
  }

  /** Detaching through the listeners removes the track from exactly the sub-maps they act on. */
  lemma {:induction false} DetachThroughEffect(maps: seq<map<Track, Element>>, ls: seq<SurfaceListener>,
                                               attachments: map<Surface, nat>, track: Track, g: nat)
    requires forall l :: l in ls && Live(attachments, l) ==> l.subMap < |maps|
    ensures |DetachThrough(maps, ls, attachments, track)| == |maps|
    ensures g < |maps| && g !in Targets(ls, attachments) ==> DetachThrough(maps, ls, attachments, track)[g] == maps[g]
    ensures g < |maps| && g in Targets(ls, attachments) ==> DetachThrough(maps, ls, attachments, track)[g] == maps[g] - {track}
  {
    if ls != [] {
      var init := ls[..|ls| - 1];
      var l := ls[|ls| - 1];
      assert ls == init + [l];
      DetachThroughEffect(maps, init, attachments, track, g);
      TargetsSnoc(init, l, attachments);
    }
  }

  /** The `'ended'` listeners registered when `track` is rendered through each of `ls`, in order. */
  function EndedFor(track: Track, ls: seq<SurfaceListener>): (r: seq<EndedListener>)
    ensures |r| == |ls|
  {
    if ls == [] then []
    else EndedFor(track, ls[..|ls| - 1]) + [EndedListener(track, ls[|ls| - 1].subMap)]
  }

  /** The listener registered through the `i`-th surface listener is for that listener's sub-map. */
  lemma {:induction false} EndedForIndex(track: Track, ls: seq<SurfaceListener>, i: nat)
    requires i < |ls|
    ensures EndedFor(track, ls)[i] == EndedListener(track, ls[i].subMap)
  {
    if i < |ls| - 1 {
      EndedForIndex(track, ls[..|ls| - 1], i);
    }
  }

  lemma EndedForMember(track: Track, ls: seq<SurfaceListener>, l: SurfaceListener)
    requires l in ls
    ensures EndedListener(track, l.subMap) in EndedFor(track, ls)
  {
    var i :| 0 <= i < |ls| && ls[i] == l;
    EndedForIndex(track, ls, i);
  }

  /** The `'ended'` listeners left once `track` has emitted `'ended'`: its own fire once and are gone. */
  function EndedExcept(ls: seq<EndedListener>, track: Track): (r: seq<EndedListener>)
    ensures forall i :: 0 <= i < |r| ==> r[i] in ls && r[i].track != track
    ensures forall i :: 0 <= i < |ls| && ls[i].track != track ==> ls[i] in r
  {
    if ls == [] then []
    else EndedExcept(ls[..|ls| - 1], track) + (if ls[|ls| - 1].track != track then [ls[|ls| - 1]] else [])
  }

  /** The sub-maps after `track` emitted `'ended'`: each of its one-shot listeners drops its rendering. */
  function DetachEnded(maps: seq<map<Track, Element>>, ls: seq<EndedListener>, track: Track): seq<map<Track, Element>>
  {
    if ls == [] then maps
    else
      var prev := DetachEnded(maps, ls[..|ls| - 1], track);
      var l := ls[|ls| - 1];
      if l.track == track && l.subMap < |prev| then prev[l.subMap := prev[l.subMap] - {track}] else prev
  }

  /** The `'ended'` listeners of the track drop its rendering from exactly their sub-maps. */
  lemma {:induction false} DetachEndedEffect(maps: seq<map<Track, Element>>, ls: seq<EndedListener>, track: Track, g: nat)
    requires forall i :: 0 <= i < |ls| ==> ls[i].subMap < |maps|
    ensures |DetachEnded(maps, ls, track)| == |maps|
    ensures g < |maps| ==> DetachEnded(maps, ls, track)[g] == if EndedListener(track, g) in ls then maps[g] - {track} else maps[g]
  {
    if ls != [] {
      var init := ls[..|ls| - 1];
      assert ls == init + [ls[|ls| - 1]];
      DetachEndedEffect(maps, init, track, g);
    }
  }

  // ---------------------------------------------------------------------------
  // The attachment invariant and the transitions that keep it

  /**
   * The surface half of the attachment invariant: each attached surface
   * owns its own sub-map and still has its `trackAdded` and `trackRemoved`
   * listeners; a sub-map no surface owns is empty.
   */
  ghost predicate SurfacesValid(attachments: map<Surface, nat>, maps: seq<map<Track, Element>>,
                                added: seq<SurfaceListener>, removed: seq<SurfaceListener>)
  {
    && (forall p :: p in attachments ==> attachments[p] < |maps|)
    && (forall p, q :: p in attachments && q in attachments && p != q ==> attachments[p] != attachments[q])
    && (forall p :: p in attachments ==> SurfaceListener(p, attachments[p]) in added)
    && (forall p :: p in attachments ==> SurfaceListener(p, attachments[p]) in removed)
    && (forall g :: 0 <= g < |maps| && g !in attachments.Values ==> maps[g] == map[])
  }

  /**
   * The rendering half: an attached surface renders only registered
   * tracks; every rendering has its `'ended'` listener and an element
   * handle already handed out; every `'ended'` listener names a sub-map.
   */
  ghost predicate RenderingsValid(tracks: map<TrackId, Track>, attachments: map<Surface, nat>,
                                  maps: seq<map<Track, Element>>, next: nat, ended: seq<EndedListener>)
  {
    && (forall p, t :: p in attachments && 0 <= attachments[p] < |maps| && t in maps[attachments[p]] ==>
          t.id in tracks && tracks[t.id] == t)
    && (forall g, t :: 0 <= g < |maps| && t in maps[g] ==> EndedListener(t, g) in ended)
    && (forall g, t :: 0 <= g < |maps| && t in maps[g] ==> maps[g][t] < next)
    && (forall i :: 0 <= i < |ended| ==> ended[i].subMap < |maps|)
  }

  /** The attachment invariant over the registry `tracks`. */
  ghost predicate AttachmentsValidOf(tracks: map<TrackId, Track>, attachments: map<Surface, nat>,
                                     maps: seq<map<Track, Element>>, next: nat, added: seq<SurfaceListener>,
                                     removed: seq<SurfaceListener>, ended: seq<EndedListener>)
  {
    SurfacesValid(attachments, maps, added, removed) && RenderingsValid(tracks, attachments, maps, next, ended)
  }

  /** What `trackAdded` does to each sub-map when every attached surface still listens for it. */
  lemma RenderThroughAttached(start: Rendering, added: seq<SurfaceListener>, attachments: map<Surface, nat>,
                              track: Track)
    requires forall p :: p in attachments ==> attachments[p] < |start.maps|
    requires forall p :: p in attachments ==> SurfaceListener(p, attachments[p]) in added
    ensures var after := RenderThrough(start, added, attachments, track).maps;
      && |after| == |start.maps|
      && (forall g :: 0 <= g < |after| && g !in attachments.Values ==> after[g] == start.maps[g])
      && (forall p :: p in attachments ==>
            var m := after[attachments[p]];
            track in m && m == start.maps[attachments[p]][track := m[track]]
            && start.next <= m[track] < start.next + |LiveOnly(added, attachments)|)
  {
    var after := RenderThrough(start, added, attachments, track).maps;
    TargetsAreAttached(added, attachments);
    RenderThroughTotals(start, added, attachments, track);
    forall g | 0 <= g < |after| && g !in attachments.Values ensures after[g] == start.maps[g] {
      RenderThroughEffect(start, added, attachments, track, g);
    }
    forall p | p in attachments
      ensures var m := after[attachments[p]];
        track in m && m == start.maps[attachments[p]][track := m[track]]
        && start.next <= m[track] < start.next + |LiveOnly(added, attachments)|
    {
      RenderThroughEffect(start, added, attachments, track, attachments[p]);
    }
  }

  /** `trackAdded` keeps the surface half: only the listeners of detached surfaces are dropped. */
  lemma RenderKeepsSurfacesValid(attachments: map<Surface, nat>, maps: seq<map<Track, Element>>, next: nat,
                                 added: seq<SurfaceListener>, removed: seq<SurfaceListener>,
                                 ended: seq<EndedListener>, track: Track)
    requires SurfacesValid(attachments, maps, added, removed)
    ensures var r := RenderThrough(Rendering(maps, next, ended, []), added, attachments, track);
      SurfacesValid(attachments, r.maps, r.kept, removed)
  {
    var start := Rendering(maps, next, ended, []);
    var r := RenderThrough(start, added, attachments, track);
    RenderThroughTotals(start, added, attachments, track);
    RenderThroughAttached(start, added, attachments, track);
    forall p | p in attachments ensures SurfaceListener(p, attachments[p]) in r.kept {
      assert Live(attachments, SurfaceListener(p, attachments[p]));
    }
  }

  /** `trackAdded` for a new track keeps the rendering half, now over the registry with the track. */
  lemma RenderKeepsRenderingsValid(tracks: map<TrackId, Track>, attachments: map<Surface, nat>,
                                   maps: seq<map<Track, Element>>, next: nat, added: seq<SurfaceListener>,
                                   removed: seq<SurfaceListener>, ended: seq<EndedListener>, track: Track)
    requires AttachmentsValidOf(tracks, attachments, maps, next, added, removed, ended)
    requires track.id !in tracks
    ensures var r := RenderThrough(Rendering(maps, next, ended, []), added, attachments, track);
      RenderingsValid(tracks[track.id := track], attachments, r.maps, r.next, r.ended)
  {
    RenderKeepsRegistered(tracks, attachments, maps, next, added, removed, ended, track);
    RenderKeepsListened(tracks, attachments, maps, next, added, removed, ended, track);
    RenderKeepsElements(tracks, attachments, maps, next, added, removed, ended, track);
  }

  /** The first conjunct of `RenderKeepsRenderingsValid`: attached surfaces render registered tracks. */
  lemma RenderKeepsRegistered(tracks: map<TrackId, Track>, attachments: map<Surface, nat>,
                              maps: seq<map<Track, Element>>, next: nat, added: seq<SurfaceListener>,
                              removed: seq<SurfaceListener>, ended: seq<EndedListener>, track: Track)
    requires AttachmentsValidOf(tracks, attachments, maps, next, added, removed, ended)
    requires track.id !in tracks
    ensures var r := RenderThrough(Rendering(maps, next, ended, []), added, attachments, track);
      forall p, t :: p in attachments && 0 <= attachments[p] < |r.maps| && t in r.maps[attachments[p]] ==>
        t.id in tracks[track.id := track] && tracks[track.id := track][t.id] == t
  {
    var start := Rendering(maps, next, ended, []);
    var after := RenderThrough(start, added, attachments, track).maps;
    RenderThroughAttached(start, added, attachments, track);
    var tracks' := tracks[track.id := track];
    forall p, t: Track | p in attachments && 0 <= attachments[p] < |after| && t in after[attachments[p]]
      ensures t.id in tracks' && tracks'[t.id] == t
    {
      if t != track {
        assert t in maps[attachments[p]];
      }
    }
  }

  /** The second conjunct of `RenderKeepsRenderingsValid`: every rendering has its `'ended'` listener. */
  lemma RenderKeepsListened(tracks: map<TrackId, Track>, attachments: map<Surface, nat>,
                            maps: seq<map<Track, Element>>, next: nat, added: seq<SurfaceListener>,
                            removed: seq<SurfaceListener>, ended: seq<EndedListener>, track: Track)
    requires AttachmentsValidOf(tracks, attachments, maps, next, added, removed, ended)
    ensures var r := RenderThrough(Rendering(maps, next, ended, []), added, attachments, track);
      forall g, t :: 0 <= g < |r.maps| && t in r.maps[g] ==> EndedListener(t, g) in r.ended
  {
    var start := Rendering(maps, next, ended, []);
    var live := LiveOnly(added, attachments);
    var after := RenderThrough(start, added, attachments, track).maps;
    var ended' := ended + EndedFor(track, live);
    RenderThroughTotals(start, added, attachments, track);
    RenderThroughAttached(start, added, attachments, track);
    forall g, t: Track | 0 <= g < |after| && t in after[g] ensures EndedListener(t, g) in ended' {
      if g in attachments.Values {
        var p :| p in attachments && attachments[p] == g;
        if t == track {
          EndedForMember(track, live, SurfaceListener(p, g));
        } else {
          assert t in maps[g];
        }
      }
    }
  }

  /** The last two conjuncts of `RenderKeepsRenderingsValid`: handed-out elements, and listeners naming sub-maps. */
  lemma RenderKeepsElements(tracks: map<TrackId, Track>, attachments: map<Surface, nat>,
                            maps: seq<map<Track, Element>>, next: nat, added: seq<SurfaceListener>,
                            removed: seq<SurfaceListener>, ended: seq<EndedListener>, track: Track)
    requires AttachmentsValidOf(tracks, attachments, maps, next, added, removed, ended)
    ensures var r := RenderThrough(Rendering(maps, next, ended, []), added, attachments, track);
      && (forall g, t :: 0 <= g < |r.maps| && t in r.maps[g] ==> r.maps[g][t] < r.next)
      && (forall i :: 0 <= i < |r.ended| ==> r.ended[i].subMap < |r.maps|)
  {
    var start := Rendering(maps, next, ended, []);
    var live := LiveOnly(added, attachments);
    var after := RenderThrough(start, added, attachments, track).maps;
    var ended' := ended + EndedFor(track, live);
    RenderThroughTotals(start, added, attachments, track);
    RenderThroughAttached(start, added, attachments, track);
    forall i | 0 <= i < |ended'| ensures ended'[i].subMap < |after| {
      if i >= |ended| {
        var l := live[i - |ended|];
        assert l in live;
        EndedForIndex(track, live, i - |ended|);
      }
    }
    forall g, t: Track | 0 <= g < |after| && t in after[g] ensures after[g][t] < next + |live| {
      if g in attachments.Values {
        var p :| p in attachments && attachments[p] == g;
      }
    }
  }

  /**
   * `trackAdded` for a newly registered track keeps the invariant, with
   * the listeners it drops, the `'ended'` listeners it adds and the
   * elements it hands out.
   */
  lemma RenderKeepsAttachmentsValid(tracks: map<TrackId, Track>, attachments: map<Surface, nat>,
                                    maps: seq<map<Track, Element>>, next: nat, added: seq<SurfaceListener>,
                                    removed: seq<SurfaceListener>, ended: seq<EndedListener>, track: Track)
    requires AttachmentsValidOf(tracks, attachments, maps, next, added, removed, ended)
    requires track.id !in tracks
    ensures var r := RenderThrough(Rendering(maps, next, ended, []), added, attachments, track);
      AttachmentsValidOf(tracks[track.id := track], attachments, r.maps, r.next, r.kept, removed, r.ended)
  {
    RenderKeepsSurfacesValid(attachments, maps, next, added, removed, ended, track);
    RenderKeepsRenderingsValid(tracks, attachments, maps, next, added, removed, ended, track);
  }

  /**
   * `trackRemoved` for a registered track, removed through the object
   * registered under its id, keeps the invariant and takes the track's
   * rendering out of every sub-map and nothing else.
   */
  lemma DetachKeepsAttachmentsValid(tracks: map<TrackId, Track>, attachments: map<Surface, nat>,
                                    maps: seq<map<Track, Element>>, next: nat, added: seq<SurfaceListener>,
                                    removed: seq<SurfaceListener>, ended: seq<EndedListener>, track: Track)
    requires AttachmentsValidOf(tracks, attachments, maps, next, added, removed, ended)
    requires track.id in tracks && tracks[track.id] == track
    ensures var after := DetachThrough(maps, removed, attachments, track);
      && AttachmentsValidOf(tracks - {track.id}, attachments, after, next, added,
                            LiveOnly(removed, attachments), ended)
      && |after| == |maps|
      && (forall g :: 0 <= g < |maps| ==> after[g] == maps[g] - {track})
  {
    var after := DetachThrough(maps, removed, attachments, track);
    TargetsAreAttached(removed, attachments);
    DetachThroughEffect(maps, removed, attachments, track, 0);
    forall g | 0 <= g < |maps| ensures after[g] == maps[g] - {track} {
      DetachThroughEffect(maps, removed, attachments, track, g);
      if g !in attachments.Values {
        assert maps[g] - {track} == maps[g];
      }
    }
  }

  /**
   * A track's `'ended'` keeps the invariant: its rendering leaves every
   * sub-map it was in, and its one-shot listeners are gone.
   */
  lemma EndedKeepsAttachmentsValid(tracks: map<TrackId, Track>, attachments: map<Surface, nat>,
                                   maps: seq<map<Track, Element>>, next: nat, added: seq<SurfaceListener>,
                                   removed: seq<SurfaceListener>, ended: seq<EndedListener>, track: Track)
    requires AttachmentsValidOf(tracks, attachments, maps, next, added, removed, ended)
    ensures var after := DetachEnded(maps, ended, track);
      && AttachmentsValidOf(tracks, attachments, after, next, added, removed, EndedExcept(ended, track))
      && |after| == |maps|
      && (forall g :: 0 <= g < |maps| ==> after[g] == maps[g] - {track})
  {
    var after := DetachEnded(maps, ended, track);
    var ended' := EndedExcept(ended, track);
    DetachEndedEffect(maps, ended, track, 0);
    forall g | 0 <= g < |maps| ensures after[g] == maps[g] - {track} {
      DetachEndedEffect(maps, ended, track, g);
      if EndedListener(track, g) !in ended {
        assert maps[g] - {track} == maps[g];
      }
    }
    forall g, t: Track | 0 <= g < |after| && t in after[g] ensures EndedListener(t, g) in ended' {
      var i :| 0 <= i < |ended| && ended[i] == EndedListener(t, g);
    }
    forall i | 0 <= i < |ended'| ensures ended'[i].subMap < |after| {
      var j :| 0 <= j < |ended| && ended[j] == ended'[i];
    }
  }

  /**
   * `_attach` of a new surface keeps the invariant: the surface gets a
   * fresh sub-map holding only registered tracks, each with its `'ended'`
   * listener and an element handed out, and its two listeners.
   */
  lemma AttachKeepsAttachmentsValid(tracks: map<TrackId, Track>, attachments: map<Surface, nat>,
                                    maps: seq<map<Track, Element>>, next: nat, added: seq<SurfaceListener>,
                                    removed: seq<SurfaceListener>, ended: seq<EndedListener>,
                                    el: Surface, m: map<Track, Element>, next': nat, ended': seq<EndedListener>)
    requires AttachmentsValidOf(tracks, attachments, maps, next, added, removed, ended)
    requires el !in attachments
    requires forall t :: t in m ==> t.id in tracks && tracks[t.id] == t && m[t] < next'
    requires next <= next'
    requires |ended| <= |ended'| && ended'[..|ended|] == ended
    requires forall t :: t in m ==> EndedListener(t, |maps|) in ended'
    requires forall i :: |ended| <= i < |ended'| ==> ended'[i].subMap == |maps|
    ensures AttachmentsValidOf(tracks, attachments[el := |maps|], maps + [m], next',
                               added + [SurfaceListener(el, |maps|)], removed + [SurfaceListener(el, |maps|)], ended')
  {
    var g := |maps|;
    var att' := attachments[el := g];
    var maps' := maps + [m];
    forall h | 0 <= h < |maps'| && h !in att'.Values ensures maps'[h] == map[] {
      assert att'[el] == g;
      forall p | p in attachments ensures attachments[p] != h {
        assert att'[p] == attachments[p];
      }
    }
    forall h, t: Track | 0 <= h < |maps'| && t in maps'[h] ensures EndedListener(t, h) in ended' {
      if h < g {
        var i :| 0 <= i < |ended| && ended[i] == EndedListener(t, h);
        assert ended'[i] == ended[i];
      }
    }
    forall i | 0 <= i < |ended'| ensures ended'[i].subMap < |maps'| {
      if i < |ended| {
        assert ended'[i] == ended[i];
      }
    }
  }

  /**
   * `_detachContainer` of an attached surface keeps the invariant: the
   * surface is forgotten and its sub-map emptied.
   */
  lemma DetachContainerKeepsAttachmentsValid(tracks: map<TrackId, Track>, attachments: map<Surface, nat>,
                                             maps: seq<map<Track, Element>>, next: nat, added: seq<SurfaceListener>,
                                             removed: seq<SurfaceListener>, ended: seq<EndedListener>, el: Surface)
    requires AttachmentsValidOf(tracks, attachments, maps, next, added, removed, ended)
    requires el in attachments
    ensures AttachmentsValidOf(tracks, attachments - {el}, maps[attachments[el] := map[]], next, added, removed, ended)
  {
    var g := attachments[el];
    var att' := attachments - {el};
    var maps' := maps[g := map[]];
    forall h | 0 <= h < |maps'| && h !in att'.Values ensures maps'[h] == map[] {
      if h != g {
        forall p | p in attachments ensures attachments[p] != h {
          if p != el {
            assert att'[p] == attachments[p];
          }
        }
      }
    }
    forall p, t: Track | p in att' && t in maps'[att'[p]] ensures t.id in tracks && tracks[t.id] == t {
      assert attachments[p] != g;
    }
  }

  /** One `trackAdded` listener with the guard as written: it renders whenever its surface is attached. */
  function RenderStepAsWritten(st: Rendering, l: SurfaceListener, attachments: map<Surface, nat>, track: Track): Rendering
  {
    if !LiveAsWritten(attachments, l) then st else RenderInto(st, l, track)
  }

  /** The `trackAdded` listeners of `ls` run in order with the guard as written. */
  function RenderThroughAsWritten(start: Rendering, ls: seq<SurfaceListener>, attachments: map<Surface, nat>,
                                  track: Track): Rendering
  {
    if ls == [] then start
    else RenderStepAsWritten(RenderThroughAsWritten(start, ls[..|ls| - 1], attachments, track), ls[|ls| - 1],
                             attachments, track)
  }

  /** The `trackRemoved` listeners of `ls` run in order with the guard as written. */
  function DetachThroughAsWritten(maps: seq<map<Track, Element>>, ls: seq<SurfaceListener>,
                                  attachments: map<Surface, nat>, track: Track): seq<map<Track, Element>>
  {
    if ls == [] then maps
    else
      var prev := DetachThroughAsWritten(maps, ls[..|ls| - 1], attachments, track);
      var l := ls[|ls| - 1];
      if LiveAsWritten(attachments, l) then DropFrom(prev, l.subMap, track) else prev
  }

  /**
   * The surface `p` was attached with sub-map 0, detached, and attached again
   * with sub-map 1, so both of its `trackAdded` and `trackRemoved` listeners
   * are subscribed.  A new track then gets, as written, a rendering in the
   * orphaned sub-map 0 too: no surface owns that sub-map, so `SurfacesValid`
   * fails, and a later `detach(p)`, which empties only sub-map 1, leaves it
   * there; only a `trackRemoved` while `p` is attached drops it.
   */
  lemma StaleRenderAfterReattach(p: Surface, track: Track, next: nat, ended: seq<EndedListener>)
    ensures var attachments := map[p := 1];
      var ls := [SurfaceListener(p, 0), SurfaceListener(p, 1)];
      var written := RenderThroughAsWritten(Rendering([map[], map[]], next, ended, []), ls, attachments, track);
      && written.maps == [map[track := next], map[track := next + 1]]
      && written.kept == ls
      && !SurfacesValid(attachments, written.maps, written.kept, ls)
      && track in written.maps[attachments[p] := map[]][0]
      && DetachThroughAsWritten(written.maps, ls, attachments, track) == [map[], map[]]
  {
    var attachments := map[p := 1];
    var l0, l1 := SurfaceListener(p, 0), SurfaceListener(p, 1);
    var ls := [l0, l1];
    var start := Rendering([map[], map[]], next, ended, []);
    assert ls[..1] == [l0] && [l0][..0] == [];
    var w1 := RenderInto(start, l0, track);
    assert w1.maps == [map[track := next], map[]];
    assert RenderThroughAsWritten(start, [l0], attachments, track) == w1;
    var written := RenderInto(w1, l1, track);
    assert written.maps == [map[track := next], map[track := next + 1]];
    assert RenderThroughAsWritten(start, ls, attachments, track) == written;
    assert 0 !in attachments.Values && track in written.maps[0];
    var d1 := DropFrom(written.maps, 0, track);
    assert DetachThroughAsWritten(written.maps, [l0], attachments, track) == d1;
    assert DropFrom(d1, 1, track) == [map[], map[]];
  }

  /**
   * The same run with the intended guard: the listener of the orphaned
   * sub-map unsubscribes, the track is rendered into sub-map 1 alone, and
   * `SurfacesValid` still holds.
   */
  lemma ReattachRendersCurrentOnly(p: Surface, track: Track, next: nat, ended: seq<EndedListener>)
    ensures var attachments := map[p := 1];
      var ls := [SurfaceListener(p, 0), SurfaceListener(p, 1)];
      var intended := RenderThrough(Rendering([map[], map[]], next, ended, []), ls, attachments, track);
      && intended.maps == [map[], map[track := next]]
      && intended.kept == [SurfaceListener(p, 1)]
      && SurfacesValid(attachments, intended.maps, intended.kept, ls)
  {
    var attachments := map[p := 1];
    var l0, l1 := SurfaceListener(p, 0), SurfaceListener(p, 1);
    var ls := [l0, l1];
    var start := Rendering([map[], map[]], next, ended, []);
    assert ls[..1] == [l0] && [l0][..0] == [];
    assert RenderThrough(start, [l0], attachments, track) == start;
    var intended := RenderInto(start, l1, track);
    assert intended.maps == [map[], map[track := next]];
    assert RenderThrough(start, ls, attachments, track) == intended;
    assert forall g :: 0 <= g < 2 && g !in attachments.Values ==> g == 0;
  }

  // ---------------------------------------------------------------------------
  // Reconciliation against the streams

  /** What a stream reports; a stream with no report reports no tracks. */
  function ReportOf(reported: map<StreamId, StreamTracks>, stream: StreamId): StreamTracks
  {
    if stream in reported then reported[stream] else StreamTracks([], [])
  }

  /** The ids a stream reports (`mediaStream.getTracks()`). */
  function IdsOf(report: StreamTracks): set<TrackId>
  {
    InfoIds(report.audio + report.video)
  }

  /** The ids of a sequence of reported tracks. */
  function InfoIds(infos: seq<TrackInfo>): (ids: set<TrackId>)
  {
    if infos == [] then {} else InfoIds(infos[..|infos| - 1]) + {infos[|infos| - 1].id}
  }

  /** One more reported track adds its id. */
  lemma InfoIdsSnoc(infos: seq<TrackInfo>, i: nat)
    requires i < |infos|
    ensures InfoIds(infos[..i + 1]) == InfoIds(infos[..i]) + {infos[i].id}
  {
    assert infos[..i + 1][..i] == infos[..i];
  }

  /** The ids of two reports together are the ids of each. */
  lemma {:induction false} InfoIdsAppend(a: seq<TrackInfo>, b: seq<TrackInfo>)
    ensures InfoIds(a + b) == InfoIds(a) + InfoIds(b)
  {
    if b != [] {
      assert (a + b)[..|a + b| - 1] == a + b[..|b| - 1];
      InfoIdsAppend(a, b[..|b| - 1]);
    } else {
      assert a + b == a;
    }
  }

  /** The ids reported by the streams of `streams`. */
  function ReportedIds(reported: map<StreamId, StreamTracks>, streams: set<StreamId>): set<TrackId>
  {
    set s, id | s in streams && id in IdsOf(ReportOf(reported, s)) :: id
  }

  /** Collecting stream by stream: one more stream adds exactly its own reported ids. */
  lemma ReportedIdsInsert(reported: map<StreamId, StreamTracks>, streams: set<StreamId>, s: StreamId)
    ensures ReportedIds(reported, streams + {s}) == ReportedIds(reported, streams) + IdsOf(ReportOf(reported, s))
  {
    forall id | id in IdsOf(ReportOf(reported, s)) ensures id in ReportedIds(reported, streams + {s}) {
      assert s in streams + {s};
    }
  }

  /** The registry entries of `tracks` whose id is in `ids`. */
  function Restrict(tracks: map<TrackId, Track>, ids: set<TrackId>): (r: map<TrackId, Track>)
    ensures r.Keys == tracks.Keys * ids
    ensures forall id :: id in r ==> r[id] == tracks[id]
  {
    map id | id in tracks && id in ids :: tracks[id]
  }

  /**
   * Only streams still backing a track are asked for new tracks, so every id
   * a refresh can register was reported by one of the streams it started from.
   */
  lemma {:induction false} RefreshedIdsReported(reported: map<StreamId, StreamTracks>, tracks: map<TrackId, Track>, ids: set<TrackId>)
    requires ids == ReportedIds(reported, StreamsOf(tracks))
    ensures Restrict(tracks, ids).Keys + ReportedIds(reported, StreamsOf(Restrict(tracks, ids))) <= ids
  {
    var kept := Restrict(tracks, ids);
    forall s | s in StreamsOf(kept) ensures s in StreamsOf(tracks) {
      var id :| id in kept && kept[id].stream == s;
      assert tracks[id].stream == s;
    }
    forall id | id in ReportedIds(reported, StreamsOf(kept)) ensures id in ids {
      var s :| s in StreamsOf(kept) && id in IdsOf(ReportOf(reported, s));
      assert s in StreamsOf(tracks);
    }
  }

  /** `after` keeps every registry entry of `before`. */
  ghost predicate Extends(before: map<TrackId, Track>, after: map<TrackId, Track>)
  {
    forall id :: id in before ==> id in after && after[id] == before[id]
  }

  lemma ExtendsTransitive(a: map<TrackId, Track>, b: map<TrackId, Track>, c: map<TrackId, Track>)
    requires Extends(a, b) && Extends(b, c)
    ensures Extends(a, c)
  {
  }

  /**
   * The renderings of a run of `_addTrack` calls: on every attached surface
   * the old renderings keep their elements, and exactly the tracks newly
   * registered are rendered besides.
   */
  ghost predicate RendersAdded(attachments: map<Surface, nat>, before: seq<map<Track, Element>>,
                               after: seq<map<Track, Element>>, oldTracks: map<TrackId, Track>,
                               newTracks: map<TrackId, Track>)
  {
    forall p :: p in attachments ==>
      && attachments[p] < |before| && attachments[p] < |after|
      && (forall t :: t in after[attachments[p]] ==>
            t in before[attachments[p]] || (t.id in newTracks && t.id !in oldTracks && newTracks[t.id] == t))
      && (forall id :: id in newTracks && id !in oldTracks ==> newTracks[id] in after[attachments[p]])
      && (forall t :: t in before[attachments[p]] ==>
            t in after[attachments[p]] && after[attachments[p]][t] == before[attachments[p]][t])
  }

  /**
   * The renderings of a run of `_removeTrack` calls: every attached surface
   * keeps exactly its renderings of tracks whose id is in `ids`, with their
   * elements.
   */
  ghost predicate RendersKept(attachments: map<Surface, nat>, before: seq<map<Track, Element>>,
                              after: seq<map<Track, Element>>, ids: set<TrackId>)
  {
    forall p :: p in attachments ==>
      && attachments[p] < |before| && attachments[p] < |after|
      && (forall t :: t in after[attachments[p]] ==> t in before[attachments[p]] && t.id in ids)
      && (forall t :: t in before[attachments[p]] && t.id in ids ==>
            t in after[attachments[p]] && after[attachments[p]][t] == before[attachments[p]][t])
  }

  /**
   * The renderings of `_refreshTracks`: every attached surface keeps its
   * renderings of the tracks whose id is still reported, with their
   * elements, and renders exactly the newly registered tracks besides.
   */
  ghost predicate RendersRefreshed(attachments: map<Surface, nat>, before: seq<map<Track, Element>>,
                                   after: seq<map<Track, Element>>, ids: set<TrackId>,
                                   oldTracks: map<TrackId, Track>, newTracks: map<TrackId, Track>)
  {
    forall p :: p in attachments ==>
      && attachments[p] < |before| && attachments[p] < |after|
      && (forall t :: t in after[attachments[p]] ==>
            (t in before[attachments[p]] && t.id in ids)
            || (t.id in newTracks && t.id !in oldTracks && newTracks[t.id] == t))
      && (forall id :: id in newTracks && id !in oldTracks ==> newTracks[id] in after[attachments[p]])
      && (forall t :: t in before[attachments[p]] && t.id in ids ==>
            t in after[attachments[p]] && after[attachments[p]][t] == before[attachments[p]][t])
  }

  /** No track added: the renderings are as they were. */
  lemma RendersAddedNone(attachments: map<Surface, nat>, maps: seq<map<Track, Element>>,
                         tracks: map<TrackId, Track>)
    requires forall p :: p in attachments ==> attachments[p] < |maps|
    ensures RendersAdded(attachments, maps, maps, tracks, tracks)
  {
  }

  /**
   * One `_addTrack` of a new id: every attached surface renders `track`
   * besides what it rendered, which was only registered tracks.
   */
  lemma RendersAddedTrack(attachments: map<Surface, nat>, before: seq<map<Track, Element>>,
                          after: seq<map<Track, Element>>, tracks: map<TrackId, Track>, track: Track)
    requires track.id !in tracks
    requires forall p, t :: p in attachments && 0 <= attachments[p] < |before| && t in before[attachments[p]] ==>
               t.id in tracks
    requires |after| == |before|
    requires forall p :: p in attachments ==> attachments[p] < |before|
    requires forall p :: p in attachments ==>
               var m := after[attachments[p]];
               track in m && m == before[attachments[p]][track := m[track]]
    ensures RendersAdded(attachments, before, after, tracks, tracks[track.id := track])
  {
    forall p | p in attachments
      ensures forall t :: t in before[attachments[p]] ==>
                t in after[attachments[p]] && after[attachments[p]][t] == before[attachments[p]][t]
    {
      assert track !in before[attachments[p]];
    }
  }

  lemma {:induction false} RendersAddedTransitive(attachments: map<Surface, nat>, s0: seq<map<Track, Element>>,
                                                  s1: seq<map<Track, Element>>, s2: seq<map<Track, Element>>,
                                                  t0: map<TrackId, Track>, t1: map<TrackId, Track>,
                                                  t2: map<TrackId, Track>)
    requires RendersAdded(attachments, s0, s1, t0, t1) && RendersAdded(attachments, s1, s2, t1, t2)
    requires Extends(t0, t1) && Extends(t1, t2)
    ensures RendersAdded(attachments, s0, s2, t0, t2)
  {
    forall p | p in attachments
      ensures forall id :: id in t2 && id !in t0 ==> t2[id] in s2[attachments[p]]
    {
      forall id | id in t2 && id !in t0 && id in t1
        ensures t2[id] in s2[attachments[p]]
      {
        assert t2[id] in s1[attachments[p]];
      }
    }
  }

  /** Every track rendered on an attached surface is registered, so nothing removed keeps every rendering. */
  lemma RendersKeptNone(attachments: map<Surface, nat>, maps: seq<map<Track, Element>>,
                        tracks: map<TrackId, Track>)
    requires forall p :: p in attachments ==> attachments[p] < |maps|
    requires forall p, t :: p in attachments && 0 <= attachments[p] < |maps| && t in maps[attachments[p]] ==>
               t.id in tracks
    ensures RendersKept(attachments, maps, maps, tracks.Keys)
  {
  }

  lemma RendersKeptTransitive(attachments: map<Surface, nat>, s0: seq<map<Track, Element>>,
                              s1: seq<map<Track, Element>>, s2: seq<map<Track, Element>>,
                              k1: set<TrackId>, k2: set<TrackId>)
    requires RendersKept(attachments, s0, s1, k1) && RendersKept(attachments, s1, s2, k2) && k2 <= k1
    ensures RendersKept(attachments, s0, s2, k2)
  {
  }

  /**
   * One `_removeTrack` of the registered `track`: dropping it from every
   * sub-map drops the only kept rendering whose id is `track.id`, since a
   * sub-map of an attached surface renders registered tracks only.
   */
  lemma RendersKeptRemove(attachments: map<Surface, nat>, s0: seq<map<Track, Element>>,
                          s1: seq<map<Track, Element>>, s2: seq<map<Track, Element>>,
                          ids: set<TrackId>, tracks: map<TrackId, Track>, track: Track)
    requires RendersKept(attachments, s0, s1, ids)
    requires forall p, t :: p in attachments && 0 <= attachments[p] < |s1| && t in s1[attachments[p]] ==>
               t.id in tracks && tracks[t.id] == t
    requires track.id in tracks && tracks[track.id] == track
    requires |s2| == |s1| && forall g :: 0 <= g < |s2| ==> s2[g] == s1[g] - {track}
    ensures RendersKept(attachments, s0, s2, ids - {track.id})
  {
  }

  /**
   * The removal pass, which keeps the renderings of the tracks still
   * registered, followed by the additions of `_refreshTracks`.
   */
  lemma RendersRefreshedOf(attachments: map<Surface, nat>, s0: seq<map<Track, Element>>,
                           s1: seq<map<Track, Element>>, s2: seq<map<Track, Element>>, ids: set<TrackId>,
                           t0: map<TrackId, Track>, t1: map<TrackId, Track>, t2: map<TrackId, Track>)
    requires forall p, t :: p in attachments && 0 <= attachments[p] < |s0| && t in s0[attachments[p]] ==>
               t.id in t0
    requires RendersKept(attachments, s0, s1, t1.Keys) && RendersAdded(attachments, s1, s2, t1, t2)
    requires t1.Keys == t0.Keys * ids && t2.Keys <= ids
    ensures RendersRefreshed(attachments, s0, s2, ids, t0, t2)
  {
  }

  /** One more stream asked for its tracks: the registered ids grow by exactly its reported ids. */
  lemma AddStreamStep(keys: set<TrackId>, before: set<TrackId>, after: set<TrackId>,
                      reported: map<StreamId, StreamTracks>, done: set<StreamId>, s: StreamId)
    requires before == keys + ReportedIds(reported, done)
    requires after == before + IdsOf(ReportOf(reported, s))
    ensures after == keys + ReportedIds(reported, done + {s})
  {
    ReportedIdsInsert(reported, done, s);
  }

  lemma PrefixTransitive<T>(a: seq<T>, b: seq<T>, c: seq<T>)
    requires a <= b && b <= c
    ensures a <= c
  {
  }

  /** One id leaves the pending ids of the removal pass. */
  lemma PendingStep<T>(ids: set<T>, pending: set<T>, x: T)
    requires x in pending
    ensures ids + (pending - {x}) == if x in ids then ids + pending else (ids + pending) - {x}
  {
  }

  lemma SetSqueeze<T>(a: set<T>, b: set<T>, x: T)
    requires a <= b <= a + {x} && x in a
    ensures b == a
  {
  }

  lemma SetStep<T>(all: set<T>, pending: set<T>, done: set<T>, x: T)
    requires done == all - pending && x in pending && pending <= all
    ensures done + {x} == all - (pending - {x}) && pending - {x} <= all
    ensures pending - {x} == {} ==> done + {x} == all
  {
  }
}
