/**
 * The Media object of lib/media/index.js: a registry of audio and video
 * tracks with the set of their backing streams, the re-emission of each
 * track's signals as session events, and the attachment of the tracks to any
 * number of rendering surfaces, each with its own map from track to rendered
 * element.
 *
 * Event emission is explicit state: `events` logs the session events emitted
 * so far, and every listener the source registers is an entry of one of the
 * listener sequences, in registration order.  The sub-maps `_attach` creates
 * live in `subMaps` (indexed by a handle) because its listeners keep a
 * reference to their sub-map even after the surface is detached.
 */
module Media {
  import opened Wrappers
  import opened MediaModel

  /** The argument of `attach`/`detach`: a surface, a query selector, or nothing. */
  datatype Target = Container(surface: Surface) | Selector(query: string) | NoContainer

  /** What `detach` returns: the one surface it was given, or the array of surfaces it detached. */
  datatype Detached = One(surface: Surface) | All(surfaces: seq<Surface>)

  class Media {
    var tracks: map<TrackId, Track>
    var audioTracks: map<TrackId, Track>
    var videoTracks: map<TrackId, Track>
    var mediaStreams: set<StreamId>
    /** Each attached surface and the handle of its sub-map. */
    var attachments: map<Surface, nat>
    /** Every sub-map `_attach` has created, by handle: track to rendered element. */
    var subMaps: seq<map<Track, Element>>
    /** The next element handle a rendering creates. */
    var nextElement: nat
    /** The session events emitted so far. */
    var events: seq<SessionEvent>
    var reemitters: seq<Reemitter>
    var addedListeners: seq<SurfaceListener>
    var removedListeners: seq<SurfaceListener>
    var endedListeners: seq<EndedListener>

    /** The registry invariants: kind maps partition `tracks`; `mediaStreams` is exactly their streams. */
    ghost predicate RegistryValid()
      reads this
    {
      && (forall id :: id in tracks ==> tracks[id].id == id)
      && audioTracks == OfKind(tracks, Audio)
      && videoTracks == OfKind(tracks, Video)
      && mediaStreams == StreamsOf(tracks)
    }

    /** The attachment invariants of `AttachmentsValidOf` over this object's state. */
    ghost predicate AttachmentsValid()
      reads this
    {
      AttachmentsValidOf(tracks, attachments, subMaps, nextElement, addedListeners, removedListeners, endedListeners)
    }

    ghost predicate Valid()
      reads this
    {
      RegistryValid() && AttachmentsValid()
    }

    /** `new Media()`: no tracks, no streams, no attachments. */
    constructor ()
      ensures Valid()
      ensures tracks == map[] && audioTracks == map[] && videoTracks == map[] && mediaStreams == {}
      ensures attachments == map[] && subMaps == [] && nextElement == 0 && events == []
      ensures reemitters == [] && addedListeners == [] && removedListeners == [] && endedListeners == []
    {
      tracks, audioTracks, videoTracks, mediaStreams := map[], map[], map[], {};
      attachments, subMaps, nextElement, events := map[], [], 0, [];
      reemitters, addedListeners, removedListeners, endedListeners := [], [], [], [];
    }

    /** `isMuted`: every audio track is disabled (vacuously so with none). */
    method IsMuted() returns (muted: bool)
      ensures muted <==> forall id :: id in audioTracks ==> !audioTracks[id].isEnabled
    {
      muted := true;
      var pending := audioTracks.Keys;
      while pending != {}
        invariant pending <= audioTracks.Keys
        invariant muted <==> forall id :: id in audioTracks && id !in pending ==> !audioTracks[id].isEnabled
        decreases pending
      {
        var id :| id in pending;
        muted := muted && !audioTracks[id].isEnabled;
        pending := pending - {id};
      }
    }

    /** `isPaused`: every video track is disabled (vacuously so with none). */
    method IsPaused() returns (paused: bool)
      ensures paused <==> forall id :: id in videoTracks ==> !videoTracks[id].isEnabled
    {
      paused := true;
      var pending := videoTracks.Keys;
      while pending != {}
        invariant pending <= videoTracks.Keys
        invariant paused <==> forall id :: id in videoTracks && id !in pending ==> !videoTracks[id].isEnabled
        decreases pending
      {
        var id :| id in pending;
        paused := paused && !videoTracks[id].isEnabled;
        pending := pending - {id};
      }
    }

    /** `_updateMediaStreams`: clear the stream set, then add the stream of every registered track. */
    method UpdateMediaStreams() returns (streams: set<StreamId>)
      modifies this`mediaStreams
      ensures mediaStreams == StreamsOf(tracks) && streams == mediaStreams
    {
      mediaStreams := {};
      var pending := tracks.Keys;
      while pending != {}
        invariant pending <= tracks.Keys
        invariant mediaStreams == set id | id in tracks && id !in pending :: tracks[id].stream
        decreases pending
      {
        var id :| id in pending;
        mediaStreams := mediaStreams + {tracks[id].stream};
        pending := pending - {id};
      }
      streams := mediaStreams;
    }

    /** `_reemitTrackEvent`: subscribe a handler re-emitting `signal` of `track` as `event`. */
    method ReemitTrackEvent(track: Track, signal: Signal, event: EventName)
      modifies this`reemitters
      ensures reemitters == old(reemitters) + [Reemitter(track, signal, event)]
    {
      reemitters := reemitters + [Reemitter(track, signal, event)];
    }

    /**
     * `_attachTrack`: render `track` into sub-map `g` (overwriting any entry
     * it already has) and subscribe the one-shot `'ended'` listener that
     * detaches it again.
     */
    method AttachTrack(g: nat, track: Track)
      requires g < |subMaps|
      modifies this`subMaps, this`nextElement, this`endedListeners
      ensures nextElement == old(nextElement) + 1
      ensures var rendered: map<Track, Element> := old(subMaps[g])[track := old(nextElement)];
        subMaps == old(subMaps)[g := rendered]
      ensures endedListeners == old(endedListeners) + [EndedListener(track, g)]
    {
      var trackEl := nextElement;
      nextElement := nextElement + 1;
      subMaps := subMaps[g := subMaps[g][track := trackEl]];
      endedListeners := endedListeners + [EndedListener(track, g)];
    }

    /** `_detachTrack`: drop the rendering of `track` from sub-map `g`, if there is one. */
    method DetachTrack(g: nat, track: Track)
      requires g < |subMaps|
      modifies this`subMaps
      ensures track !in old(subMaps[g]) ==> subMaps == old(subMaps)
      ensures subMaps == old(subMaps)[g := old(subMaps[g]) - {track}]
    {
      if track !in subMaps[g] {
        assert subMaps[g] - {track} == subMaps[g];
        assert subMaps[g := subMaps[g]] == subMaps;
        return;
      }
      subMaps := subMaps[g := subMaps[g] - {track}];
    }

    /**
     * Emit `trackAdded`: log it, then run the `_attach` listeners; a live
     * one renders the track into its sub-map, a dead one unsubscribes.
     */
    method EmitTrackAdded(track: Track)
      requires track.id in tracks && tracks[track.id] == track
      requires AttachmentsValidOf(tracks - {track.id}, attachments, subMaps, nextElement, addedListeners,
                                  removedListeners, endedListeners)
      modifies this`events, this`subMaps, this`nextElement, this`addedListeners, this`endedListeners
      ensures AttachmentsValid()
      ensures events == old(events) + [SessionEvent(TrackAdded, track)]
      ensures Rendering(subMaps, nextElement, endedListeners, addedListeners)
              == RenderThrough(Rendering(old(subMaps), old(nextElement), old(endedListeners), []),
                               old(addedListeners), attachments, track)
    {
      assert (tracks - {track.id})[track.id := track] == tracks;
      RenderKeepsAttachmentsValid(tracks - {track.id}, attachments, subMaps, nextElement, addedListeners,
                                  removedListeners, endedListeners, track);
      events := events + [SessionEvent(TrackAdded, track)];
      RunTrackAdded(track);
    }

    /** The `trackAdded` listeners of `_attach`, in subscription order. */
    method RunTrackAdded(track: Track)
      requires forall l :: l in addedListeners && Live(attachments, l) ==> l.subMap < |subMaps|
      modifies this`subMaps, this`nextElement, this`addedListeners, this`endedListeners
      ensures Rendering(subMaps, nextElement, endedListeners, addedListeners)
              == RenderThrough(Rendering(old(subMaps), old(nextElement), old(endedListeners), []),
                               old(addedListeners), attachments, track)
    {
      ghost var start := Rendering(subMaps, nextElement, endedListeners, []);
      var listeners := addedListeners;
      var kept: seq<SurfaceListener> := [];
      ghost var done: seq<SurfaceListener> := [];
      var i := 0;
      while i < |listeners|
        invariant 0 <= i <= |listeners| && done == listeners[..i]
        invariant Rendering(subMaps, nextElement, endedListeners, kept) == RenderThrough(start, done, attachments, track)
        invariant |subMaps| == |start.maps|
      {
        var l := listeners[i];
        RenderThroughSnoc(start, done, l, attachments, track);
        assert l in listeners;
        kept := RunAddedListener(l, track, kept);
        done := done + [l];
        i := i + 1;
      }
      assert done == listeners;
      addedListeners := kept;
    }

    /** One `trackAdded` listener of `_attach`: a live one renders the track and stays, a dead one is dropped. */
    method RunAddedListener(l: SurfaceListener, track: Track, kept: seq<SurfaceListener>)
      returns (stays: seq<SurfaceListener>)
      requires Live(attachments, l) ==> l.subMap < |subMaps|
      modifies this`subMaps, this`nextElement, this`endedListeners
      ensures Rendering(subMaps, nextElement, endedListeners, stays)
              == RenderStep(Rendering(old(subMaps), old(nextElement), old(endedListeners), kept), l, attachments, track)
    {
      stays := kept;
      if Live(attachments, l) {
        AttachTrack(l.subMap, track);
        stays := kept + [l];
      }
    }

    /**
     * Emit `trackRemoved`: log it, then run the `_attach` listeners; a live
     * one drops the track's rendering from its sub-map, a dead one unsubscribes.
     */
    method EmitTrackRemoved(track: Track)
      requires track.id !in tracks
      requires AttachmentsValidOf(tracks[track.id := track], attachments, subMaps, nextElement, addedListeners,
                                  removedListeners, endedListeners)
      modifies this`events, this`subMaps, this`removedListeners
      ensures AttachmentsValid()
      ensures events == old(events) + [SessionEvent(TrackRemoved, track)]
      ensures removedListeners == LiveOnly(old(removedListeners), attachments)
      ensures subMaps == DetachThrough(old(subMaps), old(removedListeners), attachments, track)
      ensures |subMaps| == old(|subMaps|) && forall g :: 0 <= g < |subMaps| ==> subMaps[g] == old(subMaps)[g] - {track}
    {
      assert tracks[track.id := track] - {track.id} == tracks;
      DetachKeepsAttachmentsValid(tracks[track.id := track], attachments, subMaps, nextElement, addedListeners,
                                  removedListeners, endedListeners, track);
      events := events + [SessionEvent(TrackRemoved, track)];
      RunTrackRemoved(track);
    }

    /** The `trackRemoved` listeners of `_attach`, in subscription order. */
    method RunTrackRemoved(track: Track)
      requires forall l :: l in removedListeners && Live(attachments, l) ==> l.subMap < |subMaps|
      modifies this`subMaps, this`removedListeners
      ensures removedListeners == LiveOnly(old(removedListeners), attachments)
      ensures subMaps == DetachThrough(old(subMaps), old(removedListeners), attachments, track)
    {
      var listeners := removedListeners;
      var kept: seq<SurfaceListener> := [];
      var i := 0;
      while i < |listeners|
        invariant 0 <= i <= |listeners|
        invariant kept == LiveOnly(listeners[..i], attachments)
        invariant subMaps == DetachThrough(old(subMaps), listeners[..i], attachments, track)
      {
        var l := listeners[i];
        assert listeners[..i + 1][..i] == listeners[..i];
        DetachThroughEffect(old(subMaps), listeners[..i], attachments, track, 0);
        if Live(attachments, l) {
          DetachTrack(l.subMap, track);
          kept := kept + [l];
        }
        i := i + 1;
      }
      assert listeners[..|listeners|] == listeners;
      removedListeners := kept;
    }

    /**
     * `_addTrack`: a track whose id is already registered is ignored;
     * otherwise it is registered with its stream, its five signals are
     * re-emitted, it joins the map of its kind, and `trackAdded` renders it on
     * every attached surface.
     */
    method AddTrack(track: Track)
      requires Valid()
      modifies this
      ensures Valid()
      ensures old(track.id in tracks) ==> unchanged(this)
      ensures old(track.id !in tracks) ==>
        && tracks == old(tracks)[track.id := track]
        && (if track.kind == Audio
            then audioTracks == old(audioTracks)[track.id := track] && videoTracks == old(videoTracks)
            else videoTracks == old(videoTracks)[track.id := track] && audioTracks == old(audioTracks))
        && mediaStreams == old(mediaStreams) + {track.stream}
        && reemitters == old(reemitters) + ReemitHandlers(track)
        && events == old(events) + [SessionEvent(TrackAdded, track)]
        && attachments == old(attachments)
        && |subMaps| == old(|subMaps|)
        && (forall p :: p in attachments ==>
              var m := subMaps[attachments[p]];
              track in m && m == old(subMaps)[attachments[p]][track := m[track]] && old(nextElement) <= m[track])
        && (forall g :: 0 <= g < |subMaps| && g !in attachments.Values ==> subMaps[g] == old(subMaps)[g])
        && Rendering(subMaps, nextElement, endedListeners, addedListeners)
           == RenderThrough(Rendering(old(subMaps), old(nextElement), old(endedListeners), []),
                            old(addedListeners), attachments, track)
        && removedListeners == old(removedListeners)
    {
      if track.id in tracks {
        return;
      }
      RenderThroughAttached(Rendering(subMaps, nextElement, endedListeners, []), addedListeners, attachments, track);
      AddNewTrack(track);
    }

    /** `_addTrack` for an id not yet registered: register the track, then emit `trackAdded`. */
    method AddNewTrack(track: Track)
      requires Valid() && track.id !in tracks
      modifies this`tracks, this`audioTracks, this`videoTracks, this`mediaStreams, this`reemitters, this`events,
               this`subMaps, this`nextElement, this`addedListeners, this`endedListeners
      ensures Valid()
      ensures tracks == old(tracks)[track.id := track]
      ensures if track.kind == Audio
              then audioTracks == old(audioTracks)[track.id := track] && videoTracks == old(videoTracks)
              else videoTracks == old(videoTracks)[track.id := track] && audioTracks == old(audioTracks)
      ensures mediaStreams == old(mediaStreams) + {track.stream}
      ensures reemitters == old(reemitters) + ReemitHandlers(track)
      ensures events == old(events) + [SessionEvent(TrackAdded, track)]
      ensures Rendering(subMaps, nextElement, endedListeners, addedListeners)
              == RenderThrough(Rendering(old(subMaps), old(nextElement), old(endedListeners), []),
                               old(addedListeners), attachments, track)
    {
      RegisterTrack(track);
      assert tracks - {track.id} == old(tracks);
      EmitTrackAdded(track);
    }

    /** The registry half of `_addTrack` for a new id: stream, registry, re-emitters, kind map. */
    method RegisterTrack(track: Track)
      requires RegistryValid() && track.id !in tracks
      modifies this`mediaStreams, this`tracks, this`reemitters, this`audioTracks, this`videoTracks
      ensures RegistryValid()
      ensures tracks == old(tracks)[track.id := track]
      ensures if track.kind == Audio
              then audioTracks == old(audioTracks)[track.id := track] && videoTracks == old(videoTracks)
              else videoTracks == old(videoTracks)[track.id := track] && audioTracks == old(audioTracks)
      ensures mediaStreams == old(mediaStreams) + {track.stream}
      ensures reemitters == old(reemitters) + ReemitHandlers(track)
    {
      StreamsOfInsert(tracks, track);
      OfKindInsert(tracks, track);
      mediaStreams := mediaStreams + {track.stream};
      tracks := tracks[track.id := track];
      ReemitTrackEvents(track);
      if track.kind == Audio {
        audioTracks := audioTracks[track.id := track];
      } else {
        videoTracks := videoTracks[track.id := track];
      }
    }

    /** The five `_reemitTrackEvent` subscriptions of `_addTrack`, in source order. */
    method ReemitTrackEvents(track: Track)
      modifies this`reemitters
      ensures reemitters == old(reemitters) + ReemitHandlers(track)
    {
      ReemitTrackEvent(track, DimensionsChanged, TrackDimensionsChanged);
      ReemitTrackEvent(track, Disabled, TrackDisabled);
      ReemitTrackEvent(track, Enabled, TrackEnabled);
      ReemitTrackEvent(track, Ended, TrackEnded);
      ReemitTrackEvent(track, Started, TrackStarted);
    }

    /**
     * `_removeTrack`: a track whose id is not registered is ignored;
     * otherwise its id leaves the registry and its kind map, the stream set
     * is recomputed, and `trackRemoved` drops its rendering from every
     * attached surface.
     */
    method RemoveTrack(track: Track)
      requires Valid()
      requires track.id in tracks ==> tracks[track.id] == track
      modifies this
      ensures Valid()
      ensures old(track.id !in tracks) ==> unchanged(this)
      ensures old(track.id in tracks) ==>
        && tracks == old(tracks) - {track.id}
        && audioTracks == old(audioTracks) - {track.id}
        && videoTracks == old(videoTracks) - {track.id}
        && mediaStreams == StreamsOf(tracks)
        && reemitters == old(reemitters)
        && events == old(events) + [SessionEvent(TrackRemoved, track)]
        && attachments == old(attachments)
        && |subMaps| == old(|subMaps|)
        && (forall g :: 0 <= g < |subMaps| ==> subMaps[g] == old(subMaps)[g] - {track})
        && removedListeners == LiveOnly(old(removedListeners), attachments)
        && addedListeners == old(addedListeners) && endedListeners == old(endedListeners)
        && nextElement == old(nextElement)
    {
      if track.id !in tracks {
        return;
      }
      UnregisterTrack(track);
      assert tracks[track.id := track] == old(tracks);
      EmitTrackRemoved(track);
    }

    /** The registry half of `_removeTrack` for a registered track: registry, kind map, stream set. */
    method UnregisterTrack(track: Track)
      requires RegistryValid() && track.id in tracks && tracks[track.id] == track
      modifies this`tracks, this`audioTracks, this`videoTracks, this`mediaStreams
      ensures RegistryValid()
      ensures tracks == old(tracks) - {track.id}
      ensures audioTracks == old(audioTracks) - {track.id} && videoTracks == old(videoTracks) - {track.id}
    {
      OfKindRemove(tracks, track.id);
      tracks := tracks - {track.id};
      if track.kind == Audio {
        audioTracks := audioTracks - {track.id};
      } else {
        videoTracks := videoTracks - {track.id};
      }
      var _ := UpdateMediaStreams();
    }

    /**
     * `track` emits `signal`: every re-emitting handler subscribed for it
     * runs, re-emitting it while the track is in the map of its kind and
     * unsubscribing otherwise; on `'ended'` its one-shot listeners then drop
     * its rendering from their sub-maps.
     */
    method TrackSignal(track: Track, signal: Signal)
      requires Valid()
      modifies this
      ensures Valid()
      ensures var registered := track.id in (if track.kind == Audio then old(audioTracks) else old(videoTracks));
        && reemitters == KeptReemitters(old(reemitters), track, signal, registered)
        && events == old(events) + Reemitted(old(reemitters), track, signal, registered)
      ensures signal == Ended ==>
        && |subMaps| == old(|subMaps|)
        && (forall g :: 0 <= g < |subMaps| ==> subMaps[g] == old(subMaps)[g] - {track})
        && endedListeners == EndedExcept(old(endedListeners), track)
      ensures signal != Ended ==> subMaps == old(subMaps) && endedListeners == old(endedListeners)
      ensures tracks == old(tracks) && audioTracks == old(audioTracks) && videoTracks == old(videoTracks)
      ensures mediaStreams == old(mediaStreams) && attachments == old(attachments)
      ensures addedListeners == old(addedListeners) && removedListeners == old(removedListeners)
      ensures nextElement == old(nextElement)
    {
      var registered := track.id in (if track.kind == Audio then audioTracks else videoTracks);
      RunReemitters(track, signal, registered);
      if signal == Ended {
        DetachEndedTrack(track);
      }
    }

    /** The `'ended'` half of `TrackSignal`: its one-shot listeners drop the track from every sub-map. */
    method DetachEndedTrack(track: Track)
      requires AttachmentsValid()
      modifies this`subMaps, this`endedListeners
      ensures AttachmentsValid()
      ensures |subMaps| == old(|subMaps|) && forall g :: 0 <= g < |subMaps| ==> subMaps[g] == old(subMaps)[g] - {track}
      ensures endedListeners == EndedExcept(old(endedListeners), track)
    {
      EndedKeepsAttachmentsValid(tracks, attachments, subMaps, nextElement, addedListeners, removedListeners,
                                 endedListeners, track);
      RunEnded(track);
    }

    /** The re-emitting handlers of `_reemitTrackEvent` for `signal`, in subscription order. */
    method RunReemitters(track: Track, signal: Signal, registered: bool)
      modifies this`reemitters, this`events
      ensures reemitters == KeptReemitters(old(reemitters), track, signal, registered)
      ensures events == old(events) + Reemitted(old(reemitters), track, signal, registered)
    {
      var handlers := reemitters;
      var kept: seq<Reemitter> := [];
      var i := 0;
      while i < |handlers|
        invariant 0 <= i <= |handlers|
        invariant kept == KeptReemitters(handlers[..i], track, signal, registered)
        invariant events == old(events) + Reemitted(handlers[..i], track, signal, registered)
      {
        var h := handlers[i];
        assert handlers[..i + 1][..i] == handlers[..i];
        if Handles(h, track, signal) {
          if !registered {
            // the handler unsubscribes itself
          } else {
            events := events + [SessionEvent(h.event, track)];
            kept := kept + [h];
          }
        } else {
          kept := kept + [h];
        }
        i := i + 1;
      }
      assert handlers[..|handlers|] == handlers;
      reemitters := kept;
    }

    /** The one-shot `'ended'` listeners of `_attachTrack`, in subscription order. */
    method RunEnded(track: Track)
      requires forall i :: 0 <= i < |endedListeners| ==> endedListeners[i].subMap < |subMaps|
      modifies this`subMaps, this`endedListeners
      ensures subMaps == DetachEnded(old(subMaps), old(endedListeners), track)
      ensures endedListeners == EndedExcept(old(endedListeners), track)
    {
      var listeners := endedListeners;
      var remaining: seq<EndedListener> := [];
      var j := 0;
      while j < |listeners|
        invariant 0 <= j <= |listeners|
        invariant remaining == EndedExcept(listeners[..j], track)
        invariant subMaps == DetachEnded(old(subMaps), listeners[..j], track)
      {
        var l := listeners[j];
        assert listeners[..j + 1][..j] == listeners[..j];
        DetachEndedEffect(old(subMaps), listeners[..j], track, 0);
        if l.track == track {
          DetachTrack(l.subMap, track);
        } else {
          remaining := remaining + [l];
        }
        j := j + 1;
      }
      assert listeners[..|listeners|] == listeners;
      endedListeners := remaining;
    }

    /**
     * `_attach`: an attached surface is returned as it is; otherwise a new
     * sub-map renders every registered track, the `trackAdded` and
     * `trackRemoved` listeners are subscribed, and the surface is recorded.
     */
    method Attach(el: Surface) returns (r: Surface)
      requires Valid()
      modifies this
      ensures Valid() && r == el
      ensures old(el in attachments) ==> unchanged(this)
      ensures old(el !in attachments) ==>
        && attachments == old(attachments)[el := old(|subMaps|)]
        && |subMaps| == old(|subMaps|) + 1 && subMaps[..old(|subMaps|)] == old(subMaps)
        && subMaps[attachments[el]].Keys == (set id | id in tracks :: tracks[id])
        && (forall t :: t in subMaps[attachments[el]] ==> old(nextElement) <= subMaps[attachments[el]][t])
        && old(nextElement) <= nextElement
        && old(|endedListeners|) <= |endedListeners| && endedListeners[..old(|endedListeners|)] == old(endedListeners)
        && (forall i :: old(|endedListeners|) <= i < |endedListeners| ==> endedListeners[i].subMap == attachments[el])
        && addedListeners == old(addedListeners) + [SurfaceListener(el, attachments[el])]
        && removedListeners == old(removedListeners) + [SurfaceListener(el, attachments[el])]
        && tracks == old(tracks) && audioTracks == old(audioTracks) && videoTracks == old(videoTracks)
        && mediaStreams == old(mediaStreams) && events == old(events) && reemitters == old(reemitters)
    {
      if el in attachments {
        return el;
      }
      AttachNew(el);
      r := el;
    }

    /** `_attach` for a surface not yet attached: a fresh sub-map rendering every registered track, and its two listeners. */
    method AttachNew(el: Surface)
      requires Valid() && el !in attachments
      modifies this`subMaps, this`nextElement, this`endedListeners, this`addedListeners, this`removedListeners,
               this`attachments
      ensures Valid()
      ensures attachments == old(attachments)[el := old(|subMaps|)]
      ensures |subMaps| == old(|subMaps|) + 1 && subMaps[..old(|subMaps|)] == old(subMaps)
      ensures subMaps[attachments[el]].Keys == (set id | id in tracks :: tracks[id])
      ensures forall t :: t in subMaps[attachments[el]] ==> old(nextElement) <= subMaps[attachments[el]][t]
      ensures old(nextElement) <= nextElement
      ensures old(|endedListeners|) <= |endedListeners| && endedListeners[..old(|endedListeners|)] == old(endedListeners)
      ensures forall i :: old(|endedListeners|) <= i < |endedListeners| ==> endedListeners[i].subMap == attachments[el]
      ensures addedListeners == old(addedListeners) + [SurfaceListener(el, attachments[el])]
      ensures removedListeners == old(removedListeners) + [SurfaceListener(el, attachments[el])]
    {
      ghost var maps0, next0, ended0 := subMaps, nextElement, endedListeners;
      var g := RenderNewSubMap();
      AttachKeepsAttachmentsValid(tracks, attachments, maps0, next0, addedListeners, removedListeners, ended0,
                                  el, subMaps[g], nextElement, endedListeners);
      addedListeners := addedListeners + [SurfaceListener(el, g)];
      removedListeners := removedListeners + [SurfaceListener(el, g)];
      attachments := attachments[el := g];
      assert attachments[el] == g && RegistryValid();
    }

    /** The new sub-map of `_attach`, appended to the others and rendering every registered track. */
    method RenderNewSubMap() returns (g: nat)
      requires RegistryValid()
      modifies this`subMaps, this`nextElement, this`endedListeners
      ensures g == old(|subMaps|) && |subMaps| == g + 1 && subMaps == old(subMaps) + [subMaps[g]]
      ensures subMaps[g].Keys == (set id | id in tracks :: tracks[id])
      ensures forall t :: t in subMaps[g] ==> t.id in tracks && tracks[t.id] == t
      ensures forall t :: t in subMaps[g] ==> old(nextElement) <= subMaps[g][t] < nextElement
      ensures forall t :: t in subMaps[g] ==> EndedListener(t, g) in endedListeners
      ensures old(nextElement) <= nextElement
      ensures old(|endedListeners|) <= |endedListeners| && endedListeners[..old(|endedListeners|)] == old(endedListeners)
      ensures forall i :: old(|endedListeners|) <= i < |endedListeners| ==> endedListeners[i].subMap == g
    {
      g := |subMaps|;
      subMaps := subMaps + [map[]];
      RenderRegistered(g);
      assert subMaps == old(subMaps) + [subMaps[g]];
    }

    /** The `this.tracks.forEach(_attachTrack)` loop of `_attach`: render every registered track into sub-map `g`. */
    method RenderRegistered(g: nat)
      requires RegistryValid() && g < |subMaps| && subMaps[g] == map[]
      modifies this`subMaps, this`nextElement, this`endedListeners
      ensures |subMaps| == old(|subMaps|)
      ensures forall h :: 0 <= h < |subMaps| && h != g ==> subMaps[h] == old(subMaps)[h]
      ensures subMaps[g].Keys == (set id | id in tracks :: tracks[id])
      ensures forall t :: t in subMaps[g] ==> t.id in tracks && tracks[t.id] == t
      ensures forall t :: t in subMaps[g] ==> old(nextElement) <= subMaps[g][t] < nextElement
      ensures forall t :: t in subMaps[g] ==> EndedListener(t, g) in endedListeners
      ensures old(nextElement) <= nextElement
      ensures old(|endedListeners|) <= |endedListeners| && endedListeners[..old(|endedListeners|)] == old(endedListeners)
      ensures forall i :: old(|endedListeners|) <= i < |endedListeners| ==> endedListeners[i].subMap == g
    {
      var pending := tracks.Keys;
      while pending != {}
        invariant pending <= tracks.Keys
        invariant |subMaps| == old(|subMaps|)
        invariant forall h :: 0 <= h < |subMaps| && h != g ==> subMaps[h] == old(subMaps)[h]
        invariant subMaps[g].Keys == (set id | id in tracks && id !in pending :: tracks[id])
        invariant forall t :: t in subMaps[g] ==> old(nextElement) <= subMaps[g][t] < nextElement
        invariant forall t :: t in subMaps[g] ==> EndedListener(t, g) in endedListeners
        invariant old(nextElement) <= nextElement
        invariant old(|endedListeners|) <= |endedListeners| && endedListeners[..old(|endedListeners|)] == old(endedListeners)
        invariant forall i :: old(|endedListeners|) <= i < |endedListeners| ==> endedListeners[i].subMap == g
        decreases pending
      {
        var id :| id in pending;
        AttachTrack(g, tracks[id]);
        pending := pending - {id};
      }
    }

    /**
     * `attach`: a selector is resolved with `select` (the document's
     * `querySelector`) and must match; no argument attaches the freshly
     * created container `created`; a surface is attached as given.
     */
    method AttachTo(target: Target, select: string -> Option<Surface>, created: Surface) returns (r: Result<Surface>)
      requires Valid()
      modifies this
      ensures Valid()
      ensures target.Selector? && select(target.query).None? ==> r == Err(NotFound(target.query)) && unchanged(this)
      ensures target.Selector? && select(target.query).Some? ==> r == Ok(select(target.query).value)
      ensures target.NoContainer? ==> r == Ok(created)
      ensures target.Container? ==> r == Ok(target.surface)
      ensures r.Ok? ==> r.value in attachments && attachments == old(attachments)[r.value := attachments[r.value]]
      ensures r.Ok? && old(r.value in attachments) ==> unchanged(this)
      ensures r.Ok? && old(r.value !in attachments) ==>
        var el := r.value;
        && attachments == old(attachments)[el := old(|subMaps|)]
        && |subMaps| == old(|subMaps|) + 1 && subMaps[..old(|subMaps|)] == old(subMaps)
        && subMaps[attachments[el]].Keys == (set id | id in tracks :: tracks[id])
        && (forall t :: t in subMaps[attachments[el]] ==> old(nextElement) <= subMaps[attachments[el]][t])
        && old(nextElement) <= nextElement
        && old(|endedListeners|) <= |endedListeners| && endedListeners[..old(|endedListeners|)] == old(endedListeners)
        && (forall i :: old(|endedListeners|) <= i < |endedListeners| ==> endedListeners[i].subMap == attachments[el])
        && addedListeners == old(addedListeners) + [SurfaceListener(el, attachments[el])]
        && removedListeners == old(removedListeners) + [SurfaceListener(el, attachments[el])]
        && tracks == old(tracks) && audioTracks == old(audioTracks) && videoTracks == old(videoTracks)
        && mediaStreams == old(mediaStreams) && events == old(events) && reemitters == old(reemitters)
    {
      var el: Surface;
      match target {
        case Selector(query) =>
          var found := select(query);
          if found.None? {
            return Err(NotFound(query));
          }
          el := found.value;
        case NoContainer =>
          el := created;
        case Container(surface) =>
          el := surface;
      }
      var attached := Attach(el);
      r := Ok(attached);
    }

    /**
     * `_detachContainer`: an unknown surface is returned as it is;
     * otherwise it is forgotten and every rendering of its sub-map dropped.
     */
    method DetachContainer(el: Surface) returns (r: Surface)
      requires Valid()
      modifies this
      ensures Valid() && r == el
      ensures old(el !in attachments) ==> unchanged(this)
      ensures old(el in attachments) ==>
        && attachments == old(attachments) - {el}
        && subMaps == old(subMaps)[old(attachments)[el] := map[]]
        && tracks == old(tracks) && audioTracks == old(audioTracks) && videoTracks == old(videoTracks)
        && mediaStreams == old(mediaStreams) && events == old(events) && reemitters == old(reemitters)
        && nextElement == old(nextElement) && endedListeners == old(endedListeners)
        && addedListeners == old(addedListeners) && removedListeners == old(removedListeners)
    {
      if el !in attachments {
        return el;
      }
      var g := attachments[el];
      DetachContainerKeepsAttachmentsValid(tracks, attachments, subMaps, nextElement, addedListeners,
                                           removedListeners, endedListeners, el);
      attachments := attachments - {el};
      DetachAll(g);
      r := el;
    }

    /** The `attachments.forEach(_detachTrack)` loop of `_detachContainer`: empty sub-map `g`. */
    method DetachAll(g: nat)
      requires g < |subMaps|
      modifies this`subMaps
      ensures subMaps == old(subMaps)[g := map[]]
    {
      var pending := subMaps[g].Keys;
      while pending != {}
        invariant |subMaps| == old(|subMaps|)
        invariant forall h :: 0 <= h < |subMaps| && h != g ==> subMaps[h] == old(subMaps)[h]
        invariant subMaps[g].Keys == pending
        decreases pending
      {
        var t :| t in pending;
        DetachTrack(g, t);
        pending := pending - {t};
      }
      assert subMaps[g] == map[];
      assert subMaps == old(subMaps)[g := map[]];
    }

    /** `_detachContainers`: `_detachContainer` on each surface in turn. */
    method DetachContainers(els: seq<Surface>) returns (rs: seq<Surface>)
      requires Valid()
      modifies this
      ensures Valid() && rs == els
      ensures forall p :: p in attachments <==> p in old(attachments) && p !in els
      ensures forall p :: p in attachments ==> attachments[p] == old(attachments)[p]
      ensures |subMaps| == old(|subMaps|)
      ensures forall p :: p in old(attachments) && p in els ==> subMaps[old(attachments)[p]] == map[]
      ensures forall p :: p in old(attachments) && p !in els ==> subMaps[old(attachments)[p]] == old(subMaps)[old(attachments)[p]]
      ensures tracks == old(tracks) && audioTracks == old(audioTracks) && videoTracks == old(videoTracks)
      ensures mediaStreams == old(mediaStreams) && events == old(events) && reemitters == old(reemitters)
      ensures nextElement == old(nextElement) && endedListeners == old(endedListeners)
      ensures addedListeners == old(addedListeners) && removedListeners == old(removedListeners)
    {
      rs := [];
      var i := 0;
      while i < |els|
        invariant 0 <= i <= |els| && rs == els[..i]
        invariant Valid()
        invariant forall p :: p in attachments <==> p in old(attachments) && p !in els[..i]
        invariant forall p :: p in attachments ==> attachments[p] == old(attachments)[p]
        invariant |subMaps| == old(|subMaps|)
        invariant forall p :: p in old(attachments) && p in els[..i] ==> subMaps[old(attachments)[p]] == map[]
        invariant forall p :: p in old(attachments) && p !in els[..i] ==> subMaps[old(attachments)[p]] == old(subMaps)[old(attachments)[p]]
        invariant tracks == old(tracks) && audioTracks == old(audioTracks) && videoTracks == old(videoTracks)
        invariant mediaStreams == old(mediaStreams) && events == old(events) && reemitters == old(reemitters)
        invariant nextElement == old(nextElement) && endedListeners == old(endedListeners)
        invariant addedListeners == old(addedListeners) && removedListeners == old(removedListeners)
      {
        assert els[..i + 1] == els[..i] + [els[i]];
        var r := DetachContainer(els[i]);
        rs := rs + [r];
        i := i + 1;
      }
      assert els[..|els|] == els;
    }

    /** `_getAllAttachedContainers`: every attached surface, once each. */
    method GetAllAttachedContainers() returns (els: seq<Surface>)
      ensures forall p :: p in els <==> p in attachments
      ensures forall i, j :: 0 <= i < j < |els| ==> els[i] != els[j]
    {
      els := [];
      var pending := attachments.Keys;
      while pending != {}
        invariant pending <= attachments.Keys
        invariant forall p :: p in els <==> p in attachments && p !in pending
        invariant forall i, j :: 0 <= i < j < |els| ==> els[i] != els[j]
        decreases pending
      {
        var p :| p in pending;
        els := els + [p];
        pending := pending - {p};
      }
    }

    /**
     * `detach`: a selector is resolved with `select` and must match; no
     * argument detaches every attached surface and returns them all; a
     * surface is detached as given.  The result is the one surface when the
     * argument was truthy, the array otherwise.
     */
    method Detach(target: Target, select: string -> Option<Surface>) returns (r: Result<Detached>)
      requires Valid()
      modifies this
      ensures Valid()
      ensures target.Selector? && select(target.query).None? ==> r == Err(NotFound(target.query)) && unchanged(this)
      ensures target.Selector? && select(target.query).Some? ==>
        var el := select(target.query).value;
        && attachments == old(attachments) - {el}
        && r == Ok(if target.query == "" then All([el]) else One(el))
      ensures target.Container? ==> attachments == old(attachments) - {target.surface} && r == Ok(One(target.surface))
      ensures target.NoContainer? ==>
        && attachments == map[]
        && r.Ok? && r.value.All?
        && (forall p :: p in r.value.surfaces <==> p in old(attachments))
        && (forall i, j :: 0 <= i < j < |r.value.surfaces| ==> r.value.surfaces[i] != r.value.surfaces[j])
      ensures |subMaps| == old(|subMaps|)
      ensures forall p :: p in old(attachments) && p !in attachments ==> subMaps[old(attachments)[p]] == map[]
      ensures forall p :: p in attachments ==>
        attachments[p] == old(attachments)[p] && subMaps[attachments[p]] == old(subMaps)[attachments[p]]
      ensures tracks == old(tracks) && audioTracks == old(audioTracks) && videoTracks == old(videoTracks)
      ensures mediaStreams == old(mediaStreams) && events == old(events) && reemitters == old(reemitters)
      ensures nextElement == old(nextElement) && endedListeners == old(endedListeners)
      ensures addedListeners == old(addedListeners) && removedListeners == old(removedListeners)
    {
      var els: seq<Surface>;
      match target {
        case Selector(query) =>
          var found := select(query);
          if found.None? {
            return Err(NotFound(query));
          }
          els := [found.value];
        case NoContainer =>
          els := GetAllAttachedContainers();
        case Container(surface) =>
          els := [surface];
      }
      assert target.NoContainer? || |els| == 1;
      var _ := DetachContainers(els);
      var truthy := match target
        case Selector(query) => query != ""
        case Container(_) => true
        case NoContainer => false;
      r := Ok(if truthy then One(els[0]) else All(els));
    }

    /** The ids one stream reports (`mediaStream.getTracks()`), collected one by one. */
    method StreamTrackIds(report: StreamTracks) returns (ids: set<TrackId>)
      ensures ids == IdsOf(report)
    {
      var all := report.audio + report.video;
      ids := {};
      var i := 0;
      while i < |all|
        invariant 0 <= i <= |all|
        invariant ids == InfoIds(all[..i])
      {
        assert all[..i + 1][..i] == all[..i];
        ids := ids + {all[i].id};
        i := i + 1;
      }
      assert all[..i] == all;
    }

    /** The `trackIds` set `_refreshTracks` starts from: every id reported by a stream of `mediaStreams`. */
    method ReportedTrackIds(reported: map<StreamId, StreamTracks>) returns (ids: set<TrackId>)
      ensures ids == ReportedIds(reported, mediaStreams)
    {
      ids := {};
      var pending := mediaStreams;
      while pending != {}
        invariant pending <= mediaStreams
        invariant ids == ReportedIds(reported, mediaStreams - pending)
        decreases pending
      {
        var s :| s in pending;
        var streamIds := StreamTrackIds(ReportOf(reported, s));
        ReportedIdsInsert(reported, mediaStreams - pending, s);
        assert mediaStreams - (pending - {s}) == (mediaStreams - pending) + {s};
        ids := ids + streamIds;
        pending := pending - {s};
      }
      assert mediaStreams - pending == mediaStreams;
    }

    /**
     * `_addRemoteStream`: a track of the stream's kind is created for every
     * reported audio, then every reported video track, and each is added;
     * an id already registered keeps its registered track.
     */
    method AddRemoteStream(stream: StreamId, report: StreamTracks)
      requires Valid()
      modifies this
      ensures Valid()
      ensures tracks.Keys == old(tracks).Keys + IdsOf(report)
      ensures Extends(old(tracks), tracks)
      ensures forall id :: id in tracks && id !in old(tracks) ==> fresh(tracks[id]) && tracks[id].stream == stream
      ensures old(mediaStreams) <= mediaStreams <= old(mediaStreams) + {stream}
      ensures attachments == old(attachments)
      ensures RendersAdded(attachments, old(subMaps), subMaps, old(tracks), tracks)
      ensures old(events) <= events
    {
      AddReported(stream, report.audio, Audio);
      ghost var between, betweenMaps := tracks, subMaps;
      AddReported(stream, report.video, Video);
      RendersAddedTransitive(attachments, old(subMaps), betweenMaps, subMaps, old(tracks), between, tracks);
      ExtendsTransitive(old(tracks), between, tracks);
      InfoIdsAppend(report.audio, report.video);
    }

    /** One `forEach` of `_addRemoteStream`: add a track of `kind` for each reported track in order. */
    method AddReported(stream: StreamId, infos: seq<TrackInfo>, kind: Kind)
      requires Valid()
      modifies this
      ensures Valid()
      ensures tracks.Keys == old(tracks).Keys + InfoIds(infos)
      ensures Extends(old(tracks), tracks)
      ensures forall id :: id in tracks && id !in old(tracks) ==>
        fresh(tracks[id]) && tracks[id].stream == stream && tracks[id].kind == kind
      ensures old(mediaStreams) <= mediaStreams <= old(mediaStreams) + {stream}
      ensures attachments == old(attachments)
      ensures RendersAdded(attachments, old(subMaps), subMaps, old(tracks), tracks)
      ensures old(events) <= events
    {
      var i := 0;
      RendersAddedNone(attachments, subMaps, tracks);
      while i < |infos|
        invariant 0 <= i <= |infos|
        invariant Valid()
        invariant tracks.Keys == old(tracks).Keys + InfoIds(infos[..i])
        invariant Extends(old(tracks), tracks)
        invariant forall id :: id in tracks && id !in old(tracks) ==>
          fresh(tracks[id]) && tracks[id].stream == stream && tracks[id].kind == kind
        invariant old(mediaStreams) <= mediaStreams <= old(mediaStreams) + {stream}
        invariant attachments == old(attachments)
        invariant RendersAdded(attachments, old(subMaps), subMaps, old(tracks), tracks)
        invariant old(events) <= events
      {
        AddReportedNext(stream, infos, i, kind, old(tracks), old(subMaps), old(mediaStreams), old(events));
        i := i + 1;
      }
      assert infos[..i] == infos;
    }

    /** One pass of the loop of `AddReported`: the `i`-th reported track is added, and the loop's facts carry over. */
    method AddReportedNext(stream: StreamId, infos: seq<TrackInfo>, i: nat, kind: Kind,
                           ghost tracks0: map<TrackId, Track>, ghost maps0: seq<map<Track, Element>>,
                           ghost streams0: set<StreamId>, ghost events0: seq<SessionEvent>)
      requires i < |infos| && Valid()
      requires tracks.Keys == tracks0.Keys + InfoIds(infos[..i]) && Extends(tracks0, tracks)
      requires streams0 <= mediaStreams <= streams0 + {stream}
      requires RendersAdded(attachments, maps0, subMaps, tracks0, tracks)
      requires events0 <= events
      modifies this
      ensures Valid()
      ensures tracks.Keys == tracks0.Keys + InfoIds(infos[..i + 1]) && Extends(tracks0, tracks)
      ensures Extends(old(tracks), tracks)
      ensures infos[i].id !in old(tracks) ==>
        var track := tracks[infos[i].id];
        fresh(track) && track.stream == stream && track.kind == kind
      ensures tracks.Keys == old(tracks).Keys + {infos[i].id}
      ensures streams0 <= mediaStreams <= streams0 + {stream}
      ensures attachments == old(attachments)
      ensures RendersAdded(attachments, maps0, subMaps, tracks0, tracks)
      ensures events0 <= events
    {
      ghost var before, beforeMaps, beforeEvents := tracks, subMaps, events;
      AddReportedTrack(stream, infos[i], kind);
      RendersAddedTransitive(attachments, maps0, beforeMaps, subMaps, tracks0, before, tracks);
      ExtendsTransitive(tracks0, before, tracks);
      InfoIdsSnoc(infos, i);
      PrefixTransitive(events0, beforeEvents, events);
    }

    /**
     * The callback of that `forEach`: the track factory of `kind` builds a
     * track from the stream and the reported track, and `_addTrack` adds it.
     */
    method AddReportedTrack(stream: StreamId, info: TrackInfo, kind: Kind)
      requires Valid()
      modifies this
      ensures Valid()
      ensures tracks.Keys == old(tracks).Keys + {info.id}
      ensures Extends(old(tracks), tracks)
      ensures info.id !in old(tracks) ==>
        var track := tracks[info.id];
        fresh(track) && track.stream == stream && track.kind == kind && track.isEnabled == info.enabled
      ensures old(mediaStreams) <= mediaStreams <= old(mediaStreams) + {stream}
      ensures attachments == old(attachments)
      ensures RendersAdded(attachments, old(subMaps), subMaps, old(tracks), tracks)
      ensures old(events) <= events
    {
      var track := new Track(info.id, kind, stream, info.enabled);
      AddTrack(track);
      if info.id in old(tracks) {
        RendersAddedNone(attachments, subMaps, tracks);
      } else {
        RendersAddedTrack(attachments, old(subMaps), subMaps, old(tracks), track);
      }
    }

    /**
     * `_refreshTracks`: collect the ids the current streams report, remove
     * every registered track whose id is not among them, ask every stream
     * still backing a track for its tracks, and recompute the stream set.
     */
    method RefreshTracks(reported: map<StreamId, StreamTracks>)
      requires Valid()
      modifies this
      ensures Valid()
      ensures var ids := ReportedIds(reported, old(mediaStreams));
        var kept := Restrict(old(tracks), ids);
        && tracks.Keys == kept.Keys + ReportedIds(reported, StreamsOf(kept))
        && Extends(kept, tracks)
        && tracks.Keys <= ids
      ensures mediaStreams == StreamsOf(tracks)
      ensures mediaStreams <= old(mediaStreams)
      ensures attachments == old(attachments)
      ensures RendersRefreshed(attachments, old(subMaps), subMaps, ReportedIds(reported, old(mediaStreams)),
                               old(tracks), tracks)
      ensures old(events) <= events
    {
      ghost var maps0: seq<map<Track, Element>>, tracks0: map<TrackId, Track> := subMaps, tracks;
      assert forall p, t :: p in attachments && 0 <= attachments[p] < |maps0| && t in maps0[attachments[p]] ==>
        t.id in tracks0;
      var trackIds := ReportedTrackIds(reported);
      RemoveUnreported(trackIds);
      ghost var kept, keptMaps, keptEvents, keptStreams := tracks, subMaps, events, mediaStreams;
      assert kept == Restrict(tracks0, trackIds) && keptStreams == StreamsOf(kept) && keptStreams <= old(mediaStreams);
      RefreshedIdsReported(reported, tracks0, trackIds);
      AddRemoteStreams(reported);
      assert Extends(kept, tracks) && tracks.Keys == kept.Keys + ReportedIds(reported, StreamsOf(kept));
      assert tracks.Keys <= trackIds;
      assert mediaStreams == keptStreams && mediaStreams == StreamsOf(tracks);
      var _ := UpdateMediaStreams();
      PrefixTransitive(old(events), keptEvents, events);
      RendersRefreshedOf(attachments, maps0, keptMaps, subMaps, trackIds, tracks0, kept, tracks);
    }

    /** `this.mediaStreams.forEach(this._addRemoteStream, this)`: every stream adds the tracks it reports. */
    method AddRemoteStreams(reported: map<StreamId, StreamTracks>)
      requires Valid()
      modifies this
      ensures Valid()
      ensures tracks.Keys == old(tracks).Keys + ReportedIds(reported, old(mediaStreams))
      ensures Extends(old(tracks), tracks)
      ensures mediaStreams == old(mediaStreams)
      ensures attachments == old(attachments)
      ensures RendersAdded(attachments, old(subMaps), subMaps, old(tracks), tracks)
      ensures old(events) <= events
    {
      var streams := mediaStreams;
      RendersAddedNone(attachments, subMaps, tracks);
      var pending := streams;
      ghost var done: set<StreamId> := {};
      while pending != {}
        invariant pending <= streams && done == streams - pending && (pending == {} ==> done == streams)
        invariant Valid()
        invariant mediaStreams == streams
        invariant tracks.Keys == old(tracks).Keys + ReportedIds(reported, done)
        invariant Extends(old(tracks), tracks)
        invariant attachments == old(attachments)
        invariant RendersAdded(attachments, old(subMaps), subMaps, old(tracks), tracks)
        invariant old(events) <= events
        decreases pending
      {
        var s :| s in pending;
        ghost var before, beforeMaps := tracks, subMaps;
        AddRemoteStream(s, ReportOf(reported, s));
        RendersAddedTransitive(attachments, old(subMaps), beforeMaps, subMaps, old(tracks), before, tracks);
        SetSqueeze(streams, mediaStreams, s);
        AddStreamStep(old(tracks).Keys, before.Keys, tracks.Keys, reported, done, s);
        ExtendsTransitive(old(tracks), before, tracks);
        SetStep(streams, pending, done, s);
        done := done + {s};
        pending := pending - {s};
      }
    }

    /** The removal pass of `_refreshTracks`: every registered track goes through `RemoveIfUnreported`. */
    method RemoveUnreported(ids: set<TrackId>)
      requires Valid()
      modifies this
      ensures Valid()
      ensures tracks == Restrict(old(tracks), ids)
      ensures mediaStreams <= old(mediaStreams)
      ensures attachments == old(attachments)
      ensures RendersKept(attachments, old(subMaps), subMaps, tracks.Keys)
      ensures old(events) <= events
    {
      var pending := tracks.Keys;
      RendersKeptNone(attachments, subMaps, tracks);
      while pending != {}
        invariant pending <= tracks.Keys
        invariant Valid()
        invariant tracks == Restrict(old(tracks), ids + pending)
        invariant mediaStreams <= old(mediaStreams)
        invariant attachments == old(attachments)
        invariant RendersKept(attachments, old(subMaps), subMaps, tracks.Keys)
        invariant old(events) <= events
        decreases pending
      {
        var id :| id in pending;
        RemoveUnreportedNext(id, ids, pending, old(tracks), old(subMaps), old(mediaStreams), old(events));
        pending := pending - {id};
      }
      assert ids + pending == ids;
    }

    /** One pass of the removal pass: the registered track of `id` goes through `RemoveIfUnreported`. */
    method RemoveUnreportedNext(id: TrackId, ids: set<TrackId>, pending: set<TrackId>,
                                ghost tracks0: map<TrackId, Track>, ghost maps0: seq<map<Track, Element>>,
                                ghost streams0: set<StreamId>, ghost events0: seq<SessionEvent>)
      requires Valid() && id in pending && pending <= tracks.Keys
      requires tracks == Restrict(tracks0, ids + pending)
      requires mediaStreams <= streams0
      requires RendersKept(attachments, maps0, subMaps, tracks.Keys)
      requires events0 <= events
      modifies this
      ensures Valid() && pending - {id} <= tracks.Keys
      ensures tracks == Restrict(tracks0, ids + (pending - {id}))
      ensures mediaStreams <= streams0
      ensures attachments == old(attachments)
      ensures RendersKept(attachments, maps0, subMaps, tracks.Keys)
      ensures events0 <= events
    {
      ghost var before, registered, beforeEvents := subMaps, tracks, events;
      RemoveIfUnreported(tracks[id], ids);
      RendersKeptTransitive(attachments, maps0, before, subMaps, registered.Keys, tracks.Keys);
      PendingStep(ids, pending, id);
      PrefixTransitive(events0, beforeEvents, events);
    }

    /** The callback of the removal pass: `_removeTrack(track)` unless its id is in `ids`. */
    method RemoveIfUnreported(track: Track, ids: set<TrackId>)
      requires Valid() && track.id in tracks && tracks[track.id] == track
      modifies this
      ensures Valid()
      ensures tracks == if track.id in ids then old(tracks) else old(tracks) - {track.id}
      ensures mediaStreams <= old(mediaStreams)
      ensures attachments == old(attachments)
      ensures |subMaps| == old(|subMaps|)
      ensures forall g :: 0 <= g < |subMaps| ==>
                subMaps[g] == if track.id in ids then old(subMaps)[g] else old(subMaps)[g] - {track}
      ensures RendersKept(attachments, old(subMaps), subMaps, tracks.Keys)
      ensures old(events) <= events
    {
      RendersKeptNone(attachments, subMaps, tracks);
      if track.id !in ids {
        RemoveTrack(track);
        StreamsOfSubmap(tracks, old(tracks));
        RendersKeptRemove(attachments, old(subMaps), old(subMaps), subMaps, old(tracks).Keys, old(tracks), track);
      }
    }
  }

  /**
   * `attach(el)`, `detach(el)`, `attach(el)` on a new Media: the surface is
   * attached with its second sub-map, and the listeners of both sub-maps are
   * subscribed.
   */
  method Reattach(el: Surface) returns (m: Media)
    ensures fresh(m) && m.Valid() && m.tracks == map[]
    ensures m.attachments == map[el := 1] && m.subMaps == [map[], map[]]
    ensures m.addedListeners == [SurfaceListener(el, 0), SurfaceListener(el, 1)]
    ensures m.removedListeners == [SurfaceListener(el, 0), SurfaceListener(el, 1)]
  {
    m := new Media();
    var _ := m.Attach(el);
    var _ := m.DetachContainer(el);
    var _ := m.Attach(el);
    assert m.subMaps[1] == map[];
    assert m.subMaps == [map[], map[]];
  }

  /**
   * `_addTrack` after `Reattach(el)`.  `written` is what the `trackAdded`
   * listeners do with the guard as written on the same state: the stale
   * listener of the first sub-map renders the track there too, in a sub-map
   * no surface owns.  The class, with the intended guard, leaves that
   * sub-map empty.
   */
  method ReattachThenAdd(el: Surface, track: Track) returns (m: Media, written: Rendering)
    ensures m.Valid()
    ensures m.attachments == map[el := 1] && |m.subMaps| == 2
    ensures m.subMaps[0] == map[] && track in m.subMaps[1]
    ensures |written.maps| == 2 && track in written.maps[0] && track in written.maps[1]
    ensures !SurfacesValid(m.attachments, written.maps, written.kept, m.removedListeners)
  {
    m := Reattach(el);
    StaleRenderAfterReattach(el, track, m.nextElement, m.endedListeners);
    written := RenderThroughAsWritten(Rendering(m.subMaps, m.nextElement, m.endedListeners, []), m.addedListeners,
                                      m.attachments, track);
    m.AddTrack(track);
  }
}
