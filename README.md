# twilio-conversations.js: the Media registry and the util helpers, in Dafny

This project models two parts of twilio-conversations.js.

**The `Media` object** (`lib/media/index.js`) is modelled as the class `Media.Media`. It holds:

- a registry of audio and video tracks, keyed by id;
- the two per-kind maps that partition the registry;
- the set of streams backing the registered tracks;
- the re-emission of every track's own signals as session events;
- the attachment of the tracks to rendering surfaces. Each attached surface has its own map from track to rendered element.

Event emission is explicit state. `events` logs the session events emitted so far. Every listener the source subscribes is an entry of a listener sequence, in subscription order:

- `reemitters`: the handlers of `_reemitTrackEvent`;
- `addedListeners` and `removedListeners`: the `trackAdded` and `trackRemoved` listeners of `_attach`;
- `endedListeners`: the one-shot `'ended'` listeners of `_attachTrack`.

Emitting an event is a loop over its listeners. A listener that unsubscribes itself leaves its sequence.

The sub-maps created by `_attach` live in `subMaps`, indexed by a handle. `attachments` maps each surface to the handle of its sub-map. The model keeps a separate sub-map heap because a listener keeps its reference to its sub-map after the surface is detached.

The `trackAdded` and `trackRemoved` listeners of `_attach` run in the class with a corrected guard, `MediaModel.Live`: a listener acts only while its surface is attached with the listener's own sub-map. The guard as written, `MediaModel.LiveAsWritten`, only asks whether the surface is attached; it is modelled by `MediaModel.RenderThroughAsWritten` and `MediaModel.DetachThroughAsWritten` (see Findings).

Every state-changing method preserves the invariant `Valid()`:

- `RegistryValid`: the kind maps partition `tracks`, every entry sits under its own id, and `mediaStreams` is exactly the set of streams of the registered tracks.
- `MediaModel.SurfacesValid`: each attached surface has its own sub-map and both of its listeners.
- `MediaModel.RenderingsValid`: a sub-map of an attached surface renders only registered tracks. Every rendering has its `'ended'` listener and an element handle already handed out.

Tracks are objects (`MediaModel.Track`). Their id, kind and stream are constants and `isEnabled` is mutable. Streams, surfaces and rendered elements are opaque handles. Element handles come from a counter, so every rendering gets a new one.

**The helpers of `lib/util/index.js`** each get a module:

- `ObjectMerge`: `withDefaults` and `extend`. Objects are `Dict` instances whose properties are reassigned in place.
- `ArrayOverwrite`: `overwriteArray`.
- `IceServers`: `separateIceServers`, `getStunServers` and `getTurnServers`.
- `ObjectPath`: `getOrNull`, over a small JSON-like value type with JavaScript truthiness.
- `Base64Url`: the padding and alphabet step of `decodeBase64URL` (section 5 of RFC 4648).
- `ContactHeader`: `parseConversationSIDFromContactHeader`. Its regular expression `/<sip:(.*)@(.*)$/` is written out as a leftmost, greedy match. Because `.` matches no line terminator and `$` is the end of the input, a match lies on the last line.

`Wrappers` holds `Option` and `Result`.

The model follows the code where the code's own comments promise more. `_reemitTrackEvent` removes a handler only lazily, on the first signal after its track left the registry. The code comment says a signal should be re-emitted only once. A track that is added, removed and added again before it signals therefore has its signals re-emitted twice (`MediaModel.ReaddedTrackReemitsTwice`). After a track's first addition, each signal is re-emitted exactly once (`MediaModel.ReemittedOnceAfterAdd`).

`_refreshTracks` asks only the streams that still back a track after its removal pass. A stream whose tracks were all removed is dropped and never asked again.

## Model

| member | source | states |
|---|---|---|
| Media.Media.constructor | lib/media/index.js:41-102 | A new Media has no tracks, no kind entries, no streams, no attachments or sub-maps, no listeners of any kind, no events and an element counter at 0, and satisfies the invariant |
| Media.Media.IsMuted | lib/media/index.js:68-77 | `isMuted` is true iff every track in `audioTracks` is disabled, so it is true when there is none |
| Media.Media.IsPaused | lib/media/index.js:78-87 | `isPaused` is true iff every track in `videoTracks` is disabled, so it is true when there is none |
| Media.Media.UpdateMediaStreams | lib/media/index.js:126-133 | After the clear-and-refill loop, `mediaStreams` is exactly the set of streams of the registered tracks, and that set is returned |
| Media.Media.AddTrack | lib/media/index.js:135-158 | A known id changes nothing and emits nothing. A new track goes into `tracks` under its id and into the map of its own kind only, and its stream joins `mediaStreams`. Its five re-emit handlers are subscribed and `trackAdded` is logged once. Every attached surface then renders it with a new element, and, under the corrected guard, other sub-maps stay unchanged. The `trackAdded` listeners, element counter, `'ended'` listeners and sub-maps are exactly `RenderThrough` of the old ones; the `trackRemoved` listeners are unchanged. The invariant is preserved |
| Media.Media.AddNewTrack | lib/media/index.js:140-155 | `_addTrack` for a new id: registry, kind map, stream set, handlers and log as in `AddTrack`, with the listener state given by `RenderThrough` and the invariant preserved |
| Media.Media.RegisterTrack | lib/media/index.js:140-153 | The registry half of `_addTrack`: registry, kind map, stream set and the five handlers are updated, keeping the registry invariant |
| Media.Media.ReemitTrackEvents | lib/media/index.js:143-147 | The five `_reemitTrackEvent` calls append exactly `ReemitHandlers(track)` |
| Media.Media.ReemitTrackEvent | lib/media/index.js:160-172 | Subscribing appends exactly one handler for the given track, signal and event |
| Media.Media.TrackSignal | lib/media/index.js:163-170 | When a track emits a signal, each matching handler re-emits while the id is in its kind map, and otherwise unsubscribes and emits nothing. On `'ended'` the track's renderings are dropped from every sub-map and its one-shot listeners are consumed. The registry and attachments are untouched and the invariant is preserved |
| Media.Media.RunReemitters | lib/media/index.js:163-170 | The handler loop leaves exactly `KeptReemitters` subscribed and appends exactly `Reemitted` to the event log |
| Media.Media.RefreshTracks | lib/media/index.js:180-195 | Let `ids` be the ids reported by the streams at the start. Every track whose id is outside `ids` is removed, and the others are kept with the same objects. The registered ids become the kept ones plus those reported by the streams still backing a kept track. No registered id lies outside `ids`. `mediaStreams` again equals the streams of the registered tracks and can only have shrunk. Attachments are unchanged. Every attached surface keeps exactly its renderings of tracks whose id is in `ids`, with their elements, and renders exactly the newly registered tracks besides (`RendersRefreshed`) |
| Media.Media.ReportedTrackIds | lib/media/index.js:181-186 | The collected `trackIds` is exactly the set of ids reported by the streams in `mediaStreams` |
| Media.Media.StreamTrackIds | lib/media/index.js:183-185 | The ids collected from one stream are exactly the ids it reports |
| Media.Media.RemoveUnreported | lib/media/index.js:187-191 | After the removal pass, `tracks` is exactly the old registry restricted to `ids`, and the invariant holds. Every attached surface keeps exactly its renderings of the tracks still registered, with their elements (`RendersKept`) |
| Media.Media.RemoveIfUnreported | lib/media/index.js:187-191 | A track whose id is in `ids` is kept and every sub-map is unchanged; any other track is removed and dropped from every sub-map |
| Media.Media.AddRemoteStreams | lib/media/index.js:192 | Asking every stream for its tracks adds exactly the ids those streams report and keeps every registered entry. The stream set does not change. Every attached surface keeps its renderings and elements and renders exactly the newly registered tracks besides (`RendersAdded`) |
| Media.Media.AddRemoteStream | lib/media/index.js:114-124 | The registered ids grow by exactly the stream's reported ids. Existing entries keep their objects, and every new track is new and belongs to this stream. The renderings grow as for `AddRemoteStreams` |
| Media.Media.AddReported | lib/media/index.js:115-122 | One kind's loop adds exactly the listed ids, as new tracks of that kind and stream. The renderings grow as for `AddRemoteStreams` |
| Media.Media.AddReportedTrack | lib/media/index.js:116-117 | One callback registers the id. A new id gets a new track with the reported kind, stream and enabled flag, rendered on every attached surface; the other renderings keep their elements |
| MediaModel.RendersAddedTrack | lib/media/index.js:155 | One `trackAdded` of a new id, which adds the track to every attached surface's sub-map, is a `RendersAdded` step: the old renderings keep their elements, since none of them is the new track |
| MediaModel.RendersAddedTransitive | lib/media/index.js:114-124 | Two runs of additions over growing registries compose into one |
| MediaModel.RendersKeptRemove | lib/media/index.js:304-310 | One `trackRemoved` of a registered track, which drops it from every sub-map, keeps exactly the renderings of the other ids, since an attached surface renders only registered tracks |
| MediaModel.RendersKeptTransitive | lib/media/index.js:187-191 | Two runs of removals compose into one that keeps the renderings of the ids the second keeps |
| MediaModel.RendersRefreshedOf | lib/media/index.js:180-195 | The removal pass followed by the additions gives `RendersRefreshed`: kept are the renderings whose id is still reported, added exactly the tracks newly registered |
| Media.Media.AttachTrack | lib/media/index.js:201-210 | The track gets the next element in the given sub-map, overwriting any previous entry, and one `'ended'` listener is subscribed for that sub-map |
| Media.Media.DetachTrack | lib/media/index.js:212-223 | With no entry this is a no-op. Otherwise exactly that entry leaves that sub-map and nothing else changes |
| Media.Media.RemoveTrack | lib/media/index.js:225-234 | An absent id changes nothing. Otherwise only that id leaves `tracks` and its kind map, and `mediaStreams` is recomputed. `trackRemoved` is logged once and the track's rendering leaves every sub-map. Only the live `trackRemoved` listeners stay subscribed; the `trackAdded` and `'ended'` listeners and the element counter are unchanged. The invariant is preserved |
| Media.Media.UnregisterTrack | lib/media/index.js:229-231 | The registry half of `_removeTrack`: only that id leaves `tracks` and the kind maps, and the registry invariant is kept |
| Media.Media.EmitTrackAdded | lib/media/index.js:295-302 | Emitting `trackAdded` logs it and folds the listeners through `RenderThrough`, which keeps the attachment invariant for the enlarged registry |
| Media.Media.RunTrackAdded | lib/media/index.js:295-302 | The listener loop produces exactly `RenderThrough` of the listeners. Live listeners render and stay subscribed; dead ones unsubscribe |
| Media.Media.EmitTrackRemoved | lib/media/index.js:304-310 | Emitting `trackRemoved` logs it and leaves only the live listeners subscribed. It removes the track from every sub-map and keeps the attachment invariant for the smaller registry |
| Media.Media.RunTrackRemoved | lib/media/index.js:304-310 | The listener loop produces exactly `DetachThrough` of the listeners and keeps `LiveOnly` of them |
| Media.Media.RunEnded | lib/media/index.js:206-208 | The one-shot `'ended'` listeners of the track detach it from their sub-maps and are consumed; the other listeners remain |
| Media.Media.AttachTo | lib/media/index.js:257-279 | A selector that matches nothing is the error `NotFound` with no change. Otherwise the resolved, created or given surface is returned. An already attached surface changes nothing. A new one gets a new sub-map holding exactly the registered tracks with new elements and its two listeners, and the registry, log and other attachments are kept. The element counter only grows, and the old `'ended'` listeners stay first, followed only by listeners of the new sub-map |
| Media.Media.Attach | lib/media/index.js:281-314 | An attached surface is returned and nothing changes. A new one gets a new sub-map whose keys are exactly the registered tracks, each with a new element. Its two listeners are subscribed and it is recorded. The element counter only grows, and the old `'ended'` listeners stay first, followed only by listeners of the new sub-map. The registry and event log are untouched |
| Media.Media.AttachNew | lib/media/index.js:286-313 | The new-surface branch of `_attach`, with the same postconditions and the invariant |
| Media.Media.RenderRegistered | lib/media/index.js:290-292 | The sub-map is filled with exactly the registered tracks, each with a new element and an `'ended'` listener for it. Other sub-maps stay unchanged |
| Media.Media.DetachContainer | lib/media/index.js:355-369 | An unknown surface is returned unchanged. A known one leaves `attachments` and its sub-map becomes empty, and other surfaces and sub-maps are untouched |
| Media.Media.DetachAll | lib/media/index.js:364-366 | The `forEach(_detachTrack)` loop empties exactly that sub-map |
| Media.Media.DetachContainers | lib/media/index.js:351-353 | Exactly the given surfaces leave `attachments` and their sub-maps become empty. All other surfaces keep their sub-maps, the registry, log, listeners and element counter are unchanged, and the surfaces are returned |
| Media.Media.GetAllAttachedContainers | lib/media/index.js:371-379 | Every attached surface is returned, once each |
| Media.Media.Detach | lib/media/index.js:336-349 | A selector that matches nothing is the error `NotFound`. A surface or selector detaches that one surface and returns it. No argument returns every previously attached surface, without repeats, and leaves `attachments` empty. Detached sub-maps are emptied. Every surface still attached keeps its sub-map, and the registry, log, listeners and element counter are unchanged |
| MediaModel.Track.constructor | lib/media/index.js:116-121 | A track created by a factory carries the reported id, its kind, its stream and the enabled flag |
| MediaModel.KindsPartition | lib/media/index.js:149-153 | Every registered id is in exactly one kind map, the one of its own kind |
| MediaModel.StreamsOfInsert | lib/media/index.js:140-142 | Registering a new track adds exactly its stream to the stream set |
| MediaModel.StreamsOfSubmap | lib/media/index.js:126-133 | Fewer tracks never back more streams |
| MediaModel.OfKindInsert | lib/media/index.js:149-153 | Registering updates the map of its own kind and leaves the other kind's map unchanged |
| MediaModel.OfKindRemove | lib/media/index.js:229-230 | Unregistering an id removes it from both kind maps and changes nothing else |
| MediaModel.ReemitAfterRemoval | lib/media/index.js:166-168 | Once the id has left its kind map, a signal re-emits nothing, and exactly the handlers for that track and signal unsubscribe |
| MediaModel.ReemitWhileRegistered | lib/media/index.js:169 | While registered, every handler stays and one event per matching handler is emitted, all for that track |
| MediaModel.CountHandlingAppend | lib/media/index.js:160-172 | Matching handlers of two subscription runs add up |
| MediaModel.AddedHandlersOnePerSignal | lib/media/index.js:143-147 | `_addTrack` subscribes exactly one handler per signal |
| MediaModel.CountHandlingPositive | lib/media/index.js:160-172 | A subscribed handler for the track and signal is counted |
| MediaModel.ReemittedOnceAfterAdd | lib/media/index.js:143-147 | Right after a track is added for the first time, each of its signals is re-emitted exactly once, as the matching session event |
| MediaModel.ReemittedFrom | lib/media/index.js:169 | Every re-emitted event comes from a subscribed handler for that track and signal |
| MediaModel.ReaddedTrackReemitsTwice | lib/media/index.js:164-165 | A track that is added, removed and added again without signalling in between has two handlers per signal, so each signal is re-emitted twice |
| MediaModel.LiveOnly | lib/media/index.js:297-299 | The listeners kept after an event are exactly the live ones |
| MediaModel.TargetsSnoc | lib/media/index.js:295-310 | A listener appended after others adds its sub-map to the targets exactly when it is live |
| MediaModel.TargetsAreAttached | lib/media/index.js:295-312 | When every attached surface has its listener, the sub-maps reached are exactly those of the attached surfaces |
| MediaModel.RenderThroughSnoc | lib/media/index.js:295-302 | Running one more `trackAdded` listener is one more `RenderStep` |
| MediaModel.RenderThroughTotals | lib/media/index.js:295-302 | A `trackAdded` run keeps the live listeners and hands out one element per live listener. It subscribes one `'ended'` listener per live listener, in order |
| MediaModel.RenderThroughEffect | lib/media/index.js:295-302 | A `trackAdded` run leaves untargeted sub-maps alone. In a targeted sub-map it adds only the track, with an element from this run |
| MediaModel.DetachThroughEffect | lib/media/index.js:304-310 | A `trackRemoved` run removes the track from exactly the targeted sub-maps |
| MediaModel.EndedFor | lib/media/index.js:206-208 | One `'ended'` listener is subscribed per rendering listener |
| MediaModel.EndedForIndex | lib/media/index.js:206-208 | The i-th `'ended'` listener belongs to the i-th live listener's sub-map |
| MediaModel.EndedForMember | lib/media/index.js:206-208 | Every live listener's sub-map gets an `'ended'` listener for the track |
| MediaModel.EndedExcept | lib/media/index.js:206 | After `'ended'` fires, exactly the listeners of other tracks remain |
| MediaModel.DetachEndedEffect | lib/media/index.js:206-208 | `'ended'` removes the track from exactly the sub-maps that have an `'ended'` listener for it |
| MediaModel.RenderThroughAttached | lib/media/index.js:295-302 | With every attached surface subscribed, `trackAdded` renders the track into the sub-map of every attached surface, with a new element, and changes no other sub-map |
| MediaModel.RenderKeepsSurfacesValid | lib/media/index.js:295-302 | `trackAdded` keeps every attached surface's sub-map and listeners |
| MediaModel.RenderKeepsRenderingsValid | lib/media/index.js:295-302 | `trackAdded` of a newly registered track keeps every rendering registered, with its `'ended'` listener and a handed-out element |
| MediaModel.RenderKeepsAttachmentsValid | lib/media/index.js:155 | `_addTrack`'s emission keeps the attachment invariant |
| MediaModel.DetachKeepsAttachmentsValid | lib/media/index.js:232 | `_removeTrack`'s emission keeps the attachment invariant and removes the track from every sub-map |
| MediaModel.EndedKeepsAttachmentsValid | lib/media/index.js:206-208 | A track's `'ended'` keeps the attachment invariant and removes the track from every sub-map |
| MediaModel.AttachKeepsAttachmentsValid | lib/media/index.js:286-313 | Attaching a new surface with a fully rendered sub-map keeps the attachment invariant |
| MediaModel.DetachContainerKeepsAttachmentsValid | lib/media/index.js:355-369 | Detaching a surface and emptying its sub-map keeps the attachment invariant |
| MediaModel.StaleRenderAfterReattach | lib/media/index.js:295-309 | After a surface is attached, detached and attached again, the listeners as written render a new track into both sub-maps. The first sub-map is owned by no surface, so `SurfacesValid` fails. Emptying the surface's current sub-map, as `detach` does, leaves that rendering; only `trackRemoved` drops it |
| MediaModel.ReattachRendersCurrentOnly | lib/media/index.js:295-309 | The same run with the corrected guard renders into the current sub-map alone, unsubscribes the stale listener and keeps `SurfacesValid` |
| Media.Reattach | lib/media/index.js:286-313 | `attach(el)`, `detach(el)`, `attach(el)` on a new Media leaves the surface on its second sub-map, both sub-maps empty, and the listeners of both sub-maps subscribed |
| Media.ReattachThenAdd | lib/media/index.js:135-158 | After `Reattach`, the class renders a new track into the current sub-map only, while the listeners as written put it into the orphaned sub-map too, which breaks `SurfacesValid` |
| MediaModel.InfoIdsAppend | lib/media/index.js:115-122 | The ids of a stream's audio and video lists together are the ids of each |
| MediaModel.ReportedIdsInsert | lib/media/index.js:182-186 | Collecting one more stream adds exactly that stream's reported ids |
| MediaModel.Restrict | lib/media/index.js:187-191 | The kept registry holds exactly the registered ids that are in the reported set, with their tracks |
| MediaModel.RefreshedIdsReported | lib/media/index.js:187-192 | Only streams still backing a track are asked again, so every id registered after a refresh was reported at its start |
| ObjectMerge.Dict.constructor | lib/util/index.js:120-128 | A new object holds exactly the given properties |
| ObjectMerge.Defaults | lib/util/index.js:129-137 | `_withDefaults` keeps every destination key and value, and adds each source key the destination lacks, with the source's value |
| ObjectMerge.Extend | lib/util/index.js:148-154 | `_extend` keeps the destination's other keys and gives every source key the source's value |
| ObjectMerge.SourceKeysMember | lib/util/index.js:120-154 | A key is contributed iff some source has it |
| ObjectMerge.DefaultsAllKeys | lib/util/index.js:120-137 | After `withDefaults`, the keys are the destination's plus every source's |
| ObjectMerge.DefaultsAllKeepsDest | lib/util/index.js:129-137 | `withDefaults` never overwrites a key the destination already has |
| ObjectMerge.DefaultsAllFirstSourceWins | lib/util/index.js:120-137 | A key missing from the destination takes the value of the first source that has it |
| ObjectMerge.ExtendAllKeys | lib/util/index.js:139-154 | After `extend`, the keys are the destination's plus every source's |
| ObjectMerge.ExtendAllLastSourceWins | lib/util/index.js:139-154 | A key takes the value of the last source that has it |
| ObjectMerge.ExtendAllKeepsDest | lib/util/index.js:148-154 | A destination key that no source has keeps its value |
| ObjectMerge.Contributions | lib/util/index.js:120-147 | There is one property map per source, taken from the objects as they are before merging |
| ObjectMerge.WithDefaultsFrom | lib/util/index.js:129-137 | The in-place `for…in` copy of `_withDefaults` leaves exactly `Defaults(destination, source)` |
| ObjectMerge.ExtendFrom | lib/util/index.js:148-154 | The in-place `for…in` copy of `_extend` leaves exactly `Extend(destination, source)` |
| ObjectMerge.WithDefaults | lib/util/index.js:120-128 | `withDefaults` fills the given destination, or a new object when there is none, with `DefaultsAll` of the sources, and returns it |
| ObjectMerge.ExtendWith | lib/util/index.js:139-147 | `extend` fills the given destination, or a new object when there is none, with `ExtendAll` of the sources, and returns it |
| ArrayOverwrite.JsArray.constructor | lib/util/index.js:278-283 | A new array holds exactly the given items |
| ArrayOverwrite.OverwriteArray | lib/util/index.js:278-283 | With distinct arrays, the old array ends with exactly the new array's elements in order, and the new array is unchanged. With one array passed twice, it ends empty |
| IceServers.Separate | lib/util/index.js:156-187 | A missing list separates into two empty lists. No entry lands in both lists, so there are at most as many results as entries. Each TURN descriptor carries one URL |
| IceServers.EntriesCount | lib/util/index.js:165-175 | No entry is both STUN and TURN, so the two selections together are no longer than the input |
| IceServers.BeforeFirst | lib/util/index.js:165-175 | The part before the first given character is a prefix without that character, and is followed by it when shorter than the input |
| IceServers.StunEntries | lib/util/index.js:166-172 | Only `stun`/`stuns` entries are selected |
| IceServers.TurnEntries | lib/util/index.js:173-182 | Only `turn`/`turns` entries are selected |
| IceServers.EntriesAppend | lib/util/index.js:161-184 | Selection distributes over concatenation, so input order is kept |
| IceServers.SeparateAppend | lib/util/index.js:161-184 | The two result lists of a concatenation are the concatenated results |
| IceServers.SeparateOne | lib/util/index.js:161-184 | One entry gives its truncated URL for STUN, its descriptor for TURN, and nothing for other schemes or without `url` |
| IceServers.StunServersOrigin | lib/util/index.js:166-172 | Every STUN result comes from a STUN entry and contains no `'?'` |
| IceServers.StunEntriesFrom | lib/util/index.js:166-172 | Every selected entry is one of the input entries |
| IceServers.SeparateIceServers | lib/util/index.js:156-187 | The push loop produces exactly `Separate` of the input. A missing list gives two empty lists |
| IceServers.GetStunServers | lib/util/index.js:189-191 | `getStunServers` is exactly the `stunServers` field of the separation |
| IceServers.GetTurnServers | lib/util/index.js:193-195 | `getTurnServers` is exactly the `turnServers` field of the separation |
| ObjectPath.GetOrNull | lib/util/index.js:231-236 | `getOrNull` is the nested lookup along the path's segments when every value met before a segment is truthy, and null otherwise |
| ObjectPath.Split | lib/util/index.js:231-236 | Splitting at `'.'` gives at least one part, none containing the separator |
| ObjectPath.JoinConsHead | lib/util/index.js:231-236 | A character prepended to the first part is prepended to the joined path |
| ObjectPath.JoinSplit | lib/util/index.js:231-236 | Joining the parts of a split gives the path back |
| ObjectPath.SplitJoin | lib/util/index.js:231-236 | Splitting a join of separator-free parts gives the parts back |
| ObjectPath.SplitNoSeparator | lib/util/index.js:231-236 | A path without a dot is one step |
| ObjectPath.SplitPrefix | lib/util/index.js:231-236 | A dotted path's first step is the text before the first dot |
| ObjectPath.WalkAppend | lib/util/index.js:232-235 | Walking two step lists is walking one and then the other |
| ObjectPath.WalkFromFalsy | lib/util/index.js:232-234 | Once the current value is falsy, any further step gives null |
| ObjectPath.WalkCharacterization | lib/util/index.js:231-236 | The walk is the plain lookup when every intermediate value is truthy, even if the final value is falsy, and null otherwise |
| ObjectPath.GetOrNullOfFalsy | lib/util/index.js:231-236 | A falsy object gives null for every path |
| ObjectPath.GetOrNullDotted | lib/util/index.js:231-236 | `getOrNull(obj, "a.rest")` is `getOrNull` of `rest` from `obj["a"]` |
| Base64Url.Pad | lib/util/index.js:34-38 | The padded text starts with the input, adds fewer than four `'='` and has a length that is a multiple of 4 |
| Base64Url.Normalize | lib/util/index.js:33-42 | The normalised text is the padded text with each character mapped onto the standard alphabet |
| Base64Url.Padding | lib/util/index.js:35-37 | The padding is exactly n `'='` characters |
| Base64Url.ReplaceAll | lib/util/index.js:39-41 | Every occurrence of the character is replaced and nothing else changes |
| Base64Url.NormalizeShape | lib/util/index.js:33-42 | The padded length is a multiple of 4 with at most 3 added, and is unchanged when the length is already a multiple of 4. Every `'-'` becomes `'+'` and every `'_'` becomes `'/'`, so none remain |
| Base64Url.NormalizeIdempotent | lib/util/index.js:33-42 | Normalising twice is normalising once |
| ContactHeader.ParseConversationSid | lib/util/index.js:219-222 | A parsed SID contains no line terminator and fits, with `"<sip:"` and `'@'`, inside the header |
| ContactHeader.LastLineStart | lib/util/index.js:219-222 | The start of the last line: no line terminator after it, and one just before it |
| ContactHeader.FindOpen | lib/util/index.js:219-222 | The first `"<sip:"` at or after a position, or none |
| ContactHeader.LastAt | lib/util/index.js:219-222 | The last `'@'`, or none |
| ContactHeader.ParseIsLeftmostGreedyMatch | lib/util/index.js:219-222 | The parse is null iff the pattern matches nowhere. Otherwise it is the capture of the leftmost match, extended to the last `'@'` on the same line |

## Left out

- DOM work is left out: element creation, `querySelector`, `appendChild`/`removeChild`, and `track.attach()`/`track.detach()`. Surfaces and elements are opaque handles, and a new element handle comes from a counter. `querySelector` is the resolver parameter `select`, and `document.createElement('div')` is the `created` parameter of `AttachTo`.
- Media.Media.AttachTo: `querySelector("")` throws in a browser. The model leaves that to the resolver, so an empty selector that resolves attaches the resolved surface.
- Media.Media.Detach: `querySelector("")` throws in a browser. The model leaves that to the resolver, so an empty selector that resolves returns the array form, as the `el ? els[0] : els` expression gives.
- Media.Media.AddTrack: runs the corrected listener guard `MediaModel.Live`, not the source's `attachments.has(el)`. After `attach(el)`, `detach(el)`, `attach(el)`, the source also renders a new track into the orphaned sub-map; "other sub-maps stay unchanged" holds only for the corrected guard (see Findings).
- Media.Media.AddNewTrack: runs the corrected listener guard, as for `AddTrack`.
- Media.Media.EmitTrackAdded: runs the corrected listener guard, so a stale `trackAdded` listener unsubscribes where the source's renders.
- Media.Media.RunTrackAdded: runs the corrected listener guard, so a stale `trackAdded` listener unsubscribes where the source's renders.
- Media.Media.RemoveTrack: runs the corrected listener guard. As written, a stale `trackRemoved` listener of a re-attached surface also drops the track from its orphaned sub-map (`MediaModel.DetachThroughAsWritten`).
- Media.Media.EmitTrackRemoved: runs the corrected listener guard, as for `RemoveTrack`.
- Media.Media.RunTrackRemoved: runs the corrected listener guard, as for `RemoveTrack`.
- Node's `EventEmitter` is modelled only as listener sequences run in subscription order. Listener-count warnings, `once` wrapper objects and the relative order of listeners on different events are not modelled. The last one has no effect on the modelled state.
- The `Track`, `AudioTrack` and `VideoTrack` classes are not part of this model. A track is an id, a kind, a stream and an enabled flag. Its signals are delivered through `Media.Media.TrackSignal`.
- The track factories of `_addRemoteStream` are modelled only as building a track from the stream and the reported id, kind and enabled flag.
- The tracks a stream reports (`getTracks`, `getAudioTracks`, `getVideoTracks`) are an input map from stream to its audio and video lists. A stream missing from the map reports nothing.
- Map and Set iteration order is not modelled. Loops over `tracks`, `mediaStreams` and a sub-map pick any remaining key, so every contract holds for every order. `GetAllAttachedContainers` returns the surfaces in some order.
- Media.Media.RemoveTrack: requires that a registered id is removed through the registered track object. `_refreshTracks` always does so, and the source would otherwise detach the wrong object's renderings.
- Media.Media.RefreshTracks: the events it logs are stated only as "the old log is a prefix". Its effect on the listener sequences, the re-emitters and the element counter is stated only through the invariant `Valid()`; its effect on sub-maps is stated for attached surfaces, whose orphaned sub-maps the invariant keeps empty.
- Media.Media.RemoveUnreported and Media.Media.RemoveIfUnreported: the listener sequences and the re-emitters are stated only through the invariant `Valid()`; `RemoveTrack` states them exactly.
- Media.Media.AddReportedTrack, Media.Media.AddReported, Media.Media.AddRemoteStream and Media.Media.AddRemoteStreams: the listener sequences, the re-emitters and the element counter are stated only through the invariant `Valid()`; `AddTrack` states them exactly.
- Media.Media.AddRemoteStream, Media.Media.AddReported and Media.Media.AddRemoteStreams: the contents of the event log are stated only as "the old log is a prefix". The enabled flag of a new track is stated only by `AddReportedTrack`.
- These util functions are not part of this model: `getSDKVersion`, `makeSystemInfo`, `makeUUID`, `selectTokenHeader`, `makeRegisterHeaders`, `makeSIPURI`, `getUser`, `validateAddresses`, `promiseFromEvents`, `defer` and `parseUserAgent`. They depend on the environment, randomness, JSON and base64 built-ins, unseen constants and parsers, Promises or regex-engine semantics.
- ObjectMerge.WithDefaultsFrom: objects hold only their own properties. The source's `key in destination` also sees inherited properties, so `withDefaults({}, {constructor: 1})` leaves `{}` where the model adds `constructor`. The source's `for…in` also enumerates inherited enumerable properties of the source.
- ObjectMerge.WithDefaults: inherits the own-property reading of `WithDefaultsFrom`. A `null` or `undefined` source, which the source's `for…in` skips, cannot be expressed, because every source is an object.
- ObjectMerge.ExtendFrom: the `for…in` of `_extend` also enumerates inherited enumerable properties of the source; the model copies own properties only.
- ObjectMerge.ExtendWith: inherits the own-property reading of `ExtendFrom`, and cannot express a `null` or `undefined` source.
- ObjectPath.GetOrNull: a lookup reads an object's own properties only. The source's `output[step]` also reads inherited members and string properties, such as `toString` or `s.length`, where the model gives `undefined`.
- IceServers.SeparateIceServers: a `null` entry (a TypeError at `iceServer.url`, lib/util/index.js:161) and a truthy `url` that is not a string (a TypeError at `.split`, lib/util/index.js:164) cannot be expressed, because every entry is a record and every `url` an optional string.
- The base64 decode itself (`atob`/`Buffer`) in `decodeBase64URL` is a foreign call, so only the normalisation before it is modelled.
- `ContactHeader.ParseConversationSid` assumes the JavaScript definition of a line terminator (LF, CR, U+2028, U+2029) for `.`. Strings are sequences of characters, not UTF-16 code units.

## Findings

| source | as written | input that shows it | evidently intended | confidence | as-written member | corrected member |
|---|---|---|---|---|---|---|
| lib/media/index.js:295-309 | The `trackAdded` and `trackRemoved` listeners of `_attach` only check `attachments.has(el)`. | `attach(el)`, `detach(el)`, `attach(el)`, then a new track. The first listeners pass the check again and render the track into the orphaned first sub-map, an element that no later `detach(el)` removes. | A listener stops when its surface is detached, so it also checks that the surface's current sub-map is its own. | not executed | MediaModel.RenderThroughAsWritten, MediaModel.StaleRenderAfterReattach, Media.ReattachThenAdd | MediaModel.Live, MediaModel.ReattachRendersCurrentOnly, MediaModel.RenderKeepsSurfacesValid, Media.Media.AddTrack |
