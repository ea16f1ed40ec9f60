# Pad-playback bookkeeping of the drum-pad AudioEngine

The `AudioEngine` of the soundmakers percussion app plays eight short sound
clips on eight pads. Under the Web Audio calls it keeps a small amount of
state, and that state is what this project models:

- `initialized`, and whether an audio context exists;
- which pads have a decoded buffer (`buffers`), filled by the load loop over
  the eight files `one` … `eight`;
- `activeSources`, the source node each pad is currently tracking;
- `padModes`, one-shot (`true`) or touch (`false`) per pad.

The operations are `init`, `loadSounds`, `playSound`, `stopSound`,
`isPlaying`, `panic`, `setPadMode` and `getPadMode`, plus the `onended`
callback that each source node runs when it finishes. Their interplay is the
interesting part: a one-shot pad ignores stop requests, so re-triggering it
replaces the tracked node without stopping the old one; the end callback only
removes an entry that still holds its own node, so a superseded node ending
leaves the newer entry alone; and `panic`, which goes through `stopSound`,
leaves one-shot pads playing.

Two files:

- `pad_model.dfy`, module `PadModel`: the engine state as a value (`State`),
  every operation and event as a transition function, and the lemmas that
  relate them. Source nodes are abstracted as integer ids drawn from a
  counter (`nextHandle`), so the identity test in the end callback stays
  meaningful. Calls to a node's `stop()` are recorded in a trace
  (`stopCalls`) so that "which sounds were cut off" can be stated. `Valid`
  is the invariant of every reachable state: buffers only for pads 0..7,
  only pads with a buffer are tracked, tracked ids were issued and are
  pairwise distinct, nothing is tracked before initialisation.
- `audio_engine.dfy`, module `Engine`: class `AudioEngine` with the source's
  fields, updated in place. Each method is proved to perform exactly the
  matching `PadModel` transition and to keep `Valid`; `LoadSounds` and
  `Panic` keep the source's loops.

Inputs the engine gets from outside become parameters: the result of
fetching and decoding each file is a `LoadOutcome` (one per file), and the
end of playback is the call `SourceEnded(pad, node)`.

## Model

| member | source | states |
|---|---|---|
| Engine.AudioEngine.constructor | src/lib/AudioEngine.js:2-8 | a new engine has no context, is not initialized, and has no buffers, tracked sources or pad modes |
| Engine.AudioEngine.Init | src/lib/AudioEngine.js:11-36 | the engine's new state is `PadModel.Init` of the old one, and the invariant is kept |
| PadModel.Init | src/lib/AudioEngine.js:11-36 | once initialized, init changes nothing; otherwise afterwards a context exists, the engine is initialized and exactly the pads whose file loaded have gained a buffer; tracked sources and modes are untouched |
| Engine.AudioEngine.LoadSounds | src/lib/AudioEngine.js:38-69 | the loop performs the per-file load steps in file order; the invariant is kept |
| PadModel.LoadOne | src/lib/AudioEngine.js:45-65 | one pass of the load loop: pad n has a buffer afterwards exactly when it had one or the file loaded with an audio context present; no other pad's buffer and nothing else changes |
| PadModel.LoadEach | src/lib/AudioEngine.js:41-66 | the load loop over the files in order only adds buffers, only for pads numbered below the count of files, and changes nothing but the buffers |
| PadModel.LoadEachAddsLoaded | src/lib/AudioEngine.js:41-66 | the load loop adds a buffer for exactly the files that loaded, none without an audio context, and changes nothing else |
| PadModel.LoadSoundsPerFile | src/lib/AudioEngine.js:39-66 | with eight files, buffers are only created for pads 0..7, a failed file leaves its pad as it was, and every file that loaded gets its buffer whatever happened to the others |
| PadModel.LoadEachKeepsValid | src/lib/AudioEngine.js:39-66 | loading at most eight files keeps the invariant |
| Engine.AudioEngine.PlaySound | src/lib/AudioEngine.js:71-106 | the engine's new state is `PadModel.Play` of the old one, and the invariant is kept |
| PadModel.Play | src/lib/AudioEngine.js:71-106 | not ready: nothing changes; ready with a buffer: the pad tracks the fresh id and plays; no buffer: the result is exactly that of stopSound, so no entry is added and a touch pad stops playing; other pads' entries never change; the stop calls are exactly those of the preceding stopSound: a one-shot pad's old node is not stopped, a touch pad's old node is, and a pad with nothing playing stops nothing |
| PadModel.PlayIssuesFreshHandle | src/lib/AudioEngine.js:88-93 | the node a successful playSound tracks differs from every node tracked before |
| PadModel.OneShotRetrigger | src/lib/AudioEngine.js:78-101 | re-triggering a playing one-shot pad stops nothing, tracks a different node, and the old node's end callback then leaves the new entry |
| Engine.AudioEngine.SourceEnded | src/lib/AudioEngine.js:96-101 | the engine's new state is `PadModel.Ended` of the old one, and the invariant is kept |
| PadModel.Ended | src/lib/AudioEngine.js:96-101 | the pad's entry is removed exactly when it still holds the ending node; otherwise nothing changes; only the entries map ever changes |
| PadModel.SupersededEndKeepsNewer | src/lib/AudioEngine.js:93-101 | the end of any node issued before a successful playSound leaves that playSound's entry in place |
| PadModel.EndOfCurrentNode | src/lib/AudioEngine.js:93-101 | when the node playSound started ends, the pad no longer plays and the other pads' entries are as before the playSound |
| PadModel.EndOfUnissuedNode | src/lib/AudioEngine.js:96-101 | an end event for an id never issued changes nothing |
| Engine.AudioEngine.StopSound | src/lib/AudioEngine.js:108-125 | the engine's new state is `PadModel.Stop` of the old one, and the invariant is kept |
| PadModel.Stop | src/lib/AudioEngine.js:108-125 | a one-shot pad: no change at all; a touch pad: key removed, every other key unchanged, the pad no longer plays, and its tracked node, if any, is stopped; nothing but entries and stop calls changes |
| PadModel.IsPlaying | src/lib/AudioEngine.js:128-130 | a pad plays exactly when it has a tracked source node (definition; used by the contracts of Play, Stop and Ended) |
| Engine.AudioEngine.IsPlaying | src/lib/AudioEngine.js:128-130 | returns whether the pad has a tracked source node |
| Engine.AudioEngine.Panic | src/lib/AudioEngine.js:133-138 | the loop over the snapshot of keys performs `PadModel.Panic`; the invariant is kept |
| PadModel.Panic | src/lib/AudioEngine.js:133-138 | stopSound on each tracked pad of the key snapshot, in ascending key order: only entries and stop calls change, no entry is added, every one-shot entry stays with its node, and no touch pad among 0..7 is left playing |
| PadModel.PadsFrom | src/lib/AudioEngine.js:135 | the key snapshot lists exactly the tracked pads in 0..7, in ascending order (the enumeration order of integer keys) |
| PadModel.StopEach | src/lib/AudioEngine.js:135-137 | stopping a list of pads changes no mode, buffer, flag or counter, only removes entries, only appends to the stop calls, and keeps the invariant |
| PadModel.StopEachEffect | src/lib/AudioEngine.js:135-137 | stopping the pads of a list one after the other removes exactly its touch pads and stops exactly the nodes those pads tracked |
| PadModel.StopEachTrackedKeepsOneShot | src/lib/AudioEngine.js:135-137 | stopping every tracked pad leaves exactly the one-shot entries |
| PadModel.StopEachTrackedStopsTouchNodes | src/lib/AudioEngine.js:135-137 | stopping every tracked pad stops exactly the touch pads' nodes |
| PadModel.DistinctNodesSpareOneShot | src/lib/AudioEngine.js:110-113 | stopping exactly the touch pads' nodes stops no node a one-shot pad is playing |
| PadModel.PanicKeepsOnlyOneShot | src/lib/AudioEngine.js:133-138 | after panic the entries are exactly the earlier one-shot entries, untouched, so every playing pad is one-shot; modes and buffers are unchanged; stop was called on exactly the touch pads' nodes and on no one-shot node |
| PadModel.StopEachOnlyOneShotIsIdentity | src/lib/AudioEngine.js:110-113 | when every tracked pad is one-shot, stopping any list of pads changes nothing |
| PadModel.PanicIsIdempotent | src/lib/AudioEngine.js:133-138 | a second panic straight after the first changes nothing |
| PadModel.StopEachExtend | src/lib/AudioEngine.js:135-137 | one more forEach step is one more stopSound |
| Engine.AudioEngine.SetPadMode | src/lib/AudioEngine.js:141-144 | the engine's new state is `PadModel.SetPadMode` of the old one, and the invariant is kept |
| PadModel.SetPadMode | src/lib/AudioEngine.js:141-144 | afterwards getPadMode of that pad is the value set, every other pad's mode is as before, and nothing but the modes changes |
| PadModel.GetPadMode | src/lib/AudioEngine.js:147-149 | the stored mode of a pad, false when none was stored (definition; used by the mode lemmas) |
| Engine.AudioEngine.GetPadMode | src/lib/AudioEngine.js:147-149 | returns the pad's mode as getPadMode defines it (false when never set) |
| PadModel.LastModeFor | src/lib/AudioEngine.js:141-149 | the last setPadMode value for a pad is absent exactly when no call named the pad, and otherwise comes from a call after which no call named the pad |
| PadModel.GetPadModeIsLastSet | src/lib/AudioEngine.js:141-149 | after any series of setPadMode calls, getPadMode of a pad is the last value set for it, or its earlier mode when none; nothing but the modes changes |
| PadModel.NeverSetIsTouch | src/lib/AudioEngine.js:147-149 | a pad whose mode was never set is in touch mode |
| PadModel.ModeUnchangedWithoutSet | src/lib/AudioEngine.js:141-149 | across any run of calls and end events in which no setPadMode names the pad, getPadMode of that pad keeps its value |
| PadModel.LastModeIn | src/lib/AudioEngine.js:141-144 | the value of the last setPadMode call naming a pad in a run is absent exactly when no call in the run names it |
| PadModel.GetPadModeIsLastSetInRun | src/lib/AudioEngine.js:141-149 | across any run of calls and end events, getPadMode of a pad is the value of the last setPadMode call naming it, or its earlier mode when there is none |
| PadModel.NeverSetIsTouchInAnyRun | src/lib/AudioEngine.js:147-149 | after any run from the constructor in which no setPadMode names the pad, the pad is in touch mode |
| PadModel.StepKeepsValid | src/lib/AudioEngine.js:11-149 | every operation and event keeps the invariant |
| PadModel.ReachableIsValid | src/lib/AudioEngine.js:2-149 | every state reachable from the constructor through any sequence of calls and end events satisfies the invariant |

## Left out

- Creating and resuming the audio context (the `webkitAudioContext` fallback and the suspended-state handshake): browser glue; the model only records that a context exists.
- `fetch`, the `response.ok` check and `decodeAudioData`: network I/O and a foreign decoder; each file is a `Loaded` or `Failed` outcome. Without an audio context, decoding throws inside the per-file `try`, so the model counts such a file as failed.
- The buffer contents: only which pads have a buffer is modelled.
- `connect`, `start` and `stop` on source nodes, and the swallowed exception from `stop()`: audio output. A `stop()` call is only recorded in the `stopCalls` trace.
- Promise sequencing and the exception path of `init`: `init` is one atomic step that sets `initialized` after loading completes, so the model has no state in which initialisation failed halfway.
- Console logging.
- `parseInt` of the string keys in `panic`: keys are integers in the model. The snapshot lists the tracked pads in ascending order, the order in which integer-like object keys are enumerated; it lists only pads 0..7, which the invariant shows are the only tracked pads.
- JavaScript values other than integers for a pad index and other than booleans for a mode are not modelled.
