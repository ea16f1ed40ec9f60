/**
 * The AudioEngine object: its fields are updated in place by each call, and
 * each method is proved to perform the matching transition of PadModel.
 */
module Engine {
  import opened PadModel

  class AudioEngine {
    var hasContext: bool                 // audioContext is not null
    var initialized: bool
    var buffers: set<Pad>                // keys of the buffers object
    var activeSources: map<Pad, Handle>
    var padModes: map<Pad, bool>
    var nextHandle: nat                  // allocator for new source nodes
    ghost var stopCalls: seq<Handle>     // source nodes stop() was called on

    /** The engine's state as a value. */
    ghost function Model(): State
      reads this
    {
      State(hasContext, initialized, buffers, activeSources, padModes, nextHandle, stopCalls)
    }

    ghost predicate Valid()
      reads this
    {
      PadModel.Valid(Model())
    }

    constructor()
      ensures Model() == Initial && Valid()
    {
      hasContext := false;
      initialized := false;
      buffers := {};
      activeSources := map[];
      padModes := map[];
      nextHandle := 0;
      stopCalls := [];
    }

    /**
     * init: does nothing once initialized; otherwise creates the audio
     * context, loads the sound files (one outcome per file) and marks the
     * engine initialized.
     */
    method Init(outcomes: seq<LoadOutcome>)
      requires Valid() && |outcomes| == |SoundFiles|
      modifies this
      ensures Valid() && Model() == PadModel.Init(old(Model()), outcomes)
    {
      ghost var e0 := Model();
      if initialized {
        return;
      }
      hasContext := true;
      LoadSounds(outcomes);
      initialized := true;
      assert Model() == PadModel.Init(e0, outcomes);
    }

    /**
     * loadSounds: file n either loads, storing pad n's buffer, or fails and is
     * skipped; the loop goes on with the next file either way.
     */
    method LoadSounds(outcomes: seq<LoadOutcome>)
      requires Valid() && |outcomes| == |SoundFiles|
      modifies this
      ensures Valid() && Model() == LoadEach(old(Model()), outcomes)
    {
      LoadEachKeepsValid(Model(), outcomes);
      for n := 0 to |SoundFiles|
        invariant Model() == LoadEach(old(Model()), outcomes[..n])
      {
        // Without an audio context the decode step throws, which counts as a failure.
        if hasContext && outcomes[n] == Loaded {
          buffers := buffers + {n};
        }
        assert outcomes[..n + 1][..n] == outcomes[..n];
      }
      assert outcomes[..|SoundFiles|] == outcomes;
    }

    /**
     * playSound: ignored until ready; otherwise stops the pad (a one-shot
     * pad ignores this), then starts a new source node if the pad has a
     * buffer and tracks it under the pad.
     */
    method PlaySound(i: Pad)
      requires Valid()
      modifies this
      ensures Valid() && Model() == Play(old(Model()), i)
    {
      if !hasContext || !initialized {
        return;
      }
      StopSound(i);
      if i !in buffers {
        return;
      }
      var source := nextHandle;
      nextHandle := nextHandle + 1;
      activeSources := activeSources[i := source];
    }

    /** The onended callback of source node `source`, created for pad `i`. */
    method SourceEnded(i: Pad, source: Handle)
      requires Valid()
      modifies this
      ensures Valid() && Model() == Ended(old(Model()), i, source)
    {
      if i in activeSources && activeSources[i] == source {
        activeSources := activeSources - {i};
      }
    }

    /** stopSound: leaves a one-shot pad alone; otherwise stops and forgets its source node. */
    method StopSound(i: Pad)
      requires Valid()
      modifies this
      ensures Valid() && Model() == Stop(old(Model()), i)
    {
      if i in padModes && padModes[i] {
        return;
      }
      if i in activeSources {
        stopCalls := stopCalls + [activeSources[i]];
        activeSources := activeSources - {i};
      }
    }

    /** isPlaying: whether pad i has a tracked source node. */
    method IsPlaying(i: Pad) returns (playing: bool)
      ensures playing == PadModel.IsPlaying(Model(), i)
    {
      playing := i in activeSources;
    }

    /** panic: snapshots the tracked pads, then calls stopSound on each in key order. */
    method Panic()
      requires Valid()
      modifies this
      ensures Valid() && Model() == PadModel.Panic(old(Model()))
    {
      ghost var e0 := Model();
      var keys := PadsFrom(activeSources.Keys, 0);
      for j := 0 to |keys|
        invariant Model() == StopEach(e0, keys[..j])
      {
        StopEachExtend(e0, keys, j);
        StopSound(keys[j]);
      }
      assert keys[..|keys|] == keys;
    }

    /** setPadMode: records whether pad i is one-shot. */
    method SetPadMode(i: Pad, isOneShot: bool)
      requires Valid()
      modifies this
      ensures Valid() && Model() == PadModel.SetPadMode(old(Model()), i, isOneShot)
    {
      padModes := padModes[i := isOneShot];
    }

    /** getPadMode: the stored mode of pad i, or false if none was stored. */
    method GetPadMode(i: Pad) returns (isOneShot: bool)
      ensures isOneShot == PadModel.GetPadMode(Model(), i)
    {
      isOneShot := i in padModes && padModes[i];
    }
  }
}
