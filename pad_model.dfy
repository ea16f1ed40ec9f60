/**
 * The pad-playback bookkeeping of the drum-pad AudioEngine, as values.
 *
 * A `State` holds what the engine remembers between calls: whether an audio
 * context exists, whether initialisation finished, which pads have a decoded
 * buffer, which source node each pad is currently tracking, and each pad's
 * mode (one-shot or touch). Every public operation of the engine, and the two
 * events it reacts to (a source node ending, a sound file loading or failing),
 * is a transition function on `State`. The class in module Engine is proved
 * to perform exactly these transitions.
 */
module PadModel {

  /** A pad (square) index. Buffers exist only for pads 0..7, but every operation accepts any index. */
  type Pad = int

  /** A source node, identified by the id it was allocated with. */
  type Handle = nat

  datatype Option<T> = None | Some(value: T)

  /** The sound files loaded at start-up; file number k becomes pad k's buffer. */
  const SoundFiles: seq<string> := ["one", "two", "three", "four", "five", "six", "seven", "eight"]

  const PadCount: nat := |SoundFiles|

  /** What happened to one file: fetched and decoded, or any failure along the way. */
  datatype LoadOutcome = Loaded | Failed

  datatype State = State(
    hasContext: bool,                 // an audio context has been created
    initialized: bool,
    buffers: set<Pad>,                // pads whose sound file was decoded
    activeSources: map<Pad, Handle>,  // the source node each pad is tracking
    padModes: map<Pad, bool>,         // true = one-shot, false = touch
    nextHandle: nat,                  // id of the next source node to be created
    stopCalls: seq<Handle>)           // source nodes that stop() was called on, oldest first

  /** The engine as its constructor leaves it. */
  const Initial: State := State(false, false, {}, map[], map[], 0, [])

  /**
   * The invariant every reachable state keeps: buffers exist only for the
   * eight sound files, only pads with a buffer are tracked, every tracked
   * handle was issued and no two pads share one, and nothing is tracked
   * before initialisation completed.
   */
  ghost predicate Valid(e: State) {
    && (forall p :: p in e.buffers ==> 0 <= p < PadCount)
    && e.activeSources.Keys <= e.buffers
    && (forall p :: p in e.activeSources ==> e.activeSources[p] < e.nextHandle)
    && (forall p, q :: p in e.activeSources && q in e.activeSources && p != q ==>
          e.activeSources[p] != e.activeSources[q])
    && (e.initialized ==> e.hasContext)
    && (e.activeSources != map[] ==> e.initialized)
  }

  /** isPlaying: a source node is always truthy, so a pad plays exactly when it has an entry. */
  predicate IsPlaying(e: State, i: Pad) {
    i in e.activeSources
  }

  /** getPadMode: the stored mode, and false (touch) for a pad whose mode was never set. */
  function GetPadMode(e: State, i: Pad): bool {
    if i in e.padModes then e.padModes[i] else false
  }

  /** playSound proceeds only with an audio context and after initialisation. */
  predicate Ready(e: State) {
    e.hasContext && e.initialized
  }

  /** The handles appended to the stop() trace between `e` and `r`. */
  function NewStops(e: State, r: State): seq<Handle>
    requires |e.stopCalls| <= |r.stopCalls|
  {
    r.stopCalls[|e.stopCalls|..]
  }

  // ---------------------------------------------------------------------------
  // stopSound, playSound, the onended callback

  /**
   * stopSound(i): a one-shot pad is left alone; on a touch pad the tracked
   * source, if any, is stopped and forgotten.
   */
  function Stop(e: State, i: Pad): (r: State)
    ensures GetPadMode(e, i) ==> r == e
    ensures !GetPadMode(e, i) ==> r.activeSources == e.activeSources - {i} && !IsPlaying(r, i)
    ensures !GetPadMode(e, i) && i in e.activeSources ==> r.stopCalls == e.stopCalls + [e.activeSources[i]]
    ensures i !in e.activeSources ==> r == e
    ensures r == e.(activeSources := r.activeSources, stopCalls := r.stopCalls)
    ensures Valid(e) ==> Valid(r)
  {
    if GetPadMode(e, i) then e
    else if i in e.activeSources then
      e.(activeSources := e.activeSources - {i}, stopCalls := e.stopCalls + [e.activeSources[i]])
    else e
  }

  /**
   * playSound(i): when ready, stop pad i (which a one-shot pad ignores), then,
   * if pad i has a buffer, start a fresh source node and track it under i.
   */
  function Play(e: State, i: Pad): (r: State)
    ensures !Ready(e) ==> r == e
    ensures Ready(e) && i in e.buffers ==>
      IsPlaying(r, i) && r.activeSources[i] == e.nextHandle && r.nextHandle == e.nextHandle + 1
    ensures Ready(e) && i !in e.buffers ==>
      r.activeSources.Keys <= e.activeSources.Keys && r.nextHandle == e.nextHandle
    ensures Ready(e) && i !in e.buffers && !GetPadMode(e, i) ==> !IsPlaying(r, i)
    ensures r.activeSources - {i} == e.activeSources - {i}
    // The next two clauses follow from the one after them with Stop's contract;
    // they are stated for callers.
    ensures Ready(e) && GetPadMode(e, i) ==> r.stopCalls == e.stopCalls
    ensures Ready(e) && !GetPadMode(e, i) && i in e.activeSources ==>
      r.stopCalls == e.stopCalls + [e.activeSources[i]]
    // As above, a consequence of the next clause, stated for callers.
    ensures Ready(e) && i !in e.activeSources ==> r.stopCalls == e.stopCalls
    ensures Ready(e) ==> r.stopCalls == Stop(e, i).stopCalls
    ensures Ready(e) && i !in e.buffers ==> r == Stop(e, i)
    ensures r == e.(activeSources := r.activeSources, nextHandle := r.nextHandle, stopCalls := r.stopCalls)
    ensures Valid(e) ==> Valid(r)
  {
    if !e.hasContext || !e.initialized then e
    else
      var s := Stop(e, i);
      if i !in s.buffers then s
      else s.(activeSources := s.activeSources[i := s.nextHandle], nextHandle := s.nextHandle + 1)
  }

  /**
   * The onended callback of the source node `h` started for pad `i`: the
   * entry is removed only while it still holds that very node.
   */
  function Ended(e: State, i: Pad, h: Handle): (r: State)
    ensures i in e.activeSources && e.activeSources[i] == h ==>
      r.activeSources == e.activeSources - {i} && !IsPlaying(r, i)
    ensures !(i in e.activeSources && e.activeSources[i] == h) ==> r == e
    ensures r == e.(activeSources := r.activeSources)
    ensures Valid(e) ==> Valid(r)
  {
    if i in e.activeSources && e.activeSources[i] == h then
      e.(activeSources := e.activeSources - {i})
    else e
  }

  /** A playing pad's new source node is fresh: no pad was tracking it before. */
  lemma PlayIssuesFreshHandle(e: State, i: Pad)
    requires Valid(e) && Ready(e) && i in e.buffers
    ensures forall p :: p in e.activeSources ==> e.activeSources[p] != Play(e, i).activeSources[i]
  {
  }

  /**
   * Re-triggering a one-shot pad replaces the tracked node without stopping
   * the old one, and when the old node ends its callback leaves the newer
   * entry in place.
   */
  lemma OneShotRetrigger(e: State, i: Pad)
    requires Valid(e) && Ready(e) && GetPadMode(e, i) && IsPlaying(e, i)
    ensures var old_h := e.activeSources[i];
      var r := Play(e, i);
      && r.stopCalls == e.stopCalls
      && IsPlaying(r, i) && r.activeSources[i] != old_h
      && Ended(r, i, old_h) == r
  {
  }

  /**
   * The end callback of any node issued before a successful playSound(i)
   * cannot remove the entry that playSound created.
   */
  lemma SupersededEndKeepsNewer(e: State, i: Pad, h: Handle)
    requires Ready(e) && i in e.buffers && h < e.nextHandle
    ensures Ended(Play(e, i), i, h) == Play(e, i)
  {
  }

  /** When the node playSound(i) started ends, pad i stops playing and no other pad is affected. */
  lemma EndOfCurrentNode(e: State, i: Pad)
    requires Ready(e) && i in e.buffers
    ensures var r := Ended(Play(e, i), i, e.nextHandle);
      !IsPlaying(r, i) && r.activeSources == e.activeSources - {i}
  {
  }

  /** An end event for a node that was never issued changes nothing. */
  lemma EndOfUnissuedNode(e: State, i: Pad, h: Handle)
    requires Valid(e) && h >= e.nextHandle
    ensures Ended(e, i, h) == e
  {
  }

  // ---------------------------------------------------------------------------
  // panic

  /**
   * The pads that are keys of `keys`, from `p` upwards, in ascending order:
   * the order in which object keys that are array indices are enumerated.
   */
  function PadsFrom(keys: set<Pad>, p: nat): (r: seq<Pad>)
    ensures forall k :: k in r <==> k in keys && p <= k < PadCount
    ensures forall a, b :: 0 <= a < b < |r| ==> r[a] < r[b]
    decreases PadCount - p
  {
    if p >= PadCount then []
    else
      var rest := PadsFrom(keys, p + 1);
      assert forall j :: 0 <= j < |rest| ==> rest[j] in rest;
      if p in keys then [p] + rest else rest
  }

  /** stopSound applied to each pad of `ks` in turn. */
  function StopEach(e: State, ks: seq<Pad>): (r: State)
    ensures r.padModes == e.padModes
    ensures r == e.(activeSources := r.activeSources, stopCalls := r.stopCalls)
    ensures r.activeSources.Keys <= e.activeSources.Keys
    ensures |e.stopCalls| <= |r.stopCalls| && r.stopCalls[..|e.stopCalls|] == e.stopCalls
    ensures Valid(e) ==> Valid(r)
    decreases |ks|
  {
    if ks == [] then e
    else Stop(StopEach(e, ks[..|ks| - 1]), ks[|ks| - 1])
  }

  /** Stopping one more pad of `ks` extends StopEach by one step. */
  lemma StopEachExtend(e: State, ks: seq<Pad>, j: nat)
    requires j < |ks|
    ensures StopEach(e, ks[..j + 1]) == Stop(StopEach(e, ks[..j]), ks[j])
  {
    assert ks[..j + 1][..j] == ks[..j];
  }

  /** panic takes a snapshot of the tracked pads, then calls stopSound on each. */
  function Panic(e: State): (r: State)
    ensures r == e.(activeSources := r.activeSources, stopCalls := r.stopCalls)
    ensures r.activeSources.Keys <= e.activeSources.Keys
    ensures forall k :: k in e.activeSources && GetPadMode(e, k) ==>
      k in r.activeSources && r.activeSources[k] == e.activeSources[k]
    ensures forall k :: k in r.activeSources && 0 <= k < PadCount ==> GetPadMode(e, k)
  {
    var ks := PadsFrom(e.activeSources.Keys, 0);
    StopEachEffect(e, ks);
    StopEach(e, ks)
  }

  /** The nodes tracked by touch pads: the ones panic stops. */
  function TrackedTouchNodes(e: State): set<Handle> {
    set k | k in e.activeSources && !GetPadMode(e, k) :: e.activeSources[k]
  }

  /** Touch pads among `ks`: the ones stopSound acts on. */
  function TouchPads(e: State, ks: seq<Pad>): set<Pad> {
    set k | k in ks && !GetPadMode(e, k)
  }

  /** The nodes tracked by touch pads among `ks`. */
  function TouchNodes(e: State, ks: seq<Pad>): set<Handle> {
    set k | k in ks && k in e.activeSources && !GetPadMode(e, k) :: e.activeSources[k]
  }

  /**
   * Stopping the pads `ks` one after the other removes exactly the touch pads
   * among them, and calls stop() on exactly the nodes those pads tracked.
   */
  lemma {:induction false} StopEachEffect(e: State, ks: seq<Pad>)
    ensures var r := StopEach(e, ks);
      && r.activeSources == e.activeSources - TouchPads(e, ks)
      && (set h | h in NewStops(e, r)) == TouchNodes(e, ks)
    decreases |ks|
  {
    if ks != [] {
      var front, k := ks[..|ks| - 1], ks[|ks| - 1];
      assert ks == front + [k];
      StopEachEffect(e, front);
      var s := StopEach(e, front);
      var r := Stop(s, k);
      assert GetPadMode(s, k) == GetPadMode(e, k);
      assert TouchPads(e, ks) == TouchPads(e, front) + (if GetPadMode(e, k) then {} else {k});
      assert r.activeSources == e.activeSources - TouchPads(e, ks);
      if !GetPadMode(e, k) && k in s.activeSources {
        assert k in e.activeSources && s.activeSources[k] == e.activeSources[k];
        assert NewStops(e, r) == NewStops(e, s) + [e.activeSources[k]];
        assert TouchNodes(e, ks) == TouchNodes(e, front) + {e.activeSources[k]};
      } else {
        assert NewStops(e, r) == NewStops(e, s);
        if !GetPadMode(e, k) && k in e.activeSources {
          assert k in front;
        }
        assert TouchNodes(e, ks) == TouchNodes(e, front);
      }
    }
  }

  /** Stopping every tracked pad keeps exactly the one-shot entries. */
  lemma StopEachTrackedKeepsOneShot(e: State, ks: seq<Pad>)
    requires forall k :: k in e.activeSources ==> k in ks
    ensures StopEach(e, ks).activeSources ==
      (map k | k in e.activeSources && GetPadMode(e, k) :: e.activeSources[k])
  {
    StopEachEffect(e, ks);
  }

  /** Stopping every tracked pad calls stop() on exactly the nodes of the touch pads. */
  lemma StopEachTrackedStopsTouchNodes(e: State, ks: seq<Pad>)
    requires forall k :: k in ks ==> k in e.activeSources
    requires forall k :: k in e.activeSources ==> k in ks
    ensures var r := StopEach(e, ks);
      (set h | h in NewStops(e, r)) == TrackedTouchNodes(e)
  {
    StopEachEffect(e, ks);
  }

  /**
   * Since no two pads track the same node, stopping exactly the touch pads'
   * nodes stops no node of a one-shot pad.
   */
  lemma DistinctNodesSpareOneShot(e: State, stops: seq<Handle>)
    requires Valid(e)
    requires (set h | h in stops) == TrackedTouchNodes(e)
    ensures forall k :: k in e.activeSources && GetPadMode(e, k) ==> e.activeSources[k] !in stops
  {
    forall k | k in e.activeSources && GetPadMode(e, k)
      ensures e.activeSources[k] !in stops
    {
      var h := e.activeSources[k];
      assert h !in TrackedTouchNodes(e);
      assert h in stops ==> h in (set x | x in stops);
    }
  }

  /**
   * After panic, the tracked entries are exactly the one-shot entries there
   * were before, untouched; stop() was called on exactly the nodes of the
   * touch pads, and on no node a one-shot pad was playing.
   */
  lemma PanicKeepsOnlyOneShot(e: State)
    requires Valid(e)
    ensures var r := Panic(e);
      && r.activeSources == (map k | k in e.activeSources && GetPadMode(e, k) :: e.activeSources[k])
      && (forall k :: IsPlaying(r, k) ==> GetPadMode(r, k))
      && r.padModes == e.padModes && r.buffers == e.buffers
      && (set h | h in NewStops(e, r)) == TrackedTouchNodes(e)
      && (forall k :: k in e.activeSources && GetPadMode(e, k) ==> e.activeSources[k] !in NewStops(e, r))
  {
    var ks := PadsFrom(e.activeSources.Keys, 0);
    StopEachTrackedKeepsOneShot(e, ks);
    StopEachTrackedStopsTouchNodes(e, ks);
    var r := StopEach(e, ks);
    DistinctNodesSpareOneShot(e, NewStops(e, r));
  }

  /** stopSound changes nothing when every tracked pad is one-shot. */
  lemma {:induction false} StopEachOnlyOneShotIsIdentity(e: State, ks: seq<Pad>)
    requires forall k :: k in e.activeSources ==> GetPadMode(e, k)
    ensures StopEach(e, ks) == e
    decreases |ks|
  {
    if ks != [] {
      StopEachOnlyOneShotIsIdentity(e, ks[..|ks| - 1]);
    }
  }

  /** A second panic right after the first changes nothing. */
  lemma PanicIsIdempotent(e: State)
    requires Valid(e)
    ensures Panic(Panic(e)) == Panic(e)
  {
    PanicKeepsOnlyOneShot(e);
    var r := Panic(e);
    StopEachOnlyOneShotIsIdentity(r, PadsFrom(r.activeSources.Keys, 0));
  }

  // ---------------------------------------------------------------------------
  // setPadMode and getPadMode

  /** setPadMode(i, b): records the mode of pad i. */
  function SetPadMode(e: State, i: Pad, oneShot: bool): (r: State)
    ensures GetPadMode(r, i) == oneShot
    ensures forall k :: k != i ==> GetPadMode(r, k) == GetPadMode(e, k)
    ensures r == e.(padModes := r.padModes)
    ensures Valid(e) ==> Valid(r)
  {
    e.(padModes := e.padModes[i := oneShot])
  }

  datatype ModeCall = ModeCall(pad: Pad, oneShot: bool)

  /** setPadMode applied for each call of `calls`, in order. */
  function SetModes(e: State, calls: seq<ModeCall>): State
    decreases |calls|
  {
    if calls == [] then e
    else
      var last := calls[|calls| - 1];
      SetPadMode(SetModes(e, calls[..|calls| - 1]), last.pad, last.oneShot)
  }

  /** The value of the last call in `calls` that names pad `i`, if there is one. */
  function LastModeFor(calls: seq<ModeCall>, i: Pad): (r: Option<bool>)
    ensures r == None <==> forall j :: 0 <= j < |calls| ==> calls[j].pad != i
    ensures r.Some? ==> exists j :: 0 <= j < |calls| && calls[j] == ModeCall(i, r.value) &&
                                  (forall j' :: j < j' < |calls| ==> calls[j'].pad != i)
    decreases |calls|
  {
    if calls == [] then None
    else if calls[|calls| - 1].pad == i then Some(calls[|calls| - 1].oneShot)
    else LastModeFor(calls[..|calls| - 1], i)
  }

  /**
   * getPadMode(i) after a series of setPadMode calls is the value of the
   * last call for pad i, or what it was before if there was none; the calls
   * touch nothing but the modes.
   */
  lemma {:induction false} GetPadModeIsLastSet(e: State, calls: seq<ModeCall>, i: Pad)
    ensures GetPadMode(SetModes(e, calls), i) ==
      match LastModeFor(calls, i)
      case Some(b) => b
      case None => GetPadMode(e, i)
    ensures SetModes(e, calls) == e.(padModes := SetModes(e, calls).padModes)
    decreases |calls|
  {
    if calls != [] {
      GetPadModeIsLastSet(e, calls[..|calls| - 1], i);
    }
  }

  /** A pad whose mode was never set is in touch mode. */
  lemma NeverSetIsTouch(calls: seq<ModeCall>, i: Pad)
    requires forall j :: 0 <= j < |calls| ==> calls[j].pad != i
    ensures !GetPadMode(SetModes(Initial, calls), i)
  {
    GetPadModeIsLastSet(Initial, calls, i);
  }

  // ---------------------------------------------------------------------------
  // loadSounds and init

  /** One iteration of the load loop: file number `n` either yields pad n's buffer or is skipped. */
  function LoadOne(e: State, n: nat, o: LoadOutcome): (r: State)
    ensures n in r.buffers <==> n in e.buffers || (e.hasContext && o == Loaded)
    ensures r.buffers - {n} == e.buffers - {n}
    ensures r == e.(buffers := r.buffers)
  {
    if e.hasContext && o == Loaded then e.(buffers := e.buffers + {n}) else e
  }

  /** The load loop over the outcomes of files 0, 1, ... in order. */
  function LoadEach(e: State, outcomes: seq<LoadOutcome>): (r: State)
    ensures e.buffers <= r.buffers
    ensures forall p :: p in r.buffers - e.buffers ==> 0 <= p < |outcomes|
    ensures r == e.(buffers := r.buffers)
    decreases |outcomes|
  {
    if outcomes == [] then e
    else
      var n := |outcomes| - 1;
      var s := LoadEach(e, outcomes[..n]);
      var r := LoadOne(s, n, outcomes[n]);
      assert forall p :: p in r.buffers - e.buffers ==> p == n || p in s.buffers - e.buffers;
      r
  }

  /** The pads whose file loaded. */
  function LoadedPads(outcomes: seq<LoadOutcome>): set<Pad> {
    set n | 0 <= n < |outcomes| && outcomes[n] == Loaded
  }

  /**
   * The load loop adds a buffer for exactly the files that loaded (none at
   * all without an audio context) and changes nothing else.
   */
  lemma {:induction false} LoadEachAddsLoaded(e: State, outcomes: seq<LoadOutcome>)
    ensures LoadEach(e, outcomes).buffers == e.buffers + (if e.hasContext then LoadedPads(outcomes) else {})
    ensures LoadEach(e, outcomes) == e.(buffers := LoadEach(e, outcomes).buffers)
    decreases |outcomes|
  {
    if outcomes != [] {
      var front := outcomes[..|outcomes| - 1];
      LoadEachAddsLoaded(e, front);
      assert LoadedPads(outcomes) ==
        LoadedPads(front) + (if outcomes[|outcomes| - 1] == Loaded then {|outcomes| - 1} else {});
    }
  }

  /**
   * Loading the eight files: buffers are only created for pads 0..7; a failed
   * file leaves its own pad without a new buffer, and every file that loaded
   * has its buffer whatever happened to the others.
   */
  lemma LoadSoundsPerFile(e: State, outcomes: seq<LoadOutcome>)
    requires |outcomes| == PadCount && e.hasContext
    ensures var r := LoadEach(e, outcomes);
      && (forall p :: p in r.buffers - e.buffers ==> 0 <= p < PadCount)
      && (forall n :: 0 <= n < PadCount && outcomes[n] == Failed ==> (n in r.buffers <==> n in e.buffers))
      && (forall n :: 0 <= n < PadCount && outcomes[n] == Loaded ==> n in r.buffers)
  {
    LoadEachAddsLoaded(e, outcomes);
  }

  /** A valid state stays valid through the load loop over at most eight files. */
  lemma LoadEachKeepsValid(e: State, outcomes: seq<LoadOutcome>)
    requires |outcomes| <= PadCount
    ensures Valid(e) ==> Valid(LoadEach(e, outcomes))
  {
  }

  /**
   * init: once initialized nothing happens; otherwise a context is created,
   * the eight files are loaded, and the engine becomes initialized.
   */
  function Init(e: State, outcomes: seq<LoadOutcome>): (r: State)
    requires |outcomes| == PadCount
    ensures e.initialized ==> r == e
    ensures !e.initialized ==> r.initialized && r.hasContext && r.buffers == e.buffers + LoadedPads(outcomes)
    ensures r == e.(hasContext := r.hasContext, initialized := r.initialized, buffers := r.buffers)
    ensures Valid(e) ==> Valid(r)
  {
    if e.initialized then e
    else
      var c := e.(hasContext := true);
      LoadEachAddsLoaded(c, outcomes);
      LoadEachKeepsValid(c, outcomes);
      LoadEach(c, outcomes).(initialized := true)
  }

  // ---------------------------------------------------------------------------
  // Whole runs

  /** A call into the engine, or an event it reacts to. */
  datatype Event =
    | InitCall(outcomes: seq<LoadOutcome>)
    | LoadSoundsCall(outcomes: seq<LoadOutcome>)
    | PlayCall(pad: Pad)
    | StopCall(pad: Pad)
    | SourceEnded(pad: Pad, handle: Handle)
    | PanicCall
    | SetPadModeCall(pad: Pad, oneShot: bool)

  /** One outcome per sound file. */
  predicate WellFormed(ev: Event) {
    (ev.InitCall? || ev.LoadSoundsCall?) ==> |ev.outcomes| == PadCount
  }

  function Step(e: State, ev: Event): State
    requires WellFormed(ev)
  {
    match ev
    case InitCall(os) => Init(e, os)
    case LoadSoundsCall(os) => LoadEach(e, os)
    case PlayCall(i) => Play(e, i)
    case StopCall(i) => Stop(e, i)
    case SourceEnded(i, h) => Ended(e, i, h)
    case PanicCall => Panic(e)
    case SetPadModeCall(i, b) => SetPadMode(e, i, b)
  }

  function Run(e: State, evs: seq<Event>): State
    requires forall j :: 0 <= j < |evs| ==> WellFormed(evs[j])
    decreases |evs|
  {
    if evs == [] then e
    else Step(Run(e, evs[..|evs| - 1]), evs[|evs| - 1])
  }

  /** Whether some call in `evs` sets the mode of pad `i`. */
  predicate SetsModeOf(evs: seq<Event>, i: Pad) {
    exists j :: 0 <= j < |evs| && evs[j].SetPadModeCall? && evs[j].pad == i
  }

  /**
   * Only setPadMode changes a pad's mode: across any run in which no call
   * sets the mode of pad `i`, getPadMode(i) keeps its value.
   */
  lemma {:induction false} ModeUnchangedWithoutSet(e: State, evs: seq<Event>, i: Pad)
    requires forall j :: 0 <= j < |evs| ==> WellFormed(evs[j])
    requires !SetsModeOf(evs, i)
    ensures GetPadMode(Run(e, evs), i) == GetPadMode(e, i)
    decreases |evs|
  {
    if evs != [] {
      var front, last := evs[..|evs| - 1], evs[|evs| - 1];
      assert !SetsModeOf(front, i) by {
        forall j | 0 <= j < |front| ensures !(front[j].SetPadModeCall? && front[j].pad == i) {
          assert front[j] == evs[j];
        }
      }
      assert !(last.SetPadModeCall? && last.pad == i);
      ModeUnchangedWithoutSet(e, front, i);
      var s := Run(e, front);
      match last
      case InitCall(os) =>
      case LoadSoundsCall(os) => LoadEachAddsLoaded(s, os);
      case PanicCall => StopEachEffect(s, PadsFrom(s.activeSources.Keys, 0));
      case _ =>
    }
  }

  /** From the constructor, a pad whose mode no call ever set is in touch mode. */
  lemma NeverSetIsTouchInAnyRun(evs: seq<Event>, i: Pad)
    requires forall j :: 0 <= j < |evs| ==> WellFormed(evs[j])
    requires !SetsModeOf(evs, i)
    ensures !GetPadMode(Run(Initial, evs), i)
  {
    ModeUnchangedWithoutSet(Initial, evs, i);
  }

  /** The value of the last setPadMode call for pad `i` in `evs`, if there is one. */
  function LastModeIn(evs: seq<Event>, i: Pad): (r: Option<bool>)
    ensures r == None <==> !SetsModeOf(evs, i)
    decreases |evs|
  {
    if evs == [] then None
    else
      var last := evs[|evs| - 1];
      if last.SetPadModeCall? && last.pad == i then Some(last.oneShot)
      else
        var rest := LastModeIn(evs[..|evs| - 1], i);
        assert SetsModeOf(evs, i) <==> SetsModeOf(evs[..|evs| - 1], i) by {
          if SetsModeOf(evs, i) {
            var j :| 0 <= j < |evs| && evs[j].SetPadModeCall? && evs[j].pad == i;
            assert j < |evs| - 1 && evs[..|evs| - 1][j] == evs[j];
          }
          if SetsModeOf(evs[..|evs| - 1], i) {
            var j :| 0 <= j < |evs| - 1 && evs[..|evs| - 1][j].SetPadModeCall? && evs[..|evs| - 1][j].pad == i;
            assert evs[j] == evs[..|evs| - 1][j];
          }
        }
        rest
  }

  /**
   * Over any run of calls and end events, getPadMode(i) is the value of the
   * last setPadMode call for pad i, or its earlier value when there is none.
   */
  lemma {:induction false} GetPadModeIsLastSetInRun(e: State, evs: seq<Event>, i: Pad)
    requires forall j :: 0 <= j < |evs| ==> WellFormed(evs[j])
    ensures GetPadMode(Run(e, evs), i) ==
      match LastModeIn(evs, i)
      case Some(b) => b
      case None => GetPadMode(e, i)
    decreases |evs|
  {
    if evs != [] {
      var front, last := evs[..|evs| - 1], evs[|evs| - 1];
      GetPadModeIsLastSetInRun(e, front, i);
      if !(last.SetPadModeCall? && last.pad == i) {
        var s := Run(e, front);
        assert [last][..0] == [];
        ModeUnchangedWithoutSet(s, [last], i);
      }
    }
  }

  /** Every operation keeps the invariant. */
  lemma StepKeepsValid(e: State, ev: Event)
    requires Valid(e) && WellFormed(ev)
    ensures Valid(Step(e, ev))
  {
    if ev.LoadSoundsCall? {
      LoadEachKeepsValid(e, ev.outcomes);
    }
  }

  /**
   * In every state the engine can reach from its constructor, a playing pad
   * is one of the eight pads and has a buffer, tracked nodes are distinct,
   * and nothing plays before initialisation.
   */
  lemma {:induction false} ReachableIsValid(evs: seq<Event>)
    requires forall j :: 0 <= j < |evs| ==> WellFormed(evs[j])
    ensures Valid(Run(Initial, evs))
    decreases |evs|
  {
    if evs != [] {
      ReachableIsValid(evs[..|evs| - 1]);
      StepKeepsValid(Run(Initial, evs[..|evs| - 1]), evs[|evs| - 1]);
    }
  }
}
