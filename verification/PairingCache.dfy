/**
 Model of browser-extension/chrome/pairing.ts: a cache over asynchronous session
 storage, with a generation counter and one shared load promise.

 `PairingLifecycle` is the class; each of its methods is the code between two
 awaits. The rest of the module puts those pieces into a world with storage,
 change events and pending promises, where they interleave in any order.
 */
module PairingCache {
  import opened Common

  datatype Pairing = Pairing(sessionNonce: string, tabId: int, windowId: int, origin: string, documentId: string)

  /** A stored value as `isPairing` sees it. */
  datatype Value = Absent | Good(pairing: Pairing) | Malformed

  /** The fields of the class. `loadPromise` names the load whose tracked promise is shared. */
  datatype Cache = Cache(pairing: Option<Pairing>, loaded: bool, generation: nat, loadPromise: Option<nat>)

  /** What a call of `load` leads to: an answer, a wait on a shared promise, or a read of its own. */
  datatype LoadCall = Answered(pairing: Option<Pairing>) | Joined(load: nat) | Started(generation: nat)

  function Install(c: Cache, pairing: Option<Pairing>): Cache {
    c.(pairing := pairing, loaded := true, generation := c.generation + 1)
  }

  function OnStorageChange(c: Cache, v: Value): Cache {
    match v
    case Absent => Install(c, None)
    case Good(p) => Install(c, Some(p))
    case Malformed => c.(pairing := None, loaded := false, generation := c.generation + 1)
  }

  /** `load`, called when the next tracked promise will be `id`. */
  function BeginLoad(c: Cache, id: nat): (Cache, LoadCall) {
    if c.loaded then (c, Answered(c.pairing))
    else if c.loadPromise.Some? then (c, Joined(c.loadPromise.value))
    else (c.(loadPromise := Some(id)), Started(c.generation))
  }

  /** The continuation of load `id` with a validated value; `next` is the name a retry would get. */
  function ContinueLoad(c: Cache, id: nat, generation: nat, pairing: Option<Pairing>, next: nat): (Cache, LoadCall) {
    if c.generation != generation
    then BeginLoad(if c.loaded then c else c.(loadPromise := None), next)
    else (c.(pairing := pairing, loaded := true), Answered(pairing))
  }

  function FinishLoad(c: Cache, id: nat): Cache {
    if c.loadPromise == Some(id) then c.(loadPromise := None) else c
  }

  class PairingLifecycle {
    var cachedPairing: Option<Pairing>
    var cacheLoaded: bool
    var cacheGeneration: nat
    var loadPromise: Option<nat>

    function State(): Cache reads this {
      Cache(cachedPairing, cacheLoaded, cacheGeneration, loadPromise)
    }

    constructor ()
      ensures State() == Cache(None, false, 0, None)
    {
      cachedPairing, cacheLoaded, cacheGeneration, loadPromise := None, false, 0, None;
    }

    /** `save` and `clear`, after the write has completed. */
    method AfterWrite(pairing: Option<Pairing>)
      modifies this
      ensures State() == Install(old(State()), pairing)
    {
      cachedPairing := pairing;
      cacheLoaded := true;
      cacheGeneration := cacheGeneration + 1;
    }

    method UpdateFromStorage(value: Value)
      modifies this
      ensures State() == OnStorageChange(old(State()), value)
    {
      cacheGeneration := cacheGeneration + 1;
      if value.Absent? {
        cachedPairing := None;
        cacheLoaded := true;
        return;
      }
      if value.Good? {
        cachedPairing := Some(value.pairing);
        cacheLoaded := true;
        return;
      }
      cachedPairing := None;
      cacheLoaded := false;
    }

    method Load(id: nat) returns (call: LoadCall)
      modifies this
      ensures (State(), call) == BeginLoad(old(State()), id)
    {
      if cacheLoaded { return Answered(cachedPairing); }
      if loadPromise.Some? { return Joined(loadPromise.value); }
      loadPromise := Some(id);
      call := Started(cacheGeneration);
    }

    method LoadContinuation(id: nat, generation: nat, pairing: Option<Pairing>, next: nat) returns (call: LoadCall)
      modifies this
      ensures (State(), call) == ContinueLoad(old(State()), id, generation, pairing, next)
    {
      if cacheGeneration != generation {
        if !cacheLoaded { loadPromise := None; }
        call := Load(next);
        return;
      }
      cachedPairing := pairing;
      cacheLoaded := true;
      call := Answered(pairing);
    }

    method LoadFinally(id: nat)
      modifies this
      ensures State() == FinishLoad(old(State()), id)
    {
      if loadPromise == Some(id) { loadPromise := None; }
    }
  }

  // ---------- the world ----------

  /** A store write: by `save`, by `clear`, or by a load that read a malformed value. */
  datatype Write = Save(pairing: Pairing) | Clear | Scrub(load: nat)

  function Written(w: Write): Value {
    match w
    case Save(p) => Good(p)
    case _ => Absent
  }

  /** How the promise of a load is decided. */
  datatype Outcome = Resolved(pairing: Option<Pairing>) | Failed

  /** What a call of `load` got: an answer at once, or the promise of a load. */
  datatype Promise = Given(pairing: Option<Pairing>) | OfLoad(load: nat)

  /** Where a load is. `Settling`: its promise is decided, the `finally` still to run. */
  datatype Load =
    | Reading(generation: nat)
    | Read(generation: nat, value: Value)
    | Scrubbing
    | Waiting(load: nat)
    | Settling(outcome: Outcome)
    | Done(outcome: Outcome)

  /**
     `issued` writes have not reached the store; `completed` ones have, but their
     awaiting code has not run; `events` are change notifications on their way, and
     `calls` are the calls of `load` so far, with what each of them got.
   */
  datatype World = World(cache: Cache, store: Value, issued: seq<Write>, completed: seq<Write>, events: seq<Value>, loads: seq<Load>, calls: seq<Promise>)

  datatype Step =
    | CallLoad
    | CallWrite(write: Write)
    | ReadTakesEffect(load: nat)
    | ReadFails(load: nat)
    | LoadContinues(load: nat)
    | WriteTakesEffect(notify: bool)
    | WriteFails
    | WriteContinues
    | EventDelivered
    | WaitEnds(load: nat)
    | FinallyRuns(load: nat)

  predicate Enabled(w: World, s: Step) {
    match s
    case CallLoad => true
    case CallWrite(write) => !write.Scrub?
    case ReadTakesEffect(i) => i < |w.loads| && w.loads[i].Reading?
    case ReadFails(i) => i < |w.loads| && w.loads[i].Reading?
    case LoadContinues(i) => i < |w.loads| && w.loads[i].Read?
    case WriteTakesEffect(notify) => w.issued != [] && (Written(w.issued[0]) != w.store ==> notify)
    case WriteFails => w.issued != []
    case WriteContinues => w.completed != []
    case EventDelivered => w.events != []
    case WaitEnds(i) => i < |w.loads| && w.loads[i].Waiting? && w.loads[i].load < |w.loads| && w.loads[w.loads[i].load].Done?
    case FinallyRuns(i) => i < |w.loads| && w.loads[i].Settling?
  }

  /** A load of a malformed value scrubs the store; any other is validated and runs its continuation. */
  function AfterRead(w: World, i: nat): World
    requires i < |w.loads| && w.loads[i].Read?
  {
    var load := w.loads[i];
    if load.value == Malformed then
      w.(issued := w.issued + [Scrub(i)], loads := w.loads[i := Scrubbing])
    else
      var pairing := if load.value.Good? then Some(load.value.pairing) else None;
      var (cache, call) := ContinueLoad(w.cache, i, load.generation, pairing, |w.loads|);
      match call
      case Answered(answer) => w.(cache := cache, loads := w.loads[i := Settling(Resolved(answer))])
      case Joined(k) => w.(cache := cache, loads := w.loads[i := Waiting(k)])
      case Started(g) => w.(cache := cache, loads := w.loads[i := Waiting(|w.loads|)] + [Reading(g)])
  }

  /** What the caller of `load` gets; `next` is the name of the load it started, if it did. */
  function PromiseOf(call: LoadCall, next: nat): Promise {
    match call
    case Answered(pairing) => Given(pairing)
    case Joined(k) => OfLoad(k)
    case Started(_) => OfLoad(next)
  }

  function Apply(w: World, s: Step): World
    requires Enabled(w, s)
  {
    match s
    case CallLoad =>
      var (cache, call) := BeginLoad(w.cache, |w.loads|);
      w.(cache := cache, calls := w.calls + [PromiseOf(call, |w.loads|)],
         loads := if call.Started? then w.loads + [Reading(call.generation)] else w.loads)
    case CallWrite(write) => w.(issued := w.issued + [write])
    case ReadTakesEffect(i) => w.(loads := w.loads[i := Read(w.loads[i].generation, w.store)])
    case ReadFails(i) => w.(loads := w.loads[i := Settling(Failed)])
    case LoadContinues(i) => AfterRead(w, i)
    case WriteTakesEffect(notify) =>
      var write := w.issued[0];
      w.(store := Written(write), issued := w.issued[1..], completed := w.completed + [write],
         events := if notify then w.events + [Written(write)] else w.events)
    case WriteFails => Rejected(w.(issued := w.issued[1..]), w.issued[0])
    case WriteContinues =>
      var rest := w.(completed := w.completed[1..]);
      (match w.completed[0]
       case Save(p) => rest.(cache := Install(w.cache, Some(p)))
       case Clear => rest.(cache := Install(w.cache, None))
       case Scrub(_) => Rejected(rest, w.completed[0]))
    case EventDelivered => w.(cache := OnStorageChange(w.cache, w.events[0]), events := w.events[1..])
    case WaitEnds(i) => w.(loads := w.loads[i := Settling(w.loads[w.loads[i].load].outcome)])
    case FinallyRuns(i) => w.(cache := FinishLoad(w.cache, i), loads := w.loads[i := Done(w.loads[i].outcome)])
  }

  /** The load that wanted to scrub the store rejects, whether or not its write succeeded. */
  function Rejected(w: World, write: Write): World {
    if write.Scrub? && write.load < |w.loads| then w.(loads := w.loads[write.load := Settling(Failed)]) else w
  }

  function Start(store: Value): World {
    World(Cache(None, false, 0, None), store, [], [], [], [], [])
  }

  /** The world after a list of steps, if each is enabled in its turn. */
  function Exec(w: World, steps: seq<Step>): Option<World>
    decreases steps
  {
    if steps == [] then Some(w)
    else if Enabled(w, steps[0]) then Exec(Apply(w, steps[0]), steps[1..]) else None
  }

  predicate Quiescent(w: World) {
    w.issued == [] && w.completed == [] && w.events == [] && forall i :: 0 <= i < |w.loads| ==> w.loads[i].Done?
  }

  /** A loaded cache tells what the store holds. */
  predicate Coherent(w: World) {
    w.cache.loaded ==> w.store == if w.cache.pairing.Some? then Good(w.cache.pairing.value) else Absent
  }

  // ---------- structure of pending loads ----------

  /** Who waits on whom, and whose promise is shared. */
  predicate LoadsOk(w: World) {
    && (forall i :: 0 <= i < |w.loads| && w.loads[i].Waiting? ==> i < w.loads[i].load < |w.loads|)
    && (forall i :: 0 <= i < |w.loads| && w.loads[i] == Scrubbing ==> Scrub(i) in w.issued || Scrub(i) in w.completed)
    && (w.cache.loadPromise.Some? ==> w.cache.loadPromise.value < |w.loads| && !w.loads[w.cache.loadPromise.value].Done?)
    && (forall x :: x in w.issued && x.Scrub? ==> x.load < |w.loads|)
    && (forall x :: x in w.completed && x.Scrub? ==> x.load < |w.loads|)
    && (forall i :: 0 <= i < |w.loads| && w.loads[i].Reading? ==> w.loads[i].generation <= w.cache.generation)
    && (forall i :: 0 <= i < |w.loads| && w.loads[i].Read? ==> w.loads[i].generation <= w.cache.generation)
  }

  /** Steps of one load that concern nothing but that load and its shared promise. */
  predicate IsLoadStep(s: Step) {
    s.ReadTakesEffect? || s.ReadFails? || s.WaitEnds? || s.FinallyRuns?
  }

  lemma LoadsOkCall(w: World)
    requires LoadsOk(w)
    ensures LoadsOk(Apply(w, CallLoad))
  {}

  lemma LoadsOkLoadStep(w: World, s: Step)
    requires LoadsOk(w) && Enabled(w, s) && IsLoadStep(s)
    ensures LoadsOk(Apply(w, s))
  {}

  lemma LoadsOkContinuation(w: World, i: nat)
    requires LoadsOk(w) && Enabled(w, LoadContinues(i))
    ensures LoadsOk(AfterRead(w, i))
  {
    if w.loads[i].value != Malformed { RetryReadsItself(w, i); }
  }

  /** Steps at the head of the queue of issued writes. */
  predicate IsIssueStep(s: Step) {
    s.CallWrite? || s.WriteTakesEffect? || s.WriteFails?
  }

  lemma LoadsOkIssueStep(w: World, s: Step)
    requires LoadsOk(w) && Enabled(w, s) && IsIssueStep(s)
    ensures LoadsOk(Apply(w, s))
  {}

  lemma LoadsOkInstallStep(w: World, s: Step)
    requires LoadsOk(w) && Enabled(w, s) && (s.WriteContinues? || s.EventDelivered?)
    ensures LoadsOk(Apply(w, s))
  {}

  lemma LoadsOkKept(w: World, s: Step)
    requires LoadsOk(w) && Enabled(w, s)
    ensures LoadsOk(Apply(w, s))
  {
    if s.CallLoad? {
      LoadsOkCall(w);
    } else if s.LoadContinues? {
      LoadsOkContinuation(w, s.load);
    } else if IsLoadStep(s) {
      LoadsOkLoadStep(w, s);
    } else if IsIssueStep(s) {
      LoadsOkIssueStep(w, s);
    } else {
      LoadsOkInstallStep(w, s);
    }
  }

  /**
     After a generation change the retry answers what the cache holds or starts a read
     of its own: it never waits on a promise that already exists, let alone its own.
   */
  lemma RetryReadsItself(w: World, i: nat)
    requires LoadsOk(w) && Enabled(w, LoadContinues(i)) && w.loads[i].value != Malformed
    ensures w.loads[i].generation != w.cache.generation && w.cache.loaded ==>
      AfterRead(w, i).loads == w.loads[i := Settling(Resolved(w.cache.pairing))]
    ensures w.loads[i].generation != w.cache.generation && !w.cache.loaded ==>
      AfterRead(w, i).loads == w.loads[i := Waiting(|w.loads|)] + [Reading(w.cache.generation)]
  {}

  /** A load that commits answers the value it read, and leaves it in the cache. */
  lemma CommitAnswersRead(w: World, i: nat)
    requires Enabled(w, LoadContinues(i)) && Commits(w, LoadContinues(i), i)
    ensures AfterRead(w, i).loads[i].Settling? && AfterRead(w, i).loads[i].outcome.Resolved?
    ensures var answer := AfterRead(w, i).loads[i].outcome.pairing;
      && AfterRead(w, i).cache.loaded && AfterRead(w, i).cache.pairing == answer
      && (forall p :: answer == Some(p) <==> w.loads[i].value == Good(p))
      && (answer == None <==> w.loads[i].value == Absent)
  {}

  lemma {:induction false} LoadsOkAlways(w: World, steps: seq<Step>)
    requires LoadsOk(w)
    ensures Exec(w, steps).Some? ==> LoadsOk(Exec(w, steps).value)
    decreases steps
  {
    if steps != [] && Enabled(w, steps[0]) {
      LoadsOkKept(w, steps[0]);
      LoadsOkAlways(Apply(w, steps[0]), steps[1..]);
    }
  }

  /** No pending work is ever stuck: in every reachable state that is not quiescent, some pending piece can proceed. */
  lemma NeverStuck(store: Value, steps: seq<Step>)
    requires Exec(Start(store), steps).Some? && !Quiescent(Exec(Start(store), steps).value)
    ensures exists s: Step :: !s.CallLoad? && !s.CallWrite? && Enabled(Exec(Start(store), steps).value, s)
  {
    var w := Exec(Start(store), steps).value;
    LoadsOkAlways(Start(store), steps);
    if w.issued != [] {
      assert Enabled(w, WriteFails);
    } else if w.completed != [] {
      assert Enabled(w, WriteContinues);
    } else if w.events != [] {
      assert Enabled(w, EventDelivered);
    } else {
      var i :| 0 <= i < |w.loads| && !w.loads[i].Done?;
      PendingLoadProceeds(w, i);
    }
  }

  /** Follow the waits upwards: they end at a load that can proceed. */
  lemma {:induction false} PendingLoadProceeds(w: World, i: nat)
    requires LoadsOk(w) && w.issued == [] && w.completed == []
    requires i < |w.loads| && !w.loads[i].Done?
    ensures exists s: Step :: !s.CallLoad? && !s.CallWrite? && Enabled(w, s)
    decreases |w.loads| - i
  {
    match w.loads[i]
    case Reading(_) => assert Enabled(w, ReadFails(i));
    case Read(_, _) => assert Enabled(w, LoadContinues(i));
    case Settling(_) => assert Enabled(w, FinallyRuns(i));
    case Waiting(k) =>
      if w.loads[k].Done? { assert Enabled(w, WaitEnds(i)); } else { PendingLoadProceeds(w, k); }
    case Scrubbing => assert false;
  }

  // ---------- coherence ----------

  predicate Settled(w: World) {
    w.completed == [] && w.events == []
  }

  /** The facts that make the cache coherent in the end, when no malformed value is about. */
  predicate Tracking(w: World) {
    && w.store != Malformed
    && (forall x :: x in w.issued ==> !x.Scrub?)
    && (forall x :: x in w.completed ==> !x.Scrub?)
    && (forall v :: v in w.events ==> v != Malformed)
    && (w.completed != [] ==> Written(w.completed[|w.completed| - 1]) == w.store)
    && (w.events != [] ==> w.events[|w.events| - 1] == w.store)
    && (Settled(w) ==> Coherent(w))
    && (forall i :: 0 <= i < |w.loads| && w.loads[i].Read? ==> ReadTracks(w, w.loads[i]))
  }

  /** A value read is still the stored one, unless an installation is on its way or has changed the generation. */
  predicate ReadTracks(w: World, load: Load)
    requires load.Read?
  {
    && load.value != Malformed && load.generation <= w.cache.generation
    && (load.generation == w.cache.generation && Settled(w) ==> load.value == w.store)
  }

  lemma TrackingCall(w: World)
    requires LoadsOk(w) && Tracking(w)
    ensures Tracking(Apply(w, CallLoad))
  {}

  lemma TrackingContinuation(w: World, i: nat)
    requires LoadsOk(w) && Tracking(w) && Enabled(w, LoadContinues(i))
    ensures Tracking(AfterRead(w, i))
  {
    assert ReadTracks(w, w.loads[i]);
    RetryReadsItself(w, i);
  }

  lemma TrackingLoadStep(w: World, s: Step)
    requires LoadsOk(w) && Tracking(w) && Enabled(w, s) && IsLoadStep(s)
    ensures Tracking(Apply(w, s))
  {}

  lemma TrackingIssueStep(w: World, s: Step)
    requires LoadsOk(w) && Tracking(w) && Enabled(w, s) && IsIssueStep(s)
    ensures Tracking(Apply(w, s))
  {
    var w' := Apply(w, s);
    assert forall x :: x in w'.issued ==> x in w.issued || s == CallWrite(x);
    assert forall x :: x in w'.completed ==> x in w.completed || (s.WriteTakesEffect? && x == w.issued[0]);
    forall v | v in w'.events ensures v != Malformed {
      assert v in w.events || (s.WriteTakesEffect? && v == Written(w.issued[0]));
    }
  }

  lemma TrackingInstallStep(w: World, s: Step)
    requires LoadsOk(w) && Tracking(w) && Enabled(w, s) && (s.WriteContinues? || s.EventDelivered?)
    ensures Tracking(Apply(w, s))
  {
    forall v | v in Apply(w, s).events ensures v != Malformed {
      assert v in w.events;
    }
  }

  lemma TrackingKept(w: World, s: Step)
    requires LoadsOk(w) && Tracking(w) && Enabled(w, s)
    ensures Tracking(Apply(w, s))
  {
    if s.CallLoad? {
      TrackingCall(w);
    } else if s.LoadContinues? {
      TrackingContinuation(w, s.load);
    } else if IsLoadStep(s) {
      TrackingLoadStep(w, s);
    } else if IsIssueStep(s) {
      TrackingIssueStep(w, s);
    } else {
      TrackingInstallStep(w, s);
    }
  }

  lemma {:induction false} TrackingAlways(w: World, steps: seq<Step>)
    requires LoadsOk(w) && Tracking(w)
    ensures Exec(w, steps).Some? ==> Tracking(Exec(w, steps).value)
    decreases steps
  {
    if steps != [] && Enabled(w, steps[0]) {
      LoadsOkKept(w, steps[0]);
      TrackingKept(w, steps[0]);
      TrackingAlways(Apply(w, steps[0]), steps[1..]);
    }
  }

  /** Whatever the interleaving, the cache is coherent once nothing is pending. */
  ghost predicate AlwaysCoherent(store: Value) {
    forall steps :: Exec(Start(store), steps).Some? && Quiescent(Exec(Start(store), steps).value) ==>
      Coherent(Exec(Start(store), steps).value)
  }

  /**
     The cache is coherent at quiescence in every run exactly when the run does not
     begin with a malformed stored value.
   */
  lemma CoherentAtQuiescence(store: Value)
    ensures AlwaysCoherent(store) <==> store != Malformed
  {
    if store != Malformed {
      forall steps | Exec(Start(store), steps).Some? && Quiescent(Exec(Start(store), steps).value)
        ensures Coherent(Exec(Start(store), steps).value)
      {
        TrackingAlways(Start(store), steps);
      }
    } else {
      ScrubOvertakesSave(Pairing("nonce", 1, 1, "https://example.com", "document"));
    }
  }

  /** The failing run: a load scrubs the malformed value while a save is in flight, and the
      notification of the scrub arrives before the code behind the save runs. */
  function ScrubRun(p: Pairing): seq<Step> {
    [CallLoad, ReadTakesEffect(0), CallWrite(Save(p)), LoadContinues(0),
     WriteTakesEffect(true), WriteTakesEffect(true), EventDelivered, EventDelivered,
     WriteContinues, WriteContinues, FinallyRuns(0)]
  }

  lemma ScrubOvertakesSave(p: Pairing)
    ensures Exec(Start(Malformed), ScrubRun(p)) == Some(World(Cache(Some(p), true, 3, None), Absent, [], [], [], [Done(Failed)], [OfLoad(0)]))
    ensures !AlwaysCoherent(Malformed)
  {
    var steps := ScrubRun(p);
    assert steps[0..] == steps && steps[11..] == [];
    BothInFlight(p, steps);
    BothWritten(p, steps);
    BothNotified(p, steps);
    SaveIsLast(p, steps);
    var w := World(Cache(Some(p), true, 3, None), Absent, [], [], [], [Done(Failed)], [OfLoad(0)]);
    assert Quiescent(w) && !Coherent(w);
  }

  lemma BothInFlight(p: Pairing, steps: seq<Step>)
    requires steps == ScrubRun(p)
    ensures Exec(Start(Malformed), steps[0..]) ==
      Exec(World(Cache(None, false, 0, Some(0)), Malformed, [Save(p), Scrub(0)], [], [], [Scrubbing], [OfLoad(0)]), steps[4..])
  {
    var w := Next(Start(Malformed), steps, 0);
    w := Next(w, steps, 1);
    w := Next(w, steps, 2);
    w := Next(w, steps, 3);
    assert w.issued == [Save(p), Scrub(0)] && w.loads == [Scrubbing] && w.calls == [OfLoad(0)];
  }

  lemma BothWritten(p: Pairing, steps: seq<Step>)
    requires steps == ScrubRun(p)
    ensures Exec(World(Cache(None, false, 0, Some(0)), Malformed, [Save(p), Scrub(0)], [], [], [Scrubbing], [OfLoad(0)]), steps[4..]) ==
      Exec(World(Cache(None, false, 0, Some(0)), Absent, [], [Save(p), Scrub(0)], [Good(p), Absent], [Scrubbing], [OfLoad(0)]), steps[6..])
  {
    var w := Next(World(Cache(None, false, 0, Some(0)), Malformed, [Save(p), Scrub(0)], [], [], [Scrubbing], [OfLoad(0)]), steps, 4);
    w := Next(w, steps, 5);
    assert w.issued == [] && w.completed == [Save(p), Scrub(0)] && w.events == [Good(p), Absent];
  }

  lemma BothNotified(p: Pairing, steps: seq<Step>)
    requires steps == ScrubRun(p)
    ensures Exec(World(Cache(None, false, 0, Some(0)), Absent, [], [Save(p), Scrub(0)], [Good(p), Absent], [Scrubbing], [OfLoad(0)]), steps[6..]) ==
      Exec(World(Cache(None, true, 2, Some(0)), Absent, [], [Save(p), Scrub(0)], [], [Scrubbing], [OfLoad(0)]), steps[8..])
  {
    var w := Next(World(Cache(None, false, 0, Some(0)), Absent, [], [Save(p), Scrub(0)], [Good(p), Absent], [Scrubbing], [OfLoad(0)]), steps, 6);
    w := Next(w, steps, 7);
    assert w.events == [];
  }

  lemma SaveIsLast(p: Pairing, steps: seq<Step>)
    requires steps == ScrubRun(p)
    ensures Exec(World(Cache(None, true, 2, Some(0)), Absent, [], [Save(p), Scrub(0)], [], [Scrubbing], [OfLoad(0)]), steps[8..]) ==
      Exec(World(Cache(Some(p), true, 3, None), Absent, [], [], [], [Done(Failed)], [OfLoad(0)]), steps[11..])
  {
    var w := Next(World(Cache(None, true, 2, Some(0)), Absent, [], [Save(p), Scrub(0)], [], [Scrubbing], [OfLoad(0)]), steps, 8);
    w := Next(w, steps, 9);
    w := Next(w, steps, 10);
    assert w.completed == [] && w.loads == [Done(Failed)];
  }

  /** One step of a run. */
  lemma Next(w: World, steps: seq<Step>, k: nat) returns (w': World)
    requires k < |steps| && Enabled(w, steps[k])
    ensures w' == Apply(w, steps[k]) && Exec(w, steps[k..]) == Exec(w', steps[k + 1..])
  {
    w' := Apply(w, steps[k]);
    assert steps[k..][1..] == steps[k + 1..];
  }

  // ---------- what callers are answered ----------

  /** The answer says what the stored value is. */
  predicate Tells(answer: Option<Pairing>, v: Value) {
    match v
    case Good(p) => answer == Some(p)
    case Absent => answer == None
    case Malformed => false
  }

  /**
     In every run from a store that is not malformed, a load called when nothing is
     pending and the cache is loaded is answered at once, with what the store holds.
   */
  lemma LoadedCacheAnswersStore(store: Value, steps: seq<Step>)
    requires store != Malformed && Exec(Start(store), steps).Some?
    requires Quiescent(Exec(Start(store), steps).value) && Exec(Start(store), steps).value.cache.loaded
    ensures var w := Exec(Start(store), steps).value; var w' := Apply(w, CallLoad);
      && |w'.calls| == |w.calls| + 1 && w'.calls[|w.calls|].Given? && w'.loads == w.loads
      && (forall p :: w'.calls[|w.calls|].pairing == Some(p) <==> w.store == Good(p))
      && (w'.calls[|w.calls|].pairing == None <==> w.store == Absent)
  {
    TrackingAlways(Start(store), steps);
  }

  /**
     And if the cache is not loaded, the load reads, commits and answers what the store
     holds, provided nothing else happens meanwhile.
   */
  lemma UnloadedCacheReadsStore(store: Value, steps: seq<Step>)
    requires store != Malformed && Exec(Start(store), steps).Some?
    requires Quiescent(Exec(Start(store), steps).value) && !Exec(Start(store), steps).value.cache.loaded
    ensures var w := Exec(Start(store), steps).value; var n := |w.loads|;
      var end := Exec(w, [CallLoad, ReadTakesEffect(n), LoadContinues(n), FinallyRuns(n)]);
      && end.Some? && end.value.calls == w.calls + [OfLoad(n)] && n < |end.value.loads|
      && end.value.loads[n].Done? && end.value.loads[n].outcome.Resolved? && Tells(end.value.loads[n].outcome.pairing, w.store)
      && end.value.cache.loaded && end.value.cache.pairing == end.value.loads[n].outcome.pairing && end.value.store == w.store
  {
    TrackingAlways(Start(store), steps);
    LoadsOkAlways(Start(store), steps);
    ReadAlone(Exec(Start(store), steps).value);
  }

  /** One load on its own. */
  lemma ReadAlone(w: World)
    requires !w.cache.loaded && w.cache.loadPromise.None? && w.store != Malformed
    ensures var n := |w.loads|; var end := Exec(w, [CallLoad, ReadTakesEffect(n), LoadContinues(n), FinallyRuns(n)]);
      && end.Some? && end.value.calls == w.calls + [OfLoad(n)] && n < |end.value.loads|
      && end.value.loads[n].Done? && end.value.loads[n].outcome.Resolved? && Tells(end.value.loads[n].outcome.pairing, w.store)
      && end.value.cache.loaded && end.value.cache.pairing == end.value.loads[n].outcome.pairing && end.value.store == w.store
  {
    var n := |w.loads|;
    var tail := [CallLoad, ReadTakesEffect(n), LoadContinues(n), FinallyRuns(n)];
    assert tail[0..] == tail && tail[4..] == [];
    var w1 := Next(w, tail, 0);
    assert w1.loads[n] == Reading(w.cache.generation);
    var w2 := Next(w1, tail, 1);
    assert w2.loads[n] == Read(w.cache.generation, w.store);
    var w3 := Next(w2, tail, 2);
    var w4 := Next(w3, tail, 3);
  }

  /** `requireMatch`, given how its load was decided. */
  function RequireMatch(outcome: Outcome, sessionNonce: string, tabId: int): Option<Pairing> {
    if outcome == Failed || outcome.pairing.None? then None
    else if outcome.pairing.value.sessionNonce != sessionNonce || outcome.pairing.value.tabId != tabId then None
    else outcome.pairing
  }

  /** With nothing pending, a request is matched exactly with the stored pairing, and only under its nonce and tab. */
  lemma MatchIsStored(store: Value, steps: seq<Step>, sessionNonce: string, tabId: int, p: Pairing)
    requires store != Malformed && Exec(Start(store), steps).Some?
    requires Quiescent(Exec(Start(store), steps).value) && Exec(Start(store), steps).value.cache.loaded
    ensures var w := Exec(Start(store), steps).value; var w' := Apply(w, CallLoad);
      && |w'.calls| == |w.calls| + 1 && w'.calls[|w.calls|].Given?
      && (RequireMatch(Resolved(w'.calls[|w.calls|].pairing), sessionNonce, tabId) == Some(p) <==>
            w.store == Good(p) && p.sessionNonce == sessionNonce && p.tabId == tabId)
  {
    LoadedCacheAnswersStore(store, steps);
  }

  /** A load called while another is shared gets that one's promise. */
  lemma JoinedCallSharesPromise(w: World)
    requires !w.cache.loaded && w.cache.loadPromise.Some?
    ensures Apply(w, CallLoad).calls == w.calls + [OfLoad(w.cache.loadPromise.value)] && Apply(w, CallLoad).loads == w.loads
  {}

  /** The writes on their way, the oldest first. */
  function PendingWrites(w: World): seq<Write> {
    w.completed + w.issued
  }

  /** Each pending scrub is the one of a load that waits for it. */
  predicate ScrubsIn(pending: seq<Write>, loads: seq<Load>) {
    && (forall a :: 0 <= a < |pending| && pending[a].Scrub? ==> pending[a].load < |loads| && loads[pending[a].load] == Scrubbing)
    && (forall a, b :: 0 <= a < b < |pending| && pending[a].Scrub? ==> pending[a] != pending[b])
  }

  predicate ScrubsOk(w: World) {
    ScrubsIn(PendingWrites(w), w.loads)
  }

  lemma ScrubRemoved(pending: seq<Write>, loads: seq<Load>, k: nat, outcome: Outcome)
    requires ScrubsIn(pending, loads) && k < |pending|
    ensures ScrubsIn(pending[..k] + pending[k + 1..],
                     if pending[k].Scrub? && pending[k].load < |loads| then loads[pending[k].load := Settling(outcome)] else loads)
  {
    var rest := pending[..k] + pending[k + 1..];
    assert forall a :: 0 <= a < k ==> rest[a] == pending[a];
    assert forall a :: k <= a < |rest| ==> rest[a] == pending[a + 1];
  }

  /** Loads that do not wait for a scrub may move, as long as the others stay. */
  lemma OtherLoadsMoved(pending: seq<Write>, loads: seq<Load>, loads': seq<Load>)
    requires ScrubsIn(pending, loads) && |loads| <= |loads'|
    requires forall i :: 0 <= i < |loads| && loads[i] == Scrubbing ==> loads'[i] == Scrubbing
    ensures ScrubsIn(pending, loads')
  {}

  lemma WriteAdded(pending: seq<Write>, loads: seq<Load>, write: Write)
    requires ScrubsIn(pending, loads)
    ensures !write.Scrub? ==> ScrubsIn(pending + [write], loads)
    ensures write.Scrub? && write.load < |loads| && loads[write.load] != Scrubbing ==>
      ScrubsIn(pending + [write], loads[write.load := Scrubbing])
  {}

  /** A failing write leaves the queue, and the load that wanted it rejects. */
  lemma FailureRemoves(w: World)
    requires w.issued != []
    ensures var pending := PendingWrites(w); var w' := Apply(w, WriteFails); var k := |w.completed|;
      && k < |pending| && pending[k] == w.issued[0] && PendingWrites(w') == pending[..k] + pending[k + 1..]
      && w'.loads == if pending[k].Scrub? && pending[k].load < |w.loads| then w.loads[pending[k].load := Settling(Failed)] else w.loads
  {}

  /** So does a completed one, when its awaiting code runs. */
  lemma ContinuationRemoves(w: World)
    requires w.completed != []
    ensures var pending := PendingWrites(w); var w' := Apply(w, WriteContinues);
      && 0 < |pending| && pending[0] == w.completed[0] && PendingWrites(w') == pending[..0] + pending[1..]
      && w'.loads == if pending[0].Scrub? && pending[0].load < |w.loads| then w.loads[pending[0].load := Settling(Failed)] else w.loads
  {
    assert PendingWrites(w)[1..] == w.completed[1..] + w.issued;
  }

  lemma ScrubsOkAddition(w: World, s: Step)
    requires ScrubsOk(w) && Enabled(w, s)
    requires s.CallWrite? || (s.LoadContinues? && w.loads[s.load].value == Malformed)
    ensures ScrubsOk(Apply(w, s))
  {
    var write := if s.CallWrite? then s.write else Scrub(s.load);
    assert PendingWrites(Apply(w, s)) == PendingWrites(w) + [write];
    WriteAdded(PendingWrites(w), w.loads, write);
  }

  lemma ScrubsOkOther(w: World, s: Step)
    requires ScrubsOk(w) && Enabled(w, s)
    requires !s.WriteFails? && !s.WriteContinues? && !s.CallWrite? && !(s.LoadContinues? && w.loads[s.load].value == Malformed)
    ensures ScrubsOk(Apply(w, s))
  {
    assert PendingWrites(Apply(w, s)) == PendingWrites(w);
    OtherLoadsMoved(PendingWrites(w), w.loads, Apply(w, s).loads);
  }

  lemma ScrubsOkKept(w: World, s: Step)
    requires ScrubsOk(w) && Enabled(w, s)
    ensures ScrubsOk(Apply(w, s))
  {
    if s.WriteFails? {
      FailureRemoves(w);
      ScrubRemoved(PendingWrites(w), w.loads, |w.completed|, Failed);
    } else if s.WriteContinues? {
      ContinuationRemoves(w);
      ScrubRemoved(PendingWrites(w), w.loads, 0, Failed);
    } else if s.CallWrite? || (s.LoadContinues? && w.loads[s.load].value == Malformed) {
      ScrubsOkAddition(w, s);
    } else {
      ScrubsOkOther(w, s);
    }
  }

  /** The load whose scrub is at the head of a queue waits for it. */
  lemma HeadScrubWaits(w: World)
    requires ScrubsOk(w)
    ensures w.issued != [] && w.issued[0].Scrub? ==> w.issued[0].load < |w.loads| && w.loads[w.issued[0].load] == Scrubbing
    ensures w.completed != [] && w.completed[0].Scrub? ==> w.completed[0].load < |w.loads| && w.loads[w.completed[0].load] == Scrubbing
  {
    var pending := PendingWrites(w);
    assert w.issued != [] ==> pending[|w.completed|] == w.issued[0];
    assert w.completed != [] ==> pending[0] == w.completed[0];
  }

  /** A decided promise stays decided, and in the same way. */
  lemma OutcomesStay(w: World, s: Step, w': World, i: nat)
    requires LoadsOk(w) && ScrubsOk(w) && IsStep(w, s, w') && i < |w.loads|
    ensures i < |w'.loads|
    ensures w.loads[i].Done? ==> w'.loads[i] == w.loads[i]
    ensures w.loads[i].Settling? ==> w'.loads[i] == w.loads[i] || w'.loads[i] == Done(w.loads[i].outcome)
    ensures w.loads[i].Waiting? ==>
      w'.loads[i] == w.loads[i] || (w.loads[w.loads[i].load].Done? && w'.loads[i] == Settling(w.loads[w.loads[i].load].outcome))
  {
    HeadScrubWaits(w);
  }

  /** Once it is decided, a waiting load answers what the load it waits for has answered. */
  lemma {:induction false} WaitingAnswersTheSame(ws: seq<World>, steps: seq<Step>, i: nat, k: nat, a: nat, b: nat)
    requires IsRun(ws, steps) && a <= b < |ws| && LoadsOk(ws[a]) && ScrubsOk(ws[a])
    requires i < |ws[a].loads| && ws[a].loads[i] == Waiting(k)
    ensures LoadsOk(ws[b]) && ScrubsOk(ws[b]) && i < |ws[b].loads| && k < |ws[b].loads|
    ensures ws[b].loads[i] == Waiting(k)
         || (ws[b].loads[k].Done? && ws[b].loads[i] in {Settling(ws[b].loads[k].outcome), Done(ws[b].loads[k].outcome)})
    decreases b
  {
    if a < b {
      WaitingAnswersTheSame(ws, steps, i, k, a, b - 1);
      assert IsStep(ws[b - 1], steps[b - 1], ws[b]);
      LoadsOkKept(ws[b - 1], steps[b - 1]);
      ScrubsOkKept(ws[b - 1], steps[b - 1]);
      OutcomesStay(ws[b - 1], steps[b - 1], ws[b], i);
      OutcomesStay(ws[b - 1], steps[b - 1], ws[b], k);
    }
  }

  /** The value an answer stands for. */
  function AsValue(answer: Option<Pairing>): Value {
    match answer case Some(p) => Good(p) case None => Absent
  }

  /** All that is cached, on its way, or answered is among the values `seen` in the store. */
  predicate FromStore(w: World, seen: set<Value>) {
    && w.store in seen
    && (w.cache.loaded ==> AsValue(w.cache.pairing) in seen)
    && (forall x :: x in w.completed ==> Written(x) in seen)
    && (forall v :: v in w.events ==> v in seen)
    && (forall i :: 0 <= i < |w.loads| ==> LoadFromStore(w.loads[i], seen))
    && (forall i :: 0 <= i < |w.calls| && w.calls[i].Given? ==> AsValue(w.calls[i].pairing) in seen)
  }

  predicate LoadFromStore(load: Load, seen: set<Value>) {
    match load
    case Read(_, v) => v in seen
    case Settling(Resolved(answer)) => AsValue(answer) in seen
    case Done(Resolved(answer)) => AsValue(answer) in seen
    case _ => true
  }

  lemma FromStoreKept(w: World, s: Step, seen: set<Value>)
    requires LoadsOk(w) && FromStore(w, seen) && Enabled(w, s)
    ensures FromStore(Apply(w, s), seen + {Apply(w, s).store})
  {
    var w' := Apply(w, s);
    FromStoreWrites(w, s, seen);
    FromStoreLoads(w, s, seen);
  }

  lemma FromStoreWrites(w: World, s: Step, seen: set<Value>)
    requires FromStore(w, seen) && Enabled(w, s)
    ensures var w' := Apply(w, s); var more := seen + {w'.store};
      && (forall x :: x in w'.completed ==> Written(x) in more) && (forall v :: v in w'.events ==> v in more)
  {
    var w' := Apply(w, s);
    forall x | x in w'.completed ensures Written(x) in seen + {w'.store} {
      assert x in w.completed || (s.WriteTakesEffect? && x == w.issued[0]);
    }
    forall v | v in w'.events ensures v in seen + {w'.store} {
      assert v in w.events || (s.WriteTakesEffect? && v == w'.store);
    }
  }

  lemma FromStoreLoads(w: World, s: Step, seen: set<Value>)
    requires LoadsOk(w) && FromStore(w, seen) && Enabled(w, s)
    ensures var w' := Apply(w, s); var more := seen + {w'.store};
      && (w'.cache.loaded ==> AsValue(w'.cache.pairing) in more)
      && (forall i :: 0 <= i < |w'.loads| ==> LoadFromStore(w'.loads[i], more))
      && (forall i :: 0 <= i < |w'.calls| && w'.calls[i].Given? ==> AsValue(w'.calls[i].pairing) in more)
  {
    if s.LoadContinues? { assert LoadFromStore(w.loads[s.load], seen); }
    if s.FinallyRuns? { assert LoadFromStore(w.loads[s.load], seen); }
    if s.WaitEnds? { assert LoadFromStore(w.loads[w.loads[s.load].load], seen); }
    if s.WriteContinues? { assert Written(w.completed[0]) in seen; }
    if s.EventDelivered? { assert w.events[0] in seen; }
  }

  function Stores(ws: seq<World>): set<Value> {
    set w | w in ws :: w.store
  }

  /** No answer is invented: whatever any caller is answered in any run, the store has held it. */
  lemma {:induction false} AnswersWereStored(ws: seq<World>, steps: seq<Step>, store: Value)
    requires IsRun(ws, steps) && ws[0] == Start(store)
    ensures LoadsOk(ws[|ws| - 1]) && FromStore(ws[|ws| - 1], Stores(ws))
    decreases |steps|
  {
    if steps == [] {
      assert ws[0] in ws;
    } else {
      var n := |steps| - 1;
      var earlier := ws[..n + 1];
      assert forall i :: 0 <= i < n ==> IsStep(earlier[i], steps[..n][i], earlier[i + 1]);
      AnswersWereStored(earlier, steps[..n], store);
      assert IsStep(ws[n], steps[n], ws[n + 1]);
      LoadsOkKept(ws[n], steps[n]);
      FromStoreKept(ws[n], steps[n], Stores(earlier));
      assert ws == earlier + [ws[n + 1]];
      assert Stores(ws) == Stores(earlier) + {ws[n + 1].store};
    }
  }

  // ---------- no stale commit ----------

  /** The worlds a run passes through. */
  predicate IsRun(ws: seq<World>, steps: seq<Step>) {
    |ws| == |steps| + 1 && forall i :: 0 <= i < |steps| ==> IsStep(ws[i], steps[i], ws[i + 1])
  }

  predicate IsStep(w: World, s: Step, w': World) {
    Enabled(w, s) && w' == Apply(w, s)
  }

  /** The step puts a saved, cleared or notified value into the cache. */
  predicate Installs(w: World, s: Step) {
    (s.EventDelivered? && w.events != []) || (s.WriteContinues? && w.completed != [] && !w.completed[0].Scrub?)
  }

  /** The step puts the value read by load `i` into the cache. */
  predicate Commits(w: World, s: Step, i: nat) {
    && s == LoadContinues(i) && i < |w.loads| && w.loads[i].Read?
    && w.loads[i].value != Malformed && w.loads[i].generation == w.cache.generation
  }

  function GenerationOf(load: Load): Option<nat> {
    match load
    case Reading(g) => Some(g)
    case Read(g, _) => Some(g)
    case _ => None
  }

  /** A load keeps the generation it started with, and starts with the current one. */
  lemma LoadGeneration(w: World, s: Step, w': World, i: nat)
    requires IsStep(w, s, w') && i < |w'.loads| && GenerationOf(w'.loads[i]).Some?
    ensures if i < |w.loads| then GenerationOf(w.loads[i]) == GenerationOf(w'.loads[i])
            else GenerationOf(w'.loads[i]) == Some(w'.cache.generation)
  {}

  lemma GenerationGrows(w: World, s: Step, w': World)
    requires IsStep(w, s, w')
    ensures w.cache.generation <= w'.cache.generation
    ensures Installs(w, s) ==> w.cache.generation < w'.cache.generation
    ensures |w.loads| <= |w'.loads|
  {}

  /** Loads are only added, and the generation never falls. */
  lemma {:induction false} OnlyGrows(ws: seq<World>, steps: seq<Step>, a: nat, b: nat)
    requires IsRun(ws, steps) && a <= b < |ws|
    ensures |ws[a].loads| <= |ws[b].loads| && ws[a].cache.generation <= ws[b].cache.generation
    decreases b
  {
    if a < b {
      assert IsStep(ws[b - 1], steps[b - 1], ws[b]);
      GenerationGrows(ws[b - 1], steps[b - 1], ws[b]);
      OnlyGrows(ws, steps, a, b - 1);
    }
  }

  /** A load still has, in step `j`, the generation it started with after step `i`. */
  lemma {:induction false} BackToStart(ws: seq<World>, steps: seq<Step>, id: nat, i: nat, j: nat)
    requires IsRun(ws, steps) && i < j < |ws|
    requires |ws[i].loads| <= id < |ws[i + 1].loads|
    requires id < |ws[j].loads| && GenerationOf(ws[j].loads[id]).Some?
    ensures GenerationOf(ws[j].loads[id]) == Some(ws[i + 1].cache.generation)
    decreases j
  {
    assert IsStep(ws[j - 1], steps[j - 1], ws[j]);
    LoadGeneration(ws[j - 1], steps[j - 1], ws[j], id);
    if i + 1 < j {
      OnlyGrows(ws, steps, i + 1, j - 1);
      BackToStart(ws, steps, id, i, j - 1);
    }
  }

  /** No load ever commits over a value installed after the load started. */
  lemma NoStaleCommit(ws: seq<World>, steps: seq<Step>, id: nat, i: nat, j: nat)
    requires IsRun(ws, steps) && i < j < |steps|
    requires |ws[i].loads| <= id < |ws[i + 1].loads|
    requires Commits(ws[j], steps[j], id)
    ensures forall k :: i < k < j ==> !Installs(ws[k], steps[k])
  {
    BackToStart(ws, steps, id, i, j);
    forall k | i < k < j ensures !Installs(ws[k], steps[k]) {
      assert IsStep(ws[k], steps[k], ws[k + 1]);
      GenerationGrows(ws[k], steps[k], ws[k + 1]);
      OnlyGrows(ws, steps, i + 1, k);
      OnlyGrows(ws, steps, k + 1, j);
    }
  }
}
