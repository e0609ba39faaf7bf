/**
 Model of the native-port part of browser-extension/chrome/entrypoints/background.ts
 (lines 115-254 and 281-288): port generations, the handshake flag, and the
 serialized queue of pairing updates.

 `Background` holds the variables; its methods are the code between two awaits.
 The world around it adds the stored pairing, tagged with the generation of the
 port it was saved for, and steps that arrive in any order.
 */
module NativePorts {
  import opened Common

  /** The task put into a slot of `pairingUpdates`. */
  datatype Update =
    | SaveAndConnect(nonce: string)
    | ClearIfCurrent(generation: nat)
    | RevokeFor(port: nat)
    | StartupClear

  /** What the first native message of a port is to the handshake. */
  datatype Message = Message(validAck: bool, taskOwnedPairing: bool)

  /**
     `running` is the update whose slot is open and whose store write has been
     issued. Ports are numbered in the order they are connected.
   */
  datatype Vars = Vars(port: Option<nat>, generation: nat, handshake: bool, queue: seq<Update>, running: Option<Update>, ports: nat)

  function Fail(v: Vars, port: nat): Vars {
    if v.port != Some(port) then v
    else v.(port := None, handshake := false, queue := v.queue + [ClearIfCurrent(v.generation)])
  }

  function Connect(v: Vars): Vars {
    v.(port := Some(v.ports), ports := v.ports + 1, generation := v.generation + 1, handshake := false)
  }

  /** The slot opens: the task runs up to its store write, or ends without one. */
  function OpenSlot(v: Vars): Vars
    requires v.queue != []
  {
    var rest := v.(queue := v.queue[1..]);
    match v.queue[0]
    case ClearIfCurrent(g) => if v.generation != g then rest else rest.(running := Some(v.queue[0]))
    case RevokeFor(p) => if v.port != Some(p) then rest else rest.(running := Some(v.queue[0]))
    case _ => rest.(running := Some(v.queue[0]))
  }

  /** The awaited write is over: a successful save is followed by the connect in the same slot. */
  function CloseSlot(v: Vars, success: bool): Vars
    requires v.running.Some?
  {
    var closed := v.(running := None);
    if v.running.value.SaveAndConnect? && success then Connect(closed) else closed
  }

  /** A message of `port` reaches the head of its request queue. */
  function Deliver(v: Vars, port: nat, m: Message): Vars {
    if v.port != Some(port) || v.handshake then v
    else if m.validAck && m.taskOwnedPairing then v.(handshake := true)
    else Fail(v, port)
  }

  class Background {
    var nativePort: Option<nat>
    var nativePortGeneration: nat
    var nativeHandshakeComplete: bool
    var pairingUpdates: seq<Update>
    var running: Option<Update>
    var ports: nat

    function State(): Vars reads this {
      Vars(nativePort, nativePortGeneration, nativeHandshakeComplete, pairingUpdates, running, ports)
    }

    constructor ()
      ensures State() == Vars(None, 0, false, [StartupClear], None, 0)
    {
      nativePort, nativePortGeneration, nativeHandshakeComplete := None, 0, false;
      pairingUpdates, running, ports := [StartupClear], None, 0;
    }

    method UpdatePairing(update: Update)
      modifies this
      ensures State() == old(State()).(queue := old(State()).queue + [update])
    {
      pairingUpdates := pairingUpdates + [update];
    }

    method FailCurrentPort(port: nat)
      modifies this
      ensures State() == Fail(old(State()), port)
    {
      if nativePort != Some(port) { return; }
      var generation := nativePortGeneration;
      nativePort := None;
      nativeHandshakeComplete := false;
      UpdatePairing(ClearIfCurrent(generation));
    }

    method ConnectNative()
      modifies this
      ensures State() == Connect(old(State()))
    {
      var port := ports;
      ports := ports + 1;
      nativePort := Some(port);
      nativePortGeneration := nativePortGeneration + 1;
      nativeHandshakeComplete := false;
    }

    method StartUpdate()
      requires running.None? && pairingUpdates != []
      modifies this
      ensures State() == OpenSlot(old(State()))
    {
      var update := pairingUpdates[0];
      pairingUpdates := pairingUpdates[1..];
      if update.ClearIfCurrent? && nativePortGeneration != update.generation { return; }
      if update.RevokeFor? && nativePort != Some(update.port) { return; }
      running := Some(update);
    }

    method FinishUpdate(success: bool)
      requires running.Some?
      modifies this
      ensures State() == CloseSlot(old(State()), success)
    {
      var update := running.value;
      running := None;
      if update.SaveAndConnect? && success { ConnectNative(); }
    }

    method OnMessage(port: nat, message: Message)
      modifies this
      ensures State() == Deliver(old(State()), port, message)
    {
      if nativePort != Some(port) { return; }
      if !nativeHandshakeComplete {
        if message.validAck && message.taskOwnedPairing {
          nativeHandshakeComplete := true;
        } else {
          FailCurrentPort(port);
        }
      }
    }
  }

  // ---------- the world ----------

  /** A stored pairing, and the generation of the port it was saved for. */
  datatype Saved = Saved(nonce: string, generation: nat)

  /**
     `written`: the write of the running update has reached the store. `messages` is
     the log of deliveries. `failedClears` are the generations whose clear ended
     without having reached the store; the one at startup counts for generation 0.
   */
  datatype World = World(vars: Vars, written: bool, store: Option<Saved>, messages: seq<(nat, Message)>, failedClears: set<nat>)

  datatype Step =
    | Enqueue(update: Update)
    | SlotOpens
    | StoreWritten
    | SlotCloses
    | Disconnects(port: nat)
    | MessageArrives(port: nat, message: Message)
    | ClearedOutsideQueue

  predicate Enabled(w: World, s: Step) {
    match s
    case Enqueue(u) => !u.ClearIfCurrent?
    case SlotOpens => w.vars.running.None? && w.vars.queue != []
    case StoreWritten => w.vars.running.Some? && !w.written
    case SlotCloses => w.vars.running.Some?
    case Disconnects(p) => p < w.vars.ports
    case MessageArrives(p, _) => p < w.vars.ports
    case ClearedOutsideQueue => true
  }

  /** What the write of an update leaves in the store. */
  function Write(v: Vars, u: Update): Option<Saved> {
    if u.SaveAndConnect? then Some(Saved(u.nonce, v.generation + 1)) else None
  }

  /** The generation an update clears, if it is a clear. */
  function Clears(u: Update): set<nat> {
    match u
    case ClearIfCurrent(g) => {g}
    case StartupClear => {0}
    case _ => {}
  }

  function Apply(w: World, s: Step): World
    requires Enabled(w, s)
  {
    match s
    case Enqueue(u) => w.(vars := w.vars.(queue := w.vars.queue + [u]))
    case SlotOpens => w.(vars := OpenSlot(w.vars), written := false)
    case StoreWritten => w.(store := Write(w.vars, w.vars.running.value), written := true)
    case SlotCloses =>
      w.(vars := CloseSlot(w.vars, w.written), written := false,
         failedClears := if w.written then w.failedClears else w.failedClears + Clears(w.vars.running.value))
    case Disconnects(p) => w.(vars := Fail(w.vars, p))
    case MessageArrives(p, m) => w.(vars := Deliver(w.vars, p, m), messages := w.messages + [(p, m)])
    case ClearedOutsideQueue => w.(store := None)
  }

  function Start(store: Option<Saved>): World {
    World(Vars(None, 0, false, [StartupClear], None, 0), false, store, [], {})
  }

  function Exec(w: World, steps: seq<Step>): Option<World>
    decreases steps
  {
    if steps == [] then Some(w)
    else if Enabled(w, steps[0]) then Exec(Apply(w, steps[0]), steps[1..]) else None
  }

  /** The generation counts the connects, and the current port is the latest one connected. */
  predicate Inv(w: World) {
    && w.vars.ports == w.vars.generation
    && (w.vars.port.Some? ==> w.vars.generation == w.vars.port.value + 1)
    && (w.vars.handshake ==> w.vars.port.Some? && Acknowledged(w.messages, w.vars.port.value))
    && (forall i :: 0 <= i < |w.messages| ==> w.messages[i].0 < w.vars.ports)
    && (w.vars.running.Some? && w.vars.running.value.ClearIfCurrent? ==> w.vars.running.value.generation == w.vars.generation)
    && (w.vars.running.Some? && w.vars.running.value.RevokeFor? ==> w.vars.running.value.port + 1 == w.vars.generation)
    && (w.store.Some? ==> w.store.value.generation <= w.vars.generation + if AboutToConnect(w) then 1 else 0)
    && (w.written ==> w.vars.running.Some?)
  }

  /** A pairing was just saved, and its port will be connected before the slot closes. */
  predicate AboutToConnect(w: World) {
    w.written && w.vars.running.Some? && w.vars.running.value.SaveAndConnect?
  }

  /** The port itself delivered a valid acknowledgement with the required capability. */
  predicate Acknowledged(messages: seq<(nat, Message)>, port: nat) {
    exists i :: 0 <= i < |messages| && messages[i].0 == port && messages[i].1 == Message(true, true)
  }

  lemma AcknowledgedStays(messages: seq<(nat, Message)>, port: nat, next: (nat, Message))
    ensures Acknowledged(messages, port) ==> Acknowledged(messages + [next], port)
    ensures next == (port, Message(true, true)) ==> Acknowledged(messages + [next], port)
  {
    var longer := messages + [next];
    if Acknowledged(messages, port) {
      var i :| 0 <= i < |messages| && messages[i].0 == port && messages[i].1 == Message(true, true);
      assert longer[i] == messages[i];
    }
    assert longer[|messages|] == next;
  }

  lemma InvKept(w: World, s: Step)
    requires Inv(w) && Enabled(w, s)
    ensures Inv(Apply(w, s))
  {
    if s.MessageArrives? && w.vars.port.Some? { AcknowledgedStays(w.messages, w.vars.port.value, (s.port, s.message)); }
  }

  lemma {:induction false} InvAlways(w: World, steps: seq<Step>)
    requires Inv(w)
    ensures Exec(w, steps).Some? ==> Inv(Exec(w, steps).value)
    decreases steps
  {
    if steps != [] && Enabled(w, steps[0]) {
      InvKept(w, steps[0]);
      InvAlways(Apply(w, steps[0]), steps[1..]);
    }
  }

  /** A clear of generation `g` is queued, or is running and has not reached the store, or was attempted and failed. */
  predicate ClearPending(w: World, g: nat) {
    || (exists i :: 0 <= i < |w.vars.queue| && g in Clears(w.vars.queue[i]))
    || (w.vars.running.Some? && !w.written && g in Clears(w.vars.running.value))
    || g in w.failedClears
  }

  /** A pairing stored for the current generation whose port is gone is about to be cleared. */
  predicate Reacts(w: World) {
    && (w.vars.port.None? && w.store.Some? && w.store.value.generation == w.vars.generation ==> ClearPending(w, w.vars.generation))
    && (w.written && w.vars.running.Some? && Clears(w.vars.running.value) != {} ==> w.store.None?)
  }

  lemma ClearStaysQueued(w: World, g: nat, u: Update)
    requires ClearPending(w, g)
    ensures ClearPending(w.(vars := w.vars.(queue := w.vars.queue + [u])), g)
  {
    if i :| 0 <= i < |w.vars.queue| && g in Clears(w.vars.queue[i]) {
      assert (w.vars.queue + [u])[i] == w.vars.queue[i];
    }
  }

  /** A slot that opens either runs the clear or drops one of another generation. */
  lemma OpeningKeepsClear(w: World)
    requires Enabled(w, SlotOpens) && Inv(w) && ClearPending(w, w.vars.generation)
    ensures ClearPending(Apply(w, SlotOpens), w.vars.generation)
  {
    var g := w.vars.generation;
    if i :| 0 <= i < |w.vars.queue| && g in Clears(w.vars.queue[i]) {
      if i > 0 { assert Apply(w, SlotOpens).vars.queue[i - 1] == w.vars.queue[i]; }
    }
  }

  lemma FailureQueuesClear(w: World, port: nat)
    ensures w.vars.port == Some(port) ==> ClearPending(w.(vars := Fail(w.vars, port)), w.vars.generation)
  {
    if w.vars.port == Some(port) {
      var queue := Fail(w.vars, port).queue;
      assert w.vars.generation in Clears(queue[|queue| - 1]);
    }
  }

  lemma ReactsKept(w: World, s: Step)
    requires Inv(w) && Reacts(w) && Enabled(w, s)
    ensures Reacts(Apply(w, s))
  {
    var g := w.vars.generation;
    match s
    case Enqueue(u) => if ClearPending(w, g) { ClearStaysQueued(w, g, u); }
    case SlotOpens => if ClearPending(w, g) { OpeningKeepsClear(w); }
    case Disconnects(p) => FailureQueuesClear(w, p);
    case MessageArrives(p, m) => FailureQueuesClear(w, p);
    case _ =>
  }

  lemma {:induction false} ReactsAlways(w: World, steps: seq<Step>)
    requires Inv(w) && Reacts(w)
    ensures Exec(w, steps).Some? ==> Inv(Exec(w, steps).value) && Reacts(Exec(w, steps).value)
    decreases steps
  {
    if steps != [] && Enabled(w, steps[0]) {
      InvKept(w, steps[0]);
      ReactsKept(w, steps[0]);
      ReactsAlways(Apply(w, steps[0]), steps[1..]);
    }
  }

  // ---------- results ----------

  /**
     When the queued reaction to the failure of a port clears the store, that port's
     generation is still the current one, and what it clears was not saved for a
     newer port. The same holds for the revocation before a navigation.
   */
  lemma ClearsOnlyItsOwnGeneration(store: Option<Saved>, steps: seq<Step>)
    requires store.None? || store.value.generation == 0
    requires Exec(Start(store), steps).Some?
    ensures var w := Exec(Start(store), steps).value;
      Enabled(w, StoreWritten) ==>
        && (w.vars.running.value.ClearIfCurrent? ==>
              w.vars.running.value.generation == w.vars.generation
              && (w.store.Some? ==> w.store.value.generation <= w.vars.running.value.generation))
        && (w.vars.running.value.RevokeFor? ==>
              w.store.Some? ==> w.store.value.generation <= w.vars.running.value.port + 1)
  {
    InvAlways(Start(store), steps);
  }

  /**
     No pairing outlives its port for want of a reaction: in every run, if the port is
     gone and the store holds a pairing of the current generation, then a clear of that
     generation is queued, or running, or was attempted and failed.
   */
  lemma LostPortIsCleared(store: Option<Saved>, steps: seq<Step>)
    requires store.None? || store.value.generation == 0
    requires Exec(Start(store), steps).Some?
    ensures var w := Exec(Start(store), steps).value;
      w.vars.port.None? && w.store.Some? && w.store.value.generation == w.vars.generation ==>
        || (exists i :: 0 <= i < |w.vars.queue| && IsClearOf(w.vars.queue[i], w.vars.generation))
        || (w.vars.running.Some? && IsClearOf(w.vars.running.value, w.vars.generation) && !w.written)
        || w.vars.generation in w.failedClears
  {
    assert Clears(Start(store).vars.queue[0]) == {0};
    ReactsAlways(Start(store), steps);
    var w := Exec(Start(store), steps).value;
    if i :| 0 <= i < |w.vars.queue| && w.vars.generation in Clears(w.vars.queue[i]) {
      assert IsClearOf(w.vars.queue[i], w.vars.generation);
    }
  }

  predicate IsClearOf(u: Update, g: nat) {
    u == ClearIfCurrent(g) || (u == StartupClear && g == 0)
  }

  /** And with no update left, no failed clear and no port, no pairing of the current generation is left either. */
  lemma NothingLeftBehind(store: Option<Saved>, steps: seq<Step>)
    requires store.None? || store.value.generation == 0
    requires Exec(Start(store), steps).Some?
    ensures var w := Exec(Start(store), steps).value;
      w.vars.port.None? && w.vars.queue == [] && w.vars.running.None? && w.failedClears == {} && w.store.Some? ==>
        w.store.value.generation < w.vars.generation
  {
    LostPortIsCleared(store, steps);
    InvAlways(Start(store), steps);
  }

  /** When the slot of the clear opens with its generation unchanged and its write takes effect, the store is empty. */
  lemma ClearEmptiesStore(w: World, g: nat)
    requires Enabled(w, SlotOpens) && w.vars.queue[0] == ClearIfCurrent(g) && w.vars.generation == g
    ensures Apply(w, SlotOpens).vars.running == Some(ClearIfCurrent(g)) && Enabled(Apply(w, SlotOpens), StoreWritten)
    ensures Apply(Apply(w, SlotOpens), StoreWritten).store == None
  {}

  /** A navigation revokes the pairing of its own port: the store is emptied if that port is still the current one, and otherwise nothing is written. */
  lemma RevocationEmptiesStore(w: World, port: nat)
    requires Enabled(w, SlotOpens) && w.vars.queue[0] == RevokeFor(port)
    ensures w.vars.port == Some(port) ==>
      Enabled(Apply(w, SlotOpens), StoreWritten) && Apply(Apply(w, SlotOpens), StoreWritten).store == None
    ensures w.vars.port != Some(port) ==> Apply(w, SlotOpens).vars.running == None && Apply(w, SlotOpens).store == w.store
    ensures Apply(w, SlotOpens).vars.queue == w.vars.queue[1..] && Apply(w, SlotOpens).vars.port == w.vars.port
  {}

  /** A failing port, or a first message that is no valid capable acknowledgement, drops the current port and queues its clear. */
  lemma BadHandshakeFailsThePort(w: World, port: nat, m: Message)
    requires Enabled(w, MessageArrives(port, m)) && w.vars.port == Some(port) && !w.vars.handshake
    ensures var w' := Apply(w, MessageArrives(port, m));
      if m == Message(true, true) then w'.vars.handshake && w'.vars.port == Some(port) && w'.vars.queue == w.vars.queue
      else w'.vars.port == None && !w'.vars.handshake && w'.vars.queue == w.vars.queue + [ClearIfCurrent(w.vars.generation)]
  {}

  /** A pairing that is saved gets a port of its own, and is stored under that port's generation. */
  lemma SavedPairingIsConnected(w: World, nonce: string)
    requires Inv(w) && Enabled(w, SlotOpens) && w.vars.queue[0] == SaveAndConnect(nonce)
    ensures var during := Apply(w, SlotOpens);
      Enabled(during, StoreWritten) && Enabled(Apply(during, StoreWritten), SlotCloses)
    ensures var end := Apply(Apply(Apply(w, SlotOpens), StoreWritten), SlotCloses);
      && end.vars.port == Some(w.vars.ports) && end.vars.ports == w.vars.ports + 1 && !end.vars.handshake
      && end.store == Some(Saved(nonce, end.vars.generation)) && end.vars.generation == w.vars.generation + 1
  {}

  /** The handshake flag means that the current port, the newest, delivered a valid capable acknowledgement itself. */
  lemma HandshakeIsByCurrentPort(store: Option<Saved>, steps: seq<Step>)
    requires store.None? || store.value.generation == 0
    requires Exec(Start(store), steps).Some? && Exec(Start(store), steps).value.vars.handshake
    ensures var w := Exec(Start(store), steps).value;
      w.vars.port == Some(w.vars.ports - 1) && Acknowledged(w.messages, w.vars.ports - 1)
  {
    InvAlways(Start(store), steps);
  }

  /** A disconnect of any port but the current one changes nothing, and a task queued for an older generation writes nothing. */
  lemma OldPortsAreIgnored(store: Option<Saved>, steps: seq<Step>, port: nat)
    requires store.None? || store.value.generation == 0
    requires Exec(Start(store), steps).Some?
    ensures var w := Exec(Start(store), steps).value;
      && (port + 1 < w.vars.ports ==> Apply(w, Disconnects(port)) == w)
      && (w.vars.running.None? && w.vars.queue != [] && w.vars.queue[0].ClearIfCurrent? && w.vars.queue[0].generation < w.vars.generation ==>
            Apply(w, SlotOpens).vars.running.None? && Apply(w, SlotOpens).store == w.store)
  {
    InvAlways(Start(store), steps);
  }

  /**
     Saving and connecting share a slot: between the write of a pairing and the
     connect that it is for, no other queued task can touch the store. Over any
     stretch of steps in which that slot stays open, the pairing can only be lost
     to a clear outside the queue.
   */
  lemma {:induction false} SavedPairingReachesItsPort(w: World, steps: seq<Step>)
    requires Inv(w) && w.written && w.vars.running.Some? && w.vars.running.value.SaveAndConnect?
    requires w.store == Some(Saved(w.vars.running.value.nonce, w.vars.generation + 1))
    requires Exec(w, steps).Some?
    requires forall i :: 0 <= i < |steps| ==> steps[i] != ClearedOutsideQueue && steps[i] != SlotCloses
    ensures var w' := Exec(w, steps).value;
      && w'.store == w.store && w'.vars.running == w.vars.running && w'.written
      && Apply(w', SlotCloses).vars.port.Some?
      && Apply(w', SlotCloses).vars.generation == w.store.value.generation
      && Apply(w', SlotCloses).store == w.store
    decreases steps
  {
    if steps != [] {
      InvKept(w, steps[0]);
      SavedPairingReachesItsPort(Apply(w, steps[0]), steps[1..]);
    }
  }
}
