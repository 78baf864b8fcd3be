/** The cross-window event bus of shared/contexts/EventContext.tsx.

    The host side (`EventHub`) is what every window shares: the browser's `localStorage` entries under
    `event:<type>` and the Tauri broadcast transport with its table of live listeners. Every effect the
    bus has on the host (a durable write, a delivery to a listener) is appended to `log`, so the order of
    effects is part of the state. `Emitter` is the implementation a provider picks once (`createTauriEmitter`
    or `createWebEmitter`), and `ListenerHook` is one mounted `useEventListener` hook. */
module Events {
  import opened Wrappers

  /** `getEventStorageKey`. */
  function StorageKey(eventType: string): (key: string)
    ensures |key| == |eventType| + 6
    ensures key[..6] == "event:" && key[6..] == eventType
  {
    "event:" + eventType
  }

  /** Distinct event types are stored under distinct keys. */
  lemma StorageKeyInjective(a: string, b: string)
    ensures StorageKey(a) == StorageKey(b) <==> a == b
  {
    if StorageKey(a) == StorageKey(b) {
      assert a == StorageKey(a)[6..];
    }
  }

  /** What `localStorage` holds under an event key: the JSON text of a payload the bus wrote, or a string
      some other writer left that does not parse (the empty string among them). */
  datatype Entry<P> = Serialized(payload: P) | Unparseable(raw: string)

  /** The two implementations of the emitter interface. */
  datatype EmitterKind = TauriEmitter | WebEmitter

  /** A listener registered with the Tauri transport for one event type. */
  datatype Registration = Registration(eventType: string)

  /** An effect of the bus on the host: a `localStorage.setItem`, or a call of a listener's handler. */
  datatype Effect<P> = Persisted(key: string, payload: P) | Delivered(registration: nat, payload: P)

  /** The live registrations, among the first `n`, that listen for `eventType`, in registration order. */
  function Listening(regs: seq<Registration>, active: set<nat>, eventType: string, n: nat): (ids: seq<nat>)
    requires n <= |regs|
    ensures forall r :: r in ids <==> r < n && r in active && regs[r].eventType == eventType
    ensures forall i :: 0 <= i < |ids| ==> ids[i] < n
    ensures forall i, j :: 0 <= i < j < |ids| ==> ids[i] < ids[j]
  {
    if n == 0 then []
    else
      var prev := Listening(regs, active, eventType, n - 1);
      if n - 1 in active && regs[n - 1].eventType == eventType then prev + [n - 1] else prev
  }

  /** One delivery of `payload` to each registration in `ids`, in that order. */
  function Deliveries<P>(ids: seq<nat>, payload: P): (effects: seq<Effect<P>>)
    ensures |effects| == |ids|
    ensures forall i :: 0 <= i < |ids| ==> effects[i] == Delivered(ids[i], payload)
  {
    seq(|ids|, i requires 0 <= i < |ids| => Delivered(ids[i], payload))
  }

  /** What the replay step of a listener hook does with the stored entry (EventContext.tsx:103-112). */
  datatype ReplayStep<P> = NoReplay | Replay(payload: P) | ParseFailure

  function ReplayFor<P>(stored: Option<Entry<P>>): (step: ReplayStep<P>)
    ensures stored.None? ==> step.NoReplay?
    ensures step.Replay? <==> stored.Some? && stored.value.Serialized?
    ensures step.Replay? ==> step.payload == stored.value.payload
    ensures step.ParseFailure? <==> stored.Some? && stored.value.Unparseable? && stored.value.raw != ""
  {
    match stored
    case None => NoReplay
    case Some(Serialized(p)) => Replay(p)
    case Some(Unparseable(raw)) => if raw == "" then NoReplay else ParseFailure
  }

  function Lookup<P>(store: map<string, Entry<P>>, key: string): Option<Entry<P>>
  {
    if key in store then Some(store[key]) else None
  }

  /** Overwrite law: after publishing `p1` and then `p2` for one type, a fresh subscriber replays `p2`. */
  lemma ReplayAfterTwoEmits<P>(store: map<string, Entry<P>>, eventType: string, p1: P, p2: P)
    ensures var key := StorageKey(eventType);
            ReplayFor(Lookup(store[key := Serialized(p1)][key := Serialized(p2)], key)) == Replay(p2)
  {
  }

  /** Publishing one event type leaves the replay of every other type as it was. */
  lemma ReplayUnaffectedByOtherTypes<P>(store: map<string, Entry<P>>, eventType: string, other: string, p: P)
    requires other != eventType
    ensures ReplayFor(Lookup(store[StorageKey(other) := Serialized(p)], StorageKey(eventType)))
         == ReplayFor(Lookup(store, StorageKey(eventType)))
  {
    StorageKeyInjective(other, eventType);
  }

  /** The host: `localStorage` event entries and the Tauri transport, shared by all windows. */
  class EventHub<P> {
    var store: map<string, Entry<P>>
    var registrations: seq<Registration>
    var active: set<nat>
    var log: seq<Effect<P>>

    ghost predicate Valid()
      reads this
    {
      forall r :: r in active ==> r < |registrations|
    }

    constructor (initial: map<string, Entry<P>>)
      ensures Valid()
      ensures store == initial && registrations == [] && active == {} && log == []
    {
      store := initial;
      registrations := [];
      active := {};
      log := [];
    }

    /** `localStorage.setItem(key, JSON.stringify(payload))`. */
    method Persist(key: string, payload: P)
      requires Valid()
      modifies this
      ensures Valid()
      ensures store == old(store)[key := Serialized(payload)]
      ensures registrations == old(registrations) && active == old(active)
      ensures log == old(log) + [Persisted(key, payload)]
    {
      store := store[key := Serialized(payload)];
      log := log + [Persisted(key, payload)];
    }

    /** `tauriEmit(eventType, payload)`: every live listener for the type, in registration order. */
    method Broadcast(eventType: string, payload: P)
      requires Valid()
      modifies this
      ensures Valid()
      ensures store == old(store) && registrations == old(registrations) && active == old(active)
      ensures log == old(log) + Deliveries(Listening(registrations, active, eventType, |registrations|), payload)
    {
      log := log + Deliveries(Listening(registrations, active, eventType, |registrations|), payload);
    }

    /** `tauriListen(eventType, handler)`: a new live registration. */
    method Register(eventType: string) returns (id: nat)
      requires Valid()
      modifies this
      ensures Valid()
      ensures id == |old(registrations)|
      ensures registrations == old(registrations) + [Registration(eventType)]
      ensures active == old(active) + {id}
      ensures store == old(store) && log == old(log)
    {
      id := |registrations|;
      registrations := registrations + [Registration(eventType)];
      active := active + {id};
    }

    /** The `unlisten` function Tauri hands back. */
    method Unregister(id: nat)
      requires Valid()
      modifies this
      ensures Valid()
      ensures active == old(active) - {id}
      ensures store == old(store) && registrations == old(registrations) && log == old(log)
    {
      active := active - {id};
    }
  }

  /** The emitter a provider creates once (EventContext.tsx:71-74); `kind` is fixed for its lifetime. */
  class Emitter<P> {
    const kind: EmitterKind
    const hub: EventHub<P>

    constructor (isTauri: bool, hub: EventHub<P>)
      ensures kind == (if isTauri then TauriEmitter else WebEmitter)
      ensures this.hub == hub
    {
      kind := if isTauri then TauriEmitter else WebEmitter;
      this.hub := hub;
    }

    /** `emit`: the durable write first; then, for the Tauri emitter only, the broadcast. */
    method Emit(eventType: string, payload: P)
      requires hub.Valid()
      modifies hub
      ensures hub.Valid()
      ensures hub.store == old(hub.store)[StorageKey(eventType) := Serialized(payload)]
      ensures hub.registrations == old(hub.registrations) && hub.active == old(hub.active)
      ensures hub.log == old(hub.log) + [Persisted(StorageKey(eventType), payload)]
        + (if kind == TauriEmitter
           then Deliveries(Listening(hub.registrations, hub.active, eventType, |hub.registrations|), payload)
           else [])
    {
      hub.Persist(StorageKey(eventType), payload);
      if kind == TauriEmitter {
        hub.Broadcast(eventType, payload);
      }
    }

    /** `listen`: a Tauri registration, or for the web stub nothing, with a no-op unsubscribe. */
    method Listen(eventType: string) returns (registration: Option<nat>)
      requires hub.Valid()
      modifies hub
      ensures hub.Valid()
      ensures kind == WebEmitter ==> registration == None && unchanged(hub)
      ensures kind == TauriEmitter ==>
        && registration == Some(|old(hub.registrations)|)
        && hub.registrations == old(hub.registrations) + [Registration(eventType)]
        && hub.active == old(hub.active) + {registration.value}
        && hub.store == old(hub.store) && hub.log == old(hub.log)
    {
      if kind == TauriEmitter {
        var id := hub.Register(eventType);
        registration := Some(id);
      } else {
        registration := None;
      }
    }

    /** Calling the unsubscribe function `listen` returned. */
    method Unlisten(registration: Option<nat>)
      requires hub.Valid()
      modifies hub
      ensures hub.Valid()
      ensures registration.Some? ==> hub.active == old(hub.active) - {registration.value}
      ensures registration.None? ==> hub.active == old(hub.active)
      ensures hub.store == old(hub.store) && hub.registrations == old(hub.registrations)
      ensures hub.log == old(hub.log)
    {
      if registration.Some? {
        hub.Unregister(registration.value);
      }
    }
  }

  /** One run of the hook's effect: the registration its `listen` call made, whether the promise has
      resolved (so that the run's `unlisten` variable is set), and whether its cleanup has run. */
  datatype EffectRun = EffectRun(registration: Option<nat>, resolved: bool, cleanedUp: bool)

  /** One mounted `useEventListener(eventType, handler)` (EventContext.tsx:90-129). */
  class ListenerHook<P> {
    const eventType: string
    const emitter: Emitter<P>
    var hasInitialized: bool
    /** The `hasInitialized` value the effect closure captured: the state as of the render that created
        the effect. The effect's dependencies leave the flag out, so a re-run of the same effect (React's
        development double run) still sees the old value. */
    var seen: bool
    /** The handler calls made by the replay step. */
    var replayed: seq<P>
    /** Replay attempts whose stored text failed to parse (logged with `console.error`). */
    var parseFailures: nat
    var runs: seq<EffectRun>

    ghost predicate Valid()
      reads this
    {
      && (seen ==> hasInitialized)
      && (|replayed| + parseFailures > 0 ==> hasInitialized)
      && (forall k :: 0 <= k < |runs| - 1 ==> runs[k].cleanedUp)
    }

    /** True when no run of the effect is mounted, so React may run it again. */
    predicate Idle()
      reads this
    {
      forall k :: 0 <= k < |runs| ==> runs[k].cleanedUp
    }

    constructor (eventType: string, emitter: Emitter<P>)
      ensures Valid() && Idle()
      ensures this.eventType == eventType && this.emitter == emitter
      ensures !hasInitialized && !seen && replayed == [] && parseFailures == 0 && runs == []
    {
      this.eventType := eventType;
      this.emitter := emitter;
      hasInitialized := false;
      seen := false;
      replayed := [];
      parseFailures := 0;
      runs := [];
    }

    /** A re-render after `setHasInitialized`: effects created from now on capture the current flag. */
    method Render()
      requires Valid()
      modifies this
      ensures Valid()
      ensures seen == hasInitialized
      ensures hasInitialized == old(hasInitialized) && replayed == old(replayed)
      ensures parseFailures == old(parseFailures) && runs == old(runs)
    {
      seen := hasInitialized;
    }

    /** The synchronous part of `setupListener`: replay unless the captured flag says the hook has
        initialised, then `events.listen`. */
    method Setup()
      requires Valid() && Idle() && emitter.hub.Valid()
      modifies this, emitter.hub
      ensures Valid() && emitter.hub.Valid()
      ensures hasInitialized && seen == old(seen)
      ensures old(seen) ==> replayed == old(replayed) && parseFailures == old(parseFailures)
      ensures !old(seen) ==>
        match ReplayFor(Lookup(old(emitter.hub.store), StorageKey(eventType)))
        case NoReplay => replayed == old(replayed) && parseFailures == old(parseFailures)
        case Replay(p) => replayed == old(replayed) + [p] && parseFailures == old(parseFailures)
        case ParseFailure => replayed == old(replayed) && parseFailures == old(parseFailures) + 1
      ensures |runs| == |old(runs)| + 1 && runs[..|old(runs)|] == old(runs)
      ensures var run := runs[|runs| - 1];
        && !run.resolved && !run.cleanedUp
        && (emitter.kind == WebEmitter ==> run.registration == None && unchanged(emitter.hub))
        && (emitter.kind == TauriEmitter ==>
              && run.registration == Some(|old(emitter.hub.registrations)|)
              && emitter.hub.registrations == old(emitter.hub.registrations) + [Registration(eventType)]
              && emitter.hub.active == old(emitter.hub.active) + {run.registration.value}
              && emitter.hub.store == old(emitter.hub.store) && emitter.hub.log == old(emitter.hub.log))
    {
      if !seen {
        var step := ReplayFor(Lookup(emitter.hub.store, StorageKey(eventType)));
        match step {
          case NoReplay =>
          case Replay(p) => replayed := replayed + [p];
          case ParseFailure => parseFailures := parseFailures + 1;
        }
        hasInitialized := true;
      }
      var registration := emitter.Listen(eventType);
      runs := runs + [EffectRun(registration, false, false)];
    }

    /** The awaited `events.listen` of run `k` resolves and the run's `unlisten` variable is assigned. */
    method ListenResolved(k: nat)
      requires Valid() && k < |runs| && !runs[k].resolved
      modifies this
      ensures Valid()
      ensures runs == old(runs)[k := old(runs[k]).(resolved := true)]
      ensures hasInitialized == old(hasInitialized) && seen == old(seen) && replayed == old(replayed)
      ensures parseFailures == old(parseFailures)
    {
      runs := runs[k := runs[k].(resolved := true)];
    }

    /** The effect's cleanup: `if (unlisten) unlisten()`. Before the promise resolved, it does nothing. */
    method Cleanup()
      requires Valid() && !Idle() && emitter.hub.Valid()
      modifies this, emitter.hub
      ensures Valid() && Idle() && emitter.hub.Valid()
      ensures var run := old(runs)[|old(runs)| - 1];
        && runs == old(runs)[|old(runs)| - 1 := run.(cleanedUp := true)]
        && (run.resolved && run.registration.Some?
            ==> emitter.hub.active == old(emitter.hub.active) - {run.registration.value})
        && (!run.resolved || run.registration.None? ==> emitter.hub.active == old(emitter.hub.active))
      ensures emitter.hub.store == old(emitter.hub.store) && emitter.hub.log == old(emitter.hub.log)
      ensures emitter.hub.registrations == old(emitter.hub.registrations)
      ensures hasInitialized == old(hasInitialized) && seen == old(seen) && replayed == old(replayed)
      ensures parseFailures == old(parseFailures)
    {
      var last := |runs| - 1;
      var run := runs[last];
      if run.resolved {
        emitter.Unlisten(run.registration);
      }
      runs := runs[last := run.(cleanedUp := true)];
    }

    /** The corrected resolution: a run already cancelled unsubscribes at once. */
    method ListenResolvedCancelling(k: nat)
      requires Valid() && k < |runs| && !runs[k].resolved && emitter.hub.Valid()
      modifies this, emitter.hub
      ensures Valid() && emitter.hub.Valid()
      ensures runs == old(runs)[k := old(runs[k]).(resolved := true)]
      ensures old(runs[k]).cleanedUp && old(runs[k]).registration.Some?
        ==> emitter.hub.active == old(emitter.hub.active) - {old(runs[k]).registration.value}
      ensures !old(runs[k]).cleanedUp || old(runs[k]).registration.None?
        ==> emitter.hub.active == old(emitter.hub.active)
      ensures emitter.hub.store == old(emitter.hub.store) && emitter.hub.log == old(emitter.hub.log)
      ensures emitter.hub.registrations == old(emitter.hub.registrations)
      ensures hasInitialized == old(hasInitialized) && seen == old(seen) && replayed == old(replayed)
      ensures parseFailures == old(parseFailures)
    {
      var run := runs[k];
      if run.cleanedUp {
        emitter.Unlisten(run.registration);
      }
      runs := runs[k := run.(resolved := true)];
    }
  }

  /** A window opened after two publications of a type replays the later payload, and once its listener
      is registered a live event reaches it. */
  method FreshWindowScenario<P>(eventType: string, p1: P, p2: P, p3: P)
    returns (replayed: seq<P>, lastDelivery: Effect<P>)
    ensures replayed == [p2]
    ensures lastDelivery.Delivered? && lastDelivery.payload == p3
  {
    var hub := new EventHub<P>(map[]);
    var windowA := new Emitter<P>(true, hub);
    windowA.Emit(eventType, p1);
    windowA.Emit(eventType, p2);
    var windowB := new Emitter<P>(true, hub);
    var hook := new ListenerHook<P>(eventType, windowB);
    hook.Setup();
    hook.ListenResolved(0);
    assert Listening(hub.registrations, hub.active, eventType, 0) == [];
    windowA.Emit(eventType, p3);
    replayed := hook.replayed;
    lastDelivery := hub.log[|hub.log| - 1];
  }

  /** Once the hook has re-rendered with the flag set, a new run of its effect (after the cleanup of the
      old one) does not replay again. */
  method RemountAfterRenderScenario<P>(eventType: string, p: P) returns (replayed: seq<P>)
    ensures replayed == [p]
  {
    var hub := new EventHub<P>(map[]);
    var emitter := new Emitter<P>(true, hub);
    emitter.Emit(eventType, p);
    var hook := new ListenerHook<P>(eventType, emitter);
    hook.Setup();
    assert hook.replayed == [p];
    hook.ListenResolved(0);
    hook.Render();
    assert !hook.runs[0].cleanedUp;
    hook.Cleanup();
    hook.Setup();
    replayed := hook.replayed;
  }

  /** React's development double run (setup, cleanup, setup, with no render in between) runs the same
      effect closure twice; it still sees `hasInitialized` false, so the stored payload is replayed twice. */
  method StrictModeDoubleReplay<P>(eventType: string, p: P) returns (replayed: seq<P>)
    ensures replayed == [p, p]
  {
    var hub := new EventHub<P>(map[]);
    var emitter := new Emitter<P>(true, hub);
    emitter.Emit(eventType, p);
    var hook := new ListenerHook<P>(eventType, emitter);
    hook.Setup();
    assert hook.replayed == [p];
    hook.Cleanup();
    hook.Setup();
    replayed := hook.replayed;
  }

  /** As written, a cleanup that runs before `listen` has resolved leaves the registration live: a later
      publication still reaches the unmounted hook's handler. */
  method CleanupBeforeResolveLeaks<P(==)>(eventType: string, p: P) returns (delivered: bool)
    ensures delivered
  {
    var hub := new EventHub<P>(map[]);
    var emitter := new Emitter<P>(true, hub);
    var hook := new ListenerHook<P>(eventType, emitter);
    hook.Setup();
    assert hook.runs == [EffectRun(Some(0), false, false)];
    hook.Cleanup();
    assert hook.runs == [EffectRun(Some(0), false, true)];
    hook.ListenResolved(0);
    assert hub.active == {0} && hub.registrations == [Registration(eventType)];
    assert Listening(hub.registrations, hub.active, eventType, 0) == [];
    emitter.Emit(eventType, p);
    delivered := hub.log[|hub.log| - 1] == Delivered(0, p) && hook.Idle();
  }

  /** With the cancelling resolution, the same interleaving leaves no live registration behind, so the
      later publication is only persisted and reaches no handler. */
  method CleanupBeforeResolveCancelled<P>(eventType: string, p: P) returns (effects: seq<Effect<P>>)
    ensures effects == [Persisted(StorageKey(eventType), p)]
  {
    var hub := new EventHub<P>(map[]);
    var emitter := new Emitter<P>(true, hub);
    var hook := new ListenerHook<P>(eventType, emitter);
    hook.Setup();
    assert hook.runs == [EffectRun(Some(0), false, false)];
    hook.Cleanup();
    assert hook.runs == [EffectRun(Some(0), false, true)];
    hook.ListenResolvedCancelling(0);
    assert hub.active == {} && |hub.registrations| == 1;
    assert Listening(hub.registrations, hub.active, eventType, 0) == [];
    emitter.Emit(eventType, p);
    effects := hub.log;
  }
}
