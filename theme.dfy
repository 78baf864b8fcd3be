/** The theme state of shared/contexts/ThemeContext.tsx: the chosen theme, the theme actually shown,
    the global `app-theme` entry, and its synchronisation across windows over `theme-changed`. */
module Theme {
  import opened Wrappers
  import Storage
  import Events

  const THEME_KEY := "app-theme"
  const THEME_EVENT := "theme-changed"

  /** The `theme-changed` payload. */
  datatype ThemePayload = ThemePayload(theme: string, timestamp: int)

  /** `(stored as Theme) || 'auto'`: any non-empty stored text is taken as it is, without validation. */
  function InitialTheme(stored: Option<string>): (theme: string)
    ensures stored.Some? && stored.value != "" ==> theme == stored.value
    ensures stored == None || stored == Some("") ==> theme == "auto"
    ensures theme != ""
  {
    if stored.Some? && stored.value != "" then stored.value else "auto"
  }

  /** `resolveTheme`: the chosen theme, except that `auto` follows the system preference. */
  function ResolveTheme(theme: string, prefersDark: bool): (resolved: string)
    ensures theme != "auto" ==> resolved == theme
    ensures theme == "auto" ==> (resolved == "dark" <==> prefersDark) && (resolved == "light" <==> !prefersDark)
  {
    if theme == "auto" then (if prefersDark then "dark" else "light") else theme
  }

  /** Every one of the three themes resolves to `light` or `dark`. */
  lemma ResolvedIsConcrete(theme: string, prefersDark: bool)
    requires theme in {"light", "dark", "auto"}
    ensures ResolveTheme(theme, prefersDark) in {"light", "dark"}
  {
  }

  /** A mounted `ThemeProvider` in one window. Effects are taken to have run after each transition. */
  class ThemeProvider {
    const local: Storage.LocalStorage
    const emitter: Events.Emitter<ThemePayload>
    var theme: string
    var resolved: string
    /** What `matchMedia('(prefers-color-scheme: dark)')` currently reports. */
    var systemDark: bool
    /** The registration of the `theme-changed` listener, once `listen` has resolved. */
    var registration: Option<nat>

    ghost predicate Valid()
      reads this, local, emitter.hub
    {
      && local.Valid()
      && emitter.hub.Valid()
      && resolved == ResolveTheme(theme, systemDark)
    }

    /** Mounting: the initial theme from `app-theme`, resolved against the system preference. */
    constructor (local: Storage.LocalStorage, emitter: Events.Emitter<ThemePayload>, systemDark: bool)
      requires local.Valid() && emitter.hub.Valid()
      ensures Valid()
      ensures this.local == local && this.emitter == emitter && this.systemDark == systemDark
      ensures theme == InitialTheme(Storage.Lookup(local.values, THEME_KEY))
      ensures registration == None
    {
      this.local := local;
      this.emitter := emitter;
      this.systemDark := systemDark;
      var initial := InitialTheme(Storage.Lookup(local.values, THEME_KEY));
      theme := initial;
      resolved := ResolveTheme(initial, systemDark);
      registration := None;
    }

    /** The cross-window effect: `events.listen('theme-changed', ...)` once it has resolved. */
    method Subscribe()
      requires Valid()
      modifies this, emitter.hub
      ensures Valid()
      ensures theme == old(theme) && resolved == old(resolved) && systemDark == old(systemDark)
      ensures emitter.kind == Events.TauriEmitter ==>
        && registration == Some(|old(emitter.hub.registrations)|)
        && emitter.hub.registrations == old(emitter.hub.registrations) + [Events.Registration(THEME_EVENT)]
        && emitter.hub.active == old(emitter.hub.active) + {registration.value}
      ensures emitter.kind == Events.WebEmitter ==> registration == None && unchanged(emitter.hub)
      ensures emitter.hub.store == old(emitter.hub.store) && emitter.hub.log == old(emitter.hub.log)
      ensures unchanged(local)
    {
      registration := emitter.Listen(THEME_EVENT);
    }

    /** `setTheme`: the state, the global `app-theme` entry, then a `theme-changed` publication. */
    method SetTheme(newTheme: string, now: int)
      requires Valid()
      modifies this, local, emitter.hub
      ensures Valid()
      ensures theme == newTheme && systemDark == old(systemDark) && registration == old(registration)
      ensures resolved == ResolveTheme(newTheme, systemDark)
      ensures local.values == old(local.values)[THEME_KEY := newTheme]
      ensures emitter.hub.store
        == old(emitter.hub.store)[Events.StorageKey(THEME_EVENT) := Events.Serialized(ThemePayload(newTheme, now))]
      ensures emitter.hub.registrations == old(emitter.hub.registrations)
      ensures emitter.hub.active == old(emitter.hub.active)
      ensures emitter.hub.log == old(emitter.hub.log)
        + [Events.Persisted(Events.StorageKey(THEME_EVENT), ThemePayload(newTheme, now))]
        + (if emitter.kind == Events.TauriEmitter
           then Events.Deliveries(
             Events.Listening(emitter.hub.registrations, emitter.hub.active, THEME_EVENT,
                              |emitter.hub.registrations|),
             ThemePayload(newTheme, now))
           else [])
    {
      theme := newTheme;
      resolved := ResolveTheme(newTheme, systemDark);
      local.SetItem(THEME_KEY, newTheme);
      emitter.Emit(THEME_EVENT, ThemePayload(newTheme, now));
    }

    /** The `theme-changed` handler: the state and `app-theme` follow the payload; nothing is emitted. */
    method ThemeChanged(payload: ThemePayload)
      requires Valid()
      modifies this, local
      ensures Valid()
      ensures theme == payload.theme && systemDark == old(systemDark) && registration == old(registration)
      ensures resolved == ResolveTheme(payload.theme, systemDark)
      ensures local.values == old(local.values)[THEME_KEY := payload.theme]
      ensures unchanged(emitter.hub)
    {
      theme := payload.theme;
      resolved := ResolveTheme(payload.theme, systemDark);
      local.SetItem(THEME_KEY, payload.theme);
    }

    /** A `change` of the system preference: the media-query handler is attached only while the theme
        is `auto`, so only then does the shown theme move. */
    method SystemChanged(dark: bool)
      requires Valid()
      modifies this
      ensures Valid()
      ensures systemDark == dark && theme == old(theme) && registration == old(registration)
      ensures old(theme) != "auto" ==> resolved == old(resolved)
      ensures old(theme) == "auto" ==> resolved == (if dark then "dark" else "light")
    {
      systemDark := dark;
      if theme == "auto" {
        resolved := if dark then "dark" else "light";
      }
    }
  }

  /** A window mounted on a fresh host with its `theme-changed` listener registered. */
  method SubscribedWindow(local: Storage.LocalStorage, hub: Events.EventHub<ThemePayload>, dark: bool)
    returns (w: ThemeProvider)
    requires local.Valid() && hub.Valid() && hub.registrations == [] && hub.active == {} && hub.log == []
    modifies hub
    ensures fresh(w) && w.local == local && w.emitter.hub == hub && w.emitter.kind == Events.TauriEmitter
    ensures w.Valid()
    ensures hub.registrations == [Events.Registration(THEME_EVENT)] && hub.active == {0} && hub.log == []
  {
    w := MountedWindow(local, hub, dark);
    w.Subscribe();
  }

  /** A window of the origin whose `localStorage` is `local`, mounted on `hub` with the Tauri emitter,
      before its effects run. */
  method MountedWindow(local: Storage.LocalStorage, hub: Events.EventHub<ThemePayload>, dark: bool)
    returns (w: ThemeProvider)
    requires local.Valid() && hub.Valid()
    ensures fresh(w) && w.local == local && w.emitter.hub == hub && w.emitter.kind == Events.TauriEmitter
    ensures w.Valid()
  {
    var emitter := new Events.Emitter<ThemePayload>(true, hub);
    w := new ThemeProvider(local, emitter, dark);
  }

  /** Choosing a theme in one window updates another window listening on the same host (the two share
      the origin's `localStorage`), and the receiving window publishes nothing in turn, so there is no
      echo. */
  method CrossWindowScenario(choice: string, now: int, darkA: bool, darkB: bool)
    returns (themeB: string, storedB: Option<string>, delivered: Events.Effect<ThemePayload>, echoes: nat)
    ensures themeB == choice && storedB == Some(choice)
    ensures delivered == Events.Delivered(0, ThemePayload(choice, now))
    ensures echoes == 0
  {
    var hub := new Events.EventHub<ThemePayload>(map[]);
    var local := new Storage.LocalStorage();
    var windowB := SubscribedWindow(local, hub, darkB);
    var windowA := MountedWindow(local, hub, darkA);
    assert Events.Listening(hub.registrations, hub.active, THEME_EVENT, 0) == [];
    windowA.SetTheme(choice, now);
    delivered := hub.log[|hub.log| - 1];
    var before := |hub.log|;
    if delivered.Delivered? {
      windowB.ThemeChanged(delivered.payload);
    }
    themeB := windowB.theme;
    storedB := Storage.Lookup(windowB.local.values, THEME_KEY);
    echoes := |hub.log| - before;
  }

  /** A theme chosen with `setTheme` is the one a provider mounted later starts with. */
  method ReloadScenario(choice: string, now: int, dark: bool) returns (initial: string)
    requires choice != ""
    ensures initial == choice
  {
    var hub := new Events.EventHub<ThemePayload>(map[]);
    var local := new Storage.LocalStorage();
    var emitter := new Events.Emitter<ThemePayload>(false, hub);
    var first := new ThemeProvider(local, emitter, dark);
    first.SetTheme(choice, now);
    var second := new ThemeProvider(local, emitter, dark);
    initial := second.theme;
  }
}
