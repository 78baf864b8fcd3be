/** The app-scoped key-value storage of shared/contexts/StorageContext.tsx: the web implementation over
    the browser's `localStorage`, with every key prefixed `appName:`, and the Tauri implementation over
    a store file `appName.json` that is loaded lazily, once. */
module Storage {
  import opened Wrappers

  /** The raw key an app's key is kept under in `localStorage`. */
  function RawKey(appName: string, key: string): (raw: string)
    ensures |raw| == |appName| + 1 + |key|
    ensures raw[..|appName| + 1] == appName + ":" && raw[|appName| + 1..] == key
  {
    appName + ":" + key
  }

  /** Within one app, distinct keys have distinct raw keys. */
  lemma RawKeyInjective(appName: string, a: string, b: string)
    ensures RawKey(appName, a) == RawKey(appName, b) <==> a == b
  {
    if RawKey(appName, a) == RawKey(appName, b) {
      assert a == RawKey(appName, a)[|appName| + 1..];
    }
  }

  /** Apps whose names contain no `:` have disjoint key spaces. */
  lemma NamespacesDisjoint(app1: string, key1: string, app2: string, key2: string)
    requires ':' !in app1 && ':' !in app2
    requires RawKey(app1, key1) == RawKey(app2, key2)
    ensures app1 == app2 && key1 == key2
  {
    if |app1| == |app2| {
      assert app1 == RawKey(app1, key1)[..|app1|];
      RawKeyInjective(app1, key1, key2);
    } else {
      RawKeyChars(app1, key1);
      RawKeyChars(app2, key2);
      assert false;
    }
  }

  lemma RawKeyChars(appName: string, key: string)
    ensures forall i :: 0 <= i < |appName| ==> RawKey(appName, key)[i] == appName[i]
    ensures RawKey(appName, key)[|appName|] == ':'
  {
  }

  function Lookup(m: map<string, string>, key: string): Option<string>
  {
    if key in m then Some(m[key]) else None
  }

  /** The browser's `localStorage`: a map, and the order in which `key(i)` enumerates it. */
  class LocalStorage {
    var keys: seq<string>
    var values: map<string, string>

    ghost predicate Valid()
      reads this
    {
      && (forall i, j :: 0 <= i < j < |keys| ==> keys[i] != keys[j])
      && (forall k :: k in values <==> k in keys)
    }

    constructor ()
      ensures Valid() && keys == [] && values == map[]
    {
      keys := [];
      values := map[];
    }

    /** `localStorage.setItem(key, value)`. */
    method SetItem(key: string, value: string)
      requires Valid()
      modifies this
      ensures Valid()
      ensures values == old(values)[key := value]
    {
      if key !in values {
        keys := keys + [key];
      }
      values := values[key := value];
    }

    /** `localStorage.removeItem(key)`. */
    method RemoveItem(key: string)
      requires Valid()
      modifies this
      ensures Valid()
      ensures values == old(values) - {key}
    {
      var i := 0;
      var kept: seq<string> := [];
      while i < |keys|
        invariant 0 <= i <= |keys|
        invariant forall k :: k in kept <==> k in keys[..i] && k != key
        invariant forall a, b :: 0 <= a < b < |kept| ==> kept[a] != kept[b]
      {
        if keys[i] != key {
          assert keys[i] !in kept by {
            forall j | 0 <= j < i ensures keys[j] != keys[i] { }
          }
          kept := kept + [keys[i]];
        }
        i := i + 1;
      }
      assert keys[..i] == keys;
      keys := kept;
      values := values - {key};
    }
  }

  /** `createWebStorage(appName)`. */
  class WebStorage {
    const appName: string
    const local: LocalStorage

    constructor (appName: string, local: LocalStorage)
      ensures this.appName == appName && this.local == local
    {
      this.appName := appName;
      this.local := local;
    }

    function GetItem(key: string): (v: Option<string>)
      reads local
      ensures v.Some? <==> RawKey(appName, key) in local.values
      ensures v.Some? ==> v.value == local.values[RawKey(appName, key)]
    {
      Lookup(local.values, RawKey(appName, key))
    }

    method SetItem(key: string, value: string)
      requires local.Valid()
      modifies local
      ensures local.Valid()
      ensures local.values == old(local.values)[RawKey(appName, key) := value]
      ensures GetItem(key) == Some(value)
    {
      local.SetItem(RawKey(appName, key), value);
    }

    method RemoveItem(key: string)
      requires local.Valid()
      modifies local
      ensures local.Valid()
      ensures local.values == old(local.values) - {RawKey(appName, key)}
      ensures GetItem(key) == None
    {
      local.RemoveItem(RawKey(appName, key));
    }

    /** `listItems`: the index loop over `localStorage` keeping the keys under this app's prefix. */
    method ListItems() returns (result: map<string, string>)
      requires local.Valid()
      ensures forall k :: k in result <==> RawKey(appName, k) in local.values
      ensures forall k :: k in result ==> Some(result[k]) == GetItem(k)
    {
      result := map[];
      var prefix := appName + ":";
      var i := 0;
      while i < |local.keys|
        invariant 0 <= i <= |local.keys|
        invariant forall k :: k in result <==> RawKey(appName, k) in local.keys[..i]
        invariant forall k :: k in result ==> result[k] == local.values[RawKey(appName, k)]
      {
        var key := local.keys[i];
        assert key in local.values;
        if prefix <= key {
          var unprefixed := key[|prefix|..];
          assert RawKey(appName, unprefixed) == key;
          result := result[unprefixed := local.values[key]];
          forall k | RawKey(appName, k) == key ensures k == unprefixed {
            RawKeyInjective(appName, k, unprefixed);
          }
        } else {
          forall k ensures RawKey(appName, k) != key {
            assert RawKey(appName, k)[..|prefix|] == prefix;
          }
        }
        assert local.keys[..i + 1] == local.keys[..i] + [key];
        i := i + 1;
      }
      assert local.keys[..i] == local.keys;
    }
  }

  /** `createTauriStorage(appName)`: `file` is the store file on disk, `store` the `Store` once loaded. */
  class TauriStorage {
    const appName: string
    var file: map<string, string>
    var store: Option<map<string, string>>
    /** How many times `Store.load` has run. */
    var loads: nat

    ghost predicate Valid()
      reads this
    {
      && loads <= 1
      && (store.None? <==> loads == 0)
    }

    constructor (appName: string, file: map<string, string>)
      ensures Valid() && this.appName == appName && this.file == file && store == None && loads == 0
    {
      this.appName := appName;
      this.file := file;
      store := None;
      loads := 0;
    }

    /** `getStore`: loads the file on the first call only. */
    method GetStore() returns (entries: map<string, string>)
      requires Valid()
      modifies this
      ensures Valid() && store == Some(entries) && file == old(file)
      ensures old(store).Some? ==> entries == old(store).value && loads == old(loads)
      ensures old(store).None? ==> entries == old(file) && loads == 1
    {
      if store.None? {
        store := Some(file);
        loads := loads + 1;
      }
      entries := store.value;
    }

    /** `getItem`: the stored string, or null when the key is absent. */
    method GetItem(key: string) returns (v: Option<string>)
      requires Valid()
      modifies this
      ensures Valid() && store.Some? && file == old(file)
      ensures old(store).Some? ==> store == old(store)
      ensures v == Lookup(store.value, key)
    {
      var entries := GetStore();
      v := Lookup(entries, key);
    }

    /** `setItem`: `set` then `save`, so the file holds the new entries too. */
    method SetItem(key: string, value: string)
      requires Valid()
      modifies this
      ensures Valid()
      ensures var before := if old(store).Some? then old(store).value else old(file);
        store == Some(before[key := value]) && file == store.value
    {
      var entries := GetStore();
      store := Some(entries[key := value]);
      file := store.value;
    }

    /** `removeItem`: `delete` then `save`. */
    method RemoveItem(key: string)
      requires Valid()
      modifies this
      ensures Valid()
      ensures var before := if old(store).Some? then old(store).value else old(file);
        store == Some(before - {key}) && file == store.value
    {
      var entries := GetStore();
      store := Some(entries - {key});
      file := store.value;
    }

    /** `listItems`: every entry of the store, keys as they are. */
    method ListItems() returns (result: map<string, string>)
      requires Valid()
      modifies this
      ensures Valid() && file == old(file)
      ensures store == Some(result)
      ensures old(store).Some? ==> result == old(store).value
      ensures old(store).None? ==> result == old(file)
    {
      result := GetStore();
    }
  }

  /** Set-then-get and remove-then-get on the host store, and the store loaded only once. */
  method TauriStorageLaws(file: map<string, string>, key: string, value: string)
    returns (afterSet: Option<string>, afterRemove: Option<string>, loads: nat)
    ensures afterSet == Some(value) && afterRemove == None && loads == 1
  {
    var s := new TauriStorage("app", file);
    s.SetItem(key, value);
    afterSet := s.GetItem(key);
    s.RemoveItem(key);
    afterRemove := s.GetItem(key);
    loads := s.loads;
  }
}
