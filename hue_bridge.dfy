/** The virtual Philips Hue bridge that fronts discovered WeMo devices for
    Alexa: the stable light IDs handed out at discovery, the light records
    it serves, the lookups of the light endpoints and the SSDP M-SEARCH
    match. Devices are values read at the time of the request; sockets, the
    HTTP server and the JSON ID file are not modelled. */
module HueBridge {
  import opened Common
  import opened IntText

  /** A discovered WeMo device as the bridge sees it. `udn` and
      `serialNumber` are the attributes (None when missing or None), `state`
      what `get_state()` returns when the bridge asks. */
  datatype WemoDevice = WemoDevice(udn: Option<string>, serialNumber: Option<string>, name: string, state: int)

  /** The key a device is filed under, `udn or serial_number`: Python's `or`
      keeps the udn only when it is a non-empty string. None (Python's None)
      is a key like any other. */
  type Udn = Option<string>

  function DeviceKey(d: WemoDevice): Udn {
    if d.udn.Some? && d.udn.value != "" then d.udn else d.serialNumber
  }

  function KeysOf(devices: seq<WemoDevice>): (keys: seq<Udn>)
    ensures |keys| == |devices|
    ensures forall i :: 0 <= i < |devices| ==> keys[i] == DeviceKey(devices[i])
  {
    seq(|devices|, i requires 0 <= i < |devices| => DeviceKey(devices[i]))
  }

  // ---------------------------------------------------------------------
  // Stable light IDs
  // ---------------------------------------------------------------------

  /** What `load_id_map` finds in the ID file: a JSON object, read into a
      dictionary, or a file that is missing, blank or unreadable. */
  datatype IdFile = Missing | Blank | Invalid | Stored(ids: Dict<string, int>)

  /** `load_id_map`: the stored object with its keys in file order, or the
      empty map when there is nothing usable to load. */
  function LoadIdMap(f: IdFile): (ids: Dict<Udn, int>)
    requires f.Stored? ==> f.ids.Valid()
    ensures ids.Valid()
  {
    match f
    case Stored(d) => StoredIdsValid(d); StoredIds(d)
    case _ => Dict([], map[])
  }

  /** The stored object with its string keys read as ID-map keys. */
  function StoredIds(d: Dict<string, int>): Dict<Udn, int> {
    Dict(Wrapped(d.order), map s | s in d.entries.Keys :: Some(s) := d.entries[s])
  }

  lemma {:induction false} StoredIdsValid(d: Dict<string, int>)
    requires d.Valid()
    ensures StoredIds(d).Valid()
  {
    var r := StoredIds(d);
    WrappedDistinct(d.order);
    forall u ensures u in r.entries <==> u in r.order {
      if u in r.order {
        var i :| 0 <= i < |r.order| && r.order[i] == u;
        assert d.order[i] in d.entries;
      }
      if u in r.entries {
        var i :| 0 <= i < |d.order| && d.order[i] == u.value;
        assert r.order[i] == u;
      }
    }
  }

  /** A stored file is loaded as it is: its keys in file order, each with its
      ID; anything else loads as the empty map. */
  lemma {:induction false} LoadIdMapReadsFile(f: IdFile)
    requires f.Stored? ==> f.ids.Valid()
    ensures !f.Stored? ==> LoadIdMap(f).order == []
    ensures f.Stored? ==> |LoadIdMap(f).order| == |f.ids.order|
                          && forall i :: 0 <= i < |f.ids.order| ==> LoadIdMap(f).order[i] == Some(f.ids.order[i])
    ensures f.Stored? ==> forall s :: s in f.ids.entries ==>
                            Some(s) in LoadIdMap(f).entries && LoadIdMap(f).entries[Some(s)] == f.ids.entries[s]
  {
  }

  /** The JSON keys, as the keys of the ID map. */
  function Wrapped(xs: seq<string>): (us: seq<Udn>)
    ensures |us| == |xs|
    ensures forall i :: 0 <= i < |xs| ==> us[i] == Some(xs[i])
  {
    seq(|xs|, i requires 0 <= i < |xs| => Some(xs[i]))
  }

  lemma {:induction false} WrappedDistinct(xs: seq<string>)
    requires Distinct(xs)
    ensures Distinct(Wrapped(xs))
  {
    if xs != [] {
      var n := |xs| - 1;
      WrappedDistinct(xs[..n]);
      assert Wrapped(xs) == Wrapped(xs[..n]) + [Some(xs[n])];
      assert forall i :: 0 <= i < n ==> Wrapped(xs[..n])[i] == Some(xs[..n][i]) != Some(xs[n]);
      DistinctSnoc(Wrapped(xs[..n]), Some(xs[n]));
    }
  }

  /** `max(values, default=0)`. */
  function MaxOrZero(xs: seq<int>): (m: int)
    ensures forall i :: 0 <= i < |xs| ==> xs[i] <= m
    ensures xs == [] ==> m == 0
    ensures xs != [] ==> m in xs
  {
    if xs == [] then 0
    else
      var n := |xs| - 1;
      if n == 0 then xs[0]
      else
        var m := MaxOrZero(xs[..n]);
        assert forall i :: 0 <= i < n ==> xs[..n][i] == xs[i];
        if m < xs[n] then xs[n] else m
  }

  /** `next_id` at the start of a pass: one more than the largest ID loaded,
      1 for an empty map. */
  function FirstFreeId(loaded: Dict<Udn, int>): (n: int)
    requires loaded.Valid()
    ensures forall u :: u in loaded.entries ==> loaded.entries[u] < n
    ensures loaded.order == [] ==> n == 1
    ensures loaded.order != [] ==> exists u :: u in loaded.entries && loaded.entries[u] == n - 1
  {
    var vs := loaded.Values();
    assert forall u :: u in loaded.entries ==> loaded.entries[u] in vs by {
      forall u | u in loaded.entries ensures loaded.entries[u] in vs {
        var i :| 0 <= i < |loaded.order| && loaded.order[i] == u;
        assert vs[i] == loaded.entries[u];
      }
    }
    MaxOrZero(vs) + 1
  }

  ghost predicate Injective(ids: map<Udn, int>) {
    forall u, v :: u in ids && v in ids && u != v ==> ids[u] != ids[v]
  }

  /** The ID map a discovery pass over device keys `keys` leaves: each key
      not yet in the map gets `next_id`, which starts at the first free ID
      and goes up by one per key added. */
  function Allocate(loaded: Dict<Udn, int>, keys: seq<Udn>): Dict<Udn, int>
    requires loaded.Valid()
  {
    if keys == [] then loaded
    else
      var n := |keys| - 1;
      var prev := Allocate(loaded, keys[..n]);
      if keys[n] in prev.entries then prev
      else prev.Put(keys[n], NextId(loaded, prev))
  }

  /** `next_id` once the pass has grown `loaded` to `ids`. */
  function NextId(loaded: Dict<Udn, int>, ids: Dict<Udn, int>): int
    requires loaded.Valid()
  {
    FirstFreeId(loaded) + |ids.order| - |loaded.order|
  }

  lemma {:induction false} AllocateValid(loaded: Dict<Udn, int>, keys: seq<Udn>)
    requires loaded.Valid()
    ensures Allocate(loaded, keys).Valid()
  {
    if keys != [] {
      var n := |keys| - 1;
      var prev := Allocate(loaded, keys[..n]);
      AllocateValid(loaded, keys[..n]);
      PutValid(prev, keys[n], NextId(loaded, prev));
    }
  }

  /** The pass appends the keys it has not loaded to the saved order, in the
      order they are first seen. */
  lemma {:induction false} AllocateOrder(loaded: Dict<Udn, int>, keys: seq<Udn>)
    requires loaded.Valid()
    ensures Allocate(loaded, keys).order == loaded.order + FirstSeen(loaded.entries.Keys, keys)
  {
    if keys != [] {
      var n := |keys| - 1;
      var init, k := keys[..n], keys[n];
      assert keys == init + [k];
      AllocateOrder(loaded, init);
      AllocateValid(loaded, init);
      FirstSeenSnoc(loaded.entries.Keys, init, k);
      AppendAssoc(loaded.order, FirstSeen(loaded.entries.Keys, init), [k]);
    }
  }

  /** The map holds exactly the loaded keys and the keys seen in the pass. */
  lemma {:induction false} AllocateKeys(loaded: Dict<Udn, int>, keys: seq<Udn>)
    requires loaded.Valid()
    ensures forall u :: u in Allocate(loaded, keys).entries <==> u in loaded.entries || u in keys
  {
    AllocateOrder(loaded, keys);
    AllocateValid(loaded, keys);
  }

  /** Loaded keys keep their IDs. */
  lemma {:induction false} AllocateKeepsLoaded(loaded: Dict<Udn, int>, keys: seq<Udn>)
    requires loaded.Valid()
    ensures forall u :: u in loaded.entries ==>
              u in Allocate(loaded, keys).entries && Allocate(loaded, keys).entries[u] == loaded.entries[u]
  {
    if keys != [] {
      var n := |keys| - 1;
      assert keys[..n] + [keys[n]] == keys;
      AllocateKeepsLoaded(loaded, keys[..n]);
      AllocateKeys(loaded, keys[..n]);
    }
  }

  /** The keys added in the pass are numbered from the first free ID, in the
      order they are first seen. */
  lemma {:induction false} AllocateNumbers(loaded: Dict<Udn, int>, keys: seq<Udn>)
    requires loaded.Valid()
    ensures var added := FirstSeen(loaded.entries.Keys, keys);
            forall i :: 0 <= i < |added| ==>
              added[i] in Allocate(loaded, keys).entries && Allocate(loaded, keys).entries[added[i]] == FirstFreeId(loaded) + i
  {
    if keys != [] {
      var n := |keys| - 1;
      var init, k := keys[..n], keys[n];
      assert keys == init + [k];
      AllocateNumbers(loaded, init);
      AllocateOrder(loaded, init);
      AllocateKeys(loaded, init);
      FirstSeenSnoc(loaded.entries.Keys, init, k);
      var prev := Allocate(loaded, init);
      var added := FirstSeen(loaded.entries.Keys, init);
      if k !in prev.entries {
        var added' := added + [k];
        forall i | 0 <= i < |added'| ensures added'[i] in Allocate(loaded, keys).entries && Allocate(loaded, keys).entries[added'[i]] == FirstFreeId(loaded) + i {
          if i < |added| {
            assert added'[i] == added[i] && added[i] != k;
          }
        }
      }
    }
  }

  /** The three facts above together. */
  lemma {:induction false} AllocateIds(loaded: Dict<Udn, int>, keys: seq<Udn>)
    requires loaded.Valid()
    ensures var ids := Allocate(loaded, keys);
            && ids.Valid()
            && ids.order == loaded.order + FirstSeen(loaded.entries.Keys, keys)
            && (forall u :: u in ids.entries <==> u in loaded.entries || u in keys)
            && (forall u :: u in loaded.entries ==> ids.entries[u] == loaded.entries[u])
            && var added := FirstSeen(loaded.entries.Keys, keys);
               forall i :: 0 <= i < |added| ==> ids.entries[added[i]] == FirstFreeId(loaded) + i
  {
    AllocateValid(loaded, keys);
    AllocateOrder(loaded, keys);
    AllocateKeys(loaded, keys);
    AllocateKeepsLoaded(loaded, keys);
    AllocateNumbers(loaded, keys);
  }

  /** Every ID handed out in a pass is at least the first free ID, so larger
      than every loaded one. */
  lemma {:induction false} AllocateFreshIds(loaded: Dict<Udn, int>, keys: seq<Udn>)
    requires loaded.Valid()
    ensures var ids := Allocate(loaded, keys).entries;
            forall v :: v in ids && v !in loaded.entries ==> FirstFreeId(loaded) <= ids[v]
    ensures var ids := Allocate(loaded, keys).entries;
            forall u, v :: u in loaded.entries && v in ids && v !in loaded.entries ==>
              loaded.entries[u] < ids[v]
  {
    var ids := Allocate(loaded, keys).entries;
    var added := FirstSeen(loaded.entries.Keys, keys);
    AllocateIds(loaded, keys);
    forall v | v in ids && v !in loaded.entries ensures FirstFreeId(loaded) <= ids[v] {
      var i :| 0 <= i < |added| && added[i] == v;
    }
  }

  /** No two keys share an ID after the pass if none did before. */
  lemma {:induction false} AllocateKeepsInjective(loaded: Dict<Udn, int>, keys: seq<Udn>)
    requires loaded.Valid()
    requires Injective(loaded.entries)
    ensures Injective(Allocate(loaded, keys).entries)
  {
    AllocateIds(loaded, keys);
    FreshNumberingInjective(loaded.entries, FirstSeen(loaded.entries.Keys, keys), FirstFreeId(loaded),
                            Allocate(loaded, keys).entries);
  }

  /** A map that keeps an injective map and numbers further keys, each once,
      upwards from above its IDs is injective. */
  lemma {:induction false} FreshNumberingInjective(before: map<Udn, int>, added: seq<Udn>, first: int, ids: map<Udn, int>)
    requires Injective(before) && Distinct(added)
    requires forall u :: u in before ==> before[u] < first
    requires forall u :: u in ids <==> u in before || u in added
    requires forall u :: u in added ==> u !in before
    requires forall u :: u in before ==> ids[u] == before[u]
    requires forall i :: 0 <= i < |added| ==> ids[added[i]] == first + i
    ensures Injective(ids)
  {
    DistinctIndices(added);
    forall u, v | u in ids && v in ids && u != v ensures ids[u] != ids[v] {
      if u in before && v in before {
      } else if u in before {
        var j :| 0 <= j < |added| && added[j] == v;
      } else if v in before {
        var i :| 0 <= i < |added| && added[i] == u;
      } else {
        var i :| 0 <= i < |added| && added[i] == u;
        var j :| 0 <= j < |added| && added[j] == v;
      }
    }
  }

  /** One more key seen in the pass: a known key changes nothing, a new one
      gets `next_id`, as `id_map[udn] = next_id` does. */
  lemma {:induction false} AllocateStep(loaded: Dict<Udn, int>, keys: seq<Udn>, u: Udn)
    requires loaded.Valid()
    ensures var ids := Allocate(loaded, keys);
            Allocate(loaded, keys + [u]) == if u in ids.entries then ids else ids.Put(u, NextId(loaded, ids))
  {
    assert (keys + [u])[..|keys|] == keys;
  }

  /** The value `wemo_map` holds for a light. */
  datatype WemoEntry = WemoEntry(id: int, device: WemoDevice)

  /** The `wemo_map[udn] = {"id": ..., "device": d}` writes of a pass, with
      the IDs of `ids`. */
  function EntryWrites(devices: seq<WemoDevice>, ids: map<Udn, int>): (w: seq<(Udn, WemoEntry)>)
    requires forall i :: 0 <= i < |devices| ==> DeviceKey(devices[i]) in ids
    ensures |w| == |devices|
    ensures forall i :: 0 <= i < |devices| ==>
              w[i] == (DeviceKey(devices[i]), WemoEntry(ids[DeviceKey(devices[i])], devices[i]))
  {
    seq(|devices|, i requires 0 <= i < |devices| =>
      (DeviceKey(devices[i]), WemoEntry(ids[DeviceKey(devices[i])], devices[i])))
  }

  /** `discover_wemo`: the ID map after the pass, which the caller saves,
      and `wemo_map`. */
  method DiscoverWemo(loaded: Dict<Udn, int>, devices: seq<WemoDevice>)
    returns (ids: Dict<Udn, int>, wemo: Dict<Udn, WemoEntry>)
    requires loaded.Valid()
    ensures ids == Allocate(loaded, KeysOf(devices))
    ensures forall i :: 0 <= i < |devices| ==> DeviceKey(devices[i]) in ids.entries
    ensures wemo == AfterWrites(Dict([], map[]), EntryWrites(devices, ids.entries))
    ensures ids.Valid() && wemo.Valid()
  {
    ids := loaded;
    var nextId := FirstFreeId(loaded);
    wemo := Dict([], map[]);
    var i := 0;
    while i < |devices|
      invariant i <= |devices|
      invariant DiscoveredSoFar(loaded, devices, i, ids, nextId, wemo)
    {
      var d := devices[i];
      var udn := DeviceKey(d);
      DiscoverStep(loaded, devices, i, ids, nextId, wemo);
      if udn !in ids.entries {
        ids := ids.Put(udn, nextId);
        nextId := nextId + 1;
      }
      wemo := wemo.Put(udn, WemoEntry(ids.entries[udn], d));
      i := i + 1;
    }
    assert devices[..i] == devices;
    AllocateValid(loaded, KeysOf(devices));
    AfterWritesValid(Dict([], map[]), EntryWrites(devices, ids.entries));
  }

  /** The state of `discover_wemo` after the first `i` devices. */
  ghost predicate DiscoveredSoFar(loaded: Dict<Udn, int>, devices: seq<WemoDevice>, i: nat,
                                  ids: Dict<Udn, int>, nextId: int, wemo: Dict<Udn, WemoEntry>)
    requires loaded.Valid() && i <= |devices|
  {
    && ids == Allocate(loaded, KeysOf(devices[..i]))
    && nextId == NextId(loaded, ids)
    && (forall j :: 0 <= j < i ==> DeviceKey(devices[j]) in ids.entries)
    && wemo == AfterWrites(Dict([], map[]), EntryWrites(devices[..i], ids.entries))
  }

  /** One more device: its key gets `next_id` when new, and `wemo_map` gets
      its entry. */
  lemma {:induction false} DiscoverStep(loaded: Dict<Udn, int>, devices: seq<WemoDevice>, i: nat,
                                        ids: Dict<Udn, int>, nextId: int, wemo: Dict<Udn, WemoEntry>)
    requires loaded.Valid() && i < |devices|
    requires DiscoveredSoFar(loaded, devices, i, ids, nextId, wemo)
    ensures var u := DeviceKey(devices[i]);
            var ids' := if u in ids.entries then ids else ids.Put(u, nextId);
            && u in ids'.entries
            && DiscoveredSoFar(loaded, devices, i + 1, ids', if u in ids.entries then nextId else nextId + 1,
                               wemo.Put(u, WemoEntry(ids'.entries[u], devices[i])))
  {
    DiscoverIdsStep(loaded, devices, i, ids);
    var u := DeviceKey(devices[i]);
    var ids' := if u in ids.entries then ids else ids.Put(u, nextId);
    DiscoverEntryStep(devices, i, ids.entries, ids'.entries, wemo);
  }

  /** `wemo_map` after one more device, once its key has an ID. */
  lemma {:induction false} DiscoverEntryStep(devices: seq<WemoDevice>, i: nat, before: map<Udn, int>, after: map<Udn, int>,
                                             wemo: Dict<Udn, WemoEntry>)
    requires i < |devices|
    requires forall j :: 0 <= j < i ==> DeviceKey(devices[j]) in before
    requires DeviceKey(devices[i]) in after
    requires forall u :: u in before ==> u in after && after[u] == before[u]
    requires wemo == AfterWrites(Dict([], map[]), EntryWrites(devices[..i], before))
    ensures forall j :: 0 <= j < i + 1 ==> DeviceKey(devices[j]) in after
    ensures wemo.Put(DeviceKey(devices[i]), WemoEntry(after[DeviceKey(devices[i])], devices[i]))
         == AfterWrites(Dict([], map[]), EntryWrites(devices[..i + 1], after))
  {
    var u := DeviceKey(devices[i]);
    EntryWritesStep(devices, i, before, after);
    AfterWritesStep(Dict([], map[]), EntryWrites(devices[..i], after), u, WemoEntry(after[u], devices[i]));
  }

  /** The ID map after one more device. */
  lemma {:induction false} DiscoverIdsStep(loaded: Dict<Udn, int>, devices: seq<WemoDevice>, i: nat, ids: Dict<Udn, int>)
    requires loaded.Valid() && i < |devices|
    requires ids == Allocate(loaded, KeysOf(devices[..i]))
    ensures var u := DeviceKey(devices[i]);
            Allocate(loaded, KeysOf(devices[..i + 1])) == if u in ids.entries then ids else ids.Put(u, NextId(loaded, ids))
  {
    var keys := KeysOf(devices[..i]);
    assert KeysOf(devices[..i + 1]) == keys + [DeviceKey(devices[i])];
    AllocateStep(loaded, keys, DeviceKey(devices[i]));
  }

  /** Growing the ID map does not change the writes of devices already keyed. */
  lemma {:induction false} EntryWritesStep(devices: seq<WemoDevice>, i: nat, before: map<Udn, int>, after: map<Udn, int>)
    requires i < |devices|
    requires forall j :: 0 <= j < i ==> DeviceKey(devices[j]) in before
    requires DeviceKey(devices[i]) in after
    requires forall u :: u in before ==> u in after && after[u] == before[u]
    ensures EntryWrites(devices[..i], before) == EntryWrites(devices[..i], after)
    ensures EntryWrites(devices[..i + 1], after)
         == EntryWrites(devices[..i], after)
            + [(DeviceKey(devices[i]), WemoEntry(after[DeviceKey(devices[i])], devices[i]))]
  {
  }

  /** `wemo_map` lists the discovered keys once each, in discovery order. */
  lemma {:induction false} EntriesInDiscoveryOrder(devices: seq<WemoDevice>, ids: map<Udn, int>)
    requires forall i :: 0 <= i < |devices| ==> DeviceKey(devices[i]) in ids
    ensures var wemo: Dict<Udn, WemoEntry> := AfterWrites(Dict([], map[]), EntryWrites(devices, ids));
            wemo.order == FirstSeen({}, KeysOf(devices))
  {
    var writes := EntryWrites(devices, ids);
    var empty: Dict<Udn, WemoEntry> := Dict([], map[]);
    AfterWritesDescribed(empty, writes);
    assert WriteKeys(writes) == KeysOf(devices);
    assert empty.entries.Keys == {};
  }

  /** Every light of `wemo_map` carries the ID the ID map gives its key. */
  lemma {:induction false} EntriesCarryMapIds(devices: seq<WemoDevice>, ids: map<Udn, int>)
    requires forall i :: 0 <= i < |devices| ==> DeviceKey(devices[i]) in ids
    ensures var wemo: Dict<Udn, WemoEntry> := AfterWrites(Dict([], map[]), EntryWrites(devices, ids));
            forall u: Udn :: u in wemo.entries ==> u in ids && wemo.entries[u].id == ids[u]
  {
    var writes := EntryWrites(devices, ids);
    var empty: Dict<Udn, WemoEntry> := Dict([], map[]);
    AfterWritesDescribed(empty, writes);
    assert empty.entries == map[];
    forall u: Udn | u in LastWrites(writes) ensures u in ids && LastWrites(writes)[u].id == ids[u] {
      EntryFromDevice(devices, ids, u);
    }
  }

  lemma {:induction false} EntryFromDevice(devices: seq<WemoDevice>, ids: map<Udn, int>, u: Udn)
    requires forall i :: 0 <= i < |devices| ==> DeviceKey(devices[i]) in ids
    requires u in LastWrites(EntryWrites(devices, ids))
    ensures u in ids && LastWrites(EntryWrites(devices, ids))[u].id == ids[u]
  {
    var writes := EntryWrites(devices, ids);
    LastWritesFrom(writes, u);
    var i :| 0 <= i < |writes| && writes[i] == (u, LastWrites(writes)[u]);
    assert DeviceKey(devices[i]) == u;
  }

  // ---------------------------------------------------------------------
  // Light records and lookups
  // ---------------------------------------------------------------------

  /** The `state` and the other fields of a light as the Hue API serves it. */
  datatype LightRecord = LightRecord(
    on: bool, bri: int, hue: int, sat: int, reachable: bool,
    kind: string, name: string, uniqueId: string, modelId: string, manufacturer: string)

  const UNIQUE_ID_PREFIX := "00:17:88:01:01:01:01:0"
  const UNIQUE_ID_SUFFIX := "-0b"

  /** The light ID embedded in a `uniqueid`, None for a text of another shape. */
  function IdOfUniqueId(u: string): Option<int> {
    var p, q := |UNIQUE_ID_PREFIX|, |UNIQUE_ID_SUFFIX|;
    if |u| >= p + q && u[..p] == UNIQUE_ID_PREFIX && u[|u| - q..] == UNIQUE_ID_SUFFIX
    then ParseInt(u[p..|u| - q])
    else None
  }

  /** The record served for a light. */
  function RecordOf(e: WemoEntry): LightRecord {
    LightRecord(e.device.state == 1, 200, 5000, 200, true, "Extended color light",
                "Virtual " + e.device.name, UNIQUE_ID_PREFIX + Str(e.id) + UNIQUE_ID_SUFFIX,
                "LCT015", "Signify Netherlands B.V.")
  }

  /** A light's record reports it on exactly when the device's state is 1,
      and the light's ID can be read back from its `uniqueid`. */
  lemma {:induction false} RecordDescribesLight(e: WemoEntry)
    ensures RecordOf(e).on <==> e.device.state == 1
    ensures IdOfUniqueId(RecordOf(e).uniqueId) == Some(e.id)
  {
    var u := RecordOf(e).uniqueId;
    StrRoundTrip(e.id);
    assert u[..|UNIQUE_ID_PREFIX|] == UNIQUE_ID_PREFIX;
    assert u[|u| - |UNIQUE_ID_SUFFIX|..] == UNIQUE_ID_SUFFIX;
    assert u[|UNIQUE_ID_PREFIX|..|u| - |UNIQUE_ID_SUFFIX|] == Str(e.id);
  }

  /** Lights with different IDs have different `uniqueid`s. */
  lemma {:induction false} UniqueIdsDiffer(a: WemoEntry, b: WemoEntry)
    requires a.id != b.id
    ensures RecordOf(a).uniqueId != RecordOf(b).uniqueId
  {
    RecordDescribesLight(a);
    RecordDescribesLight(b);
  }

  /** The responses of the Hue endpoints. */
  datatype HueResponse =
    | LightState(light: LightRecord)   // 200, the light's object
    | SwitchedTo(on: bool)             // 200, [{"success": {"on": on}}]
    | Unsupported                      // 200, [{"error": "unsupported"}]
    | NotAvailable(address: string)    // 404, error type 3
    | Unauthorized                     // 403
    | ServerError                      // 500: an exception escapes the handler

  const BRIDGE_USERNAME := "alexa-user-001"
  const ERROR_RESOURCE_NOT_AVAILABLE := 3

  function Status(r: HueResponse): int {
    match r
    case NotAvailable(_) => 404
    case Unauthorized => 403
    case ServerError => 500
    case _ => 200
  }

  function ErrorType(r: HueResponse): Option<int> {
    if r.NotAvailable? then Some(ERROR_RESOURCE_NOT_AVAILABLE) else None
  }

  /** The first light, in `wemo_map` order, whose ID is `id`. */
  function FirstWithId(lights: seq<WemoEntry>, id: int): (r: Option<WemoEntry>)
    ensures r.None? <==> forall i :: 0 <= i < |lights| ==> lights[i].id != id
    ensures r.Some? ==> exists i :: 0 <= i < |lights| && lights[i] == r.value && r.value.id == id
                                    && forall j :: 0 <= j < i ==> lights[j].id != id
  {
    if lights == [] then None
    else if lights[0].id == id then Some(lights[0])
    else
      var r := FirstWithId(lights[1..], id);
      assert forall i :: 1 <= i < |lights| ==> lights[1..][i - 1] == lights[i];
      r
  }

  /** The search loop the two light endpoints share. */
  method FindLight(wemo: Dict<Udn, WemoEntry>, id: int) returns (found: Option<WemoEntry>)
    requires wemo.Valid()
    ensures found == FirstWithId(wemo.Values(), id)
  {
    found := None;
    var i := 0;
    while i < |wemo.order|
      invariant 0 <= i <= |wemo.order|
      invariant FirstWithId(wemo.Values(), id) == FirstWithId(wemo.Values()[i..], id)
    {
      var e := wemo.entries[wemo.order[i]];
      if e.id == id {
        found := Some(e);
        break;
      }
      assert wemo.Values()[i..][1..] == wemo.Values()[i + 1..];
      i := i + 1;
    }
  }

  /** A `switch` the bridge sends: `on()` or `off()` on a device. */
  datatype Switch = Switch(device: WemoDevice, on: bool)

  /** Python's `wemo_list[light_id - 1]` does not raise. */
  predicate InListRange(count: nat, lightId: int) {
    -(count as int) <= lightId - 1 < count
  }

  /** `hue_set_state` as written. `lightId` is `int()` of the path segment
      (None when it raises), `on` the truth of the body's "on" (None when the
      key is missing or null). */
  function SetStateOutcome(wemo: Dict<Udn, WemoEntry>, lightId: Option<int>, on: Option<bool>)
    : (r: (HueResponse, Option<Switch>))
    requires wemo.Valid()
    ensures r.1.Some? <==> r.0.SwitchedTo?
    ensures lightId.Some? && on.None? ==> r.0 == Unsupported
    ensures r.0.SwitchedTo? <==>
              && lightId.Some? && on.Some? && InListRange(|wemo.order|, lightId.value)
              && exists e :: e in wemo.Values() && e.id == lightId.value
    ensures r.0.NotAvailable? <==>
              && lightId.Some? && on.Some? && InListRange(|wemo.order|, lightId.value)
              && forall e :: e in wemo.Values() ==> e.id != lightId.value
    ensures lightId.None? ==> r == (ServerError, None)
    ensures lightId.Some? && on.Some? && !InListRange(|wemo.order|, lightId.value) ==> r == (ServerError, None)
    ensures r.0.NotAvailable? ==> r.0.address == "/lights/" + Str(lightId.value)
    ensures r.0.NotAvailable? ==> Status(r.0) == 404 && ErrorType(r.0) == Some(ERROR_RESOURCE_NOT_AVAILABLE)
    ensures r.1.Some? ==> r.1.value.on == on.value && r.0.on == on.value
                          && exists i :: 0 <= i < |wemo.order| && wemo.Values()[i].device == r.1.value.device
                                         && wemo.Values()[i].id == lightId.value
                                         && forall j :: 0 <= j < i ==> wemo.Values()[j].id != lightId.value
  {
    if lightId.None? then (ServerError, None)
    else if on.None? then (Unsupported, None)
    else if !InListRange(|wemo.order|, lightId.value) then (ServerError, None)
    else match FirstWithId(wemo.Values(), lightId.value)
      case Some(e) => (SwitchedTo(on.value), Some(Switch(e.device, on.value)))
      case None => (NotAvailable("/lights/" + Str(lightId.value)), None)
  }

  /** `hue_set_state` without the unused `wemo_list[light_id - 1]`: a light
      is switched exactly when one with the requested ID exists. */
  function SetStateOutcomeIntended(wemo: Dict<Udn, WemoEntry>, lightId: Option<int>, on: Option<bool>)
    : (r: (HueResponse, Option<Switch>))
    requires wemo.Valid()
    ensures r.1.Some? <==> r.0.SwitchedTo?
    ensures r.0.SwitchedTo? <==>
              lightId.Some? && on.Some? && exists e :: e in wemo.Values() && e.id == lightId.value
    ensures r.0.NotAvailable? <==>
              lightId.Some? && on.Some? && forall e :: e in wemo.Values() ==> e.id != lightId.value
    ensures lightId.None? ==> r == (ServerError, None)
    ensures lightId.Some? && on.None? ==> r == (Unsupported, None)
    ensures r.0.NotAvailable? ==> r.0.address == "/lights/" + Str(lightId.value)
    ensures r.0.NotAvailable? ==> Status(r.0) == 404 && ErrorType(r.0) == Some(ERROR_RESOURCE_NOT_AVAILABLE)
    ensures r.1.Some? ==> r.1.value.on == on.value && r.0.on == on.value
                          && exists i :: 0 <= i < |wemo.order| && wemo.Values()[i].device == r.1.value.device
                                         && wemo.Values()[i].id == lightId.value
                                         && forall j :: 0 <= j < i ==> wemo.Values()[j].id != lightId.value
  {
    if lightId.None? then (ServerError, None)
    else if on.None? then (Unsupported, None)
    else match FirstWithId(wemo.Values(), lightId.value)
      case Some(e) => (SwitchedTo(on.value), Some(Switch(e.device, on.value)))
      case None => (NotAvailable("/lights/" + Str(lightId.value)), None)
  }

  /** With stable IDs a light can outlive its position: when only the second
      of two persisted devices is found, its ID 2 is past the end of the
      one-element light list, so as written the request fails with a server
      error although light 2 exists. */
  lemma {:induction false} StaleIndexRejectsKnownLight()
    ensures var device := WemoDevice(Some("uuid:B"), None, "Lamp", 0);
            var wemo := Dict([Some("uuid:B")], map[Some("uuid:B") := WemoEntry(2, device)]);
            && wemo.Valid()
            && SetStateOutcome(wemo, Some(2), Some(true)).0 == ServerError
            && SetStateOutcomeIntended(wemo, Some(2), Some(true)) == (SwitchedTo(true), Some(Switch(device, true)))
  {
    var device := WemoDevice(Some("uuid:B"), None, "Lamp", 0);
    var wemo := Dict([Some("uuid:B")], map[Some("uuid:B") := WemoEntry(2, device)]);
    assert wemo.Values() == [WemoEntry(2, device)];
  }

  /** PUT /api/<user>/lights/<id>/state. */
  method HueSetState(wemo: Dict<Udn, WemoEntry>, lightId: Option<int>, on: Option<bool>)
    returns (response: HueResponse, switch: Option<Switch>)
    requires wemo.Valid()
    ensures (response, switch) == SetStateOutcome(wemo, lightId, on)
  {
    if lightId.None? {
      return ServerError, None;
    }
    if on.None? {
      return Unsupported, None;
    }
    if !InListRange(|wemo.order|, lightId.value) {
      return ServerError, None;
    }
    var found := FindLight(wemo, lightId.value);
    if found.Some? {
      response, switch := SwitchedTo(on.value), Some(Switch(found.value.device, on.value));
    } else {
      response, switch := NotAvailable("/lights/" + Str(lightId.value)), None;
    }
  }

  /** GET /api/<user>/lights/<id>. `segment` is the path segment and
      `segmentValue` its `int()` (None when that raises); the conversion only
      happens inside the search loop, so with no lights at all a malformed
      segment still gets the 404, addressed with the segment as given. */
  method LightIndividual(username: string, segment: string, segmentValue: Option<int>,
                         wemo: Dict<Udn, WemoEntry>)
    returns (response: HueResponse)
    requires wemo.Valid()
    ensures username != BRIDGE_USERNAME ==> response == Unauthorized && Status(response) == 403
    ensures response.NotAvailable? ==> Status(response) == 404 && ErrorType(response) == Some(ERROR_RESOURCE_NOT_AVAILABLE)
    ensures username == BRIDGE_USERNAME && |wemo.order| > 0 && segmentValue.None? ==>
              response == ServerError
    ensures username == BRIDGE_USERNAME && |wemo.order| == 0 ==>
              response == NotAvailable("/lights/" + segment)
    ensures username == BRIDGE_USERNAME && segmentValue.Some? ==>
              match FirstWithId(wemo.Values(), segmentValue.value)
              case Some(e) => response == LightState(RecordOf(e))
              case None => response == NotAvailable("/lights/" + segment)
  {
    if username != BRIDGE_USERNAME {
      return Unauthorized;
    }
    if |wemo.order| == 0 {
      return NotAvailable("/lights/" + segment);
    }
    if segmentValue.None? {
      return ServerError;
    }
    var found := FindLight(wemo, segmentValue.value);
    if found.Some? {
      response := LightState(RecordOf(found.value));
    } else {
      response := NotAvailable("/lights/" + segment);
    }
  }

  /** The `result[str(id)] = {...}` writes of `hue_lights`, one per light. */
  function RecordWrites(lights: seq<WemoEntry>): (w: seq<(string, LightRecord)>)
    ensures |w| == |lights|
    ensures forall i :: 0 <= i < |lights| ==> w[i] == (Str(lights[i].id), RecordOf(lights[i]))
  {
    seq(|lights|, i requires 0 <= i < |lights| => (Str(lights[i].id), RecordOf(lights[i])))
  }

  /** GET /api/<user>/lights: the light list, keyed by `str(id)`. */
  method HueLights(wemo: Dict<Udn, WemoEntry>) returns (result: Dict<string, LightRecord>)
    requires wemo.Valid()
    ensures result.Valid()
    ensures result == AfterWrites(Dict([], map[]), RecordWrites(wemo.Values()))
  {
    var lights := wemo.Values();
    result := Dict([], map[]);
    var i := 0;
    while i < |wemo.order|
      invariant 0 <= i <= |wemo.order|
      invariant result == AfterWrites(Dict([], map[]), RecordWrites(lights[..i]))
    {
      var e := wemo.entries[wemo.order[i]];
      HueLightsStep(lights, i);
      result := result.Put(Str(e.id), RecordOf(e));
      i := i + 1;
    }
    assert lights[..i] == lights;
    AfterWritesValid(Dict([], map[]), RecordWrites(lights));
  }

  lemma {:induction false} HueLightsStep(lights: seq<WemoEntry>, i: nat)
    requires i < |lights|
    ensures AfterWrites(Dict([], map[]), RecordWrites(lights[..i + 1]))
         == AfterWrites(Dict([], map[]), RecordWrites(lights[..i])).Put(Str(lights[i].id), RecordOf(lights[i]))
  {
    assert RecordWrites(lights[..i + 1]) == RecordWrites(lights[..i]) + [(Str(lights[i].id), RecordOf(lights[i]))];
    AfterWritesStep(Dict([], map[]), RecordWrites(lights[..i]), Str(lights[i].id), RecordOf(lights[i]));
  }

  predicate DistinctIds(lights: seq<WemoEntry>) {
    forall i, j :: 0 <= i < j < |lights| ==> lights[i].id != lights[j].id
  }

  /** A pass from an ID file in which no two keys share an ID leaves a
      `wemo_map` in which no two lights share one. */
  lemma {:induction false} DiscoveredIdsDistinct(loaded: Dict<Udn, int>, devices: seq<WemoDevice>,
                                                 ids: Dict<Udn, int>, wemo: Dict<Udn, WemoEntry>)
    requires loaded.Valid() && Injective(loaded.entries)
    requires ids == Allocate(loaded, KeysOf(devices))
    requires forall i :: 0 <= i < |devices| ==> DeviceKey(devices[i]) in ids.entries
    requires wemo == AfterWrites(Dict([], map[]), EntryWrites(devices, ids.entries))
    ensures wemo.Valid() && DistinctIds(wemo.Values())
  {
    var empty: Dict<Udn, WemoEntry> := Dict([], map[]);
    AllocateKeepsInjective(loaded, KeysOf(devices));
    AfterWritesValid(empty, EntryWrites(devices, ids.entries));
    EntriesCarryMapIds(devices, ids.entries);
    DistinctIndices(wemo.order);
    var vs := wemo.Values();
    forall i, j | 0 <= i < j < |vs| ensures vs[i].id != vs[j].id {
      var u, v := wemo.order[i], wemo.order[j];
      assert u in wemo.entries && v in wemo.entries && u != v;
      assert vs[i].id == ids.entries[u] && vs[j].id == ids.entries[v];
    }
  }

  /** When no two lights share an ID (which `DiscoveredIdsDistinct` gives for
      a pass from an injective ID file), the
      list holds every light once, in `wemo_map` order, under `str` of its ID. */
  lemma {:induction false} LightListHoldsEveryLight(lights: seq<WemoEntry>)
    requires DistinctIds(lights)
    ensures var list := AfterWrites(Dict([], map[]), RecordWrites(lights));
            && |list.order| == |lights|
            && forall i :: 0 <= i < |lights| ==>
                 && list.order[i] == Str(lights[i].id)
                 && Str(lights[i].id) in list.entries && list.entries[Str(lights[i].id)] == RecordOf(lights[i])
  {
    RecordKeysDistinct(lights);
    AfterDistinctWrites(RecordWrites(lights));
  }

  /** Distinct IDs give distinct keys `str(id)`. */
  lemma {:induction false} RecordKeysDistinct(lights: seq<WemoEntry>)
    requires DistinctIds(lights)
    ensures Distinct(WriteKeys(RecordWrites(lights)))
  {
    var keys := WriteKeys(RecordWrites(lights));
    forall i, j | 0 <= i < j < |keys| ensures keys[i] != keys[j] {
      if keys[i] == keys[j] { StrInjective(lights[i].id, lights[j].id); }
    }
    DistinctIndices(keys);
  }

  // ---------------------------------------------------------------------
  // SSDP discovery replies
  // ---------------------------------------------------------------------

  function UpperChar(c: char): char {
    if 'a' <= c <= 'z' then (c as int - 32) as char else c
  }

  /** `str.upper()` on the letters a to z. */
  function Upper(s: string): (u: string)
    ensures |u| == |s|
    ensures forall i :: 0 <= i < |s| ==> u[i] == UpperChar(s[i])
  {
    seq(|s|, i requires 0 <= i < |s| => UpperChar(s[i]))
  }

  /** `t` occurs in `s` starting at position `i`. */
  predicate OccursAt(t: string, s: string, i: int) {
    0 <= i && i + |t| <= |s| && s[i..i + |t|] == t
  }

  /** `t` occurs in `s` at some position. */
  ghost predicate Occurs(t: string, s: string) {
    exists i :: OccursAt(t, s, i)
  }

  /** Python's `t in s`, scanning `s` from the left. */
  function Contains(s: string, t: string): (r: bool)
    ensures r <==> Occurs(t, s)
    decreases |s|
  {
    if |s| < |t| then false
    else if s[..|t|] == t then
      assert OccursAt(t, s, 0);
      true
    else
      var r := Contains(s[1..], t);
      assert s[0..|t|] == s[..|t|];
      assert Occurs(t, s) ==> Occurs(t, s[1..]) by {
        if Occurs(t, s) {
          var i :| OccursAt(t, s, i);
          assert s[1..][i - 1..i - 1 + |t|] == s[i..i + |t|];
          assert OccursAt(t, s[1..], i - 1);
        }
      }
      assert Occurs(t, s[1..]) ==> Occurs(t, s) by {
        if Occurs(t, s[1..]) {
          var i :| OccursAt(t, s[1..], i);
          assert s[1..][i..i + |t|] == s[i + 1..i + 1 + |t|];
          assert OccursAt(t, s, i + 1);
        }
      }
      r
  }

  /** `ssdp_listener`'s test on a received datagram. */
  predicate ShouldReply(datagram: string) {
    var msg := Upper(datagram);
    && Contains(msg, "M-SEARCH")
    && Contains(msg, "SSDP:DISCOVER")
    && (Contains(msg, "BASIC:1") || Contains(msg, "ROOTDEVICE"))
  }

  lemma {:induction false} UpperIdempotent(s: string)
    ensures Upper(Upper(s)) == Upper(s)
  {
  }

  /** The test ignores letter case: a datagram and its upper-cased copy get the
      same answer. */
  lemma {:induction false} ShouldReplyIgnoresCase(datagram: string)
    ensures ShouldReply(Upper(datagram)) == ShouldReply(datagram)
  {
    UpperIdempotent(datagram);
  }

  datatype Address = Address(host: string, port: int)
  datatype Datagram = Datagram(payload: string, sender: Address)

  /** The addresses the SSDP reply goes to, for received datagrams in order. */
  function RepliesTo(received: seq<Datagram>): (sent: seq<Address>)
    ensures |sent| <= |received|
    ensures forall a :: a in sent ==> exists d :: d in received && d.sender == a && ShouldReply(d.payload)
  {
    if received == [] then []
    else
      var n := |received| - 1;
      var earlier := RepliesTo(received[..n]);
      assert forall d :: d in received[..n] ==> d in received;
      if ShouldReply(received[n].payload) then earlier + [received[n].sender] else earlier
  }

  /** Replying is a filter over the datagrams: the replies to a longer run are
      the replies to its first part followed by those to the rest. */
  lemma {:induction false} RepliesToAppend(a: seq<Datagram>, b: seq<Datagram>)
    ensures RepliesTo(a + b) == RepliesTo(a) + RepliesTo(b)
    decreases |b|
  {
    if b == [] {
      assert a + b == a;
    } else {
      var n, ab := |b| - 1, a + b;
      assert ab[..|ab| - 1] == a + b[..n] && ab[|ab| - 1] == b[n];
      RepliesToAppend(a, b[..n]);
    }
  }

  /** One datagram gets exactly one reply, to its sender, when it passes the
      M-SEARCH test, and none otherwise. */
  lemma {:induction false} RepliesToOne(d: Datagram)
    ensures RepliesTo([d]) == if ShouldReply(d.payload) then [d.sender] else []
  {
    assert [d][..0] == [];
  }

  /** So every passing datagram is answered once, at its place in the order. */
  lemma {:induction false} RepliesToEach(a: seq<Datagram>, d: Datagram, b: seq<Datagram>)
    ensures RepliesTo(a + [d] + b)
              == RepliesTo(a) + (if ShouldReply(d.payload) then [d.sender] else []) + RepliesTo(b)
  {
    RepliesToAppend(a + [d], b);
    RepliesToAppend(a, [d]);
    RepliesToOne(d);
  }

  /** `ssdp_listener`'s loop over the datagrams it receives. */
  method Listen(received: seq<Datagram>) returns (sent: seq<Address>)
    ensures sent == RepliesTo(received)
  {
    sent := [];
    var i := 0;
    while i < |received|
      invariant 0 <= i <= |received|
      invariant sent == RepliesTo(received[..i])
    {
      assert received[..i + 1][..i] == received[..i];
      if ShouldReply(received[i].payload) {
        sent := sent + [received[i].sender];
      }
      i := i + 1;
    }
    assert received[..i] == received;
  }
}
