# Home automation: Hue bridge and device registry

This project models the sequential core of two small home-automation servers
and proves properties of the model in Dafny.

- **The Alexa Hue bridge** (`alexa_hue_bridge.py`) presents discovered WeMo
  devices to Alexa as Philips Hue lights. The model covers:
  - the stable light IDs handed out at discovery: a persisted map from device
    key (`udn or serial_number`) to an integer, where each new key gets
    `max + 1`, then `max + 2`, and so on;
  - the `wemo_map` built by the same pass;
  - the light records it serves;
  - the linear lookup shared by `hue_set_state` and `api_light_individual`,
    with the type-3 "not available" error, the username check and the missing
    `on` rejection;
  - the SSDP M-SEARCH match.
- **The unified WeMo + LIFX web server** (`home_automation_server.py`) keeps
  the in-memory registry `DEVICES`, modelled as the class
  `HomeServer.Registry`. The model covers:
  - the two discovery passes, which write whole records stamped with the time
    of the pass;
  - the `/api/devices` snapshot, which drops the live device handle;
  - the toggle command and its cache refresh;
  - the brightness dispatch and its 404/400/500 outcomes.

Python dictionaries keep insertion order, and the code relies on it: the
light list, the snapshot and the first-match lookups all follow it. A
dictionary is therefore `Common.Dict`, an order of keys plus a mapping.
`Common.AfterWrites` describes a run of `d[k] = v` writes. The lemma
`Common.AfterWritesDescribed` says what such a run leaves behind:
- keys not yet present are appended in order of first write;
- each written key holds its last value;
- every other key is untouched.

Device objects are values or opaque handles. What they report (`get_state()`,
`get_power()`, `get_mac_addr()`, `get_label()`, whether a method exists) is
passed in as data. On the registry side, whether a device call raises is data
too; on the Hue side device calls are taken to succeed (see Left out). The
clock (`time.time()`) is a parameter.

Files:
- `common.dfy`: Option, duplicate-free sequences, the ordered dictionary.
- `int_text.dfy`: Python's `str(int)` and its inverse.
- `hue_bridge.dfy`: module `HueBridge`.
- `home_server.dfy`: module `HomeServer`.

LIFX discovery has one `try` around the whole loop, so the first light whose
`get_mac_addr()`, `get_power()` or `get_label()` raises ends the pass.
`HomeServer.Answered` models that.

## Model

| member | source | states |
|---|---|---|
| HueBridge.LoadIdMapReadsFile | alexa_hue_bridge.py:76-89 | a missing, blank or invalid ID file loads as the empty map; a stored one loads with its keys in file order and each key's ID |
| HueBridge.LoadIdMap | alexa_hue_bridge.py:76-89 | the loaded ID map is a well-formed dictionary |
| HueBridge.MaxOrZero | alexa_hue_bridge.py:120 | `max(values, default=0)`: an upper bound of the values that is one of them, 0 for none |
| HueBridge.FirstFreeId | alexa_hue_bridge.py:120 | the first `next_id` exceeds every loaded ID, is 1 for an empty map, and is otherwise one more than a loaded ID |
| HueBridge.AllocateValid | alexa_hue_bridge.py:124-130 | the ID map stays a well-formed dictionary through the pass |
| HueBridge.AllocateOrder | alexa_hue_bridge.py:124-130 | the pass appends the keys it had not loaded, once each, in the order first seen |
| HueBridge.AllocateKeys | alexa_hue_bridge.py:124-130 | after the pass the map's keys are exactly the loaded keys plus the discovered ones; nothing is removed |
| HueBridge.AllocateKeepsLoaded | alexa_hue_bridge.py:128-130 | a key already in the map keeps exactly its ID |
| HueBridge.AllocateNumbers | alexa_hue_bridge.py:118-130 | the k-th new key (from 0) gets the first free ID plus k, so the first is `max + 1` (1 for an empty map) and each next one is 1 more; a key seen twice gets one ID |
| HueBridge.AllocateIds | alexa_hue_bridge.py:118-130 | the facts above together: well-formed, order, keys, loaded IDs kept, new IDs numbered upwards |
| HueBridge.AllocateFreshIds | alexa_hue_bridge.py:120-130 | every newly handed-out ID is at least the first free ID and larger than every loaded ID |
| HueBridge.AllocateKeepsInjective | alexa_hue_bridge.py:118-130 | if no two loaded keys share an ID, none share one after the pass |
| HueBridge.DeviceKey | alexa_hue_bridge.py:125 | `udn or serial_number`: the udn when it is a non-empty string, otherwise the serial number (possibly None) |
| HueBridge.Allocate | alexa_hue_bridge.py:124-130 | the ID map after the pass, defined device by device: a known key changes nothing, a new key gets `next_id`; its properties are the `Allocate*` lemmas |
| HueBridge.DiscoverWemo | alexa_hue_bridge.py:118-143 | the loop leaves the ID map the allocation describes, with every discovered key in it, and `wemo_map` as the writes `wemo_map[udn] = {id, device}` with those IDs |
| HueBridge.EntriesInDiscoveryOrder | alexa_hue_bridge.py:133-136 | `wemo_map` lists each discovered key once, in discovery order |
| HueBridge.EntriesCarryMapIds | alexa_hue_bridge.py:133-136 | every `wemo_map` entry's `id` equals `id_map[udn]` |
| HueBridge.DiscoveredIdsDistinct | alexa_hue_bridge.py:118-143 | a pass from an ID file in which no two keys share an ID leaves a `wemo_map` in which no two lights share an ID |
| HueBridge.RecordOf | alexa_hue_bridge.py:247-251 | the light record: `on` from `get_state() == 1`, the constant `bri`, `hue`, `sat`, `reachable`, type, model and manufacturer, the name `Virtual <name>`, and the `uniqueid` built around the ID |
| HueBridge.RecordDescribesLight | alexa_hue_bridge.py:247-251 | a light record says `on` exactly when `get_state() == 1`, and its `uniqueid` reads back as the light's ID |
| HueBridge.UniqueIdsDiffer | alexa_hue_bridge.py:249 | lights with different IDs get different `uniqueid`s |
| IntText.StrRoundTrip | alexa_hue_bridge.py:247-249 | `str(id)` loses nothing: it parses back to the same integer |
| IntText.StrInjective | alexa_hue_bridge.py:247 | different IDs give different light-list keys `str(id)` |
| HueBridge.HueLights | alexa_hue_bridge.py:229-254 | the light list is a well-formed dictionary: the writes `result[str(id)] = record` in `wemo_map` order |
| HueBridge.LightListHoldsEveryLight | alexa_hue_bridge.py:229-254 | with distinct IDs the list holds every light once, in `wemo_map` order, under `str(id)`, with its record |
| HueBridge.FirstWithId | alexa_hue_bridge.py:271-279 | the match is the first entry in `wemo_map` order with the requested ID; there is none exactly when no entry has it |
| HueBridge.FindLight | alexa_hue_bridge.py:335-343 | the search loop with `break` finds the first entry with the requested ID, or nothing |
| HueBridge.InListRange | alexa_hue_bridge.py:267 | `wemo_list[light_id - 1]` does not raise: the index, negative ones included, lies within the list |
| HueBridge.SetStateOutcome | alexa_hue_bridge.py:257-298 | as written: an ID that is not an integer is a server error; no `on` gives `unsupported` and no command; an out-of-range list index is a server error; a switch is sent, for the first matching light, exactly when the index is in range and some light has the ID; otherwise 404 type 3 at `/lights/<id>` |
| HueBridge.SetStateOutcomeIntended | alexa_hue_bridge.py:257-298 | without the stray list index: an ID that is not an integer is a server error; no `on` gives `unsupported`; otherwise the first light in `wemo_map` order with the requested ID is switched to the requested `on` and the reply echoes it, and when no light has the ID the reply is 404 type 3 at `/lights/<id>` |
| HueBridge.StaleIndexRejectsKnownLight | alexa_hue_bridge.py:266-267 | a single discovered light with persisted ID 2 is switched by the intended handler but makes the handler as written fail |
| HueBridge.HueSetState | alexa_hue_bridge.py:257-298 | the handler's branches compute the as-written outcome |
| HueBridge.LightIndividual | alexa_hue_bridge.py:323-360 | a wrong username is 403; otherwise the first light with the ID is served with its record, and no match is 404 type 3 at `/lights/<segment>`; a malformed segment is a server error unless there are no lights |
| HueBridge.Upper | alexa_hue_bridge.py:194 | upper-casing of a to z: it keeps the length and maps each character on its own |
| HueBridge.Contains | alexa_hue_bridge.py:196-197 | Python's `t in s` holds exactly when `t` occurs in `s` at some position |
| HueBridge.ShouldReply | alexa_hue_bridge.py:196-197 | the upper-cased datagram contains `M-SEARCH` and `SSDP:DISCOVER`, and also `BASIC:1` or `ROOTDEVICE` |
| HueBridge.ShouldReplyIgnoresCase | alexa_hue_bridge.py:194-197 | the M-SEARCH test gives the same answer for a datagram and its upper-cased copy |
| HueBridge.RepliesTo | alexa_hue_bridge.py:192-199 | there are no more replies than datagrams, and each goes to the sender of a datagram that passed the M-SEARCH test; the lemmas below pin it down exactly |
| HueBridge.RepliesToAppend | alexa_hue_bridge.py:192-199 | the replies to a run of datagrams are the replies to its first part followed by those to the rest: each datagram is handled alone, in arrival order |
| HueBridge.RepliesToOne | alexa_hue_bridge.py:194-199 | one datagram gets exactly one reply, to its sender, when it passes the test, and none when it does not |
| HueBridge.RepliesToEach | alexa_hue_bridge.py:192-199 | every passing datagram is answered exactly once, at its own place among the replies, and a failing one contributes nothing |
| HueBridge.Listen | alexa_hue_bridge.py:192-199 | the receive loop sends exactly the replies `RepliesTo` describes, in order |
| HomeServer.KeyedPut | home_automation_server.py:114-115 | writing a record under its own `uuid` keeps every record filed under its `uuid` |
| HomeServer.KeyedAfterWrites | home_automation_server.py:143-144 | a pass of such writes keeps every record filed under its `uuid` |
| HomeServer.WemoRecord | home_automation_server.py:102-124 | the whole record a WeMo pass writes: key, handle, name and model defaulting to `WeMo`, type `wemo`, state, brightness, host and the pass's time |
| HomeServer.WemoRecordReadings | home_automation_server.py:102-124 | WeMo `state` is 0 when `get_state` is absent, returns None or raises, and otherwise is exactly what it returned; `brightness` is set exactly when `get_brightness` succeeded; the record is stamped with the pass's time |
| HomeServer.StripColons | home_automation_server.py:137 | `mac.replace(":", "")` has no colon and keeps every other character |
| HomeServer.StripColonsAppend | home_automation_server.py:137 | removing colons works piece by piece, so the remaining characters keep their order |
| HomeServer.StripColonsKeeps | home_automation_server.py:137 | a MAC without colons is kept as it is |
| HomeServer.LifxKey | home_automation_server.py:137 | `"lifx-" + mac.replace(":", "")` |
| HomeServer.LifxRecord | home_automation_server.py:136-153 | the whole record a LIFX pass writes for an answering light: its key, handle, label or MAC as name, model `LIFX`, type `lifx`, power flag, brightness, address and the pass's time |
| HomeServer.LifxRecordShape | home_automation_server.py:136-153 | a LIFX key is `"lifx-"` followed by `StripColons` of the MAC, so the MAC without colons in order; `state` is 1 exactly when power is positive and 0 otherwise; the name falls back to the MAC for an empty or missing label |
| HomeServer.Answered | home_automation_server.py:135-138 | the lights a pass writes are the ones before the first light that raises |
| HomeServer.PassDescribed | home_automation_server.py:91-155 | a pass keeps every key and its place, replaces the whole record at each key it writes with that key's last write, stamps it with the pass's `now`, and leaves the other records alone |
| HomeServer.WemoPassKeys | home_automation_server.py:96-124 | after a WeMo pass the keys are the old ones plus the sighted ones |
| HomeServer.WemoPassKeepsOthers | home_automation_server.py:95-124 | a key not sighted keeps its record |
| HomeServer.WemoPassWritesLatest | home_automation_server.py:94-124 | a sighted key holds the whole record of its last sighting, stamped with the pass's time |
| HomeServer.LifxPassKeys | home_automation_server.py:134-153 | after a LIFX pass the keys are the old ones plus those of the lights it got through |
| HomeServer.LifxPassKeepsOthers | home_automation_server.py:134-153 | a key the pass did not write, including those of lights after the first that raises, keeps its record |
| HomeServer.LifxPassWritesLatest | home_automation_server.py:133-153 | an answered light's key holds the whole record of the last answered light with it, stamped with the pass's time |
| HomeServer.ViewOf | home_automation_server.py:176-185 | the snapshot entry of a record: its key as `uuid` and every field but the device handle |
| HomeServer.ViewDropsOnlyHandle | home_automation_server.py:175-185 | a snapshot entry loses the device handle and nothing else: the record is the entry with its handle put back, and the handle never affects the entry |
| HomeServer.ToggleCommand | home_automation_server.py:199-207 | the command chosen by the device's type, or none when the read it needs first is missing or raises |
| HomeServer.ToggleCommandFlips | home_automation_server.py:198-207 | WeMo with `toggle` is toggled; WeMo without it is sent `set_state(0 if cur else 1)`, the opposite of its truthiness; LIFX is sent power exactly 0 when on and exactly 65535 when off; nothing is sent when the read before the command fails |
| HomeServer.Refreshed | home_automation_server.py:213-220 | the record after the cache refresh: the state read back or the previous one, and the refresh time; a raising read leaves it alone |
| HomeServer.RefreshTouchesStateAndTime | home_automation_server.py:213-220 | the cache refresh changes at most `state` and `last_seen`: `state` is the value read back or kept, and `last_seen` is refreshed unless the read raised |
| Common.Dict.Put | home_automation_server.py:114-124 | Python's `d[k] = v`: a new key goes to the end of the order, a present key keeps its place and only its value changes; `Common.PutValid` keeps the dictionary well formed |
| HomeServer.BrightnessCommand | home_automation_server.py:235-243 | there is no brightness command exactly for WeMo without `set_brightness`; WeMo with it gets `set_brightness`, LIFX gets `set_color`, both with the unclamped value |
| HomeServer.Registry.constructor | home_automation_server.py:22 | the registry starts empty |
| HomeServer.Registry.DiscoverWemo | home_automation_server.py:91-126 | the loop leaves the registry the WeMo writes describe, each record stamped `now`, and every record filed under its key |
| HomeServer.Registry.DiscoverLifx | home_automation_server.py:129-155 | the loop, stopped by the first raising light, leaves the registry the writes of the answered lights describe, and every record filed under its key |
| HomeServer.Registry.Snapshot | home_automation_server.py:171-186 | one entry per registry key, in registry order, each the record's fields without the handle, from which the record can be rebuilt with its handle |
| HomeServer.Registry.Toggle | home_automation_server.py:189-222 | an unknown key is 404 and sends nothing; a failing read before the command is 500 and sends nothing; a raising command is 500; in these cases the registry is unchanged; otherwise the command chosen by the device's type is sent and only that record is refreshed, with order and keys unchanged |
| HomeServer.Registry.Brightness | home_automation_server.py:225-246 | an unconvertible value is 500 before the lookup; an unknown key is 404; a missing value means 100; no support is 400 and sends nothing; a raising command is 500; the registry is only read |

## Left out

- Sockets, the SSDP multicast setup, the aiohttp and Flask servers, routing, JSON responses on the wire, `description.xml` and the HTML dashboard: these are I/O and UI.
- `get_local_ip`, `save_id_map` and the file reading in `load_id_map` are I/O. The file's content is the input `IdFile`.
- HueBridge.LoadIdMap: it does not model JSON parsing. A stored file is taken to be an object from strings to integers, and a JSON document of another shape is not represented.
- The pywemo and lifxlan calls are foreign code. Their results are inputs: device readings, and on the registry side `raises` flags and `Reading` values. The commands sent are results of type `Switch` or `Command`.
- HueBridge.HueSetState, HueBridge.LightIndividual and HueBridge.HueLights: a device call that raises is not modelled. `get_state()` (alexa_hue_bridge.py:248, 347) and `on()`/`off()` (284, 287) can raise, and the request then fails with a 500. The model returns the light's record or `SwitchedTo` instead.
- HueBridge.Upper: it maps only the letters a to z. Python's `str.upper()` also maps other cased Unicode letters, some of them into ASCII (`'ſ'` to `S`, `'ı'` to `I`), and some into two letters (`'ß'` to `SS`). So a datagram spelling `ssdp:diſcover` gets a reply from the source but not from `HueBridge.ShouldReply`.
- HueBridge.ShouldReply: the datagram is taken as already decoded text. `decode(errors="ignore")` drops invalid UTF-8 bytes, so `M-SEA\xffRCH` matches in the source but is not represented here. The 2048-byte cut of `recvfrom(2048)` is not modelled, and the datagram has no length bound.
- HomeServer.Registry.Brightness: `sent` is the command attempted. A LIFX `get_color()` that raises before `set_color` is covered by `raises`, with the attempted command still reported.
- The `uuid.uuid5` and `uuid.uuid4` fallbacks for a WeMo key are hashing and randomness. The key is part of the input `WemoSighting`.
- The LIFX brightness scalings `int(x / 65535 * 100)` and `int(b / 100 * 65535)` are floating point. Brightness read from a light is an input. A LIFX brightness command carries the requested percentage, not the scaled colour value.
- The `discover_all` loop with `sleep`, the daemon thread, `DEVICES_LOCK` and `time.sleep(0.5)` are concurrency and timing. Each locked block is one method on the registry.
- HomeServer.Registry.Toggle: it runs as one atomic step. A discovery pass that replaces the record between the command and the refresh, which the source's two lock sections allow, is not modelled.
- HomeServer.WemoRecord: a WeMo `name`, `model_name` or `host` attribute that exists but holds None is treated like a missing one. The source would store None for it.
- A failing `pywemo.discover_devices()` or `LifxLAN().get_lights()` ends that pass before any write. It is the same as an empty sighting list.
- HueBridge.HueSetState: `on` is taken as its truth value. A body such as `{"on": 1}` switches the light on in the source and the model alike, but the source echoes the value as given (`{"success": {"on": 1}}`) where the model replies `SwitchedTo(true)`.
- Malformed request bodies are not modelled: a body that is not JSON, or not an object. The error text `str(e)` of a 500 reply is left out.
- `api_root` answers every POST with the fixed username. It holds no logic about the core.
- HueBridge.HueSetState: it models the handler as written, including the stray `wemo_list[light_id - 1]`. The corrected behaviour is `HueBridge.SetStateOutcomeIntended` (see Findings).
- Nothing checks that a WeMo or LIFX reading is in a given range. The code does not check either.

## Findings

| source | as written | input that shows it | evidently intended | confidence | as-written member | corrected member |
|---|---|---|---|---|---|---|
| alexa_hue_bridge.py:266-267 | `hue_set_state` indexes `wemo_list[light_id - 1]` before searching by ID. The value is never used, but the index raises `IndexError` (a 500) when the stable ID is larger than the number of lights found in this pass | ID file `{"uuid:A": 1, "uuid:B": 2}`; only `uuid:B` is discovered; PUT `/lights/2/state` with `{"on": true}` | switch the light whose ID matches, and answer 404 type 3 only when none matches | not executed | HueBridge.StaleIndexRejectsKnownLight | HueBridge.SetStateOutcomeIntended |
