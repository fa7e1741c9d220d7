/** The device registry of the unified WeMo + LIFX web server: the records
    the two discovery passes write, the snapshot `/api/devices` serves, and
    the toggle and brightness commands. Devices are handles whose readings
    (state, power, label, ...) are inputs; the clock is a parameter; the
    Flask routing, the lock and the sleeping discovery thread are not
    modelled. */
module HomeServer {
  import opened Common

  /** `time.time()` at the moment of a pass or a refresh. */
  type Timestamp = int

  /** The live device object kept in a record; only its identity matters. */
  datatype Handle = Handle(ref: nat)

  /** The record's `type`. */
  datatype Kind = Wemo | Lifx

  /** A value of `DEVICES`. */
  datatype Record = Record(
    uuid: string, device: Handle, name: string, model: string, kind: Kind,
    state: int, brightness: Option<int>, ip: Option<string>, lastSeen: Timestamp)

  /** What a device call gave: the method is missing, it returned a value,
      or it raised. */
  datatype Reading<+T> = Absent | Returned(value: T) | Raised

  /** The registry is in step with itself: a Python dict whose every record
      carries its own key as `uuid`. */
  ghost predicate Keyed(d: Dict<string, Record>) {
    && d.Valid()
    && forall k :: k in d.entries ==> d.entries[k].uuid == k
  }

  lemma {:induction false} KeyedPut(d: Dict<string, Record>, k: string, r: Record)
    requires Keyed(d) && r.uuid == k
    ensures Keyed(d.Put(k, r))
  {
    PutValid(d, k, r);
  }

  /** Writes that each file a record under its own `uuid`. */
  predicate KeyedWrites(writes: seq<(string, Record)>) {
    forall i :: 0 <= i < |writes| ==> writes[i].1.uuid == writes[i].0
  }

  lemma {:induction false} KeyedAfterWrites(d: Dict<string, Record>, writes: seq<(string, Record)>)
    requires Keyed(d) && KeyedWrites(writes)
    ensures Keyed(AfterWrites(d, writes))
  {
    AfterWritesValid(d, writes);
    AfterWritesDescribed(d, writes);
    forall k | k in LastWrites(writes) ensures LastWrites(writes)[k].uuid == k {
      LastWritesFrom(writes, k);
    }
  }

  // ---------------------------------------------------------------------
  // WeMo discovery
  // ---------------------------------------------------------------------

  /** A WeMo device found by `pywemo.discover_devices()`: the key it is filed
      under (its `udn`, or the uuid derived from its host), its attributes
      (None when missing) and its two readings. */
  datatype WemoSighting = WemoSighting(
    key: string, handle: Handle, name: Option<string>, model: Option<string>, host: Option<string>,
    state: Reading<Option<int>>, brightness: Reading<int>)

  function Or(a: Option<string>, default: string): string {
    if a.Some? then a.value else default
  }

  /** `state`: the value of `get_state()`, 0 when the method is missing,
      returns None or raises. */
  function WemoState(r: Reading<Option<int>>): int {
    if r.Returned? && r.value.Some? then r.value.value else 0
  }

  /** `brightness`: the value of `get_brightness()`, None when the method is
      missing or raises. */
  function WemoBrightness(r: Reading<int>): Option<int> {
    if r.Returned? then Some(r.value) else None
  }

  /** The record a pass at time `now` writes for a sighting. */
  function WemoRecord(s: WemoSighting, now: Timestamp): Record {
    Record(s.key, s.handle, Or(s.name, "WeMo"), Or(s.model, "WeMo"), Wemo,
           WemoState(s.state), WemoBrightness(s.brightness), s.host, now)
  }

  /** A WeMo record reports a state only when `get_state()` gave one, and a
      brightness only when `get_brightness()` gave one; it is stamped with the
      pass's time and filed under the sighting's key. */
  lemma {:induction false} WemoRecordReadings(s: WemoSighting, now: Timestamp)
    ensures var r := WemoRecord(s, now);
            && (r.state != 0 ==> s.state.Returned? && s.state.value == Some(r.state))
            && (s.state.Returned? && s.state.value.Some? ==> r.state == s.state.value.value)
            && (s.state.Absent? || s.state.Raised? || s.state == Returned(None) ==> r.state == 0)
            && (r.brightness.Some? <==> s.brightness.Returned?)
            && (r.brightness.Some? ==> s.brightness.value == r.brightness.value)
            && r.kind == Wemo && r.uuid == s.key && r.lastSeen == now && r.device == s.handle
  {
  }

  /** The `DEVICES[udn] = {...}` writes of a WeMo pass. */
  function WemoWrites(found: seq<WemoSighting>, now: Timestamp): (w: seq<(string, Record)>)
    ensures |w| == |found|
    ensures forall i :: 0 <= i < |found| ==> w[i] == (found[i].key, WemoRecord(found[i], now))
  {
    seq(|found|, i requires 0 <= i < |found| => (found[i].key, WemoRecord(found[i], now)))
  }

  lemma {:induction false} WemoWritesKeyed(found: seq<WemoSighting>, now: Timestamp)
    ensures KeyedWrites(WemoWrites(found, now))
  {
  }

  // ---------------------------------------------------------------------
  // LIFX discovery
  // ---------------------------------------------------------------------

  /** A light of `lan.get_lights()`: answering, with its MAC, power, label,
      address and brightness (None when `get_color()` raises), or raising on
      one of `get_mac_addr()`, `get_power()` or `get_label()`. */
  datatype LifxLight =
    | Responsive(handle: Handle, mac: string, power: int, lightLabel: Option<string>, ip: string,
                 brightness: Option<int>)
    | Unresponsive

  /** `mac.replace(":", "")`. */
  function StripColons(s: string): (r: string)
    ensures ':' !in r
    ensures forall c :: c in r <==> c in s && c != ':'
  {
    if s == [] then []
    else
      var rest := StripColons(s[1..]);
      assert forall c :: c in s <==> c == s[0] || c in s[1..];
      if s[0] == ':' then rest else [s[0]] + rest
  }

  /** Removing the colons works piece by piece, so the MAC's other
      characters keep their order. */
  lemma {:induction false} StripColonsAppend(a: string, b: string)
    ensures StripColons(a + b) == StripColons(a) + StripColons(b)
  {
    if a == [] {
      assert a + b == b;
    } else {
      assert (a + b)[0] == a[0];
      assert (a + b)[1..] == a[1..] + b;
      StripColonsAppend(a[1..], b);
    }
  }

  /** A MAC without colons is kept as it is. */
  lemma {:induction false} StripColonsKeeps(s: string)
    requires ':' !in s
    ensures StripColons(s) == s
  {
    if s != [] {
      assert forall c :: c in s[1..] ==> c in s;
      StripColonsKeeps(s[1..]);
    }
  }

  const LIFX_PREFIX := "lifx-"

  /** The key of a LIFX light: `"lifx-"` and its MAC without colons. */
  function LifxKey(mac: string): string {
    LIFX_PREFIX + StripColons(mac)
  }

  /** `1 if power > 0 else 0`. */
  function PowerFlag(power: int): int {
    if power > 0 then 1 else 0
  }

  /** The record a pass at time `now` writes for an answering light. */
  function LifxRecord(l: LifxLight, now: Timestamp): Record
    requires l.Responsive?
  {
    var name := if l.lightLabel.Some? && l.lightLabel.value != "" then l.lightLabel.value else l.mac;
    Record(LifxKey(l.mac), l.handle, name, "LIFX", Lifx, PowerFlag(l.power), l.brightness, Some(l.ip), now)
  }

  /** A LIFX record is filed under `"lifx-"` and the MAC with every colon
      removed, reports state 1 exactly when the light's power is positive and
      0 otherwise, and is named by its label or, failing that, its MAC. */
  lemma {:induction false} LifxRecordShape(l: LifxLight, now: Timestamp)
    requires l.Responsive?
    ensures var r := LifxRecord(l, now);
            && r.uuid == LIFX_PREFIX + StripColons(l.mac)
            && |r.uuid| >= |LIFX_PREFIX| && r.uuid[..|LIFX_PREFIX|] == LIFX_PREFIX
            && ':' !in r.uuid[|LIFX_PREFIX|..]
            && (forall c :: c in r.uuid[|LIFX_PREFIX|..] <==> c in l.mac && c != ':')
            && (r.state == 1 <==> l.power > 0) && (r.state == 0 <==> l.power <= 0)
            && (r.name == l.mac <== l.lightLabel.None? || l.lightLabel == Some(""))
            && r.kind == Lifx && r.lastSeen == now
  {
    var r := LifxRecord(l, now);
    assert r.uuid[|LIFX_PREFIX|..] == StripColons(l.mac);
  }

  /** The lights a pass gets through: the ones before the first that raises,
      whose exception ends the loop. */
  function Answered(lights: seq<LifxLight>): (p: seq<LifxLight>)
    ensures |p| <= |lights| && p == lights[..|p|]
    ensures forall i :: 0 <= i < |p| ==> p[i].Responsive?
    ensures |p| < |lights| ==> lights[|p|].Unresponsive?
  {
    if lights == [] || lights[0].Unresponsive? then []
    else
      var rest := Answered(lights[1..]);
      assert forall i :: 0 <= i < |rest| ==> rest[i] == lights[1..][i] == lights[i + 1];
      [lights[0]] + rest
  }

  /** The `DEVICES[udn] = {...}` writes of a LIFX pass over answering lights. */
  function LifxWrites(lights: seq<LifxLight>, now: Timestamp): (w: seq<(string, Record)>)
    requires forall i :: 0 <= i < |lights| ==> lights[i].Responsive?
    ensures |w| == |lights|
    ensures forall i :: 0 <= i < |lights| ==> w[i] == (LifxKey(lights[i].mac), LifxRecord(lights[i], now))
  {
    seq(|lights|, i requires 0 <= i < |lights| => (LifxKey(lights[i].mac), LifxRecord(lights[i], now)))
  }

  lemma {:induction false} LifxWritesKeyed(lights: seq<LifxLight>, now: Timestamp)
    requires forall i :: 0 <= i < |lights| ==> lights[i].Responsive?
    ensures KeyedWrites(LifxWrites(lights, now))
  {
  }

  /** A prefix of answering lights ended by the list or by a raising light is
      the part of the pass that gets written. */
  lemma {:induction false} AnsweredPrefix(lights: seq<LifxLight>, i: nat)
    requires i <= |lights|
    requires forall j :: 0 <= j < i ==> lights[j].Responsive?
    requires i == |lights| || lights[i].Unresponsive?
    ensures Answered(lights) == lights[..i]
  {
    var p := Answered(lights);
    assert forall j :: 0 <= j < |p| ==> p[j] == lights[j];
  }

  // ---------------------------------------------------------------------
  // What a pass leaves
  // ---------------------------------------------------------------------

  /** A pass keeps every key, replaces the whole record at each key it
      writes with the record of the last write to it (stamped `now` when the
      writes are), and leaves every other record as it was. */
  lemma {:induction false} PassDescribed(d: Dict<string, Record>, writes: seq<(string, Record)>, now: Timestamp)
    requires Keyed(d)
    requires forall i :: 0 <= i < |writes| ==> writes[i].1.lastSeen == now
    ensures var after := AfterWrites(d, writes);
            && (forall k :: k in after.entries <==> k in d.entries || k in WriteKeys(writes))
            && (forall k :: k in d.entries && k !in WriteKeys(writes) ==> after.entries[k] == d.entries[k])
            && (forall k :: k in WriteKeys(writes) ==>
                  after.entries[k].lastSeen == now
                  && exists i :: 0 <= i < |writes| && writes[i] == (k, after.entries[k])
                                 && forall j :: i < j < |writes| ==> writes[j].0 != k)
            && |d.order| <= |after.order| && after.order[..|d.order|] == d.order
  {
    var after := AfterWrites(d, writes);
    AfterWritesDescribed(d, writes);
    assert (d.order + FirstSeen(d.entries.Keys, WriteKeys(writes)))[..|d.order|] == d.order;
    forall k | k in WriteKeys(writes)
      ensures after.entries[k].lastSeen == now
      ensures exists i :: 0 <= i < |writes| && writes[i] == (k, after.entries[k])
                          && forall j :: i < j < |writes| ==> writes[j].0 != k
    {
      LastWriteIsLast(writes, k);
    }
  }

  /** The keys of the sightings, in order. */
  function SightedKeys(found: seq<WemoSighting>): (keys: seq<string>)
    ensures |keys| == |found|
    ensures forall i :: 0 <= i < |found| ==> keys[i] == found[i].key
  {
    seq(|found|, i requires 0 <= i < |found| => found[i].key)
  }

  lemma {:induction false} WemoWriteKeys(found: seq<WemoSighting>, now: Timestamp)
    ensures WriteKeys(WemoWrites(found, now)) == SightedKeys(found)
  {
  }

  /** A WeMo pass drops no key and adds exactly the sighted keys. */
  lemma {:induction false} WemoPassKeys(d: Dict<string, Record>, found: seq<WemoSighting>, now: Timestamp)
    ensures var after := AfterWrites(d, WemoWrites(found, now));
            forall k :: k in after.entries <==> k in d.entries || k in SightedKeys(found)
  {
    AfterWritesDescribed(d, WemoWrites(found, now));
    WemoWriteKeys(found, now);
  }

  /** A WeMo pass leaves the record of every key it did not sight as it was. */
  lemma {:induction false} WemoPassKeepsOthers(d: Dict<string, Record>, found: seq<WemoSighting>, now: Timestamp, k: string)
    requires k in d.entries
    requires k !in SightedKeys(found)
    ensures var after := AfterWrites(d, WemoWrites(found, now));
            k in after.entries && after.entries[k] == d.entries[k]
  {
    AfterWritesDescribed(d, WemoWrites(found, now));
    WemoWriteKeys(found, now);
  }

  /** After a WeMo pass a sighted key holds the whole record of its last
      sighting, stamped with the pass's time. */
  lemma {:induction false} WemoPassWritesLatest(d: Dict<string, Record>, found: seq<WemoSighting>, now: Timestamp, i: int)
    requires 0 <= i < |found|
    requires forall j :: i < j < |found| ==> found[j].key != found[i].key
    ensures var after := AfterWrites(d, WemoWrites(found, now));
            && found[i].key in after.entries
            && after.entries[found[i].key] == WemoRecord(found[i], now)
            && after.entries[found[i].key].lastSeen == now
  {
    var writes := WemoWrites(found, now);
    AfterWritesDescribed(d, writes);
    LastWriteAt(writes, i);
  }

  /** The keys of the answering lights, in order. */
  function LifxKeys(lights: seq<LifxLight>): (keys: seq<string>)
    requires forall i :: 0 <= i < |lights| ==> lights[i].Responsive?
    ensures |keys| == |lights|
    ensures forall i :: 0 <= i < |lights| ==> keys[i] == LifxKey(lights[i].mac)
  {
    seq(|lights|, i requires 0 <= i < |lights| => LifxKey(lights[i].mac))
  }

  lemma {:induction false} LifxWriteKeys(lights: seq<LifxLight>, now: Timestamp)
    requires forall i :: 0 <= i < |lights| ==> lights[i].Responsive?
    ensures WriteKeys(LifxWrites(lights, now)) == LifxKeys(lights)
  {
  }

  /** A LIFX pass drops no key and adds exactly the keys of the lights it
      gets through. */
  lemma {:induction false} LifxPassKeys(d: Dict<string, Record>, lights: seq<LifxLight>, now: Timestamp)
    ensures var after := AfterWrites(d, LifxWrites(Answered(lights), now));
            forall k :: k in after.entries <==> k in d.entries || k in LifxKeys(Answered(lights))
  {
    AfterWritesDescribed(d, LifxWrites(Answered(lights), now));
    LifxWriteKeys(Answered(lights), now);
  }

  /** A LIFX pass leaves the record of every key it does not write as it
      was, in particular the keys of the lights after the first that raises. */
  lemma {:induction false} LifxPassKeepsOthers(d: Dict<string, Record>, lights: seq<LifxLight>, now: Timestamp, k: string)
    requires k in d.entries
    requires k !in LifxKeys(Answered(lights))
    ensures var after := AfterWrites(d, LifxWrites(Answered(lights), now));
            k in after.entries && after.entries[k] == d.entries[k]
  {
    AfterWritesDescribed(d, LifxWrites(Answered(lights), now));
    LifxWriteKeys(Answered(lights), now);
  }

  /** After a LIFX pass the key of an answered light holds the whole record
      of the last answered light with that key, stamped with the pass's time. */
  lemma {:induction false} LifxPassWritesLatest(d: Dict<string, Record>, lights: seq<LifxLight>, now: Timestamp, i: int)
    requires 0 <= i < |Answered(lights)|
    requires forall j :: i < j < |Answered(lights)| ==>
               LifxKey(Answered(lights)[j].mac) != LifxKey(Answered(lights)[i].mac)
    ensures var p := Answered(lights);
            var after := AfterWrites(d, LifxWrites(p, now));
            && LifxKey(p[i].mac) in after.entries
            && after.entries[LifxKey(p[i].mac)] == LifxRecord(p[i], now)
            && after.entries[LifxKey(p[i].mac)].lastSeen == now
  {
    var writes := LifxWrites(Answered(lights), now);
    AfterWritesDescribed(d, writes);
    LastWriteAt(writes, i);
  }

  // ---------------------------------------------------------------------
  // The snapshot
  // ---------------------------------------------------------------------

  /** An entry of `/api/devices`: the record's fields without its handle. */
  datatype View = View(
    uuid: string, name: string, model: string, kind: Kind,
    state: int, brightness: Option<int>, ip: Option<string>, lastSeen: Timestamp)

  /** The entry for the record filed under `key`; `uuid` is the key. */
  function ViewOf(key: string, r: Record): View {
    View(key, r.name, r.model, r.kind, r.state, r.brightness, r.ip, r.lastSeen)
  }

  /** A record with the handle put back. */
  function Restore(v: View, device: Handle): Record {
    Record(v.uuid, device, v.name, v.model, v.kind, v.state, v.brightness, v.ip, v.lastSeen)
  }

  /** The view loses the handle and nothing else: a keyed record is its view
      with its handle put back, and records that differ only in their handle
      have the same view. */
  lemma {:induction false} ViewDropsOnlyHandle(key: string, r: Record, h: Handle)
    requires r.uuid == key
    ensures Restore(ViewOf(key, r), r.device) == r
    ensures ViewOf(key, r.(device := h)) == ViewOf(key, r)
  {
  }

  // ---------------------------------------------------------------------
  // Commands
  // ---------------------------------------------------------------------

  /** What a handler sends to a device. */
  datatype Command =
    | Toggled                       // dev.toggle()
    | SetState(value: int)          // dev.set_state(value)
    | SetPower(level: int)          // dev.set_power(level)
    | SetBrightness(percent: int)   // dev.set_brightness(percent)
    | SetColorBrightness(percent: int)  // dev.set_color(color) with the brightness replaced

  /** A handler's answer. */
  datatype Reply = Ok | NotFound | BadRequest | Failed

  function StatusOf(r: Reply): int {
    match r
    case Ok => 200
    case NotFound => 404
    case BadRequest => 400
    case Failed => 500
  }

  const LIFX_FULL_POWER := 65535

  /** What the device reports and does while it is toggled: whether it has a
      `toggle` method, what `get_state()` (WeMo) and `get_power()` (LIFX)
      give before the switch, whether the switching call raises, and the
      `get_state()` read afterwards. */
  datatype ToggleProbe = ToggleProbe(
    hasToggle: bool, current: Reading<Option<int>>, power: Reading<int>, commandRaises: bool,
    refresh: Reading<Option<int>>)

  /** Python's truth value of `get_state()`. */
  predicate Truthy(state: Option<int>) {
    state.Some? && state.value != 0
  }

  /** The command `api_toggle` sends to a device of kind `kind`; None when the
      read it needs first is missing or raises, so that nothing is sent. */
  function ToggleCommand(kind: Kind, p: ToggleProbe): Option<Command> {
    match kind
    case Wemo =>
      if p.hasToggle then Some(Toggled)
      else if p.current.Returned? then Some(SetState(if Truthy(p.current.value) then 0 else 1))
      else None
    case Lifx =>
      if p.power.Returned? then Some(SetPower(if p.power.value > 0 then 0 else LIFX_FULL_POWER))
      else None
  }

  /** A WeMo device with a `toggle` method is toggled; without one it is set
      to the opposite of its reported state, and a LIFX light is set to power
      0 when it is on and to full power 65535 when it is off: the command flips
      the on/off reading. Nothing is sent when the read before it fails. */
  lemma {:induction false} ToggleCommandFlips(kind: Kind, p: ToggleProbe)
    ensures kind == Wemo && p.hasToggle ==> ToggleCommand(kind, p) == Some(Toggled)
    ensures kind == Wemo && !p.hasToggle ==>
              && (ToggleCommand(kind, p).None? <==> !p.current.Returned?)
              && (p.current.Returned? ==>
                    && ToggleCommand(kind, p).value.SetState?
                    && (ToggleCommand(kind, p).value.value == 1 <==> !Truthy(p.current.value))
                    && (ToggleCommand(kind, p).value.value == 0 <==> Truthy(p.current.value))
                    && (Truthy(Some(ToggleCommand(kind, p).value.value)) <==> !Truthy(p.current.value)))
    ensures kind == Lifx ==>
              && (ToggleCommand(kind, p).None? <==> !p.power.Returned?)
              && (p.power.Returned? ==>
                    && ToggleCommand(kind, p).value.SetPower?
                    && ToggleCommand(kind, p).value.level == (if p.power.value > 0 then 0 else LIFX_FULL_POWER)
                    && PowerFlag(ToggleCommand(kind, p).value.level) == 1 - PowerFlag(p.power.value))
  {
  }

  /** The record after the cache refresh that follows a toggle: the state
      read back when there is one, the previous state otherwise, and the time
      of the refresh; a read that raises leaves the record alone. */
  function Refreshed(r: Record, refresh: Reading<Option<int>>, now: Timestamp): Record {
    match refresh
    case Raised => r
    case Returned(Some(s)) => r.(state := s, lastSeen := now)
    case _ => r.(lastSeen := now)
  }

  /** A refresh changes at most the state and the time, takes the state that
      was read back, and stamps the record unless the read raised. */
  lemma {:induction false} RefreshTouchesStateAndTime(r: Record, refresh: Reading<Option<int>>, now: Timestamp)
    ensures Refreshed(r, refresh, now).(state := r.state, lastSeen := r.lastSeen) == r
    ensures Refreshed(r, refresh, now).state == if refresh.Returned? && refresh.value.Some? then refresh.value.value else r.state
    ensures Refreshed(r, refresh, now).lastSeen == if refresh.Raised? then r.lastSeen else now
  {
  }

  /** The `brightness` of the request body: missing (100), an integer, or a
      value `int()` rejects. */
  datatype BrightnessField = Missing | Given(value: int) | Unconvertible

  const DEFAULT_BRIGHTNESS := 100

  /** The command `api_brightness` sends, None when the device has no
      brightness support. The value is passed on without clamping. */
  function BrightnessCommand(kind: Kind, hasSetBrightness: bool, percent: int): (c: Option<Command>)
    ensures c.None? <==> kind == Wemo && !hasSetBrightness
    ensures c.Some? ==> c.value == (if kind == Wemo then SetBrightness(percent) else SetColorBrightness(percent))
  {
    match kind
    case Wemo => if hasSetBrightness then Some(SetBrightness(percent)) else None
    case Lifx => Some(SetColorBrightness(percent))
  }

  // ---------------------------------------------------------------------
  // The registry
  // ---------------------------------------------------------------------

  /** `DEVICES`: records keyed by device key, in insertion order. */
  class Registry {
    var devices: Dict<string, Record>

    ghost predicate Valid()
      reads this
    {
      Keyed(devices)
    }

    /** `DEVICES = {}`. */
    constructor()
      ensures Valid()
      ensures devices == Dict([], map[])
    {
      devices := Dict([], map[]);
    }

    /** `discover_wemo`: file every sighting's record, stamped `now`. */
    method DiscoverWemo(found: seq<WemoSighting>, now: Timestamp)
      modifies this
      requires Valid()
      ensures Valid()
      ensures devices == AfterWrites(old(devices), WemoWrites(found, now))
    {
      ghost var start := devices;
      var i := 0;
      while i < |found|
        invariant 0 <= i <= |found|
        invariant devices == AfterWrites(start, WemoWrites(found[..i], now))
      {
        WemoPassStep(start, found, i, now);
        devices := devices.Put(found[i].key, WemoRecord(found[i], now));
        i := i + 1;
      }
      assert found[..i] == found;
      WemoWritesKeyed(found, now);
      KeyedAfterWrites(start, WemoWrites(found, now));
    }

    /** `discover_lifx`: file the record of every light up to the first one
        that raises, stamped `now`. */
    method DiscoverLifx(lights: seq<LifxLight>, now: Timestamp)
      modifies this
      requires Valid()
      ensures Valid()
      ensures devices == AfterWrites(old(devices), LifxWrites(Answered(lights), now))
    {
      ghost var start := devices;
      var i := 0;
      while i < |lights|
        invariant 0 <= i <= |lights|
        invariant forall j :: 0 <= j < i ==> lights[j].Responsive?
        invariant devices == AfterWrites(start, LifxWrites(lights[..i], now))
      {
        var l := lights[i];
        if l.Unresponsive? {
          break;
        }
        LifxPassStep(start, lights, i, now);
        devices := devices.Put(LifxKey(l.mac), LifxRecord(l, now));
        i := i + 1;
      }
      AnsweredPrefix(lights, i);
      LifxWritesKeyed(Answered(lights), now);
      KeyedAfterWrites(start, LifxWrites(Answered(lights), now));
    }

    /** `api_devices`: one entry per record, in registry order. */
    method Snapshot() returns (views: seq<View>)
      requires Valid()
      ensures |views| == |devices.order|
      ensures forall i :: 0 <= i < |views| ==>
                views[i] == ViewOf(devices.order[i], devices.entries[devices.order[i]])
                && Restore(views[i], devices.entries[devices.order[i]].device) == devices.entries[devices.order[i]]
    {
      views := [];
      var i := 0;
      while i < |devices.order|
        invariant 0 <= i <= |devices.order|
        invariant |views| == i
        invariant forall j :: 0 <= j < i ==> views[j] == ViewOf(devices.order[j], devices.entries[devices.order[j]])
      {
        var key := devices.order[i];
        views := views + [ViewOf(key, devices.entries[key])];
        i := i + 1;
      }
      forall j | 0 <= j < |views|
        ensures Restore(views[j], devices.entries[devices.order[j]].device) == devices.entries[devices.order[j]]
      {
        ViewDropsOnlyHandle(devices.order[j], devices.entries[devices.order[j]], Handle(0));
      }
    }

    /** `api_toggle`: 404 for an unknown key; otherwise the command is sent,
        a raising command is a 500 that leaves the registry alone, and after
        a successful one the record is refreshed in place. */
    method Toggle(udn: string, probe: ToggleProbe, now: Timestamp) returns (reply: Reply, sent: Option<Command>)
      modifies this
      requires Valid()
      ensures Valid()
      ensures udn !in old(devices.entries) ==>
                reply == NotFound && StatusOf(reply) == 404 && sent.None? && devices == old(devices)
      ensures udn in old(devices.entries) ==>
                var r := old(devices.entries[udn]);
                && sent == ToggleCommand(r.kind, probe)
                && (sent.None? || probe.commandRaises ==>
                      reply == Failed && StatusOf(reply) == 500 && devices == old(devices))
                && (sent.Some? && !probe.commandRaises ==>
                      && reply == Ok && StatusOf(reply) == 200
                      && devices == Dict(old(devices.order), old(devices.entries)[udn := Refreshed(r, probe.refresh, now)]))
    {
      if udn !in devices.entries {
        return NotFound, None;
      }
      var info := devices.entries[udn];
      sent := ToggleCommand(info.kind, probe);
      if sent.None? || probe.commandRaises {
        return Failed, sent;
      }
      var r := Refreshed(info, probe.refresh, now);
      KeyedPut(devices, udn, r);
      devices := devices.Put(udn, r);
      reply := Ok;
    }

    /** `api_brightness`: the body is read first (an unconvertible value is a
        500 before the lookup), then 404 for an unknown key, 400 without
        brightness support, 500 when the command raises; the registry is only
        read. `sent` is the command attempted: `raises` covers both the
        `get_color()` read of a LIFX light and the setting call. */
    method Brightness(udn: string, field: BrightnessField, hasSetBrightness: bool, raises: bool)
      returns (reply: Reply, sent: Option<Command>)
      requires Valid()
      ensures field.Unconvertible? ==> reply == Failed && StatusOf(reply) == 500 && sent.None?
      ensures !field.Unconvertible? && udn !in devices.entries ==> reply == NotFound && StatusOf(reply) == 404 && sent.None?
      ensures !field.Unconvertible? && udn in devices.entries ==>
                var percent := if field.Given? then field.value else DEFAULT_BRIGHTNESS;
                && sent == BrightnessCommand(devices.entries[udn].kind, hasSetBrightness, percent)
                && reply == (if sent.None? then BadRequest else if raises then Failed else Ok)
                && StatusOf(reply) == (if sent.None? then 400 else if raises then 500 else 200)
    {
      if field.Unconvertible? {
        return Failed, None;
      }
      var percent := if field.Given? then field.value else DEFAULT_BRIGHTNESS;
      if udn !in devices.entries {
        return NotFound, None;
      }
      var info := devices.entries[udn];
      if info.kind == Wemo && hasSetBrightness {
        sent := Some(SetBrightness(percent));
      } else if info.kind == Lifx {
        sent := Some(SetColorBrightness(percent));
      } else {
        return BadRequest, None;
      }
      reply := if raises then Failed else Ok;
    }
  }

  lemma {:induction false} WemoPassStep(d: Dict<string, Record>, found: seq<WemoSighting>, i: nat, now: Timestamp)
    requires i < |found|
    ensures AfterWrites(d, WemoWrites(found[..i + 1], now))
         == AfterWrites(d, WemoWrites(found[..i], now)).Put(found[i].key, WemoRecord(found[i], now))
  {
    assert WemoWrites(found[..i + 1], now) == WemoWrites(found[..i], now) + [(found[i].key, WemoRecord(found[i], now))];
    AfterWritesStep(d, WemoWrites(found[..i], now), found[i].key, WemoRecord(found[i], now));
  }

  lemma {:induction false} LifxPassStep(d: Dict<string, Record>, lights: seq<LifxLight>, i: nat, now: Timestamp)
    requires i < |lights|
    requires forall j :: 0 <= j <= i ==> lights[j].Responsive?
    ensures AfterWrites(d, LifxWrites(lights[..i + 1], now))
         == AfterWrites(d, LifxWrites(lights[..i], now)).Put(LifxKey(lights[i].mac), LifxRecord(lights[i], now))
  {
    assert LifxWrites(lights[..i + 1], now)
        == LifxWrites(lights[..i], now) + [(LifxKey(lights[i].mac), LifxRecord(lights[i], now))];
    AfterWritesStep(d, LifxWrites(lights[..i], now), LifxKey(lights[i].mac), LifxRecord(lights[i], now));
  }
}
