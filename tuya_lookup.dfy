/** The deterministic part of the Tuya controller: capability codes, device
    lookup, the merge of a device's status and function lists, the power
    command variations, AC settings, captured brightness and the scene store. */
module TuyaLookup {
  import opened Common

  // ---------------------------------------------------------------------------
  // Capability codes
  // ---------------------------------------------------------------------------

  /** Switch codes, most common first. */
  const SWITCH_CODES: seq<string> := [
    "switch_led", "switch_1", "switch", "power", "Power",
    "power_go", "start", "basic_power", "switch_2", "switch_3", "switch_4"]
  const BRIGHTNESS_CODES: seq<string> := ["bright_value_v2", "bright_value", "brightness"]
  const COLOR_CODES: seq<string> := ["colour_data_v2", "colour_data"]
  const MODE_CODES: seq<string> := ["work_mode", "mode"]

  /** Whether a capability entry came from the status list only or also from
      the function list. */
  datatype Access = ReadOnly | ReadWrite

  /** One entry of a device's `capabilities`; `code` and `type` are whatever
      the cloud sent, possibly absent. */
  datatype Capability = Capability(code: Option<string>, typ: Option<string>, values: Json, mode: Access)

  /** One item of the cloud's `status` or `functions` list. */
  datatype PropItem = PropItem(code: Option<string>, typ: Option<string>, values: Option<Json>)

  /** A cached device record. */
  datatype Device = Device(
    id: string,
    name: string,
    category: string,
    switchCode: Option<string>,
    capabilities: seq<Capability>,
    supportsBrightness: bool,
    supportsColor: bool)

  /** `code in [c.get('code') for c in capabilities]`. */
  predicate Present(caps: seq<Capability>, code: string) {
    exists k :: 0 <= k < |caps| && caps[k].code == Some(code)
  }

  /** `_get_capability_code`: the first code of the priority list `codes` that
      the device has. */
  function GetCapabilityCode(caps: seq<Capability>, codes: seq<string>): (r: Option<string>)
    ensures r.None? <==> forall i :: 0 <= i < |codes| ==> !Present(caps, codes[i])
    ensures r.Some? ==>
      exists i ::
        && 0 <= i < |codes| && codes[i] == r.value && Present(caps, r.value)
        && forall j :: 0 <= j < i ==> !Present(caps, codes[j])
  {
    if |codes| == 0 then None
    else if Present(caps, codes[0]) then Some(codes[0])
    else
      var rest := GetCapabilityCode(caps, codes[1..]);
      if rest.None? then None
      else
        ghost var i :| 0 <= i < |codes[1..]| && codes[1..][i] == rest.value && Present(caps, rest.value)
          && forall j :: 0 <= j < i ==> !Present(caps, codes[1..][j]);
        assert codes[i + 1] == rest.value;
        assert forall j :: 0 <= j < i + 1 ==> !Present(caps, codes[j]) by {
          forall j | 0 < j < i + 1 ensures !Present(caps, codes[j]) {
            assert codes[j] == codes[1..][j - 1];
          }
        }
        rest
  }

  /** `_detect_switch_code`: the first of `SWITCH_CODES` the device has. */
  function DetectSwitchCode(caps: seq<Capability>): (r: Option<string>)
    ensures r.Some? ==> r.value in SWITCH_CODES && Present(caps, r.value)
    ensures r.None? <==> forall i :: 0 <= i < |SWITCH_CODES| ==> !Present(caps, SWITCH_CODES[i])
    ensures r.Some? ==>
      exists i :: 0 <= i < |SWITCH_CODES| && SWITCH_CODES[i] == r.value
        && forall j :: 0 <= j < i ==> !Present(caps, SWITCH_CODES[j])
  {
    GetCapabilityCode(caps, SWITCH_CODES)
  }

  /** `_has_capability`: `any(code in cap_codes for code in codes)`. */
  function HasCapability(caps: seq<Capability>, codes: seq<string>): bool {
    |codes| > 0 && (Present(caps, codes[0]) || HasCapability(caps, codes[1..]))
  }

  /** The device has some listed code exactly when the priority search finds one. */
  lemma {:induction false} HasCapabilityIffCode(caps: seq<Capability>, codes: seq<string>)
    ensures HasCapability(caps, codes) <==> GetCapabilityCode(caps, codes).Some?
    ensures HasCapability(caps, codes) <==> exists i :: 0 <= i < |codes| && Present(caps, codes[i])
  {
    if |codes| > 0 {
      HasCapabilityIffCode(caps, codes[1..]);
      if exists i :: 0 <= i < |codes| && Present(caps, codes[i]) {
        var i :| 0 <= i < |codes| && Present(caps, codes[i]);
        if i > 0 {
          assert codes[1..][i - 1] == codes[i];
        }
      }
      if exists i :: 0 <= i < |codes[1..]| && Present(caps, codes[1..][i]) {
        var i :| 0 <= i < |codes[1..]| && Present(caps, codes[1..][i]);
        assert codes[i + 1] == codes[1..][i];
      }
    }
  }

  /** A light reporting both `switch_1` and `switch_led` is switched with
      `switch_led`, which comes first in the priority list. */
  lemma SwitchLedWins(values: Json)
    ensures
      var caps := [Capability(Some("switch_1"), None, values, ReadWrite), Capability(Some("switch_led"), None, values, ReadWrite)];
      DetectSwitchCode(caps) == Some("switch_led")
  {
    var caps := [Capability(Some("switch_1"), None, values, ReadWrite), Capability(Some("switch_led"), None, values, ReadWrite)];
    assert caps[1].code == Some("switch_led");
  }

  // ---------------------------------------------------------------------------
  // _fetch_capabilities: merging the status and function lists
  // ---------------------------------------------------------------------------

  /** The index of the first entry whose code equals `code`. */
  function FirstCode(caps: seq<Capability>, code: Option<string>): (r: Option<nat>)
    ensures r.Some? ==> r.value < |caps| && caps[r.value].code == code
    ensures r.Some? ==> forall m :: 0 <= m < r.value ==> caps[m].code != code
    ensures r.None? <==> forall m :: 0 <= m < |caps| ==> caps[m].code != code
  {
    if |caps| == 0 then None
    else if caps[0].code == code then Some(0)
    else match FirstCode(caps[1..], code)
      case None => None
      case Some(k) => Some(k + 1)
  }

  function Entry(item: PropItem, mode: Access): Capability {
    Capability(item.code, item.typ, item.values.GetOr(JStr("{}")), mode)
  }

  /** Every status item, in order, as a read-only entry. */
  function StatusEntries(status: seq<PropItem>): (r: seq<Capability>)
    ensures |r| == |status|
    ensures forall k :: 0 <= k < |r| ==> r[k] == Entry(status[k], ReadOnly)
  {
    seq(|status|, k requires 0 <= k < |status| => Entry(status[k], ReadOnly))
  }

  /** One function item: the first entry with its code becomes read-write,
      or a read-write entry is appended when there is none. */
  function AddFunctionItem(caps: seq<Capability>, item: PropItem): seq<Capability> {
    match FirstCode(caps, item.code)
    case Some(k) => caps[k := caps[k].(mode := ReadWrite)]
    case None => caps + [Entry(item, ReadWrite)]
  }

  /** The function items applied in order to `caps`. */
  function MergeFunctions(caps: seq<Capability>, functions: seq<PropItem>): seq<Capability> {
    if |functions| == 0 then caps
    else AddFunctionItem(MergeFunctions(caps, functions[..|functions| - 1]), functions[|functions| - 1])
  }

  /** The capability list `_fetch_capabilities` builds from the status and
      function lists (None: the key is absent or not a list). */
  function MergedCapabilities(status: Option<seq<PropItem>>, functions: Option<seq<PropItem>>): seq<Capability> {
    MergeFunctions(StatusEntries(status.GetOr([])), functions.GetOr([]))
  }

  /** The status entries stay first and in order, with their code, type and values. */
  ghost predicate PrefixKept(b: seq<Capability>, caps: seq<Capability>) {
    && |caps| >= |b|
    && forall k :: 0 <= k < |b| ==> caps[k].code == b[k].code && caps[k].typ == b[k].typ && caps[k].values == b[k].values
  }

  /** Some function item has `code`. */
  ghost predicate Requested(fs: seq<PropItem>, code: Option<string>) {
    exists j :: 0 <= j < |fs| && fs[j].code == code
  }

  /** A status entry is read-write exactly when it is the first with its
      code and some function item has that code. */
  ghost predicate StatusModes(b: seq<Capability>, caps: seq<Capability>, fs: seq<PropItem>) {
    && |caps| >= |b|
    && forall k :: 0 <= k < |b| ==>
         (caps[k].mode == ReadWrite <==> FirstCode(b, b[k].code) == Some(k) && Requested(fs, b[k].code))
  }

  /** Appended entries are read-write, each with a code no earlier entry has. */
  ghost predicate TailFresh(b: seq<Capability>, caps: seq<Capability>) {
    forall k :: |b| <= k < |caps| ==> caps[k].mode == ReadWrite && forall m :: 0 <= m < k ==> caps[m].code != caps[k].code
  }

  /** Every function code is present with a read-write entry. */
  ghost predicate Covers(caps: seq<Capability>, fs: seq<PropItem>) {
    forall j :: 0 <= j < |fs| ==> exists k :: 0 <= k < |caps| && caps[k].code == fs[j].code && caps[k].mode == ReadWrite
  }

  lemma RequestedSnoc(fs: seq<PropItem>, f: PropItem, code: Option<string>)
    ensures Requested(fs + [f], code) <==> Requested(fs, code) || f.code == code
  {
    var fs2 := fs + [f];
    if Requested(fs, code) {
      var j :| 0 <= j < |fs| && fs[j].code == code;
      assert fs2[j] == fs[j];
    }
    if f.code == code {
      assert fs2[|fs|] == f;
    }
    if Requested(fs2, code) {
      var j :| 0 <= j < |fs2| && fs2[j].code == code;
      if j < |fs| {
        assert fs[j] == fs2[j];
      }
    }
  }

  /** In a list that starts with the status entries, the first entry with a
      code a status entry has is the first such status entry. */
  lemma FirstCodeInPrefix(b: seq<Capability>, caps: seq<Capability>, code: Option<string>)
    requires PrefixKept(b, caps)
    requires FirstCode(b, code).Some?
    ensures FirstCode(caps, code) == FirstCode(b, code)
  {
    var m := FirstCode(b, code).value;
    assert caps[m].code == code;
    assert forall j :: 0 <= j < m ==> caps[j].code != code;
    var r := FirstCode(caps, code);
    assert r.Some? && r.value == m;
  }

  lemma AddFunctionKeepsPrefix(b: seq<Capability>, caps: seq<Capability>, f: PropItem)
    requires PrefixKept(b, caps)
    ensures PrefixKept(b, AddFunctionItem(caps, f))
  {
  }

  lemma AddFunctionKeepsTail(b: seq<Capability>, caps: seq<Capability>, f: PropItem)
    requires PrefixKept(b, caps) && TailFresh(b, caps)
    ensures TailFresh(b, AddFunctionItem(caps, f))
  {
    var caps2 := AddFunctionItem(caps, f);
    assert forall k :: 0 <= k < |caps| ==> caps2[k].code == caps[k].code;
  }

  lemma AddFunctionKeepsCover(caps: seq<Capability>, fs: seq<PropItem>, f: PropItem)
    requires Covers(caps, fs)
    ensures Covers(AddFunctionItem(caps, f), fs + [f])
  {
    var caps2 := AddFunctionItem(caps, f);
    var fs2 := fs + [f];
    assert forall k :: 0 <= k < |caps| ==> caps2[k].code == caps[k].code && (caps[k].mode == ReadWrite ==> caps2[k].mode == ReadWrite);
    forall j | 0 <= j < |fs2|
      ensures exists k :: 0 <= k < |caps2| && caps2[k].code == fs2[j].code && caps2[k].mode == ReadWrite
    {
      if j < |fs| {
        var k :| 0 <= k < |caps| && caps[k].code == fs[j].code && caps[k].mode == ReadWrite;
        assert caps2[k].code == fs2[j].code && caps2[k].mode == ReadWrite;
      } else {
        var k := match FirstCode(caps, f.code) case Some(m) => m case None => |caps|;
        assert caps2[k].code == fs2[j].code && caps2[k].mode == ReadWrite;
      }
    }
  }

  lemma AddFunctionKeepsModes(b: seq<Capability>, caps: seq<Capability>, fs: seq<PropItem>, f: PropItem)
    requires PrefixKept(b, caps) && StatusModes(b, caps, fs)
    ensures StatusModes(b, AddFunctionItem(caps, f), fs + [f])
  {
    var caps2 := AddFunctionItem(caps, f);
    forall k | 0 <= k < |b|
      ensures caps2[k].mode == ReadWrite <==> FirstCode(b, b[k].code) == Some(k) && Requested(fs + [f], b[k].code)
    {
      RequestedSnoc(fs, f, b[k].code);
      if FirstCode(b, f.code).Some? {
        FirstCodeInPrefix(b, caps, f.code);
        var m := FirstCode(b, f.code).value;
        if k != m {
          assert caps2[k] == caps[k];
          if b[k].code == f.code {
            assert FirstCode(b, b[k].code) == Some(m);
          }
        }
      } else {
        assert b[k].code != f.code;
        assert caps2[k] == caps[k];
      }
    }
  }

  /** The four facts above hold of the function items applied to read-only
      status entries. */
  lemma {:induction false} MergeFunctionsInv(b: seq<Capability>, fs: seq<PropItem>)
    requires forall k :: 0 <= k < |b| ==> b[k].mode == ReadOnly
    ensures PrefixKept(b, MergeFunctions(b, fs))
    ensures StatusModes(b, MergeFunctions(b, fs), fs)
    ensures TailFresh(b, MergeFunctions(b, fs))
    ensures Covers(MergeFunctions(b, fs), fs)
    decreases |fs|
  {
    if |fs| > 0 {
      var prev, f := fs[..|fs| - 1], fs[|fs| - 1];
      MergeFunctionsInv(b, prev);
      var caps := MergeFunctions(b, prev);
      AddFunctionKeepsPrefix(b, caps, f);
      AddFunctionKeepsTail(b, caps, f);
      AddFunctionKeepsCover(caps, prev, f);
      AddFunctionKeepsModes(b, caps, prev, f);
      assert MergeFunctions(b, fs) == AddFunctionItem(caps, f);
      assert prev + [f] == fs;
    }
  }

  /** What `_fetch_capabilities` promises of its merge: status entries keep
      their place and content; one of them is read-write exactly when it is
      the first with its code and a function item has that code; the rest are
      appended read-write with new codes; no function code is lost. */
  lemma MergedCapabilitiesShape(status: seq<PropItem>, functions: seq<PropItem>)
    ensures
      var caps := MergedCapabilities(Some(status), Some(functions));
      var b := StatusEntries(status);
      && |caps| >= |status|
      && (forall k :: 0 <= k < |status| ==>
            caps[k].code == status[k].code && caps[k].typ == status[k].typ && caps[k].values == b[k].values)
      && (forall k :: 0 <= k < |status| ==>
            (caps[k].mode == ReadWrite <==>
              FirstCode(b, status[k].code) == Some(k) && exists j :: 0 <= j < |functions| && functions[j].code == status[k].code))
      && (forall k :: |status| <= k < |caps| ==>
            caps[k].mode == ReadWrite && forall m :: 0 <= m < k ==> caps[m].code != caps[k].code)
      && (forall j :: 0 <= j < |functions| ==>
            exists k :: 0 <= k < |caps| && caps[k].code == functions[j].code && caps[k].mode == ReadWrite)
  {
    MergeFunctionsInv(StatusEntries(status), functions);
  }

  /** `_fetch_capabilities`'s merge as the source writes it: a loop over the
      status items, then a loop over the function items that searches the
      list built so far. */
  method MergeCapabilities(status: Option<seq<PropItem>>, functions: Option<seq<PropItem>>) returns (caps: seq<Capability>)
    ensures caps == MergedCapabilities(status, functions)
  {
    caps := [];
    var items := status.GetOr([]);
    var i := 0;
    while i < |items|
      invariant 0 <= i <= |items|
      invariant caps == StatusEntries(items[..i])
    {
      caps := caps + [Entry(items[i], ReadOnly)];
      i := i + 1;
    }
    assert items[..i] == items;
    var fs := functions.GetOr([]);
    i := 0;
    while i < |fs|
      invariant 0 <= i <= |fs|
      invariant caps == MergeFunctions(StatusEntries(items), fs[..i])
    {
      var code := fs[i].code;
      var existing: Option<nat> := None;
      var k := 0;
      while k < |caps| && existing.None?
        invariant 0 <= k <= |caps|
        invariant existing.None? ==> forall m :: 0 <= m < k ==> caps[m].code != code
        invariant existing.Some? ==> existing == FirstCode(caps, code)
      {
        if caps[k].code == code {
          existing := Some(k);
        }
        k := k + 1;
      }
      assert existing == FirstCode(caps, code);
      if existing.Some? {
        var e := existing.value;
        caps := caps[e := caps[e].(mode := ReadWrite)];
      } else {
        caps := caps + [Entry(fs[i], ReadWrite)];
      }
      assert fs[..i + 1][..i] == fs[..i];
      i := i + 1;
    }
    assert fs[..i] == fs;
  }

  // ---------------------------------------------------------------------------
  // get_device
  // ---------------------------------------------------------------------------

  /** The devices store holds one record per id, like the dict keyed by id. */
  predicate DistinctIds(ds: seq<Device>) {
    forall i, j :: 0 <= i < j < |ds| ==> ds[i].id != ds[j].id
  }

  /** `get_device(target)`: the index of the device with that id, else of the
      first whose lower-cased name equals the lower-cased target, else of the
      first whose lower-cased name contains it; None for an empty target. */
  function GetDevice(ds: seq<Device>, target: string): (r: Option<nat>)
    ensures r.Some? ==> r.value < |ds|
  {
    if target == "" then None
    else
      var lowered := Lower(target);
      match FirstIndex(ds, ById(target))
      case Some(k) => Some(k)
      case None =>
        match FirstIndex(ds, ByName(lowered))
        case Some(k) => Some(k)
        case None => FirstIndex(ds, ByNamePart(lowered))
  }

  /** The three tests `get_device` tries in turn. */
  function ById(target: string): Device -> bool {
    (d: Device) => d.id == target
  }

  function ByName(lowered: string): Device -> bool {
    (d: Device) => Lower(d.name) == lowered
  }

  function ByNamePart(lowered: string): Device -> bool {
    (d: Device) => IsSubstring(lowered, Lower(d.name))
  }

  /** What `get_device` finds: an empty target finds nothing, an exact id
      wins, then the first case-insensitive exact name, then the first name
      containing the target; nothing exactly when none of these matches. */
  lemma GetDeviceSpec(ds: seq<Device>, target: string)
    ensures var r := GetDevice(ds, target);
      && (r.None? <==>
            target == "" || forall k :: 0 <= k < |ds| ==> ds[k].id != target && !IsSubstring(Lower(target), Lower(ds[k].name)))
      && (r.Some? ==> ds[r.value].id == target || IsSubstring(Lower(target), Lower(ds[r.value].name)))
      && (r.Some? && (exists k :: 0 <= k < |ds| && ds[k].id == target) ==> ds[r.value].id == target)
      && (r.Some? && Lower(ds[r.value].name) == Lower(target) && ds[r.value].id != target ==>
            forall k :: 0 <= k < r.value ==> Lower(ds[k].name) != Lower(target))
      && (r.Some? && Lower(ds[r.value].name) != Lower(target) && ds[r.value].id != target ==>
            && (forall k :: 0 <= k < |ds| ==> Lower(ds[k].name) != Lower(target))
            && (forall k :: 0 <= k < r.value ==> !IsSubstring(Lower(target), Lower(ds[k].name))))
  {
    if target != "" {
      SubstringOfItself(Lower(target));
      FirstIndexSpec(ds, ById(target));
      FirstIndexSpec(ds, ByName(Lower(target)));
      FirstIndexSpec(ds, ByNamePart(Lower(target)));
    }
  }

  /** Looking a device up by its own id finds it. */
  lemma GetDeviceById(ds: seq<Device>, k: nat)
    requires k < |ds| && DistinctIds(ds) && ds[k].id != ""
    ensures GetDevice(ds, ds[k].id) == Some(k)
  {
    FirstIndexSpec(ds, ById(ds[k].id));
  }

  // ---------------------------------------------------------------------------
  // Power commands and their variations
  // ---------------------------------------------------------------------------

  /** A command value: Python `bool`, `int` or `str`. */
  datatype Value = VBool(b: bool) | VInt(i: int) | VStr(s: string)

  /** Python `==` on these values: `True == 1` and `False == 0`. */
  predicate PyEq(a: Value, b: Value) {
    match (a, b)
    case (VStr(x), VStr(y)) => x == y
    case (VStr(_), _) => false
    case (_, VStr(_)) => false
    case _ => AsNumber(AsJson(a)) == AsNumber(AsJson(b))
  }

  function AsJson(v: Value): Json {
    match v
    case VBool(b) => JBool(b)
    case VInt(i) => JInt(i)
    case VStr(s) => JStr(s)
  }

  /** One `{"code": ..., "value": ...}` command; the code is the device's
      `switch_code`, which may be null. */
  datatype Command = Command(code: Option<string>, value: Value)

  /** `code == primary_code and val == target_val`. */
  predicate SameCommand(c: Command, primary: Command) {
    c.code == primary.code && PyEq(c.value, primary.value)
  }

  /** The command `turn_on`/`turn_off` tries first. */
  function PowerCommand(code: Option<string>, on: bool): Command {
    Command(code, VBool(on))
  }

  /** The variations `turn_on`/`turn_off` pass to `_try_command_variations`. */
  function PowerVariations(code: Option<string>, on: bool): (r: seq<Command>)
    ensures |r| == 5
  {
    [ Command(code, VBool(on)),
      Command(code, VStr(if on then "true" else "false")),
      Command(code, VInt(if on then 1 else 0)),
      Command(Some("switch_1"), VBool(on)),
      Command(Some("switch"), VBool(on)) ]
  }

  /** Which variations are skipped as equal to the primary command: the first,
      the integer one (Python's `1 == True`), and the `switch_1` or `switch`
      one when that is already the device's code. Only the string value and
      the other fallback codes are ever sent. */
  lemma SkippedVariations(code: Option<string>, on: bool)
    ensures forall k :: 0 <= k < 5 ==>
      (SameCommand(PowerVariations(code, on)[k], PowerCommand(code, on)) <==>
        k == 0 || k == 2 || (k == 3 && code == Some("switch_1")) || (k == 4 && code == Some("switch")))
  {
  }

  /** The device records with the given id switched to `code`; the rest as they are. */
  function SetSwitchCode(ds: seq<Device>, id: string, code: Option<string>): (r: seq<Device>)
    ensures |r| == |ds|
    ensures forall k :: 0 <= k < |ds| ==> r[k] == (if ds[k].id == id then ds[k].(switchCode := code) else ds[k])
  {
    seq(|ds|, k requires 0 <= k < |ds| => if ds[k].id == id then ds[k].(switchCode := code) else ds[k])
  }

  /** A switch code is truthy: present and not empty. */
  predicate HasSwitch(d: Device) {
    d.switchCode.Some? && d.switchCode.value != ""
  }

  /** The IR blaster: the first device of category `wnykq`. */
  function IrBlaster(ds: seq<Device>): (r: Option<string>)
    ensures r.Some? <==> exists k :: 0 <= k < |ds| && ds[k].category == "wnykq"
    ensures r.Some? ==>
      exists k ::
        && 0 <= k < |ds| && ds[k].category == "wnykq" && ds[k].id == r.value
        && forall j :: 0 <= j < k ==> ds[j].category != "wnykq"
  {
    var blaster := (d: Device) => d.category == "wnykq";
    FirstIndexSpec(ds, blaster);
    match FirstIndex(ds, blaster)
    case None => None
    case Some(k) => Some(ds[k].id)
  }

  /** The categories whose `turn_on`/`turn_off` go through the IR API first. */
  const IR_CATEGORIES: seq<string> := ["infrared_ac", "wnykq"]
  /** The categories `control_ac` accepts. */
  const AC_CATEGORIES: seq<string> := ["infrared_ac", "kt", "qt", "wnykq"]

  // ---------------------------------------------------------------------------
  // AC settings
  // ---------------------------------------------------------------------------

  /** The remembered state of one air conditioner. */
  datatype AcState = AcState(power: int, temp: int, mode: int, wind: int)

  const DEFAULT_AC: AcState := AcState(0, 24, 0, 0)

  const MODE_NUMBERS: map<string, int> := map[
    "cool" := 0, "dingin" := 0, "heat" := 1, "panas" := 1, "auto" := 2,
    "fan" := 3, "kipas" := 3, "dry" := 4, "kering" := 4]

  const FAN_NUMBERS: map<string, int> := map[
    "auto" := 0, "low" := 1, "rendah" := 1, "medium" := 2, "sedang" := 2,
    "high" := 3, "tinggi" := 3]

  /** Every value the state can hold: the power flag, a temperature the clamp
      admits or the default, and a mode and fan speed from the tables. */
  predicate AcInRange(s: AcState) {
    0 <= s.power <= 1 && 16 <= s.temp <= 30 && 0 <= s.mode <= 4 && 0 <= s.wind <= 3
  }

  /** `mode_map.get(mode.lower(), 0)`. */
  function ModeNumber(name: string): (r: int)
    ensures 0 <= r <= 4
    ensures Lower(name) !in MODE_NUMBERS ==> r == 0
  {
    if Lower(name) in MODE_NUMBERS then MODE_NUMBERS[Lower(name)] else 0
  }

  /** `fan_map.get(fan.lower(), 0)`. */
  function FanNumber(name: string): (r: int)
    ensures 0 <= r <= 3
    ensures Lower(name) !in FAN_NUMBERS ==> r == 0
  {
    if Lower(name) in FAN_NUMBERS then FAN_NUMBERS[Lower(name)] else 0
  }

  /** Mode and fan names are read case-insensitively. */
  lemma SettingNamesIgnoreCase(name: string)
    ensures ModeNumber(name) == ModeNumber(Lower(name))
    ensures FanNumber(name) == FanNumber(Lower(name))
  {
    LowerIdempotent(name);
  }

  /** `max(16, min(30, temperature))`. */
  function ClampTemperature(t: int): (r: int)
    ensures 16 <= r <= 30
    ensures 16 <= t <= 30 ==> r == t
    ensures t < 16 ==> r == 16
    ensures t > 30 ==> r == 30
  {
    if t < 16 then 16 else if t > 30 then 30 else t
  }

  /** The updates `control_ac` makes to the remembered state; an absent
      argument leaves its field as it was. */
  function ApplyAcSettings(s: AcState, power: Option<bool>, temperature: Option<int>,
                           mode: Option<string>, fan: Option<string>): (r: AcState)
    ensures power.None? ==> r.power == s.power
    ensures power.Some? ==> r.power == (if power.value then 1 else 0)
    ensures temperature.None? ==> r.temp == s.temp
    ensures temperature.Some? ==> r.temp == ClampTemperature(temperature.value)
    ensures mode.None? ==> r.mode == s.mode
    ensures mode.Some? ==> r.mode == ModeNumber(mode.value)
    ensures fan.None? ==> r.wind == s.wind
    ensures fan.Some? ==> r.wind == FanNumber(fan.value)
  {
    AcState(
      if power.Some? then (if power.value then 1 else 0) else s.power,
      if temperature.Some? then ClampTemperature(temperature.value) else s.temp,
      if mode.Some? then ModeNumber(mode.value) else s.mode,
      if fan.Some? then FanNumber(fan.value) else s.wind)
  }

  /** Settings keep a state in range, and applying the same settings twice is
      the same as applying them once. */
  lemma AcSettingsInRange(s: AcState, power: Option<bool>, temperature: Option<int>,
                          mode: Option<string>, fan: Option<string>)
    requires AcInRange(s)
    ensures AcInRange(ApplyAcSettings(s, power, temperature, mode, fan))
    ensures ApplyAcSettings(ApplyAcSettings(s, power, temperature, mode, fan), power, temperature, mode, fan)
         == ApplyAcSettings(s, power, temperature, mode, fan)
  {
  }

  lemma DefaultAcInRange()
    ensures AcInRange(DEFAULT_AC)
  {
  }

  // ---------------------------------------------------------------------------
  // capture_scene: a device's status as a scene action
  // ---------------------------------------------------------------------------

  /** One item of a device's status: `code` (absent reads as "") and `value`
      (absent reads as null). */
  datatype StatusItem = StatusItem(code: Option<string>, value: Json)

  /** `item.get('code', '')`. */
  function CodeOf(item: StatusItem): string {
    item.code.GetOr("")
  }

  /** No item after `items[k]` has its code. */
  predicate LastWithCode(items: seq<StatusItem>, k: int)
    requires 0 <= k < |items|
  {
    forall j :: k < j < |items| ==> CodeOf(items[j]) != CodeOf(items[k])
  }

  /** `{item.get('code', ''): item.get('value') for item in status}`: later
      items overwrite earlier ones. */
  function StatusMap(items: seq<StatusItem>): map<string, Json> {
    if |items| == 0 then map[]
    else
      var last := items[|items| - 1];
      StatusMap(items[..|items| - 1])[CodeOf(last) := last.value]
  }

  /** The map's keys are exactly the items' codes. */
  lemma {:induction false} StatusMapKeys(items: seq<StatusItem>)
    ensures StatusMap(items).Keys == set k | 0 <= k < |items| :: CodeOf(items[k])
  {
    if |items| > 0 {
      var n := |items| - 1;
      var init := items[..n];
      StatusMapKeys(init);
      var before := set k | 0 <= k < n :: CodeOf(init[k]);
      var after := set k | 0 <= k < |items| :: CodeOf(items[k]);
      assert forall k :: 0 <= k < n ==> init[k] == items[k];
      forall c | c in after
        ensures c in before + {CodeOf(items[n])}
      {
        var k :| 0 <= k < |items| && CodeOf(items[k]) == c;
        if k < n {
          assert CodeOf(init[k]) == c;
        }
      }
      forall c | c in before
        ensures c in after
      {
        var k :| 0 <= k < n && CodeOf(init[k]) == c;
        assert CodeOf(items[k]) == c;
      }
      assert CodeOf(items[n]) in after;
      assert after == before + {CodeOf(items[n])};
    }
  }

  /** Each code maps to the value of the last item with that code. */
  lemma {:induction false} StatusMapValues(items: seq<StatusItem>)
    ensures forall k :: 0 <= k < |items| && LastWithCode(items, k) ==>
      CodeOf(items[k]) in StatusMap(items) && StatusMap(items)[CodeOf(items[k])] == items[k].value
  {
    if |items| > 0 {
      var n := |items| - 1;
      var init := items[..n];
      StatusMapValues(init);
      forall k | 0 <= k < |items| && LastWithCode(items, k)
        ensures CodeOf(items[k]) in StatusMap(items) && StatusMap(items)[CodeOf(items[k])] == items[k].value
      {
        if k < n {
          assert init[k] == items[k];
          assert CodeOf(items[n]) != CodeOf(items[k]);
          assert LastWithCode(init, k) by {
            forall j | k < j < n ensures CodeOf(init[j]) != CodeOf(init[k]) {
              assert init[j] == items[j];
            }
          }
        }
      }
    }
  }

  /** Python's `int(x)` of the quotient `a / b` for `b > 0`: truncation
      toward zero. */
  function TruncDiv(a: int, b: int): int
    requires b > 0
  {
    if a >= 0 then a / b else -((-a) / b)
  }

  /** The percentage `capture_scene` records for a raw brightness reading
      under `code`: scaled from 10..1000 for a `v2` code and from 25..255
      otherwise, then clamped to 0..100. */
  function CapturedBrightness(code: string, raw: int): (pct: int)
    ensures 0 <= pct <= 100
  {
    var p :=
      if IsSubstring("v2", code) then TruncDiv((raw - 10) * 100, 1000 - 10)
      else TruncDiv((raw - 25) * 100, 255 - 25);
    if p < 0 then 0 else if p > 100 then 100 else p
  }

  /** The ends of each range read as 0% and 100%. */
  lemma CapturedBrightnessEnds()
    ensures CapturedBrightness("bright_value_v2", 10) == 0
    ensures CapturedBrightness("bright_value_v2", 1000) == 100
    ensures CapturedBrightness("bright_value", 25) == 0
    ensures CapturedBrightness("bright_value", 255) == 100
  {
    V2InBrightValueV2();
    NoV2InBrightValue();
  }

  /** Readings beyond the `v2` range are clamped to 0% and 100%. */
  lemma CapturedBrightnessClamped(raw: int)
    ensures raw <= 10 ==> CapturedBrightness("bright_value_v2", raw) == 0
    ensures raw >= 1000 ==> CapturedBrightness("bright_value_v2", raw) == 100
  {
    V2InBrightValueV2();
  }

  lemma V2InBrightValueV2()
    ensures IsSubstring("v2", "bright_value_v2")
  {
    SubstringAt("v2", "bright_value_v2", 13);
  }

  lemma NoV2InBrightValue()
    ensures !IsSubstring("v2", "bright_value")
  {
    MissingCharNotSubstring("v2", "bright_value", 1);
  }

  /** A higher raw reading never records a lower percentage. */
  lemma CapturedBrightnessMonotone(code: string, raw1: int, raw2: int)
    requires raw1 <= raw2
    ensures CapturedBrightness(code, raw1) <= CapturedBrightness(code, raw2)
  {
  }

  /** A scene action: `device`, `device_id`, `action`, and from `params` the
      `brightness` and `color_data` entries when present. */
  datatype SceneAction = SceneAction(
    device: Option<string>,
    deviceId: Option<string>,
    action: Option<string>,
    brightness: Option<Json>,
    colorData: Option<Json>)

  /** The first of `codes` that the status map holds. */
  function FirstKey(m: map<string, Json>, codes: seq<string>): (r: Option<string>)
    ensures r.Some? ==> r.value in m && r.value in codes
    ensures r.None? ==> forall i :: 0 <= i < |codes| ==> codes[i] !in m
  {
    if |codes| == 0 then None
    else if codes[0] in m then Some(codes[0])
    else FirstKey(m, codes[1..])
  }

  /** `state.get(switch_code, state.get('switch', False))`: the reading of
      the device's own switch code, else of `switch`, else False. */
  function SwitchReading(d: Device, state: map<string, Json>): Json {
    if d.switchCode.Some? && d.switchCode.value in state then state[d.switchCode.value]
    else if "switch" in state then state["switch"]
    else JBool(false)
  }

  /** What `capture_scene` records for one device given its status items;
      None when it skips the device because a brightness reading is not a
      number (the arithmetic raises and the loop continues). */
  function CaptureDevice(d: Device, items: seq<StatusItem>): (r: Option<SceneAction>)
    ensures r.Some? ==> r.value.device == Some(d.name) && r.value.deviceId == Some(d.id)
    ensures r.Some? ==> r.value.action == Some("on") || r.value.action == Some("off")
    ensures r.Some? && r.value.brightness.Some? ==>
      r.value.brightness.value.JInt? && 0 <= r.value.brightness.value.i <= 100
    ensures r.None? <==>
      (var b := FirstKey(StatusMap(items), BRIGHTNESS_CODES); b.Some? && AsNumber(StatusMap(items)[b.value]).None?)
    ensures r.Some? ==> (r.value.action == Some("on") <==> Truthy(SwitchReading(d, StatusMap(items))))
    ensures r.Some? ==> (r.value.brightness.Some? <==> FirstKey(StatusMap(items), BRIGHTNESS_CODES).Some?)
    ensures r.Some? && r.value.brightness.Some? ==>
      var b := FirstKey(StatusMap(items), BRIGHTNESS_CODES).value;
      r.value.brightness.value == JInt(CapturedBrightness(b, AsNumber(StatusMap(items)[b]).value))
    ensures r.Some? ==> (r.value.colorData.Some? <==> FirstKey(StatusMap(items), COLOR_CODES).Some?)
    ensures r.Some? && r.value.colorData.Some? ==>
      r.value.colorData.value == StatusMap(items)[FirstKey(StatusMap(items), COLOR_CODES).value]
  {
    var state := StatusMap(items);
    var isOn := SwitchReading(d, state);
    var bright := FirstKey(state, BRIGHTNESS_CODES);
    var color := FirstKey(state, COLOR_CODES);
    if bright.Some? && AsNumber(state[bright.value]).None? then None
    else
      Some(SceneAction(
        Some(d.name),
        Some(d.id),
        Some(if Truthy(isOn) then "on" else "off"),
        if bright.Some? then Some(JInt(CapturedBrightness(bright.value, AsNumber(state[bright.value]).value))) else None,
        if color.Some? then Some(state[color.value]) else None))
  }

  // ---------------------------------------------------------------------------
  // The scene store
  // ---------------------------------------------------------------------------

  /** A stored scene: its `name`, `actions` and `created` keys, each possibly absent. */
  datatype SceneData = SceneData(name: Option<string>, actions: Option<seq<SceneAction>>, created: Option<string>)

  /** The scenes file's dict, in insertion order. */
  type Scenes = seq<(string, SceneData)>

  predicate DistinctKeys(s: Scenes) {
    forall i, j :: 0 <= i < j < |s| ==> s[i].0 != s[j].0
  }

  /** A scene with none of its keys is an empty dict, which `if not scene` rejects. */
  predicate IsEmptyScene(data: SceneData) {
    data.name.None? && data.actions.None? && data.created.None?
  }

  /** The first scene whose name equals `name` ignoring case. */
  function FindScene(s: Scenes, name: string): (r: Option<nat>)
    ensures r.Some? ==> r.value < |s| && Lower(s[r.value].0) == Lower(name)
    ensures r.Some? ==> forall j :: 0 <= j < r.value ==> Lower(s[j].0) != Lower(name)
    ensures r.None? <==> forall j :: 0 <= j < |s| ==> Lower(s[j].0) != Lower(name)
  {
    var named := (e: (string, SceneData)) => Lower(e.0) == Lower(name);
    FirstIndexSpec(s, named);
    FirstIndex(s, named)
  }

  /** `scenes[name] = data`: an existing key keeps its place, a new one is appended. */
  function PutScene(s: Scenes, name: string, data: SceneData): (r: Scenes)
    requires DistinctKeys(s)
    ensures DistinctKeys(r)
    ensures exists k :: 0 <= k < |r| && r[k] == (name, data)
    ensures forall j :: 0 <= j < |s| && s[j].0 != name ==> s[j] in r
    ensures forall j :: 0 <= j < |r| && r[j].0 != name ==> r[j] in s
  {
    var keyed := (e: (string, SceneData)) => e.0 == name;
    FirstIndexSpec(s, keyed);
    match FirstIndex(s, keyed)
    case Some(k) =>
      var r := s[k := (name, data)];
      assert r[k] == (name, data);
      assert forall j :: 0 <= j < |s| && s[j].0 != name ==> r[j] == s[j];
      r
    case None =>
      var r := s + [(name, data)];
      assert r[|s|] == (name, data);
      assert forall j :: 0 <= j < |s| ==> r[j] == s[j];
      r
  }

  /** A scene captured under a name no other scene shares, ignoring case, is
      the one that activation and deletion find under that name. */
  lemma CapturedSceneIsFound(s: Scenes, name: string, data: SceneData)
    requires DistinctKeys(s)
    requires forall e :: e in s && e.0 != name ==> Lower(e.0) != Lower(name)
    ensures
      var r := PutScene(s, name, data);
      FindScene(r, name).Some? && r[FindScene(r, name).value] == (name, data)
  {
    var r := PutScene(s, name, data);
    var k :| 0 <= k < |r| && r[k] == (name, data);
    var f := FindScene(r, name).value;
    assert r[f].0 == name;
    assert f == k;
  }

  /** A scene captured under "morning" while "Morning" exists is stored as a
      second scene, and activation still finds the old "Morning". */
  lemma RecaptureInOtherCaseIsShadowed(old_: SceneData, new_: SceneData)
    ensures
      var r := PutScene([("Morning", old_)], "morning", new_);
      r == [("Morning", old_), ("morning", new_)] && FindScene(r, "morning") == Some(0)
  {
    var r := PutScene([("Morning", old_)], "morning", new_);
    assert [("Morning", old_)][0].0 != "morning";
    assert r == [("Morning", old_), ("morning", new_)];
    assert Lower("Morning") == Lower("morning");
  }

  /** `del scenes[key]` for the key at index `k`. */
  function RemoveScene(s: Scenes, k: nat): (r: Scenes)
    requires k < |s|
    ensures |r| == |s| - 1
  {
    s[..k] + s[k + 1..]
  }

  /** Deleting removes exactly the one key: every other scene stays, in order. */
  lemma RemoveSceneKeepsOthers(s: Scenes, k: nat)
    requires k < |s| && DistinctKeys(s)
    ensures DistinctKeys(RemoveScene(s, k))
    ensures forall e :: e in RemoveScene(s, k) <==> e in s && e.0 != s[k].0
  {
    var r := RemoveScene(s, k);
    assert forall j :: 0 <= j < |r| ==> r[j] == (if j < k then s[j] else s[j + 1]);
    forall e | e in s && e.0 != s[k].0
      ensures e in r
    {
      var j :| 0 <= j < |s| && s[j] == e;
      if j < k {
        assert r[j] == e;
      } else {
        assert j != k;
        assert r[j - 1] == e;
      }
    }
  }

  /** One row of `list_scenes`. */
  datatype SceneSummary = SceneSummary(name: string, devices: nat, created: string)

  function Summarize(key: string, data: SceneData): SceneSummary {
    SceneSummary(data.name.GetOr(key), |data.actions.GetOr([])|, data.created.GetOr("unknown"))
  }

  /** `list_scenes`: one summary per stored scene, in store order. */
  function ListScenes(s: Scenes): (r: seq<SceneSummary>)
    ensures |r| == |s|
    ensures forall k :: 0 <= k < |s| ==> r[k] == Summarize(s[k].0, s[k].1)
  {
    seq(|s|, k requires 0 <= k < |s| => Summarize(s[k].0, s[k].1))
  }

  /** A captured scene is listed under its name, with one device per action. */
  lemma CapturedSceneIsListed(s: Scenes, name: string, actions: seq<SceneAction>, created: string)
    requires DistinctKeys(s)
    ensures SceneSummary(name, |actions|, created) in ListScenes(PutScene(s, name, SceneData(Some(name), Some(actions), Some(created))))
  {
    var r := PutScene(s, name, SceneData(Some(name), Some(actions), Some(created)));
    var k :| 0 <= k < |r| && r[k] == (name, SceneData(Some(name), Some(actions), Some(created)));
    assert ListScenes(r)[k] == SceneSummary(name, |actions|, created);
  }

  // ---------------------------------------------------------------------------
  // Category groups
  // ---------------------------------------------------------------------------

  const LIGHTS: seq<string> := ["dj", "dd", "fwd", "xdd"]
  const AC: seq<string> := ["infrared_ac", "kt", "qt", "wnykq"]
  const SOCKETS: seq<string> := ["cz", "pc"]

  const CATEGORY_MAP: map<string, seq<string>> := map[
    "light" := LIGHTS, "lights" := LIGHTS, "lampu" := LIGHTS,
    "ac" := AC, "socket" := SOCKETS, "plug" := SOCKETS, "switch" := ["kg"]]

  /** `CATEGORY_MAP.get(category.lower(), [category.lower()])`. */
  function CategoryTargets(category: string): (r: seq<string>)
    ensures Lower(category) in CATEGORY_MAP ==> r == CATEGORY_MAP[Lower(category)]
    ensures Lower(category) !in CATEGORY_MAP ==> r == [Lower(category)]
  {
    if Lower(category) in CATEGORY_MAP then CATEGORY_MAP[Lower(category)] else [Lower(category)]
  }

  /** Whether `control_by_category` considers a device's category part of the group. */
  predicate InGroup(d: Device, targets: seq<string>) {
    Lower(d.category) in targets
  }

  /** A name the map does not know selects exactly the devices whose
      category equals it, ignoring case. */
  lemma UnknownCategorySelectsItself(category: string, d: Device)
    requires Lower(category) !in CATEGORY_MAP
    ensures InGroup(d, CategoryTargets(category)) <==> Lower(d.category) == Lower(category)
  {
  }
}
