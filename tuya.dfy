/** `TuyaController`: the device records, the remembered AC states and the
    scene store, changed by power commands, AC control, group control and
    scene capture, activation and deletion. The cloud is an oracle. */
module Tuya {
  import opened Common
  import opened TuyaLookup

  /** The cloud's answers: whether it accepts a command for a device, whether
      the IR API accepts an AC state sent through a blaster to an AC, and the
      status list of a device (None: no usable answer or an exception). A
      missing cloud connection is `None` where a `Cloud` is expected. */
  datatype Cloud = Cloud(
    accepts: (string, Command) -> bool,
    irAccepts: (string, string, AcState) -> bool,
    status: string -> Option<seq<StatusItem>>)

  /** `_send_command(...)['success']`. */
  predicate Sends(cloud: Option<Cloud>, id: string, c: Command) {
    cloud.Some? && cloud.value.accepts(id, c)
  }

  /** `_send_ac_ir_command(...)['success']`: there is an IR blaster among the
      devices and its id is not empty, there is a cloud (without one the
      request raises and the failure is reported), and the cloud accepts
      the state. */
  predicate IrSends(cloud: Option<Cloud>, ds: seq<Device>, acId: string, s: AcState) {
    && cloud.Some?
    && IrBlaster(ds).Some? && IrBlaster(ds).value != ""
    && cloud.value.irAccepts(IrBlaster(ds).value, acId, s)
  }

  // ---------------------------------------------------------------------------
  // _try_command_variations and turn_on / turn_off, as functions
  // ---------------------------------------------------------------------------

  /** Which command of `_try_command_variations` the cloud accepted. */
  datatype Tried = PrimaryAccepted | VariationAccepted(k: nat) | NoneAccepted

  /** The first variation that is not the primary command (by Python `==`)
      and that the cloud accepts. */
  function FirstVariation(cloud: Option<Cloud>, id: string, primary: Command, vars: seq<Command>): (r: Option<nat>)
    ensures r.Some? ==> r.value < |vars| && !SameCommand(vars[r.value], primary) && Sends(cloud, id, vars[r.value])
    ensures r.Some? ==> forall j :: 0 <= j < r.value ==> SameCommand(vars[j], primary) || !Sends(cloud, id, vars[j])
    ensures r.None? <==> forall j :: 0 <= j < |vars| ==> SameCommand(vars[j], primary) || !Sends(cloud, id, vars[j])
  {
    var accepted := (c: Command) => !SameCommand(c, primary) && Sends(cloud, id, c);
    FirstIndexSpec(vars, accepted);
    FirstIndex(vars, accepted)
  }

  /** The primary command first, then the variations in order. */
  function TryOutcome(cloud: Option<Cloud>, id: string, primary: Command, vars: seq<Command>): (r: Tried)
    ensures r.PrimaryAccepted? <==> Sends(cloud, id, primary)
    ensures r.VariationAccepted? ==> r.k < |vars| && !Sends(cloud, id, primary)
    ensures r.NoneAccepted? <==> !Sends(cloud, id, primary) && forall j :: 0 <= j < |vars| ==> SameCommand(vars[j], primary) || !Sends(cloud, id, vars[j])
    ensures cloud.None? ==> r.NoneAccepted?
  {
    if Sends(cloud, id, primary) then PrimaryAccepted
    else match FirstVariation(cloud, id, primary, vars)
      case None => NoneAccepted
      case Some(k) => VariationAccepted(k)
  }

  /** A switch code after a power command: the same, or a fallback code. */
  predicate SwitchCodeStep(before: Option<string>, after: Option<string>) {
    after == before || after == Some("switch_1") || after == Some("switch")
  }

  /** What `turn_on` (`on`) or `turn_off` does: whether it succeeds, and the
      device records after it. An IR AC is tried through the IR API first
      with the default settings; then the switch code and its variations. */
  function TurnResult(ds: seq<Device>, cloud: Option<Cloud>, target: string, on: bool): (r: (bool, seq<Device>))
    ensures GetDevice(ds, target).None? ==> r == (false, ds)
    ensures cloud.None? ==> r == (false, ds)
    ensures |r.1| == |ds|
    ensures forall k :: 0 <= k < |ds| ==> r.1[k] == ds[k].(switchCode := r.1[k].switchCode)
    ensures forall k :: 0 <= k < |ds| && r.1[k] != ds[k] ==> ds[k].id == ds[GetDevice(ds, target).value].id
    ensures !r.0 ==> r.1 == ds
  {
    match GetDevice(ds, target)
    case None => (false, ds)
    case Some(i) =>
      var d := ds[i];
      if d.category in IR_CATEGORIES && IrSends(cloud, ds, d.id, AcState(if on then 1 else 0, 24, 0, 0)) then (true, ds)
      else
        var vars := PowerVariations(d.switchCode, on);
        match TryOutcome(cloud, d.id, PowerCommand(d.switchCode, on), vars)
        case PrimaryAccepted => (true, ds)
        case VariationAccepted(k) => (true, SetSwitchCode(ds, d.id, vars[k].code))
        case NoneAccepted => (false, ds)
  }

  /** Every power variation carries the device's own code or a fallback. */
  lemma VariationCodes(code: Option<string>, on: bool)
    ensures forall k :: 0 <= k < |PowerVariations(code, on)| ==>
      SwitchCodeStep(code, PowerVariations(code, on)[k].code)
  {
  }

  /** Rewriting the switch code of one device, by its unique id, to its own
      code or a fallback changes nothing else. */
  lemma SetSwitchCodeSteps(ds: seq<Device>, i: nat, code: Option<string>)
    requires i < |ds| && DistinctIds(ds)
    requires SwitchCodeStep(ds[i].switchCode, code)
    ensures forall k :: 0 <= k < |ds| ==> SwitchCodeStep(ds[k].switchCode, SetSwitchCode(ds, ds[i].id, code)[k].switchCode)
    ensures SwitchCodesOnly(ds, SetSwitchCode(ds, ds[i].id, code))
    ensures DistinctIds(SetSwitchCode(ds, ds[i].id, code))
  {
    var r := SetSwitchCode(ds, ds[i].id, code);
    forall k | 0 <= k < |ds|
      ensures SwitchCodeStep(ds[k].switchCode, r[k].switchCode)
    {
      if ds[k].id == ds[i].id {
        assert k == i;
      }
    }
  }

  /** A power command never takes a device's switch away: a switch code
      changes only to a fallback code, so a device that had one still has
      one, and ids, names and categories stay. */
  lemma TurnKeepsSwitches(ds: seq<Device>, cloud: Option<Cloud>, target: string, on: bool)
    requires DistinctIds(ds)
    ensures forall k :: 0 <= k < |ds| ==>
      SwitchCodeStep(ds[k].switchCode, TurnResult(ds, cloud, target, on).1[k].switchCode)
    ensures SwitchCodesOnly(ds, TurnResult(ds, cloud, target, on).1)
    ensures DistinctIds(TurnResult(ds, cloud, target, on).1)
  {
    var r := TurnResult(ds, cloud, target, on).1;
    var g := GetDevice(ds, target);
    if g.Some? {
      var i := g.value;
      var d := ds[i];
      var vars := PowerVariations(d.switchCode, on);
      var t := TryOutcome(cloud, d.id, PowerCommand(d.switchCode, on), vars);
      if !(d.category in IR_CATEGORIES && IrSends(cloud, ds, d.id, AcState(if on then 1 else 0, 24, 0, 0))) && t.VariationAccepted? {
        var code := vars[t.k].code;
        VariationCodes(d.switchCode, on);
        SetSwitchCodeSteps(ds, i, code);
        assert r == SetSwitchCode(ds, d.id, code);
      } else {
        assert r == ds;
      }
    }
  }

  lemma SwitchCodesOnlyTrans(a: seq<Device>, b: seq<Device>, c: seq<Device>)
    requires SwitchCodesOnly(a, b) && SwitchCodesOnly(b, c)
    ensures SwitchCodesOnly(a, c)
  {
  }

  /** When the switch code is rejected but `switch_1` is accepted, the device
      is switched and remembers `switch_1` as its code. */
  lemma FallbackRewritesSwitchCode(ds: seq<Device>, cloud: Cloud, i: nat, on: bool)
    requires i < |ds| && DistinctIds(ds) && ds[i].id != ""
    requires !(ds[i].category in IR_CATEGORIES)
    requires ds[i].switchCode == Some("switch_led")
    requires forall v :: !cloud.accepts(ds[i].id, Command(Some("switch_led"), v))
    requires cloud.accepts(ds[i].id, Command(Some("switch_1"), VBool(on)))
    ensures TurnResult(ds, Some(cloud), ds[i].id, on) == (true, ds[i := ds[i].(switchCode := Some("switch_1"))])
  {
    GetDeviceById(ds, i);
    var id := ds[i].id;
    var vars := PowerVariations(Some("switch_led"), on);
    var primary := PowerCommand(Some("switch_led"), on);
    assert !cloud.accepts(id, vars[0]) && !cloud.accepts(id, vars[1]) && !cloud.accepts(id, vars[2]);
    assert !SameCommand(vars[3], primary) && Sends(Some(cloud), id, vars[3]);
    var f := FirstVariation(Some(cloud), id, primary, vars);
    assert f.Some?;
    assert f.value == 3;
    assert !Sends(Some(cloud), id, primary);
    assert SetSwitchCode(ds, ds[i].id, Some("switch_1")) == ds[i := ds[i].(switchCode := Some("switch_1"))];
  }

  // ---------------------------------------------------------------------------
  // Group control
  // ---------------------------------------------------------------------------

  /** Whether `control_all` (no targets) or `control_by_category` (the
      category list) considers the device, before its switch code is checked. */
  predicate InScope(d: Device, targets: Option<seq<string>>) {
    targets.None? || InGroup(d, targets.value)
  }

  function NamesAt(ds: seq<Device>, idx: seq<nat>): (r: seq<string>)
    requires forall m :: 0 <= m < |idx| ==> idx[m] < |ds|
    ensures |r| == |idx|
    ensures forall m :: 0 <= m < |idx| ==> r[m] == ds[idx[m]].name
  {
    seq(|idx|, m requires 0 <= m < |idx| => ds[idx[m]].name)
  }

  /** Only switch codes change, and only from one switch code to another. */
  ghost predicate SwitchCodesOnly(before: seq<Device>, after: seq<Device>) {
    && |after| == |before|
    && (forall k :: 0 <= k < |before| ==> after[k] == before[k].(switchCode := after[k].switchCode))
    && (forall k :: 0 <= k < |before| && HasSwitch(before[k]) ==> HasSwitch(after[k]))
  }

  /** The group loop after it has looked at the first `i` devices: the
      devices considered (in store order: in scope, and with a switch code
      when the loop reaches them, which every device that had one at the
      start does) are split exactly into `affected` and `failed` by name. */
  ghost predicate GroupSoFar(start: seq<Device>, now: seq<Device>, targets: Option<seq<string>>, i: nat,
                             affected: seq<string>, failed: seq<string>, considered: seq<nat>) {
    && i <= |start|
    && SwitchCodesOnly(start, now)
    && (forall m :: 0 <= m < |considered| ==> considered[m] < i)
    && (forall m, n :: 0 <= m < n < |considered| ==> considered[m] < considered[n])
    && (forall m :: 0 <= m < |considered| ==> InScope(start[considered[m]], targets) && HasSwitch(now[considered[m]]))
    && (forall k :: 0 <= k < i && InScope(start[k], targets) && HasSwitch(start[k]) ==> k in considered)
    && multiset(affected) + multiset(failed) == multiset(NamesAt(start, considered))
  }

  /** The contract of a group command: the loop has looked at every device,
      and `success` says some device was affected. */
  ghost predicate GroupOutcome(before: seq<Device>, after: seq<Device>, targets: Option<seq<string>>,
                               success: bool, affected: seq<string>, failed: seq<string>, considered: seq<nat>) {
    && GroupSoFar(before, after, targets, |before|, affected, failed, considered)
    && (success <==> affected != [])
  }

  /** The group loop from device `i` on, over the records `ds` as they
      stand when it gets there: each device in scope with a switch code is
      switched by name with `turn_on`/`turn_off`, which may rewrite switch
      codes, and its name is listed as affected or failed by the result.
      Returns the two lists and the records at the end. */
  function GroupFrom(ds: seq<Device>, cloud: Option<Cloud>, targets: Option<seq<string>>, on: bool, i: nat)
    : (r: (seq<string>, seq<string>, seq<Device>))
    ensures |r.2| == |ds|
    decreases |ds| - i
  {
    if i >= |ds| then ([], [], ds)
    else if InScope(ds[i], targets) && HasSwitch(ds[i]) then
      var (ok, next) := TurnResult(ds, cloud, ds[i].name, on);
      var rest := GroupFrom(next, cloud, targets, on, i + 1);
      if ok then ([ds[i].name] + rest.0, rest.1, rest.2)
      else (rest.0, [ds[i].name] + rest.1, rest.2)
    else GroupFrom(ds, cloud, targets, on, i + 1)
  }

  /** The names of the devices from `i` on that are in scope and have a
      switch code, in store order. */
  function GroupNames(ds: seq<Device>, targets: Option<seq<string>>, i: nat): (r: seq<string>)
    ensures i <= |ds| ==> |r| <= |ds| - i
    decreases |ds| - i
  {
    if i >= |ds| then []
    else (if InScope(ds[i], targets) && HasSwitch(ds[i]) then [ds[i].name] else []) + GroupNames(ds, targets, i + 1)
  }

  /** Without a cloud connection every command fails: nothing is affected,
      every device in scope with a switch code is listed as failed, in
      store order, and no record changes. */
  lemma {:induction false} GroupWithoutCloud(ds: seq<Device>, targets: Option<seq<string>>, on: bool, i: nat)
    ensures GroupFrom(ds, None, targets, on, i) == ([], GroupNames(ds, targets, i), ds)
    decreases |ds| - i
  {
    if i < |ds| {
      GroupWithoutCloud(ds, targets, on, i + 1);
      var tail := GroupFrom(ds, None, targets, on, i + 1);
      var names := GroupNames(ds, targets, i + 1);
      if InScope(ds[i], targets) && HasSwitch(ds[i]) {
        assert TurnResult(ds, None, ds[i].name, on) == (false, ds);
        assert GroupFrom(ds, None, targets, on, i) == (tail.0, [ds[i].name] + tail.1, tail.2);
        assert GroupNames(ds, targets, i) == [ds[i].name] + names;
      } else {
        assert GroupFrom(ds, None, targets, on, i) == tail;
        assert GroupNames(ds, targets, i) == [] + names == names;
      }
    }
  }

  /** The group loop has produced `affected` and `failed` so far, and what
      remains of it from `ds` at device `i` completes `whole`. */
  ghost predicate GroupRest(whole: (seq<string>, seq<string>, seq<Device>), ds: seq<Device>, cloud: Option<Cloud>,
                            targets: Option<seq<string>>, on: bool, i: nat, affected: seq<string>, failed: seq<string>) {
    var rest := GroupFrom(ds, cloud, targets, on, i);
    whole == (affected + rest.0, failed + rest.1, rest.2)
  }

  /** Switching device `i` moves its name into the list its result picks. */
  lemma GroupRestVisit(whole: (seq<string>, seq<string>, seq<Device>), ds: seq<Device>, next: seq<Device>,
                       cloud: Option<Cloud>, targets: Option<seq<string>>, on: bool, i: nat,
                       affected: seq<string>, failed: seq<string>, ok: bool)
    requires GroupRest(whole, ds, cloud, targets, on, i, affected, failed) && i < |ds|
    requires InScope(ds[i], targets) && HasSwitch(ds[i])
    requires (ok, next) == TurnResult(ds, cloud, ds[i].name, on)
    ensures GroupRest(whole, next, cloud, targets, on, i + 1,
                      if ok then affected + [ds[i].name] else affected,
                      if ok then failed else failed + [ds[i].name])
  {
    var tail := GroupFrom(next, cloud, targets, on, i + 1);
    assert GroupFrom(ds, cloud, targets, on, i) ==
      if ok then ([ds[i].name] + tail.0, tail.1, tail.2) else (tail.0, [ds[i].name] + tail.1, tail.2);
    if ok {
      assert affected + ([ds[i].name] + tail.0) == (affected + [ds[i].name]) + tail.0;
    } else {
      assert failed + ([ds[i].name] + tail.1) == (failed + [ds[i].name]) + tail.1;
    }
  }

  /** A device out of scope or without a switch code adds nothing. */
  lemma GroupRestSkip(whole: (seq<string>, seq<string>, seq<Device>), ds: seq<Device>,
                      cloud: Option<Cloud>, targets: Option<seq<string>>, on: bool, i: nat,
                      affected: seq<string>, failed: seq<string>)
    requires GroupRest(whole, ds, cloud, targets, on, i, affected, failed) && i < |ds|
    requires !(InScope(ds[i], targets) && HasSwitch(ds[i]))
    ensures GroupRest(whole, ds, cloud, targets, on, i + 1, affected, failed)
  {
  }

  /** A device out of scope or without a switch code is passed over. */
  lemma GroupSkip(start: seq<Device>, now: seq<Device>, targets: Option<seq<string>>, i: nat,
                  affected: seq<string>, failed: seq<string>, considered: seq<nat>)
    requires GroupSoFar(start, now, targets, i, affected, failed, considered) && i < |start|
    requires !(InScope(now[i], targets) && HasSwitch(now[i]))
    ensures GroupSoFar(start, now, targets, i + 1, affected, failed, considered)
  {
  }

  /** A device in scope with a switch code is switched and lands in exactly
      one of the two lists. */
  lemma GroupVisit(start: seq<Device>, now: seq<Device>, next: seq<Device>, targets: Option<seq<string>>, i: nat,
                   affected: seq<string>, failed: seq<string>, considered: seq<nat>, ok: bool)
    requires GroupSoFar(start, now, targets, i, affected, failed, considered) && i < |start|
    requires InScope(now[i], targets) && HasSwitch(now[i])
    requires SwitchCodesOnly(now, next)
    ensures var name := now[i].name;
      GroupSoFar(start, next, targets, i + 1,
                 if ok then affected + [name] else affected,
                 if ok then failed else failed + [name],
                 considered + [i])
  {
    SwitchCodesOnlyTrans(start, now, next);
    var c := considered + [i];
    var name := now[i].name;
    assert now[i] == start[i].(switchCode := now[i].switchCode);
    assert name == start[i].name && InScope(start[i], targets) && HasSwitch(next[i]);
    forall m | 0 <= m < |c|
      ensures c[m] < i + 1 && InScope(start[c[m]], targets) && HasSwitch(next[c[m]])
    {
      if m < |considered| {
        assert c[m] == considered[m] && HasSwitch(now[considered[m]]);
      }
    }
    forall k | 0 <= k < i + 1 && InScope(start[k], targets) && HasSwitch(start[k])
      ensures k in c
    {
      if k < i {
        assert k in considered;
      } else {
        assert c[|considered|] == k;
      }
    }
    assert NamesAt(start, c) == NamesAt(start, considered) + [name];
  }

  /** A group command switches or fails each considered device exactly once,
      and it succeeds only if some device in scope has a switch code. */
  lemma GroupCounts(before: seq<Device>, after: seq<Device>, targets: Option<seq<string>>,
                    success: bool, affected: seq<string>, failed: seq<string>, considered: seq<nat>)
    requires GroupOutcome(before, after, targets, success, affected, failed, considered)
    ensures |affected| + |failed| == |considered|
    ensures success ==> exists k :: 0 <= k < |after| && InScope(before[k], targets) && HasSwitch(after[k])
  {
    assert |multiset(affected) + multiset(failed)| == |multiset(NamesAt(before, considered))|;
    if success {
      assert affected[0] in multiset(NamesAt(before, considered));
      var c := considered[0];
      assert InScope(before[c], targets) && HasSwitch(after[c]);
    }
  }

  /** The stored scene actions, in store order, that `capture_scene` records. */
  function CapturedActions(ds: seq<Device>, cloud: Cloud): seq<SceneAction> {
    if |ds| == 0 then []
    else
      var d := ds[|ds| - 1];
      var one := match cloud.status(d.id)
        case None => []
        case Some(items) => (match CaptureDevice(d, items) case None => [] case Some(a) => [a]);
      CapturedActions(ds[..|ds| - 1], cloud) + one
  }

  /** A captured scene has at most one action per device, each naming a
      device of the store with an on/off action and a brightness in 0..100. */
  lemma {:induction false} CapturedActionsShape(ds: seq<Device>, cloud: Cloud)
    ensures var acts := CapturedActions(ds, cloud);
      && |acts| <= |ds|
      && forall m :: 0 <= m < |acts| ==>
           && (exists k :: 0 <= k < |ds| && acts[m].device == Some(ds[k].name) && acts[m].deviceId == Some(ds[k].id))
           && (acts[m].action == Some("on") || acts[m].action == Some("off"))
           && (acts[m].brightness.Some? ==> acts[m].brightness.value.JInt? && 0 <= acts[m].brightness.value.i <= 100)
    decreases |ds|
  {
    if |ds| > 0 {
      var prev := ds[..|ds| - 1];
      CapturedActionsShape(prev, cloud);
      var acts := CapturedActions(ds, cloud);
      var head := CapturedActions(prev, cloud);
      forall m | 0 <= m < |head|
        ensures exists k :: 0 <= k < |ds| && acts[m].device == Some(ds[k].name) && acts[m].deviceId == Some(ds[k].id)
      {
        var k :| 0 <= k < |prev| && head[m].device == Some(prev[k].name) && head[m].deviceId == Some(prev[k].id);
        assert acts[m] == head[m] && prev[k] == ds[k];
      }
    }
  }

  /** `set_brightness(name, value)` raises: it finds the device, the device
      supports brightness and has a brightness code, and the value is not a
      number. Otherwise it returns, and its result is not used. */
  predicate BrightnessRaises(ds: seq<Device>, name: string, value: Json) {
    var i := GetDevice(ds, name);
    && i.Some?
    && ds[i.value].supportsBrightness
    && GetCapabilityCode(ds[i.value].capabilities, BRIGHTNESS_CODES).Some?
    && AsNumber(value).None?
  }

  /** The actions of the first scene whose name matches ignoring case; None
      when there is none or it is an empty record, which `activate_scene`
      reports as not found. An absent action list is an empty one. */
  function SceneActions(s: Scenes, name: string): (r: Option<seq<SceneAction>>)
    ensures r.None? <==> FindScene(s, name).None? || IsEmptyScene(s[FindScene(s, name).value].1)
    ensures r.Some? ==> r.value == s[FindScene(s, name).value].1.actions.GetOr([])
  {
    match FindScene(s, name)
    case None => None
    case Some(k) => if IsEmptyScene(s[k].1) then None else Some(s[k].1.actions.GetOr([]))
  }

  /** A scene just captured under `name`, when no other scene's name
      differs from it only in case, is the one `activate_scene(name)` runs,
      with exactly the captured actions. */
  lemma CapturedSceneActivates(s: Scenes, name: string, acts: seq<SceneAction>, created: string)
    requires DistinctKeys(s)
    requires forall e :: e in s && e.0 != name ==> Lower(e.0) != Lower(name)
    ensures SceneActions(PutScene(s, name, SceneData(Some(name), Some(acts), Some(created))), name) == Some(acts)
  {
    CapturedSceneIsFound(s, name, SceneData(Some(name), Some(acts), Some(created)));
  }

  /** The device names of scene actions, in order. */
  function ActionDevices(actions: seq<SceneAction>): (r: seq<Option<string>>)
    ensures |r| == |actions|
    ensures forall m :: 0 <= m < |actions| ==> r[m] == actions[m].device
  {
    seq(|actions|, m requires 0 <= m < |actions| => actions[m].device)
  }

  /** What `activate_scene` does with one action against the records `ds`:
      whether `turn_on`/`turn_off` of its device name succeeded, whether the
      brightness it then applies raises, and the records afterwards. An
      action without a device name fails and changes nothing. */
  function ActionStep(cloud: Option<Cloud>): (seq<Device>, SceneAction) -> (bool, bool, seq<Device>) {
    (ds: seq<Device>, item: SceneAction) =>
      if item.device.None? then (false, false, ds)
      else
        var turn := TurnResult(ds, cloud, item.device.value, item.action == Some("on"));
        (turn.0, turn.0 && item.brightness.Some? && BrightnessRaises(turn.1, item.device.value, item.brightness.value), turn.1)
  }

  /** The action loop of `activate_scene` from action `i` on, each action
      taken by `step` against the records as they stand when it is reached:
      a success lists the device as affected, a failure or a raising
      brightness lists it as failed. Returns the two lists and the records
      at the end. */
  function SceneFrom(ds: seq<Device>, step: (seq<Device>, SceneAction) -> (bool, bool, seq<Device>),
                     actions: seq<SceneAction>, i: nat): (r: (seq<Option<string>>, seq<Option<string>>, seq<Device>))
    ensures i <= |actions| ==> |actions| - i <= |r.0| + |r.1| <= 2 * (|actions| - i)
    decreases |actions| - i
  {
    if i >= |actions| then ([], [], ds)
    else
      var s := step(ds, actions[i]);
      var rest := SceneFrom(s.2, step, actions, i + 1);
      ((if s.0 then [actions[i].device] else []) + rest.0,
       (if !s.0 || s.1 then [actions[i].device] else []) + rest.1,
       rest.2)
  }

  /** Without a cloud connection every action fails: nothing is affected,
      every action's device is listed as failed, in scene order, and no
      record changes. */
  lemma {:induction false} SceneWithoutCloud(ds: seq<Device>, actions: seq<SceneAction>, i: nat)
    requires i <= |actions|
    ensures SceneFrom(ds, ActionStep(None), actions, i) == ([], ActionDevices(actions)[i..], ds)
    decreases |actions| - i
  {
    if i < |actions| {
      SceneWithoutCloud(ds, actions, i + 1);
      var item := actions[i];
      if item.device.Some? {
        assert TurnResult(ds, None, item.device.value, item.action == Some("on")) == (false, ds);
      }
      assert ActionStep(None)(ds, item) == (false, false, ds);
      assert ActionDevices(actions)[i..] == [item.device] + ActionDevices(actions)[i + 1..];
    } else {
      assert ActionDevices(actions)[i..] == [];
    }
  }

  /** Whatever each step does, the loop lists only device names of the
      actions it runs, and an action without a device name is listed as
      failed. */
  lemma {:induction false} SceneFromNames(ds: seq<Device>, step: (seq<Device>, SceneAction) -> (bool, bool, seq<Device>),
                                          actions: seq<SceneAction>, i: nat)
    requires i <= |actions|
    requires forall d: seq<Device>, a: SceneAction :: a.device.None? ==> !step(d, a).0
    ensures var r := SceneFrom(ds, step, actions, i);
      && (forall x :: x in r.0 ==> x in ActionDevices(actions)[i..])
      && (forall x :: x in r.1 ==> x in ActionDevices(actions)[i..])
      && (None in ActionDevices(actions)[i..] ==> None in r.1)
    decreases |actions| - i
  {
    var names := ActionDevices(actions);
    if i == |actions| {
      assert names[i..] == [];
    } else {
      var s := step(ds, actions[i]);
      SceneFromNames(s.2, step, actions, i + 1);
      assert names[i..] == [actions[i].device] + names[i + 1..];
    }
  }

  /** The scene loop has produced `affected` and `failed` for the actions
      before `i`, and the records are now `now`: going on from here gives
      what the whole loop gives from `start`. */
  ghost predicate SceneRest(start: seq<Device>, now: seq<Device>, step: (seq<Device>, SceneAction) -> (bool, bool, seq<Device>),
                            actions: seq<SceneAction>, i: nat, affected: seq<Option<string>>, failed: seq<Option<string>>) {
    var rest := SceneFrom(now, step, actions, i);
    SceneFrom(start, step, actions, 0) == (affected + rest.0, failed + rest.1, rest.2)
  }

  /** Taking action `i`, which gives `ok`, `raised` and the records `next`,
      carries the loop invariant one action further. */
  lemma SceneRestStep(start: seq<Device>, now: seq<Device>, step: (seq<Device>, SceneAction) -> (bool, bool, seq<Device>),
                      actions: seq<SceneAction>, i: nat, affected: seq<Option<string>>, failed: seq<Option<string>>,
                      ok: bool, raised: bool, next: seq<Device>)
    requires SceneRest(start, now, step, actions, i, affected, failed) && i < |actions|
    requires step(now, actions[i]) == (ok, raised, next)
    ensures SceneRest(start, next, step, actions, i + 1,
                      affected + (if ok then [actions[i].device] else []),
                      failed + (if !ok || raised then [actions[i].device] else []))
  {
    var rest := SceneFrom(next, step, actions, i + 1);
    var a := if ok then [actions[i].device] else [];
    var f := if !ok || raised then [actions[i].device] else [];
    assert SceneFrom(now, step, actions, i) == (a + rest.0, f + rest.1, rest.2);
    assert affected + (a + rest.0) == (affected + a) + rest.0;
    assert failed + (f + rest.1) == (failed + f) + rest.1;
  }

  datatype AcOutcome = AcNotFound | NotAnAc | AcSent(ok: bool)
  datatype CaptureOutcome = NoCloud | NothingCaptured | Captured(devices: nat)
  datatype SceneRun = SceneNotFound | Ran(success: bool, affected: seq<Option<string>>, failed: seq<Option<string>>)

  class TuyaController {
    /** The device records, keyed by id in the source. */
    var devices: seq<Device>
    /** The remembered state of each AC, by device id. */
    var acState: map<string, AcState>
    /** The scenes file's contents. */
    var scenes: Scenes
    const cloud: Option<Cloud>

    ghost predicate Valid()
      reads this
    {
      && DistinctIds(devices)
      && DistinctKeys(scenes)
      && forall id :: id in acState ==> AcInRange(acState[id])
    }

    /** A controller over a loaded device cache and scenes file. */
    constructor (cloud: Option<Cloud>, devices: seq<Device>, scenes: Scenes)
      requires DistinctIds(devices) && DistinctKeys(scenes)
      ensures Valid()
      ensures this.cloud == cloud && this.devices == devices && this.scenes == scenes && acState == map[]
    {
      this.cloud := cloud;
      this.devices := devices;
      this.scenes := scenes;
      acState := map[];
    }

    /** `_try_command_variations`: the primary command, then each variation
        that differs from it, until the cloud accepts one; an accepted
        variation's code becomes the device's switch code. */
    method TryCommandVariations(deviceId: string, primary: Command, variations: seq<Command>) returns (ok: bool)
      requires Valid()
      modifies this
      ensures Valid()
      ensures ok <==> !TryOutcome(cloud, deviceId, primary, variations).NoneAccepted?
      ensures TryOutcome(cloud, deviceId, primary, variations).VariationAccepted? ==>
        devices == SetSwitchCode(old(devices), deviceId, variations[TryOutcome(cloud, deviceId, primary, variations).k].code)
      ensures !TryOutcome(cloud, deviceId, primary, variations).VariationAccepted? ==> devices == old(devices)
      ensures acState == old(acState) && scenes == old(scenes)
    {
      if Sends(cloud, deviceId, primary) {
        return true;
      }
      var i := 0;
      while i < |variations|
        invariant 0 <= i <= |variations|
        invariant forall j :: 0 <= j < i ==> SameCommand(variations[j], primary) || !Sends(cloud, deviceId, variations[j])
        invariant devices == old(devices) && acState == old(acState) && scenes == old(scenes)
      {
        var v := variations[i];
        if !SameCommand(v, primary) && Sends(cloud, deviceId, v) {
          devices := SetSwitchCode(devices, deviceId, v.code);
          return true;
        }
        i := i + 1;
      }
      return false;
    }

    /** `turn_on(target)` when `on`, `turn_off(target)` otherwise. */
    method SetPower(target: string, on: bool) returns (ok: bool)
      requires Valid()
      modifies this
      ensures Valid()
      ensures (ok, devices) == TurnResult(old(devices), cloud, target, on)
      ensures SwitchCodesOnly(old(devices), devices)
      ensures acState == old(acState) && scenes == old(scenes)
    {
      ghost var result := TurnResult(devices, cloud, target, on);
      TurnKeepsSwitches(devices, cloud, target, on);
      var found := GetDevice(devices, target);
      if found.None? {
        return false;
      }
      var d := devices[found.value];
      if d.category in IR_CATEGORIES {
        var blaster := IrBlaster(devices);
        if blaster.Some? && blaster.value != "" && cloud.Some? && cloud.value.irAccepts(blaster.value, d.id, AcState(if on then 1 else 0, 24, 0, 0)) {
          assert IrSends(cloud, devices, d.id, AcState(if on then 1 else 0, 24, 0, 0));
          return true;
        }
      }
      assert !(d.category in IR_CATEGORIES && IrSends(cloud, devices, d.id, AcState(if on then 1 else 0, 24, 0, 0)));
      var primary, vars := PowerCommand(d.switchCode, on), PowerVariations(d.switchCode, on);
      ghost var tried := TryOutcome(cloud, d.id, primary, vars);
      ok := TryCommandVariations(d.id, primary, vars);
      assert tried.VariationAccepted? ==> result.1 == SetSwitchCode(old(devices), d.id, vars[tried.k].code);
    }

    /** The loop shared by `control_all` and `control_by_category`: each
        device in scope that has a switch code is switched by its name. */
    method ControlGroup(targets: Option<seq<string>>, on: bool)
      returns (success: bool, affected: seq<string>, failed: seq<string>, ghost considered: seq<nat>)
      requires Valid()
      modifies this
      ensures Valid()
      ensures GroupOutcome(old(devices), devices, targets, success, affected, failed, considered)
      ensures (affected, failed, devices) == GroupFrom(old(devices), cloud, targets, on, 0)
      ensures acState == old(acState) && scenes == old(scenes)
    {
      affected, failed, considered := [], [], [];
      ghost var start := devices;
      ghost var whole := GroupFrom(start, cloud, targets, on, 0);
      assert [] + whole.0 == whole.0 && [] + whole.1 == whole.1;
      var i := 0;
      while i < |devices|
        invariant Valid()
        invariant |devices| == |start|
        invariant GroupSoFar(start, devices, targets, i, affected, failed, considered) == true
        invariant GroupRest(whole, devices, cloud, targets, on, i, affected, failed) == true
        invariant acState == old(acState) && scenes == old(scenes)
      {
        var d := devices[i];
        if InScope(d, targets) && HasSwitch(d) {
          ghost var before := devices;
          var ok := SetPower(d.name, on);
          GroupVisit(start, before, devices, targets, i, affected, failed, considered, ok);
          GroupRestVisit(whole, before, devices, cloud, targets, on, i, affected, failed, ok);
          if ok {
            affected := affected + [d.name];
          } else {
            failed := failed + [d.name];
          }
          considered := considered + [i];
        } else {
          GroupSkip(start, devices, targets, i, affected, failed, considered);
          GroupRestSkip(whole, devices, cloud, targets, on, i, affected, failed);
        }
        i := i + 1;
      }
      assert affected + [] == affected && failed + [] == failed;
      success := |affected| > 0;
    }

    /** `control_all(action)`: every device with a switch code. */
    method ControlAll(action: string)
      returns (success: bool, affected: seq<string>, failed: seq<string>, ghost considered: seq<nat>)
      requires Valid()
      modifies this
      ensures Valid()
      ensures GroupOutcome(old(devices), devices, None, success, affected, failed, considered)
      ensures (affected, failed, devices) == GroupFrom(old(devices), cloud, None, action == "on", 0)
      ensures acState == old(acState) && scenes == old(scenes)
    {
      success, affected, failed, considered := ControlGroup(None, action == "on");
    }

    /** `control_by_category(category, action)`: the devices whose category
        is in the group the name maps to, or equals the name. */
    method ControlByCategory(category: string, action: string)
      returns (success: bool, affected: seq<string>, failed: seq<string>, ghost considered: seq<nat>)
      requires Valid()
      modifies this
      ensures Valid()
      ensures GroupOutcome(old(devices), devices, Some(CategoryTargets(category)), success, affected, failed, considered)
      ensures (affected, failed, devices) == GroupFrom(old(devices), cloud, Some(CategoryTargets(category)), action == "on", 0)
      ensures acState == old(acState) && scenes == old(scenes)
    {
      success, affected, failed, considered := ControlGroup(Some(CategoryTargets(category)), action == "on");
    }

    /** `control_ac`: updates the remembered state of an AC (created with the
        defaults on first use) and sends the whole state through the IR API. */
    method ControlAc(target: string, power: Option<bool>, temperature: Option<int>, mode: Option<string>, fan: Option<string>)
      returns (r: AcOutcome)
      requires Valid()
      modifies this
      ensures Valid()
      ensures devices == old(devices) && scenes == old(scenes)
      ensures GetDevice(devices, target).None? ==> r == AcNotFound && acState == old(acState)
      ensures GetDevice(devices, target).Some? && !(devices[GetDevice(devices, target).value].category in AC_CATEGORIES) ==>
        r == NotAnAc && acState == old(acState)
      ensures GetDevice(devices, target).Some? && devices[GetDevice(devices, target).value].category in AC_CATEGORIES ==>
        var id := devices[GetDevice(devices, target).value].id;
        var s := ApplyAcSettings(if id in old(acState) then old(acState)[id] else DEFAULT_AC, power, temperature, mode, fan);
        acState == old(acState)[id := s] && r == AcSent(IrSends(cloud, devices, id, s))
    {
      var found := GetDevice(devices, target);
      if found.None? {
        return AcNotFound;
      }
      var d := devices[found.value];
      if !(d.category in AC_CATEGORIES) {
        return NotAnAc;
      }
      // `_get_ac_state` creates the default entry, which the settings then overwrite.
      var current := if d.id in acState then acState[d.id] else DEFAULT_AC;
      DefaultAcInRange();
      AcSettingsInRange(current, power, temperature, mode, fan);
      var s := ApplyAcSettings(current, power, temperature, mode, fan);
      acState := acState[d.id := s];
      return AcSent(IrSends(cloud, devices, d.id, s));
    }

    /** `capture_scene(name)` with the current time as `created`: records the
        state of every device the cloud reports on, and stores the scene
        under `name` when at least one device was captured. */
    method CaptureScene(name: string, created: string) returns (r: CaptureOutcome)
      requires Valid()
      modifies this
      ensures Valid()
      ensures devices == old(devices) && acState == old(acState)
      ensures cloud.None? ==> r == NoCloud && scenes == old(scenes)
      ensures cloud.Some? && CapturedActions(devices, cloud.value) == [] ==> r == NothingCaptured && scenes == old(scenes)
      ensures cloud.Some? && CapturedActions(devices, cloud.value) != [] ==>
        var acts := CapturedActions(devices, cloud.value);
        r == Captured(|acts|) && scenes == PutScene(old(scenes), name, SceneData(Some(name), Some(acts), Some(created)))
    {
      if cloud.None? {
        return NoCloud;
      }
      var c := cloud.value;
      var captured: seq<SceneAction> := [];
      var i := 0;
      while i < |devices|
        invariant 0 <= i <= |devices|
        invariant captured == CapturedActions(devices[..i], c)
      {
        var d := devices[i];
        assert devices[..i + 1][..i] == devices[..i];
        var status := c.status(d.id);
        if status.Some? {
          var action := CaptureDevice(d, status.value);
          if action.Some? {
            captured := captured + [action.value];
          }
        }
        i := i + 1;
      }
      assert devices[..i] == devices;
      if captured == [] {
        return NothingCaptured;
      }
      scenes := PutScene(scenes, name, SceneData(Some(name), Some(captured), Some(created)));
      return Captured(|captured|);
    }

    /** One action of `activate_scene`: `turn_on`/`turn_off` by its device
        name, then, after a success, the stored brightness, which may raise. */
    method RunAction(item: SceneAction) returns (ok: bool, raised: bool)
      requires Valid()
      modifies this
      ensures Valid()
      ensures acState == old(acState) && scenes == old(scenes)
      ensures ActionStep(cloud)(old(devices), item) == (ok, raised, devices)
      ensures SwitchCodesOnly(old(devices), devices)
    {
      ok := false;
      if item.device.Some? {
        ok := SetPower(item.device.value, item.action == Some("on"));
      }
      raised := ok && item.brightness.Some? && BrightnessRaises(devices, item.device.value, item.brightness.value);
    }

    /** `activate_scene(name)`: each action of the scene `SceneActions`
        finds is switched on or off by device name; after a success the
        stored brightness is applied, and if that raises the device is also
        listed as failed. */
    method ActivateScene(name: string) returns (r: SceneRun)
      requires Valid()
      modifies this
      ensures Valid()
      ensures acState == old(acState) && scenes == old(scenes)
      ensures SceneActions(scenes, name).None? <==> r == SceneNotFound
      ensures r == SceneNotFound ==> devices == old(devices)
      ensures r.Ran? ==>
        var actions := SceneActions(scenes, name).value;
        && (r.success <==> r.affected != [])
        && |actions| <= |r.affected| + |r.failed| <= 2 * |actions|
        && (forall x :: x in r.affected ==> x in ActionDevices(actions))
        && (forall x :: x in r.failed ==> x in ActionDevices(actions))
        && (None in ActionDevices(actions) ==> None in r.failed)
      ensures r.Ran? ==>
        (r.affected, r.failed, devices) == SceneFrom(old(devices), ActionStep(cloud), SceneActions(scenes, name).value, 0)
      ensures SwitchCodesOnly(old(devices), devices)
    {
      var found := SceneActions(scenes, name);
      if found.None? {
        return SceneNotFound;
      }
      var actions := found.value;
      ghost var names := ActionDevices(actions);
      ghost var start := devices;
      var affected: seq<Option<string>> := [];
      var failed: seq<Option<string>> := [];
      var i := 0;
      assert SceneRest(start, devices, ActionStep(cloud), actions, i, affected, failed) == true by {
        var whole := SceneFrom(start, ActionStep(cloud), actions, 0);
        assert [] + whole.0 == whole.0 && [] + whole.1 == whole.1;
      }
      while i < |actions|
        invariant Valid()
        invariant acState == old(acState) && scenes == old(scenes)
        invariant SwitchCodesOnly(start, devices)
        invariant 0 <= i <= |actions|
        invariant SceneRest(start, devices, ActionStep(cloud), actions, i, affected, failed) == true
      {
        ghost var before := devices;
        var ok, raised := RunAction(actions[i]);
        SwitchCodesOnlyTrans(start, before, devices);
        SceneRestStep(start, before, ActionStep(cloud), actions, i, affected, failed, ok, raised, devices);
        affected := affected + (if ok then [actions[i].device] else []);
        failed := failed + (if !ok || raised then [actions[i].device] else []);
        i := i + 1;
        assert SceneRest(start, devices, ActionStep(cloud), actions, i, affected, failed) == true;
      }
      SceneFromNames(start, ActionStep(cloud), actions, 0);
      assert names[0..] == names;
      assert SceneFrom(devices, ActionStep(cloud), actions, i) == ([], [], devices);
      assert affected + [] == affected && failed + [] == failed;
      return Ran(|affected| > 0, affected, failed);
    }


    /** `delete_scene(name)`: removes the first scene whose name matches
        ignoring case. A match on the empty name is falsy in the source's
        test, so that scene is reported as not found and kept. */
    method DeleteScene(name: string) returns (ok: bool)
      requires Valid()
      modifies this
      ensures Valid()
      ensures devices == old(devices) && acState == old(acState)
      ensures ok <==> FindScene(old(scenes), name).Some? && old(scenes)[FindScene(old(scenes), name).value].0 != ""
      ensures ok ==> scenes == RemoveScene(old(scenes), FindScene(old(scenes), name).value)
      ensures !ok ==> scenes == old(scenes)
    {
      var found := FindScene(scenes, name);
      if found.None? || scenes[found.value].0 == "" {
        return false;
      }
      RemoveSceneKeepsOthers(scenes, found.value);
      scenes := RemoveScene(scenes, found.value);
      return true;
    }
  }
}
