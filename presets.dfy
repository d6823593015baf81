/** Preset selection (`async_set_preset_mode`) on the three values it touches. */
module Presets {
  import opened Types
  import opened ThermostatState

  /** The selected preset, the target temperature and the target saved for `none`. */
  datatype Setpoint = Setpoint(preset: Preset, target: Option<real>, saved: Option<real>)

  /** `Unsupported` is the ValueError for a preset outside the selectable list;
      `Unchanged` the early return when the preset is already selected. */
  datatype PresetOutcome = Unsupported | Unchanged | Selected(sp: Setpoint)

  function SetpointOf(s: State): Setpoint {
    Setpoint(s.preset, s.target, s.savedTarget)
  }

  /** A named preset: one of the six configurable ones. */
  predicate Named(cfg: Config, p: Preset) {
    p in cfg.presetModes && p != NoPreset && p != Activity
  }

  /** Selecting `none` restores the saved target; `activity` takes the no-motion
      preset's temperature; any other preset takes its own temperature and, when
      it is left from `none`, first saves the current target. */
  function SelectPreset(cfg: Config, sp: Setpoint, p: Preset): (o: PresetOutcome)
    requires ValidConfig(cfg)
    ensures o == Unsupported <==> p !in cfg.presetModes
    ensures o == Unchanged <==> p in cfg.presetModes && p == sp.preset
    ensures o.Selected? ==> o.sp.preset == p
    ensures o.Selected? && p == NoPreset ==> o.sp.target == sp.saved && o.sp.saved == sp.saved
    ensures o.Selected? && p == Activity ==>
              && cfg.noMotionMode.Some? && cfg.noMotionMode.value in cfg.presets
              && o.sp.target == Some(cfg.presets[cfg.noMotionMode.value]) && o.sp.saved == sp.saved
    ensures o.Selected? && p != NoPreset && p != Activity ==> p in cfg.presets && o.sp.target == Some(cfg.presets[p])
    ensures o.Selected? && p != NoPreset && p != Activity && sp.preset == NoPreset ==> o.sp.saved == sp.target
    ensures o.Selected? && p != NoPreset && p != Activity && sp.preset != NoPreset ==> o.sp.saved == sp.saved
  {
    if p !in cfg.presetModes then Unsupported
    else if p == sp.preset then Unchanged
    else if p == NoPreset then Selected(Setpoint(NoPreset, sp.saved, sp.saved))
    else if p == Activity then Selected(Setpoint(Activity, Some(cfg.presets[cfg.noMotionMode.value]), sp.saved))
    else
      var saved := if sp.preset == NoPreset then sp.target else sp.saved;
      Selected(Setpoint(p, Some(cfg.presets[p]), saved))
  }

  /** The setpoint after a request: rejected and repeated requests leave it as it is. */
  function Apply(cfg: Config, sp: Setpoint, p: Preset): Setpoint
    requires ValidConfig(cfg)
  {
    match SelectPreset(cfg, sp, p)
    case Selected(next) => next
    case _ => sp
  }

  /** A sequence of requests, one after the other. */
  function ApplyAll(cfg: Config, sp: Setpoint, ps: seq<Preset>): Setpoint
    requires ValidConfig(cfg)
    decreases |ps|
  {
    if ps == [] then sp else ApplyAll(cfg, Apply(cfg, sp, ps[0]), ps[1..])
  }

  /** A named preset sets its own temperature; leaving `none` for it saves the current target. */
  lemma NamedPresetSavesTarget(cfg: Config, sp: Setpoint, p: Preset)
    requires ValidConfig(cfg) && Named(cfg, p) && p != sp.preset
    ensures var o := SelectPreset(cfg, sp, p);
            && o.Selected? && o.sp.target == Some(cfg.presets[p])
            && o.sp.saved == (if sp.preset == NoPreset then sp.target else sp.saved)
  {
  }

  /** Leaving `none` for a named preset and selecting `none` again restores the target. */
  lemma NamedThenNoneRestores(cfg: Config, sp: Setpoint, p: Preset)
    requires ValidConfig(cfg) && sp.preset == NoPreset && Named(cfg, p)
    ensures ApplyAll(cfg, sp, [p, NoPreset]) == Setpoint(NoPreset, sp.target, sp.target)
  {
    var mid := Apply(cfg, sp, p);
    assert [p, NoPreset][1..] == [NoPreset];
    assert ApplyAll(cfg, sp, [p, NoPreset]) == ApplyAll(cfg, mid, [NoPreset]);
    assert ApplyAll(cfg, mid, [NoPreset]) == ApplyAll(cfg, Apply(cfg, mid, NoPreset), []);
  }

  /** Moving between named presets never overwrites the saved target. */
  lemma {:induction false} NamedChainKeepsSaved(cfg: Config, sp: Setpoint, ps: seq<Preset>)
    requires ValidConfig(cfg) && Named(cfg, sp.preset)
    requires forall i :: 0 <= i < |ps| ==> Named(cfg, ps[i])
    ensures Named(cfg, ApplyAll(cfg, sp, ps).preset)
    ensures ApplyAll(cfg, sp, ps).saved == sp.saved
    decreases |ps|
  {
    if ps != [] {
      NamedChainKeepsSaved(cfg, Apply(cfg, sp, ps[0]), ps[1..]);
    }
  }

  /** However many named presets are visited after leaving `none`, selecting
      `none` again restores the target that was set before. */
  lemma {:induction false} RoundTripThroughNamedPresets(cfg: Config, sp: Setpoint, ps: seq<Preset>)
    requires ValidConfig(cfg) && sp.preset == NoPreset
    requires |ps| > 0 && forall i :: 0 <= i < |ps| ==> Named(cfg, ps[i])
    ensures ApplyAll(cfg, sp, ps + [NoPreset]) == Setpoint(NoPreset, sp.target, sp.target)
  {
    var first := Apply(cfg, sp, ps[0]);
    NamedPresetSavesTarget(cfg, sp, ps[0]);
    NamedChainKeepsSaved(cfg, first, ps[1..]);
    var last := ApplyAll(cfg, first, ps[1..]);
    ApplyAllAppend(cfg, sp, ps, NoPreset);
    assert ApplyAll(cfg, sp, ps) == last;
  }

  lemma {:induction false} ApplyAllAppend(cfg: Config, sp: Setpoint, ps: seq<Preset>, p: Preset)
    requires ValidConfig(cfg)
    ensures ApplyAll(cfg, sp, ps + [p]) == Apply(cfg, ApplyAll(cfg, sp, ps), p)
    decreases |ps|
  {
    if ps == [] {
      assert [p][1..] == [];
    } else {
      assert (ps + [p])[1..] == ps[1..] + [p];
      ApplyAllAppend(cfg, Apply(cfg, sp, ps[0]), ps[1..], p);
    }
  }

  /** As written, `activity` does not save the target when it is left from `none`:
      selecting `none` afterwards restores the older saved value, not the target
      that was set before `activity`. */
  lemma ActivityDoesNotSave(cfg: Config, sp: Setpoint)
    requires ValidConfig(cfg) && cfg.supportMotion && sp.preset == NoPreset
    ensures ApplyAll(cfg, sp, [Activity, NoPreset]) == Setpoint(NoPreset, sp.saved, sp.saved)
  {
    var mid := Apply(cfg, sp, Activity);
    assert [Activity, NoPreset][1..] == [NoPreset];
    assert ApplyAll(cfg, sp, [Activity, NoPreset]) == ApplyAll(cfg, mid, [NoPreset]);
    assert ApplyAll(cfg, mid, [NoPreset]) == ApplyAll(cfg, Apply(cfg, mid, NoPreset), []);
  }
}
