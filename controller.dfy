/** The interaction controller: the pointer handlers as methods that update the
    scene's material flags in place, each proved to perform the transition that
    module Gestures defines. */
module App {
  import opened SceneState
  import Gestures

  class Controller {
    /** Pointer gesture state. */
    var mousePressed: bool
    var mouseMoveCount: int

    /** `opacity[i]` of ceiling zone i: 0 is off, Lit is on. */
    const opacity: array<real>
    /** `transparent` of lamp i's light proxy: true is off. */
    const lampTransparent: array<bool>
    /** `visible` of lamp i's hover outline. */
    const outlineVisible: array<bool>
    /** `transparent` of the master light switch. */
    var allLightsTransparent: bool
    /** `active` and colour of each snowflake; the last one is the master cooling snowflake. */
    const snowActive: array<bool>
    const snowColor: array<int>

    /** Every zone list has its fixed length and every snowflake has loaded. */
    ghost predicate Valid()
      reads this
    {
      opacity.Length == ZoneCount &&
      lampTransparent.Length == LampCount &&
      outlineVisible.Length == LampCount &&
      snowActive.Length == CoolCount + 1 &&
      snowColor.Length == CoolCount + 1 &&
      lampTransparent != outlineVisible &&
      lampTransparent != snowActive &&
      outlineVisible != snowActive
    }

    /** The scene these fields hold. */
    ghost function State(): (s: Scene)
      requires Valid()
      reads this, opacity, lampTransparent, outlineVisible, snowActive, snowColor
      ensures Shaped(s)
    {
      Scene(mousePressed, mouseMoveCount, opacity[..], lampTransparent[..], outlineVisible[..],
            allLightsTransparent, snowActive[..], snowColor[..])
    }

    /** The controller once the scene is built and every snowflake has loaded. */
    constructor ()
      ensures Valid() && State() == Initial()
      ensures fresh(opacity) && fresh(lampTransparent) && fresh(outlineVisible)
      ensures fresh(snowActive) && fresh(snowColor)
    {
      mousePressed := false;
      mouseMoveCount := 0;
      opacity := new real[ZoneCount](_ => 0.0);
      lampTransparent := new bool[LampCount](_ => true);
      outlineVisible := new bool[LampCount](_ => false);
      allLightsTransparent := true;
      snowActive := new bool[CoolCount + 1](_ => false);
      snowColor := new int[CoolCount + 1](_ => Neutral);
      new;
      assert opacity[..] == Initial().opacity;
      assert lampTransparent[..] == Initial().lampTransparent;
      assert outlineVisible[..] == Initial().outlineVisible;
      assert snowActive[..] == Initial().snowActive;
      assert snowColor[..] == Initial().snowColor;
    }

    /** Scan the ceiling zones, then the lamp proxies, for a light that is on. */
    method AnyLight() returns (on: bool)
      ensures on == LightOn(opacity[..], lampTransparent[..])
    {
      for i := 0 to opacity.Length
        invariant forall j :: 0 <= j < i ==> opacity[j] == 0.0
      {
        if opacity[i] != 0.0 {
          return true;
        }
      }
      for i := 0 to lampTransparent.Length
        invariant forall j :: 0 <= j < i ==> lampTransparent[j]
      {
        if !lampTransparent[i] {
          return true;
        }
      }
      return false;
    }

    /** Scan the snowflakes of the individual coolers for one that is active. */
    method AnyCooler() returns (on: bool)
      requires Valid()
      ensures on == CoolOn(snowActive[..])
    {
      for i := 0 to CoolCount
        invariant forall j :: 0 <= j < i ==> !snowActive[j]
      {
        if snowActive[i] {
          return true;
        }
      }
      return false;
    }

    method MouseDown()
      requires Valid()
      modifies this
      ensures Valid() && State() == Gestures.MouseDown(old(State()))
      ensures Consistent(old(State())) ==> Consistent(State())
    {
      if Consistent(State()) {
        Gestures.MouseDownKeepsConsistent(State());
      }
      mousePressed := true;
      mouseMoveCount := 0;
    }

    /** A move counts while pressed; otherwise each lamp's outline shows whether the ray hits it. */
    method MouseMove(h: Gestures.Hits)
      requires Valid() && Gestures.WellFormed(h)
      modifies this, outlineVisible
      ensures Valid() && State() == Gestures.MouseMove(old(State()), h)
      ensures Consistent(old(State())) ==> Consistent(State())
    {
      if Consistent(State()) {
        Gestures.MouseMoveKeepsConsistent(State(), h);
      }
      if mousePressed {
        mouseMoveCount := mouseMoveCount + 1;
      } else {
        for i := 0 to LampCount
          modifies outlineVisible
          invariant forall j :: 0 <= j < i ==> outlineVisible[j] == h.lamps[j]
        {
          outlineVisible[i] := h.lamps[i];
        }
        assert outlineVisible[..] == h.lamps;
      }
    }

    /** Master light switch: every ceiling zone to 0, every lamp proxy and the master transparent. */
    method SwitchLightsOff()
      requires Valid()
      modifies this, opacity, lampTransparent
      ensures Valid() && State() == Gestures.LightsOff(old(State()))
    {
      for i := 0 to opacity.Length
        modifies opacity
        invariant forall j :: 0 <= j < i ==> opacity[j] == 0.0
      {
        opacity[i] := 0.0;
      }
      for i := 0 to lampTransparent.Length
        modifies lampTransparent
        invariant forall j :: 0 <= j < i ==> lampTransparent[j]
      {
        lampTransparent[i] := true;
      }
      allLightsTransparent := true;
      assert opacity[..] == Gestures.LightsOff(old(State())).opacity;
      assert lampTransparent[..] == Gestures.LightsOff(old(State())).lampTransparent;
    }

    /** Lamp i: flip its light proxy, then recompute the master light switch. */
    method SwitchLamp(i: nat)
      requires Valid() && i < LampCount
      modifies this, lampTransparent
      ensures Valid() && State() == Gestures.ToggleLamp(old(State()), i)
    {
      lampTransparent[i] := !lampTransparent[i];
      var on := AnyLight();
      allLightsTransparent := !on;
    }

    /** Master cooling switch: every snowflake, the master one included, idle and neutral. */
    method SwitchCoolsOff()
      requires Valid()
      modifies snowActive, snowColor
      ensures Valid() && State() == Gestures.CoolsOff(old(State()))
    {
      for k := 0 to snowActive.Length
        invariant forall j :: 0 <= j < k ==> !snowActive[j] && snowColor[j] == Neutral
      {
        snowActive[k] := false;
        snowColor[k] := Neutral;
      }
      assert snowActive[..] == Gestures.CoolsOff(old(State())).snowActive;
      assert snowColor[..] == Gestures.CoolsOff(old(State())).snowColor;
    }

    /** Cooler i: flip its snowflake and tint it, then recompute the master snowflake. */
    method SwitchCooler(i: nat)
      requires Valid() && i < CoolCount
      modifies snowActive, snowColor
      ensures Valid() && State() == Gestures.ToggleCooler(old(State()), i)
    {
      snowActive[i] := !snowActive[i];
      snowColor[i] := Tint(snowActive[i]);
      var any := AnyCooler();
      snowActive[MasterSnowflake] := any;
      snowColor[MasterSnowflake] := Tint(any);
    }

    /** Ceiling fallback: toggle each zone the ray reports, then recompute the master light switch. */
    method SwitchCeiling(zones: seq<nat>)
      requires Valid()
      requires forall k :: 0 <= k < |zones| ==> zones[k] < ZoneCount
      modifies this, opacity
      ensures Valid() && State() == Gestures.ToggleCeiling(old(State()), zones)
    {
      for k := 0 to |zones|
        modifies opacity
        invariant opacity[..] == Gestures.ToggleZones(old(opacity[..]), zones[..k])
      {
        var z := zones[k];
        assert zones[..k + 1][..k] == zones[..k];
        opacity[z] := if opacity[z] == 0.0 then Lit else 0.0;
      }
      assert zones[..|zones|] == zones;
      var on := AnyLight();
      allLightsTransparent := !on;
    }

    /** Release: end the gesture and, unless it was a drag, apply the first branch
        whose zone the ray hits. The scene invariant is kept. */
    method MouseUp(h: Gestures.Hits)
      requires Valid() && Gestures.WellFormed(h)
      modifies this, opacity, lampTransparent, snowActive, snowColor
      ensures Valid() && State() == Gestures.MouseUp(old(State()), h)
      ensures Consistent(old(State())) ==> Consistent(State())
    {
      if Consistent(State()) {
        Gestures.MouseUpKeepsConsistent(State(), h);
      }
      mousePressed := false;
      if mouseMoveCount > 1 {
        return;
      }
      if h.allLights {
        SwitchLightsOff();
        return;
      }
      ghost var released := State();
      var i := 0;
      while i < LampCount
        invariant 0 <= i <= LampCount
        invariant forall j :: 0 <= j < i ==> !h.lamps[j]
        invariant State() == released
      {
        if h.lamps[i] {
          assert Gestures.Dispatch(h) == Gestures.LampToggle(i);
          SwitchLamp(i);
          return;
        }
        i := i + 1;
      }
      if h.allCools {
        SwitchCoolsOff();
        return;
      }
      i := 0;
      while i < CoolCount
        invariant 0 <= i <= CoolCount
        invariant forall j :: 0 <= j < i ==> !h.cools[j]
        invariant State() == released
      {
        if h.cools[i] {
          assert Gestures.Dispatch(h) == Gestures.CoolerToggle(i);
          SwitchCooler(i);
          return;
        }
        i := i + 1;
      }
      SwitchCeiling(h.ceiling);
    }
  }
}
