/** The pointer handlers as functions from one scene to the next, with the ray casts
    of each event given as a `Hits` value, and the properties they have. */
module Gestures {
  import opened SceneState

  /** What the ray cast of one pointer event intersects: the master light switch,
      each lamp zone, the master cooling switch, each cooler zone, and the ceiling
      zones in the order the ray caster reports them (a zone may be reported twice). */
  datatype Hits = Hits(
    allLights: bool,
    lamps: seq<bool>,
    allCools: bool,
    cools: seq<bool>,
    ceiling: seq<nat>)

  /** One answer per lamp and per cooler; ceiling answers name existing zones. */
  predicate WellFormed(h: Hits)
  {
    |h.lamps| == LampCount &&
    |h.cools| == CoolCount &&
    forall k :: 0 <= k < |h.ceiling| ==> h.ceiling[k] < ZoneCount
  }

  /** Index of the first hit zone, or |hs| when none is hit: where the
      handler's scan over the lamps (or the coolers) stops. */
  function FirstHit(hs: seq<bool>): (r: nat)
    ensures r <= |hs|
    ensures r < |hs| ==> hs[r]
    ensures forall j :: 0 <= j < r ==> !hs[j]
  {
    if hs == [] then 0
    else if hs[0] then 0
    else 1 + FirstHit(hs[1..])
  }

  /** The branch a click takes. */
  datatype Branch =
    | AllLightsOff
    | LampToggle(lamp: nat)
    | AllCoolsOff
    | CoolerToggle(cooler: nat)
    | CeilingToggle

  /** Strict priority: master light switch, then the first lamp hit, then the master
      cooling switch, then the first cooler hit, and the ceiling zones last. */
  function Dispatch(h: Hits): (b: Branch)
    requires WellFormed(h)
    ensures b == AllLightsOff <==> h.allLights
    ensures b.LampToggle? <==> !h.allLights && exists i :: 0 <= i < LampCount && h.lamps[i]
    ensures b.LampToggle? ==>
              b.lamp < LampCount && h.lamps[b.lamp] && forall j :: 0 <= j < b.lamp ==> !h.lamps[j]
    ensures b == AllCoolsOff <==>
              !h.allLights && (forall i :: 0 <= i < LampCount ==> !h.lamps[i]) && h.allCools
    ensures b.CoolerToggle? <==>
              !h.allLights && (forall i :: 0 <= i < LampCount ==> !h.lamps[i]) && !h.allCools &&
              exists i :: 0 <= i < CoolCount && h.cools[i]
    ensures b.CoolerToggle? ==>
              b.cooler < CoolCount && h.cools[b.cooler] && forall j :: 0 <= j < b.cooler ==> !h.cools[j]
    ensures b == CeilingToggle <==>
              !h.allLights && (forall i :: 0 <= i < LampCount ==> !h.lamps[i]) && !h.allCools &&
              forall i :: 0 <= i < CoolCount ==> !h.cools[i]
  {
    if h.allLights then AllLightsOff
    else if FirstHit(h.lamps) < |h.lamps| then LampToggle(FirstHit(h.lamps))
    else if h.allCools then AllCoolsOff
    else if FirstHit(h.cools) < |h.cools| then CoolerToggle(FirstHit(h.cools))
    else CeilingToggle
  }

  // ---------------------------------------------------------------------------
  // The five click branches

  /** Master light switch: every ceiling zone to 0, every lamp proxy and the master transparent. */
  function LightsOff(s: Scene): (r: Scene)
    ensures r.allLightsTransparent && !LightOn(r.opacity, r.lampTransparent)
  {
    s.(opacity := seq(|s.opacity|, _ => 0.0),
       lampTransparent := seq(|s.lampTransparent|, _ => true),
       allLightsTransparent := true)
  }

  /** Lamp i: flip its proxy, then the master becomes transparent exactly when no light is on. */
  function ToggleLamp(s: Scene, i: nat): (r: Scene)
    requires i < |s.lampTransparent|
    ensures |r.lampTransparent| == |s.lampTransparent| && r.lampTransparent[i] != s.lampTransparent[i]
    ensures r.allLightsTransparent == !LightOn(r.opacity, r.lampTransparent)
  {
    var lamps := s.lampTransparent[i := !s.lampTransparent[i]];
    s.(lampTransparent := lamps, allLightsTransparent := !LightOn(s.opacity, lamps))
  }

  /** Master cooling switch: every snowflake, the master one included, idle and neutral. */
  function CoolsOff(s: Scene): (r: Scene)
    ensures !CoolOn(r.snowActive)
  {
    s.(snowActive := seq(|s.snowActive|, _ => false),
       snowColor := seq(|s.snowColor|, _ => Neutral))
  }

  /** Cooler i: flip its snowflake and tint it, then set the master snowflake to
      whether any cooler runs, tinted to match. */
  function ToggleCooler(s: Scene, i: nat): (r: Scene)
    requires Shaped(s) && i < CoolCount
    ensures Shaped(r) && r.snowActive[i] != s.snowActive[i]
    ensures r.snowActive[MasterSnowflake] == CoolOn(r.snowActive)
  {
    var active := s.snowActive[i := !s.snowActive[i]];
    var master := CoolOn(active);
    assert forall j :: 0 <= j < CoolCount ==> active[MasterSnowflake := master][j] == active[j];
    s.(snowActive := active[MasterSnowflake := master],
       snowColor := s.snowColor[i := Tint(active[i])][MasterSnowflake := Tint(master)])
  }

  /** Toggle the reported ceiling zones one after the other. */
  function ToggleZones(opacity: seq<real>, zones: seq<nat>): (r: seq<real>)
    requires forall k :: 0 <= k < |zones| ==> zones[k] < |opacity|
    ensures |r| == |opacity|
  {
    if zones == [] then opacity
    else
      var o := ToggleZones(opacity, zones[..|zones| - 1]);
      var z := zones[|zones| - 1];
      o[z := ToggleOpacity(o[z])]
  }

  /** Ceiling fallback: toggle the reported zones, then recompute the master light switch. */
  function ToggleCeiling(s: Scene, zones: seq<nat>): (r: Scene)
    requires forall k :: 0 <= k < |zones| ==> zones[k] < |s.opacity|
    ensures r.allLightsTransparent == !LightOn(r.opacity, r.lampTransparent)
  {
    var o := ToggleZones(s.opacity, zones);
    s.(opacity := o, allLightsTransparent := !LightOn(o, s.lampTransparent))
  }

  /** A click: the branch Dispatch picks. */
  function Click(s: Scene, h: Hits): (r: Scene)
    requires Shaped(s) && WellFormed(h)
    ensures Shaped(r)
    ensures r.pressed == s.pressed && r.moveCount == s.moveCount && r.outlineVisible == s.outlineVisible
  {
    match Dispatch(h)
    case AllLightsOff => LightsOff(s)
    case LampToggle(i) => ToggleLamp(s, i)
    case AllCoolsOff => CoolsOff(s)
    case CoolerToggle(i) => ToggleCooler(s, i)
    case CeilingToggle => ToggleCeiling(s, h.ceiling)
  }

  // ---------------------------------------------------------------------------
  // The three handlers

  function MouseDown(s: Scene): (r: Scene)
    ensures r.pressed && r.moveCount == 0
  {
    s.(pressed := true, moveCount := 0)
  }

  /** While pressed a move only counts; otherwise it is a hover that shows
      exactly the outlines of the lamps under the pointer. */
  function MouseMove(s: Scene, h: Hits): (r: Scene)
    requires WellFormed(h)
    ensures Shaped(s) ==> Shaped(r)
  {
    if s.pressed then s.(moveCount := s.moveCount + 1)
    else s.(outlineVisible := h.lamps)
  }

  /** Release: the gesture ends; it is a click unless more than one move was counted. */
  function MouseUp(s: Scene, h: Hits): (r: Scene)
    requires Shaped(s) && WellFormed(h)
    ensures !r.pressed && r.moveCount == s.moveCount
    ensures Shaped(r)
  {
    var released := s.(pressed := false);
    if s.moveCount > 1 then released else Click(released, h)
  }

  /** A run of move events. */
  function Moves(s: Scene, hs: seq<Hits>): (r: Scene)
    requires forall k :: 0 <= k < |hs| ==> WellFormed(hs[k])
    ensures Shaped(s) ==> Shaped(r)
    decreases |hs|
  {
    if hs == [] then s else Moves(MouseMove(s, hs[0]), hs[1..])
  }

  /** A run of clicks. */
  function Clicks(s: Scene, hs: seq<Hits>): (r: Scene)
    requires Shaped(s)
    requires forall k :: 0 <= k < |hs| ==> WellFormed(hs[k])
    ensures Shaped(r)
    decreases |hs|
  {
    if hs == [] then s else Clicks(Click(s, hs[0]), hs[1..])
  }

  /** How many of the clicks land on lamp i. */
  function LampClicks(hs: seq<Hits>, i: nat): nat
    requires forall k :: 0 <= k < |hs| ==> WellFormed(hs[k])
  {
    if hs == [] then 0
    else (if Dispatch(hs[0]) == LampToggle(i) then 1 else 0) + LampClicks(hs[1..], i)
  }

  // ---------------------------------------------------------------------------
  // Gesture classification

  /** Pressing starts a gesture with a zero move count and touches nothing else. */
  lemma MouseDownStartsGesture(s: Scene)
    ensures MouseDown(s).pressed && MouseDown(s).moveCount == 0
    ensures MouseDown(s).(pressed := s.pressed, moveCount := s.moveCount) == s
  {
  }

  /** While pressed, each move only adds one to the count. */
  lemma {:induction false} PressedMovesOnlyCount(s: Scene, hs: seq<Hits>)
    requires s.pressed
    requires forall k :: 0 <= k < |hs| ==> WellFormed(hs[k])
    ensures Moves(s, hs) == s.(moveCount := s.moveCount + |hs|)
    decreases |hs|
  {
    if hs != [] {
      PressedMovesOnlyCount(MouseMove(s, hs[0]), hs[1..]);
    }
  }

  /** Hovering (not pressed) sets each outline to exactly "lamp i is hit" and changes nothing else. */
  lemma HoverShowsHitLamps(s: Scene, h: Hits)
    requires Shaped(s) && WellFormed(h) && !s.pressed
    ensures var r := MouseMove(s, h);
      (forall i :: 0 <= i < LampCount ==> r.outlineVisible[i] == h.lamps[i]) &&
      r.(outlineVisible := s.outlineVisible) == s && Shaped(r)
  {
  }

  /** Release always ends the gesture and leaves the move count as it was. */
  lemma MouseUpReleases(s: Scene, h: Hits)
    requires Shaped(s) && WellFormed(h)
    ensures !MouseUp(s, h).pressed && MouseUp(s, h).moveCount == s.moveCount
  {
  }

  /** A release after more than one move is a drag: nothing but the pressed flag changes. */
  lemma DragTogglesNothing(s: Scene, h: Hits)
    requires Shaped(s) && WellFormed(h) && s.moveCount > 1
    ensures MouseUp(s, h) == s.(pressed := false)
  {
  }

  /** Down, then at most one move, then up: the gesture is a click. */
  lemma {:induction false} ShortGestureClicks(s: Scene, moves: seq<Hits>, h: Hits)
    requires Shaped(s) && WellFormed(h) && |moves| <= 1
    requires forall k :: 0 <= k < |moves| ==> WellFormed(moves[k])
    ensures MouseUp(Moves(MouseDown(s), moves), h) ==
            Click(s.(pressed := false, moveCount := |moves|), h)
  {
    PressedMovesOnlyCount(MouseDown(s), moves);
  }

  /** Down, then two or more moves, then up: no toggle state changes at all. */
  lemma {:induction false} LongGestureIsDrag(s: Scene, moves: seq<Hits>, h: Hits)
    requires Shaped(s) && WellFormed(h) && |moves| >= 2
    requires forall k :: 0 <= k < |moves| ==> WellFormed(moves[k])
    ensures MouseUp(Moves(MouseDown(s), moves), h) == s.(pressed := false, moveCount := |moves|)
  {
    PressedMovesOnlyCount(MouseDown(s), moves);
  }

  // ---------------------------------------------------------------------------
  // Master light switch

  /** A hard all-off: every zone at 0, every lamp and the master transparent; cooling untouched. */
  lemma LightsOffIsHardOff(s: Scene)
    requires Shaped(s)
    ensures var r := LightsOff(s);
      Shaped(r) &&
      (forall i :: 0 <= i < ZoneCount ==> r.opacity[i] == 0.0) &&
      (forall i :: 0 <= i < LampCount ==> r.lampTransparent[i]) &&
      r.allLightsTransparent && !LightOn(r.opacity, r.lampTransparent) &&
      r.snowActive == s.snowActive && r.snowColor == s.snowColor &&
      r.outlineVisible == s.outlineVisible
  {
  }

  /** The outcome does not depend on the lighting state before the click. */
  lemma LightsOffForgetsPast(s: Scene, t: Scene)
    requires Shaped(s) && Shaped(t)
    requires s.(opacity := t.opacity, lampTransparent := t.lampTransparent,
                allLightsTransparent := t.allLightsTransparent) == t
    ensures LightsOff(s) == LightsOff(t)
  {
  }

  /** Clicking the master light switch twice is the same as clicking it once. */
  lemma MasterLightIdempotent(s: Scene, h: Hits)
    requires Shaped(s) && WellFormed(h) && h.allLights
    ensures Click(Click(s, h), h) == Click(s, h)
  {
  }

  /** A master-light hit wins over whatever else the same ray hits. */
  lemma MasterLightTakesPrecedence(s: Scene, h: Hits, g: Hits)
    requires Shaped(s) && WellFormed(h) && WellFormed(g) && h.allLights && g.allLights
    ensures Click(s, h) == Click(s, g) == LightsOff(s)
  {
  }

  // ---------------------------------------------------------------------------
  // Lamps

  /** Only the lamp clicked flips; the master then says whether any light is on. */
  lemma ToggleLampEffect(s: Scene, i: nat)
    requires Shaped(s) && i < LampCount
    ensures var r := ToggleLamp(s, i);
      Shaped(r) &&
      r.lampTransparent[i] == !s.lampTransparent[i] &&
      (forall j :: 0 <= j < LampCount && j != i ==> r.lampTransparent[j] == s.lampTransparent[j]) &&
      r.allLightsTransparent == !LightOn(r.opacity, r.lampTransparent) &&
      r.opacity == s.opacity && r.snowActive == s.snowActive && r.snowColor == s.snowColor
  {
  }

  /** Clicking the same lamp twice restores a consistent scene. */
  lemma ToggleLampTwice(s: Scene, i: nat)
    requires Consistent(s) && i < LampCount
    ensures ToggleLamp(ToggleLamp(s, i), i) == s
  {
    var lamps := s.lampTransparent[i := !s.lampTransparent[i]];
    assert lamps[i := !lamps[i]] == s.lampTransparent;
  }

  /** Over any run of clicks that never hits the master light switch, lamp i is on
      exactly when it started on and was clicked an even number of times, or started
      off and was clicked an odd number of times. */
  lemma {:induction false} LampParity(s: Scene, hs: seq<Hits>, i: nat)
    requires Shaped(s) && i < LampCount
    requires forall k :: 0 <= k < |hs| ==> WellFormed(hs[k]) && !hs[k].allLights
    ensures Clicks(s, hs).lampTransparent[i] == (s.lampTransparent[i] == (LampClicks(hs, i) % 2 == 0))
    decreases |hs|
  {
    if hs != [] {
      var r := Click(s, hs[0]);
      assert r.lampTransparent[i] ==
             (s.lampTransparent[i] == (Dispatch(hs[0]) != LampToggle(i)));
      LampParity(r, hs[1..], i);
    }
  }

  // ---------------------------------------------------------------------------
  // Master cooling switch

  /** A hard all-off of the cooling: every snowflake idle and neutral; lighting untouched. */
  lemma CoolsOffIsHardOff(s: Scene)
    requires Shaped(s)
    ensures var r := CoolsOff(s);
      Shaped(r) &&
      (forall i :: 0 <= i <= CoolCount ==> !r.snowActive[i] && r.snowColor[i] == Neutral) &&
      !CoolOn(r.snowActive) &&
      r.opacity == s.opacity && r.lampTransparent == s.lampTransparent &&
      r.allLightsTransparent == s.allLightsTransparent && r.outlineVisible == s.outlineVisible
  {
  }

  /** Clicking the master cooling switch twice is the same as clicking it once. */
  lemma CoolsOffIdempotent(s: Scene)
    ensures CoolsOff(CoolsOff(s)) == CoolsOff(s)
  {
  }

  // ---------------------------------------------------------------------------
  // Individual coolers

  /** Cooler i flips and is tinted to match; the master snowflake becomes the OR of the
      coolers, tinted to match; the other coolers and all lighting are untouched. */
  lemma ToggleCoolerEffect(s: Scene, i: nat)
    requires Shaped(s) && i < CoolCount
    ensures var r := ToggleCooler(s, i);
      Shaped(r) &&
      r.snowActive[i] == !s.snowActive[i] && r.snowColor[i] == Tint(r.snowActive[i]) &&
      (r.snowActive[MasterSnowflake] <==> exists j :: 0 <= j < CoolCount && r.snowActive[j]) &&
      r.snowColor[MasterSnowflake] == Tint(r.snowActive[MasterSnowflake]) &&
      (forall j :: 0 <= j < CoolCount && j != i ==>
         r.snowActive[j] == s.snowActive[j] && r.snowColor[j] == s.snowColor[j]) &&
      r.opacity == s.opacity && r.lampTransparent == s.lampTransparent &&
      r.allLightsTransparent == s.allLightsTransparent
  {
    var r := ToggleCooler(s, i);
    var active := s.snowActive[i := !s.snowActive[i]];
    assert forall j :: 0 <= j < CoolCount ==> r.snowActive[j] == active[j];
  }

  // ---------------------------------------------------------------------------
  // Ceiling zones

  /** How many times zone z is reported. */
  function Reports(zones: seq<nat>, z: nat): nat
  {
    multiset(zones)[z]
  }

  /** Each zone ends toggled when reported an odd number of times and unchanged otherwise;
      zones stay at 0 or Lit. */
  lemma {:induction false} ToggleZonesParity(opacity: seq<real>, zones: seq<nat>, z: nat)
    requires TwoLevel(opacity) && z < |opacity|
    requires forall k :: 0 <= k < |zones| ==> zones[k] < |opacity|
    ensures TwoLevel(ToggleZones(opacity, zones))
    ensures ToggleZones(opacity, zones)[z] ==
            if Reports(zones, z) % 2 == 1 then ToggleOpacity(opacity[z]) else opacity[z]
  {
    if zones != [] {
      var front := zones[..|zones| - 1];
      var last := zones[|zones| - 1];
      assert zones == front + [last];
      ToggleZonesParity(opacity, front, z);
      ToggleZonesParity(opacity, front, last);
      ToggleOpacityTwice(opacity[z]);
    }
  }

  /** When the ray caster reports each zone at most once, exactly the reported zones toggle. */
  lemma ToggleZonesOnce(opacity: seq<real>, zones: seq<nat>, z: nat)
    requires TwoLevel(opacity) && z < |opacity|
    requires forall k :: 0 <= k < |zones| ==> zones[k] < |opacity|
    requires forall k, l :: 0 <= k < l < |zones| ==> zones[k] != zones[l]
    ensures ToggleZones(opacity, zones)[z] ==
            if z in zones then ToggleOpacity(opacity[z]) else opacity[z]
  {
    ToggleZonesParity(opacity, zones, z);
    DistinctReportedOnce(zones, z);
  }

  /** A zone reported by a list without repeats is reported once or not at all. */
  lemma {:induction false} DistinctReportedOnce(zones: seq<nat>, z: nat)
    requires forall k, l :: 0 <= k < l < |zones| ==> zones[k] != zones[l]
    ensures Reports(zones, z) == if z in zones then 1 else 0
  {
    if zones != [] {
      assert zones == [zones[0]] + zones[1..];
      DistinctReportedOnce(zones[1..], z);
    }
  }

  /** The ceiling fallback runs only when no switch, lamp or cooler is hit; it keeps the
      lamps and cooling as they were and recomputes the master light switch. */
  lemma CeilingFallback(s: Scene, h: Hits)
    requires Shaped(s) && WellFormed(h) && Dispatch(h) == CeilingToggle
    ensures !h.allLights && !h.allCools
    ensures forall i :: 0 <= i < LampCount ==> !h.lamps[i]
    ensures forall i :: 0 <= i < CoolCount ==> !h.cools[i]
    ensures var r := Click(s, h);
      r.opacity == ToggleZones(s.opacity, h.ceiling) &&
      r.allLightsTransparent == !LightOn(r.opacity, r.lampTransparent) &&
      r.lampTransparent == s.lampTransparent &&
      r.snowActive == s.snowActive && r.snowColor == s.snowColor
  {
  }

  /** On a consistent scene, a click that hits nothing at all changes nothing: the
      fallback toggles no zone and recomputes the master switch to the value it had. */
  lemma NoHitNoChange(s: Scene, h: Hits)
    requires Consistent(s) && WellFormed(h)
    requires !h.allLights && !h.allCools && h.ceiling == []
    requires forall i :: 0 <= i < LampCount ==> !h.lamps[i]
    requires forall i :: 0 <= i < CoolCount ==> !h.cools[i]
    ensures Click(s, h) == s
  {
  }

  // ---------------------------------------------------------------------------
  // The scene invariant

  /** Every click branch keeps both master switches equal to the OR of their subordinates. */
  lemma ClickKeepsConsistent(s: Scene, h: Hits)
    requires Consistent(s) && WellFormed(h)
    ensures Consistent(Click(s, h))
  {
    var r := Click(s, h);
    match Dispatch(h)
    case AllLightsOff =>
    case LampToggle(i) =>
    case AllCoolsOff =>
      assert !CoolOn(r.snowActive);
    case CoolerToggle(i) =>
      var active := s.snowActive[i := !s.snowActive[i]];
      assert CoolOn(r.snowActive) == CoolOn(active) by {
        assert forall j :: 0 <= j < CoolCount ==> r.snowActive[j] == active[j];
      }
    case CeilingToggle =>
      forall z | 0 <= z < ZoneCount
        ensures r.opacity[z] == 0.0 || r.opacity[z] == Lit
      {
        ToggleZonesParity(s.opacity, h.ceiling, z);
      }
  }

  lemma MouseDownKeepsConsistent(s: Scene)
    requires Consistent(s)
    ensures Consistent(MouseDown(s))
  {
  }

  lemma MouseMoveKeepsConsistent(s: Scene, h: Hits)
    requires Consistent(s) && WellFormed(h)
    ensures Consistent(MouseMove(s, h))
  {
  }

  lemma MouseUpKeepsConsistent(s: Scene, h: Hits)
    requires Consistent(s) && WellFormed(h)
    ensures Consistent(MouseUp(s, h))
  {
    if s.moveCount <= 1 {
      ClickKeepsConsistent(s.(pressed := false), h);
    }
  }

  // ---------------------------------------------------------------------------
  // Scenarios

  /** Clicking lamp 1 from the initial scene turns it and the master on; clicking it again
      returns to the initial scene. */
  lemma LampOneScenario(h: Hits)
    requires h == Hits(false, [false, true, false, false, false, false, false], false,
                       [false, false, false], [])
    ensures var once := Click(Initial(), h);
      !once.lampTransparent[1] && !once.allLightsTransparent &&
      Click(once, h) == Initial()
  {
    var s := Initial();
    assert FirstHit(h.lamps) == 1;
    assert !ToggleLamp(s, 1).lampTransparent[1];
    ToggleLampTwice(s, 1);
  }

  /** Clicking cooler 0 from the initial scene starts it and the master snowflake;
      then clicking the master cooling switch stops both. */
  lemma CoolerZeroScenario(h: Hits, g: Hits)
    requires h == Hits(false, seq(LampCount, _ => false), false, [true, false, false], [])
    requires g == Hits(false, seq(LampCount, _ => false), true, [false, false, false], [])
    ensures var once := Click(Initial(), h);
      once.snowActive[0] && once.snowColor[0] == ActiveTint &&
      once.snowActive[MasterSnowflake] && once.snowColor[MasterSnowflake] == ActiveTint &&
      var off := Click(once, g);
      !off.snowActive[0] && !off.snowActive[MasterSnowflake] &&
      off.snowColor[MasterSnowflake] == Neutral
  {
    assert FirstHit(h.cools) == 0;
    ToggleCoolerEffect(Initial(), 0);
  }
}
