/** The toggle state of the floor-plan viewer: ceiling light zones, lamp light
    proxies with their hover outlines, the master light switch, and the snowflakes
    that show which air-conditioning units are running. */
module SceneState {

  /** Seven ceiling zones (kitchen, hall, toilet, bathroom, nursery, bedroom, living room). */
  const ZoneCount: nat := 7
  /** Seven lamps; each has a hot zone, a light proxy and a hover outline. */
  const LampCount: nat := 7
  /** Three individual coolers; the master cooling snowflake sits after them. */
  const CoolCount: nat := 3
  /** Index of the master cooling snowflake in the snowflake list. */
  const MasterSnowflake: nat := CoolCount

  /** Opacity of a ceiling zone that is switched on (off is 0). */
  const Lit: real := 0.25
  /** Snowflake colour of an idle cooler. */
  const Neutral: int := 0xf0f0f0
  /** Snowflake colour of a running cooler. */
  const ActiveTint: int := 0x5050ff

  /** Colour a snowflake is given for its `active` flag. */
  function Tint(active: bool): (c: int)
    ensures c == Neutral <==> !active
    ensures c == ActiveTint <==> active
  {
    if active then ActiveTint else Neutral
  }

  /** Opacity toggle of a ceiling zone: 0 becomes Lit, anything else becomes 0. */
  function ToggleOpacity(o: real): (r: real)
    ensures r == 0.0 <==> o != 0.0
    ensures r == 0.0 || r == Lit
  {
    if o == 0.0 then Lit else 0.0
  }

  /** On the two levels a zone can be at, toggling twice restores the zone. */
  lemma ToggleOpacityTwice(o: real)
    requires o == 0.0 || o == Lit
    ensures ToggleOpacity(ToggleOpacity(o)) == o
  {
  }

  /** Everything the pointer handlers read or write.
      `lampTransparent[i]` is true when lamp i is off; `allLightsTransparent` is the
      master light switch, transparent when every light is off. */
  datatype Scene = Scene(
    pressed: bool,
    moveCount: int,
    opacity: seq<real>,
    lampTransparent: seq<bool>,
    outlineVisible: seq<bool>,
    allLightsTransparent: bool,
    snowActive: seq<bool>,
    snowColor: seq<int>)

  /** Every zone list has its fixed length; there is one snowflake per cooler plus the master one. */
  predicate Shaped(s: Scene)
  {
    |s.opacity| == ZoneCount &&
    |s.lampTransparent| == LampCount &&
    |s.outlineVisible| == LampCount &&
    |s.snowActive| == CoolCount + 1 &&
    |s.snowColor| == CoolCount + 1
  }

  /** Some light is on: a ceiling zone with non-zero opacity or an opaque lamp proxy. */
  predicate LightOn(opacity: seq<real>, lampTransparent: seq<bool>)
  {
    (exists i :: 0 <= i < |opacity| && opacity[i] != 0.0) ||
    (exists i :: 0 <= i < |lampTransparent| && !lampTransparent[i])
  }

  /** Some individual cooler (not the master snowflake) is running. */
  predicate CoolOn(snowActive: seq<bool>)
  {
    exists i :: 0 <= i < CoolCount && i < |snowActive| && snowActive[i]
  }

  /** Each ceiling zone is either off (0) or on (Lit). */
  predicate TwoLevel(opacity: seq<real>)
  {
    forall i :: 0 <= i < |opacity| ==> opacity[i] == 0.0 || opacity[i] == Lit
  }

  /** The scene invariant: both master switches reflect the OR of their subordinates,
      every snowflake is tinted for its flag, and every ceiling zone is off or Lit. */
  predicate Consistent(s: Scene)
  {
    Shaped(s) &&
    TwoLevel(s.opacity) &&
    s.allLightsTransparent == !LightOn(s.opacity, s.lampTransparent) &&
    s.snowActive[MasterSnowflake] == CoolOn(s.snowActive) &&
    forall i :: 0 <= i < |s.snowColor| ==> s.snowColor[i] == Tint(s.snowActive[i])
  }

  /** The start-up scene: nothing pressed, everything off, outlines hidden, every
      snowflake idle and neutral. It is the scene the handlers see once every snowflake
      has loaded, provided no click arrived while loading was still under way. */
  function Initial(): (s: Scene)
    ensures Consistent(s)
    ensures !s.pressed && s.moveCount == 0
    ensures forall i :: 0 <= i < ZoneCount ==> s.opacity[i] == 0.0
    ensures s.allLightsTransparent
    ensures forall i :: 0 <= i < LampCount ==> s.lampTransparent[i] && !s.outlineVisible[i]
    ensures forall i :: 0 <= i < CoolCount + 1 ==> !s.snowActive[i] && s.snowColor[i] == Neutral
  {
    Scene(false, 0, seq(ZoneCount, _ => 0.0), seq(LampCount, _ => true), seq(LampCount, _ => false),
          true, seq(CoolCount + 1, _ => false), seq(CoolCount + 1, _ => Neutral))
  }
}
