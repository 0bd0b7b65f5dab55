# SmartHouse 3D survey: pointer interaction and toggle state

The viewer shows an apartment floor plan with clickable hot zones. The part
modelled here is the interaction controller in `scripts/app.js`: the
`mousedown`, `mousemove` and `mouseup` handlers and the `anyLight` and `anyCooler`
scans. The controller state is:

- the gesture state `mousePressed` and `mouseMoveCount`;
- the opacity of the 7 ceiling light zones, which is 0 (off) or 0.25 (on);
- the `transparent` flag of the 7 lamp light proxies, where true means off;
- the `visible` flag of the 7 hover outlines;
- the `transparent` flag of the master light switch `all_lights`;
- the `active` flag and colour of the snowflakes. Snowflakes 0..2 belong to the
  three coolers. Snowflake 3 (`snowflakes[cools.length]`) is the master cooling
  snowflake. Its colours are `0xf0f0f0` (idle) and `0x5050ff` (running).

Ray casting belongs to the rendering engine, so each event arrives as a `Hits`
value. That value says whether the ray hits the master light switch, each lamp,
the master cooling switch and each cooler. It also lists the ceiling zones that
`intersectObjects` reports, in order.

The model has three modules:

- `SceneState` (`state.dfy`): the constants, the `Scene` value, the reference
  predicates `LightOn` and `CoolOn`, and the scene invariant `Consistent`.
  `Consistent` says that the master light switch is transparent exactly when no
  light is on. It says that the master snowflake is active exactly when some
  cooler is active. It also says that every snowflake has the colour of its flag
  and that every zone is at 0 or 0.25.
- `Gestures` (`gestures.dfy`): each handler and each click branch as a function
  from one scene to the next. The lemmas prove the gesture classification, the
  priority order, the hard all-off resets, the lamp parity property, the ceiling
  toggles, and that every handler keeps `Consistent`.
- `App` (`controller.dfy`): the class `Controller`. It keeps the zone flags in
  arrays and updates them in place, as the handlers do. Each method is proved to
  leave the state that the corresponding `Gestures` function gives.
  `AnyLight` and `AnyCooler` are the early-return scans. They are proved equal
  to `LightOn` and `CoolOn`.

A click that hits nothing still runs the ceiling fallback
(scripts/app.js:358-363) and recomputes `all_lights.transparent = !anyLight()`.
On a Consistent scene this changes nothing (`NoHitNoChange`); from an
inconsistent one it can repair the master switch. `Gestures.ToggleCeiling`
models it that way.

## Model

| member | source | states |
|---|---|---|
| SceneState.Tint | scripts/app.js:344 | a snowflake is coloured 0x5050ff exactly when active and 0xf0f0f0 exactly when idle |
| SceneState.ToggleOpacity | scripts/app.js:361 | a ceiling zone at 0 goes to 0.25 and any other opacity goes to 0; the result is always one of the two levels |
| SceneState.ToggleOpacityTwice | scripts/app.js:361 | on the two levels 0 and 0.25, toggling a zone twice restores it |
| SceneState.Initial | scripts/app.js:102-277 | at start-up every zone is at 0, every lamp proxy and the master switch are transparent, every outline is hidden, every snowflake is idle and neutral, nothing is pressed, and the scene is Consistent (this is the scene after loading only when no click arrived while snowflakes were still loading) |
| SceneState.LightOn | scripts/app.js:218-228 | the reference for `anyLight`: some ceiling zone has non-zero opacity or some lamp proxy is opaque; App.Controller.AnyLight is proved equal to it |
| SceneState.CoolOn | scripts/app.js:266-273 | the reference for `anyCooler`: one of the snowflakes 0..2 is active; App.Controller.AnyCooler is proved equal to it |
| Gestures.MouseDown | scripts/app.js:279-283 | `mousedown`: pressed becomes true and the move count 0; MouseDownStartsGesture proves nothing else changes |
| Gestures.MouseMove | scripts/app.js:285-297 | `mousemove`: count while pressed, otherwise set every outline from the lamp hits; the scene keeps its shape; PressedMovesOnlyCount and HoverShowsHitLamps state the two cases |
| Gestures.MouseUp | scripts/app.js:299-364 | `mouseup`: pressed is cleared and the move count kept; after more than one move nothing else changes, otherwise the click dispatched by Dispatch is applied; see MouseUpReleases, DragTogglesNothing, ShortGestureClicks, LongGestureIsDrag |
| Gestures.LightsOff | scripts/app.js:309-311 | the master-light branch: afterwards no light is on and the master is transparent; LightsOffIsHardOff, LightsOffForgetsPast and MasterLightIdempotent state the rest |
| Gestures.ToggleLamp | scripts/app.js:318-319 | the lamp branch: lamp i flips and the master is transparent exactly when no light is on; ToggleLampEffect, ToggleLampTwice and LampParity state the rest |
| Gestures.CoolsOff | scripts/app.js:326-334 | the master-cooling branch: afterwards no cooler is active; CoolsOffIsHardOff and CoolsOffIdempotent state the rest |
| Gestures.ToggleCooler | scripts/app.js:340-353 | the cooler branch: cooler i flips and the master snowflake is the OR of the coolers; ToggleCoolerEffect states the tints and what stays unchanged |
| Gestures.ToggleZones | scripts/app.js:359-362 | the zones the ray reports toggled in order, one zone per report; ToggleZonesParity and ToggleZonesOnce state which zones end toggled |
| Gestures.ToggleCeiling | scripts/app.js:359-363 | the ceiling branch: the reported zones toggle, then the master is transparent exactly when no light is on; CeilingFallback and NoHitNoChange state the rest |
| Gestures.NoHitNoChange | scripts/app.js:358-363 | on a consistent scene, a click that hits no switch, lamp, cooler or ceiling zone leaves the scene unchanged |
| Gestures.FirstHit | scripts/app.js:316-321 | the scan stops at the lowest-index hit zone, or at the end when none is hit |
| Gestures.Dispatch | scripts/app.js:305-363 | a click takes exactly one branch, in strict priority: the master light switch, then the first lamp hit, then the master cooling switch, then the first cooler hit, then the ceiling zones; each branch is characterised in both directions by the hits |
| Gestures.Click | scripts/app.js:305-363 | a click changes neither the gesture state nor the hover outlines, and the scene keeps its shape |
| Gestures.MouseDownStartsGesture | scripts/app.js:279-283 | pressing sets pressed to true and the move count to 0 and changes nothing else |
| Gestures.PressedMovesOnlyCount | scripts/app.js:285-289 | while pressed, any run of n moves only adds n to the move count |
| Gestures.HoverShowsHitLamps | scripts/app.js:290-296 | a move while not pressed sets each outline i to exactly "lamp i is hit" and changes nothing else |
| Gestures.MouseUpReleases | scripts/app.js:299-302 | release always clears pressed and leaves the move count as it was |
| Gestures.DragTogglesNothing | scripts/app.js:302-304 | after more than one move, release changes nothing but the pressed flag |
| Gestures.ShortGestureClicks | scripts/app.js:279-304 | down, at most one move, then up is a click on the scene as it was |
| Gestures.LongGestureIsDrag | scripts/app.js:279-304 | down, two or more moves, then up changes no toggle, outline or flag |
| Gestures.LightsOffIsHardOff | scripts/app.js:308-313 | the master light switch puts every zone at 0 and makes every lamp and the master transparent, leaving cooling and outlines unchanged |
| Gestures.LightsOffForgetsPast | scripts/app.js:308-313 | the outcome of the master light switch does not depend on the lighting state before it |
| Gestures.MasterLightIdempotent | scripts/app.js:308-313 | clicking the master light switch twice equals clicking it once |
| Gestures.MasterLightTakesPrecedence | scripts/app.js:305-313 | when the master light switch is hit, nothing else the ray hits matters |
| Gestures.ToggleLampEffect | scripts/app.js:316-321 | a lamp click flips only that lamp's proxy, sets the master to transparent exactly when no light is on, and leaves zones and snowflakes unchanged |
| Gestures.ToggleLampTwice | scripts/app.js:316-321 | on a consistent scene, clicking the same lamp twice restores the scene |
| Gestures.LampParity | scripts/app.js:316-321 | over any run of clicks that never hits the master light switch, lamp i ends on exactly when the number of clicks on it and its starting state agree in parity |
| Gestures.CoolsOffIsHardOff | scripts/app.js:325-336 | the master cooling switch makes every snowflake, the master one included, idle and neutral, and leaves all lighting unchanged |
| Gestures.CoolsOffIdempotent | scripts/app.js:325-336 | clicking the master cooling switch twice equals clicking it once |
| Gestures.ToggleCoolerEffect | scripts/app.js:338-356 | a cooler click flips that cooler and tints it to match; the master snowflake becomes the OR of the three coolers, tinted to match; the other coolers and all lighting are unchanged |
| Gestures.ToggleZonesParity | scripts/app.js:359-362 | each ceiling zone ends toggled when the ray reports it an odd number of times and unchanged otherwise, and every zone stays at 0 or 0.25 |
| Gestures.ToggleZonesOnce | scripts/app.js:359-362 | when each zone is reported at most once, exactly the reported zones toggle |
| Gestures.CeilingFallback | scripts/app.js:358-363 | the ceiling branch runs only when no switch, lamp or cooler is hit; it toggles the reported zones, recomputes the master light switch, and leaves lamps and snowflakes unchanged |
| Gestures.ClickKeepsConsistent | scripts/app.js:305-363 | every click branch keeps both masters equal to the OR of their subordinates, the colours matching the flags, and the zones at 0 or 0.25 |
| Gestures.MouseDownKeepsConsistent | scripts/app.js:279-283 | pressing keeps the scene invariant |
| Gestures.MouseMoveKeepsConsistent | scripts/app.js:285-297 | moving keeps the scene invariant |
| Gestures.MouseUpKeepsConsistent | scripts/app.js:299-364 | releasing keeps the scene invariant |
| Gestures.LampOneScenario | scripts/app.js:316-321 | from start-up, clicking lamp 1 turns it and the master on; clicking it again returns to the start-up scene |
| Gestures.CoolerZeroScenario | scripts/app.js:325-356 | from start-up, clicking cooler 0 starts it and the master snowflake (both tinted); clicking the master cooling switch then stops both |
| App.Controller.constructor | scripts/app.js:102-277 | the controller starts in the Initial scene |
| App.Controller.AnyLight | scripts/app.js:218-228 | the scan answers true exactly when some ceiling zone has non-zero opacity or some lamp proxy is opaque |
| App.Controller.AnyCooler | scripts/app.js:266-273 | the scan answers true exactly when one of the snowflakes 0..2 is active; the master snowflake is not read |
| App.Controller.MouseDown | scripts/app.js:279-283 | the new state is Gestures.MouseDown of the old one, and a consistent scene stays consistent |
| App.Controller.MouseMove | scripts/app.js:285-297 | the new state is Gestures.MouseMove of the old one: count while pressed, otherwise set the outlines from the lamp hits; a consistent scene stays consistent |
| App.Controller.SwitchLightsOff | scripts/app.js:308-312 | the loops over the zones and lamp proxies leave the LightsOff scene |
| App.Controller.SwitchLamp | scripts/app.js:318-319 | flipping a lamp and recomputing the master leaves the ToggleLamp scene |
| App.Controller.SwitchCoolsOff | scripts/app.js:326-334 | the loop over every snowflake leaves the CoolsOff scene |
| App.Controller.SwitchCooler | scripts/app.js:340-353 | flipping a snowflake, tinting it and recomputing the master snowflake leaves the ToggleCooler scene |
| App.Controller.SwitchCeiling | scripts/app.js:359-363 | toggling each reported zone in order and recomputing the master leaves the ToggleCeiling scene |
| App.Controller.MouseUp | scripts/app.js:299-364 | the new state is Gestures.MouseUp of the old one, and a consistent scene stays consistent |

## Left out

- Ray casting (`getRayCaster`, `intersectObject`, `intersectObjects`): this is a rendering-engine primitive, so its answers are the `Hits` input of each event.
- `event.preventDefault()`: this suppresses the browser's default handling and touches no controller state.
- App.Controller.SwitchCooler: assumes each snowflake has exactly one Mesh child. The source flips `sf.active` and recomputes the master once per Mesh child inside `traverse`. With k children the flag would flip k times, and with none it would not change. The loaded snowflake model is taken to be a single mesh.
- App.Controller.SwitchCoolsOff: assumes one Mesh child per snowflake. With no Mesh child, the source would leave `sf.active` unchanged.
- Snowflake load order: the source pushes snowflakes in the order their loads complete, so `snowflakes[i]` need not be the one drawn over cooler i. The model indexes snowflakes by array position, as the handlers do. It does not model which position each one is drawn at.
- Missing snowflakes: `Controller.Valid` requires that all four snowflakes have loaded. Before that, only the cooler branch of `mouseup` fails: `sf.traverse` at scripts/app.js:341 throws when cooler i's snowflake is missing, and `asf.traverse` at scripts/app.js:346 throws when the master snowflake is missing. The light, lamp, master-cooling and ceiling branches run normally while loading is under way; those events are not modelled.
- Clicks during loading: `Initial` (and `Controller.constructor`) is the start-up scene, which is what the handlers see once loading ends only if no click arrived before every snowflake had loaded. The source has a race here: with snowflakes 0..2 loaded and the master not yet, a click on cooler i flips and tints snowflake i (scripts/app.js:343-344) and then throws at scripts/app.js:346; the master snowflake later arrives idle (scripts/app.js:239), so the source then holds cooler i active with the master idle and the cooling invariant of `Consistent` broken. Lamp and ceiling clicks before loading ends likewise leave lights on in the first fully loaded scene. The model does not capture these states.
- Zone and effect geometry builders, `frameArea`, OrbitControls limits, material and mesh loading, scene lighting, renderer resizing and the render loop: these are three.js construction, floating-point camera maths and display plumbing, with no controller state.
- Colours of Mesh children: each snowflake has one colour, the colour of its single Mesh child.
- Number width: `mouseMoveCount` is an unbounded integer. A JavaScript number keeps exact integers up to 2^53, far beyond any gesture. Opacities are exact reals; 0.25 is exactly representable in a double.
