# Portfolio canvas effects, modelled in Dafny

This project models the per-frame state of the three canvas effects of a
personal portfolio site. It proves what their code promises about that state.

- **Neural loader** (`NeuralLoader`, loader.js). A fully connected
  [18, 15, 10, 5] network reveals the visitor's name one letter per "cycle":
  - input activations are drawn at random;
  - pulses travel along the strongest edges, then to two random output nodes;
  - an arrival at the output layer appends the next letter.
  
  Once the name is complete and the pulses have drained, the loader fades out.
- **Page scripts** (loader.js): the hero-subtitle typewriter, the mobile
  navbar that hides on scroll, and the theme toggle.
- **Starfield** (`SpaceBackground`, space-background.js): a pool of 300
  twinkling stars and shooting stars that spawn at an edge, fade, and are
  dropped.
- **Floating characters** (`FloatingCharacters`,
  src/floating-characters.js): one glyph per 80-pixel cell, re-rolled on a
  per-glyph frame counter.

Each class keeps the fields the source mutates. Loops that rebuild or filter
a list are `while` loops, each proved to compute a specification function.
The lemmas state the promised properties of those functions.

`Math.random()` is a stream `rand: nat -> real` of draws in [0, 1)
(`Draws.Uniform`). Each operation consumes its draws in the source's
evaluation order.

Timer callbacks become explicit methods:
- `setTimeout(() => this.propagateLayer(l), 30)` becomes a queue of pending
  layers, drained by `FirePropagationTimer`;
- the 300 ms fade timer becomes a counter, drained by `FireFadeTimer`.

A resize builds new node objects, but pulses already in flight still point
at the old ones. The model tracks this with a `generation` number on each
pulse: an arrival changes an activation only when its generation is current.
The letter reveal still happens for stale pulses, because it reads only the
layer index.

Where the code and its comments disagree, the model follows the code:
- the input layer keeps the **two** strongest edges (`slice(0, 2)`), not
  three;
- `shouldPropagate` asks for one hit (`count >= 1`), not two.

A resize keeps the in-flight pulses and the letter progress.

## Model

| member | source | states |
|---|---|---|
| NeuralTopology.FourLayerEdgeCount | loader.js:124-139 | the full wiring of a four-layer network has L0·L1 + L1·L2 + L2·L3 edges (470 for [18, 15, 10, 5]) |
| NeuralTopology.WiredAdjacent | loader.js:128-138 | every created edge goes from a node of layer l to a node of layer l+1 and has weight in [-0.5, 0.5) |
| NeuralTopology.WiredConnected | loader.js:128-138 | after wiring, every node pair of adjacent layers is joined by an edge and each node has the next layer's size as out-degree |
| NeuralTopology.FindEdge | loader.js:184-186 | `connections.find` returns an edge that joins the requested pair and is in the list |
| NeuralTopology.FindEdgeFirst | loader.js:184-186 | the edge found is the first joining one in list order |
| NeuralTopology.FindEdgeNone | loader.js:184-188 | `find` fails exactly when no edge joins the pair |
| NeuralTopology.FindEdgeSucceeds | loader.js:184-188 | in a fully wired network every adjacent pair is found, so the `if (conn)` guard always passes |
| NeuralTopology.OutEdgesMembers | loader.js:203-205 | the filtered list holds exactly the edges from the node into the next layer |
| NeuralTopology.OutDegree | loader.js:203-205 | in a fully wired network that filter yields as many edges as the next layer has nodes |
| NeuralTopology.WiringSize | loader.js:128-138 | the nested loops produce EdgeCount pairs |
| NeuralTopology.WiringAdjacent | loader.js:128-138 | every generated pair joins two existing nodes of adjacent layers |
| NeuralTopology.WiringHas | loader.js:128-138 | every pair of nodes in adjacent layers is generated |
| NeuralTopology.WiringFrom | loader.js:128-138 | a node of layer l is the source of exactly L(l+1) generated pairs |
| EdgeRanking.StrongestIndexMax | loader.js:208-209 | the chosen edge has the largest \|weight\|, and no earlier edge ties it (stable sort) |
| EdgeRanking.ByStrengthPermutes | loader.js:208-209 | sorting by \|weight\| is a permutation of the edges |
| EdgeRanking.ByStrengthSorted | loader.js:208-209 | the sorted list is non-increasing in \|weight\| |
| EdgeRanking.ByStrengthStable | loader.js:208-209 | the sort is stable: for every \|weight\|, the edges of that strength keep their input order, which decides which tied edge `slice(0, 2)` keeps |
| EdgeRanking.ByStrengthMembers | loader.js:208-209 | sorting introduces no new edge |
| EdgeRanking.Strongest | loader.js:208-210 | `slice(0, n)` after the sort keeps min(n, length) edges |
| EdgeRanking.StrongestSelects | loader.js:208-210 | the kept edges are a sub-multiset, each at least as strong as every dropped edge |
| PulseFlow.ActiveIndices | loader.js:172 | every index returned has activation above 0.2 |
| EmissionFacts.ActiveIndicesExact | loader.js:172 | every node above 0.2 is returned, in layer order |
| PulseFlow.Senders | loader.js:226 | the hidden branch keeps the first min(10, #active) active nodes, in layer order |
| PulseFlow.OutputTargets | loader.js:176-179 | two independent target indices, each below the output layer size |
| PulseFlow.EdgePulses | loader.js:213-221 | one pulse per selected edge |
| EmissionFacts.TargetPulsesShape | loader.js:181-197 | output-branch pulses leave the source node for a chosen target with progress 0, speed 0.08, and intensity equal to the source activation |
| EmissionFacts.EmissionShape | loader.js:163-251 | every emitted pulse starts at progress 0, leaves an active node of layer l for a node of layer l+1, and carries that node's activation |
| EmissionFacts.EmissionInput | loader.js:169-222 | branch-dispatch helper: unfolds `Emission` at layer 0 to the input branch (every active node, two strongest edges) |
| EmissionFacts.EmissionHidden | loader.js:223-250 | branch-dispatch helper: unfolds `Emission` at layer 1 to the hidden branch (the first ten active nodes, one strongest edge) |
| EmissionFacts.EmissionOutput | loader.js:168-198 | branch-dispatch helper: unfolds `Emission` at layer 2 to the two-random-targets branch |
| EmissionFacts.FinalEmissionEmpty | loader.js:164 | branch-dispatch helper: unfolds `Emission` of the last layer or beyond to no pulses |
| EmissionFacts.TargetPulsesCount | loader.js:181-197 | with full wiring, one pulse per target, duplicates included |
| EmissionFacts.OutputBranchCount | loader.js:181-197 | the output branch emits \|nodes\|·\|targets\| pulses |
| EmissionFacts.RankedBranchCount | loader.js:199-250 | a ranked branch emits \|nodes\|·fanout pulses when fanout ≤ out-degree |
| EmissionCounts.InputEmissionCount | loader.js:199-222 | the input branch emits exactly 2 pulses per active node |
| EmissionCounts.HiddenEmissionCount | loader.js:223-250 | the hidden branch emits min(10, #active) pulses |
| EmissionCounts.OutputEmissionCount | loader.js:174-198 | the output branch emits exactly 2 pulses per active node (targets may coincide) |
| PulseEmit.EmitToTargets | loader.js:181-197 | the target loop builds exactly `TargetPulses` |
| PulseEmit.EmitOutputBranch | loader.js:181-197 | the per-node loop builds exactly `OutputBranch` |
| PulseEmit.EmitAlong | loader.js:213-221 | the per-edge loop builds exactly `EdgePulses`, one speed draw per edge |
| PulseEmit.EmitRanked | loader.js:201-249 | the ranked loop builds exactly `RankedBranch` |
| PulseEmit.EmitLayer | loader.js:163-251 | `propagateLayer`'s branch dispatch builds exactly `Emission` |
| PulseSweep.InFlightAppend | loader.js:257-285 | the filter handles pulses one by one, so survivors keep their relative order |
| PulseSweep.InFlightMembers | loader.js:257-285 | a pulse survives exactly when it has not arrived, and then with progress advanced by its speed |
| PulseSweep.SweepsProgress | loader.js:258-260 | after k sweeps every surviving pulse has progress ≥ 0.08·k, and below 1 |
| PulseSweep.PulseLifetime | loader.js:258-260 | with no new pulses, the queue is empty after 13 sweeps |
| PulseSweep.Hit | loader.js:262-263 | an arrival sets the activation to min(1, a + 0.8·intensity) |
| PulseSweep.ArrivalsBounded | loader.js:260-263 | arrivals keep every activation in [0, 1] |
| PulseSweep.ArrivalsUntouched | loader.js:260-263 | a node that no current pulse lands on keeps its activation |
| PulseSweep.ArrivalsRaise | loader.js:260-263 | arrivals never lower an activation |
| PulseSweep.ReachesFinalStep | loader.js:272 | an output arrival is seen in the prefix up to k+1 exactly when it is in the prefix up to k or pulse k is one |
| PulseSweep.CompletedLayersExact | loader.js:269 | `completedLayers` holds exactly the layers some arriving pulse reached, each once |
| PulseSweep.HitCountsKeys | loader.js:266-267 | every arriving pulse's node has a hit count, and every count is at least 1 |
| PulseSweep.CompletedShouldPropagate | loader.js:293-295 | `shouldPropagate` is true for every completed layer |
| PulseSweep.ScheduleMembers | loader.js:288-302 | a layer is scheduled iff it completed, has a successor, has no pulse leaving it, and should propagate (or is layer 0) |
| PulseSweep.ScheduledExactly | loader.js:288-302 | a layer is scheduled iff a pulse arrived there, it has a successor and no surviving pulse leaves it |
| Loader.ToUpper | loader.js:9 | upper-casing keeps the length |
| Loader.ToUpperNormal | loader.js:9 | the stored name has no lower-case ASCII letter, and upper-casing again changes nothing |
| Loader.ZeroNetwork | loader.js:103-121 | a fresh network is shaped [18, 15, 10, 5] with every activation 0 |
| Loader.CycleActivationsRange | loader.js:147-157 | a new cycle gives every input node an activation in [0.3, 0.7) and every other node 0 |
| Loader.FreshActivations | loader.js:147-157 | the two activation loops compute exactly `CycleActivations` |
| Loader.CycleInputEmission | loader.js:155-160 | every input of a new cycle is active, so `propagateLayer(0)` emits 36 pulses |
| Loader.FrameQueueGrowth | loader.js:141-160 | a frame that starts a cycle appends exactly 36 pulses behind the queue it found; any other frame appends none |
| Loader.DecayedBounded | loader.js:407 | the ×0.94 decay keeps activations in [0, 1] and never raises one |
| Loader.DecayAll | loader.js:366-409 | the decay loops compute exactly `Decayed` |
| Loader.InFlightFlowing | loader.js:257-285 | surviving pulses keep progress ≥ 0, speed ≥ 0.08 and intensity in [0, 1] |
| Loader.EmissionFlowing | loader.js:163-251 | freshly emitted pulses have progress 0, speed ≥ 0.08 and intensity in [0, 1] |
| Loader.WireRow | loader.js:130-136 | the innermost loop appends one edge per target node, weight `draw - 0.5` |
| Loader.WireBlock | loader.js:129-137 | the middle loop appends one row per source node |
| Loader.WireNetwork | loader.js:124-139 | `initConnections` yields the full wiring: 470 edges, adjacent layers only, weights in [-0.5, 0.5) |
| Loader.SweepKeeps | loader.js:257-285 | a sweep keeps the queue well formed and activations in [0, 1], keeps the text a prefix of the name, and reveals at most one letter per cycle |
| Loader.SweepQueue | loader.js:257-285 | the filter loop computes the survivors, the activations, the completed layers, the hit counts, `outputActivated`, and the revealed letter with text == name[..letter] |
| Loader.Arrive | loader.js:260-283 | one arrival: the hit, the hit count, the completed layer, and at most one letter while `outputActivated` was false |
| Loader.ScheduleLayers | loader.js:288-302 | the `completedLayers.forEach` loop computes exactly `Schedule` |
| Loader.NeuralLoader.constructor | loader.js:8-75 | the name is upper-cased; the network is all zeros and fully wired with 470 edges; no pulses, no letters, not processing, opacity 1 |
| Loader.NeuralLoader.InitNetwork | loader.js:87-122 | every activation is 0, and the node objects are new |
| Loader.NeuralLoader.InitConnections | loader.js:124-139 | `connections` becomes the full wiring, with one draw per edge in creation order |
| Loader.NeuralLoader.PropagateLayer | loader.js:163-251 | `pulses` is only appended to, with exactly `Emission` of that layer |
| Loader.NeuralLoader.StartCycle | loader.js:141-161 | with no letters left, nothing changes; otherwise it sets processing, clears `outputActivated`, sets fresh activations and appends the input emission |
| Loader.NeuralLoader.UpdatePulses | loader.js:253-308 | survivors, activations, letter and pending propagations are as the sweep functions say; `isProcessing` is cleared iff the queue is empty and the output was reached |
| Loader.NeuralLoader.Decay | loader.js:407 | every activation is multiplied by 0.94 |
| Loader.NeuralLoader.UpdateDecryption | loader.js:412-420 | the caption copies `detectedText`; the cursor toggles iff more than 500 ms passed since the last blink |
| Loader.NeuralLoader.CaptionText | loader.js:434-435 | the drawn caption is the revealed prefix of the name, plus `_` exactly while letters remain and the cursor is visible |
| Loader.NeuralLoader.FadeStep | loader.js:546-552 | opacity drops by 0.015, and the loader finishes once it is ≤ 0 |
| Loader.NeuralLoader.OpenFrame | loader.js:555-561 | a cycle starts only when not processing, letters remain and more than 1000 ms have passed; it then sets processing, clears `outputActivated`, takes the cycle's activations and queue (`FrameActivations`, `FrameQueue`) and records the time; otherwise nothing changes |
| Loader.NeuralLoader.RunStep | loader.js:553-571 | the whole new state of the non-fading branch: the queue, activations, output flag, letter and pending propagations are the sweep of the frame's queue over the frame's activations (with the cycle's input pulses and fresh activations when a cycle is due); `lastCycleTime` and `cycleStart` move only on a due cycle; `isProcessing` falls iff the queue is empty and the output was reached; a fade timer is armed iff the name is complete and idle |
| Loader.NeuralLoader.Animate | loader.js:537-580 | one frame: the caption copies the detected text and the cursor toggles after more than 500 ms; a fading frame only lowers the opacity (finishing at ≤ 0) and decays, leaving queue, letter, timers and cycle state alone; any other frame has `RunStep`'s new state followed by the decay; `isProcessing` falls only with an empty queue and `outputActivated` |
| Loader.NeuralLoader.FirePropagationTimer | loader.js:298 | the oldest pending layer is removed and its emission appended |
| Loader.NeuralLoader.FireFadeTimer | loader.js:569 | the fade starts |
| Loader.NeuralLoader.Resize | loader.js:593-611 | new zeroed nodes and a new full wiring; letters, text and pulses are kept, and every kept pulse is stale |
| PageScripts.TypeDelay | loader.js:909-937 | the delay is 50, 150, 2000 or 1000 ms; 2000 exactly when typing completes the text, 1000 exactly when deleting empties it |
| PageScripts.TypeStepSteady | loader.js:909-934 | the cursor stays within the text and moves by one; deleting starts exactly at the end and stops exactly at 0; the text index advances modulo the number of texts |
| PageScripts.TypeSteps | loader.js:909-937 | any number of calls keeps the typewriter state well formed |
| PageScripts.TypingPhase | loader.js:917-928 | typing from c reaches the end after \|text\| − c calls, and only then turns to deleting |
| PageScripts.DeletingPhase | loader.js:912-934 | deleting from c empties the text after c calls, then moves to the next text |
| PageScripts.TypeStepsAdd | loader.js:909-937 | j + k calls are j calls followed by k calls |
| PageScripts.TypeRound | loader.js:909-937 | 2·\|text\| calls from an empty cursor type and delete the whole text and land on the next text |
| PageScripts.Typewriter.constructor | loader.js:900-906 | the rotation starts at text 0, cursor 0, typing, nothing shown |
| PageScripts.Typewriter.Type | loader.js:909-937 | one call: the state moves by `TypeStep`, the element shows `text[..charIndex]`, and the returned delay is `TypeDelay` |
| PageScripts.NavbarStepSpec | loader.js:678-712 | a wide viewport changes nothing; on a narrow one the bar hides exactly on a downward scroll past 50 px and shows exactly on an upward one; the recorded offset is never negative |
| PageScripts.NavbarStepIdempotent | loader.js:678-712 | handling the same offset twice changes nothing more |
| PageScripts.NavbarScroll.constructor | loader.js:672-674 | the bar starts visible at offset 0 |
| PageScripts.NavbarScroll.HandleScroll | loader.js:678-712 | the state moves by `NavbarStep`; opacity is reset to 1 on wide viewports and follows visibility when it flips |
| PageScripts.NextTheme | loader.js:869-870 | the new theme is "dark" exactly when the current one is "light", and "light" otherwise |
| PageScripts.NextThemeInvolution | loader.js:869-870 | two clicks restore the theme, and one click always changes it |
| Starfield.FreshStarsFit | space-background.js:49-61 | the pool has 300 stars; x in [0, width), y in [0, height), size [0.5, 2.5), opacity [0.5, 1), twinkle speed [0.01, 0.03) |
| Starfield.NewStarFits | space-background.js:52-59 | one star from six draws lies in those ranges |
| Starfield.MakeStars | space-background.js:50-60 | the loop builds exactly `FreshStars`, six draws per star |
| Starfield.TwinkleFits | space-background.js:115 | a frame changes only the phase, which grows by the star's own speed; the star still fits |
| Starfield.TwinkleAll | space-background.js:113-130 | every star twinkles; the halo list holds exactly the stars with size > 1.5, in drawing order |
| Starfield.Side | space-background.js:65 | the side index is below 4 |
| Starfield.NewShootingStarSpec | space-background.js:63-100 | life = opacity = 1, speed [5, 8), length [80, 180); the star starts 10 px outside its side, at a point within the side's length, and the angle range depends on the side (top [60, 120), right [150, 210), bottom [240, 300), left [330, 390)) |
| Starfield.FlownAppend | space-background.js:134-178 | the filter handles stars one by one, so survivors keep their relative order |
| Starfield.FlownMembers | space-background.js:134-149 | a star survives iff, after moving and losing 0.008 life, it has life > 0 and is within [-150, w+150] × [-150, h+150] |
| Starfield.FlownLit | space-background.js:141-149 | every survivor has life in (0, 1] and opacity equal to its life |
| Starfield.FlightsLife | space-background.js:141 | after k frames every listed star has life ≤ 1 − 0.008·k |
| Starfield.FlownAllGone | space-background.js:141-148 | stars with life ≤ 0.008 are all dropped in the next frame |
| Starfield.ShootingStarLifetime | space-background.js:97-148 | with no new stars, the list is empty after 125 frames |
| Starfield.FlyAll | space-background.js:134-178 | the filter loop computes exactly `Flown` |
| Starfield.SpaceBackground.constructor | space-background.js:7-39 | two star pools, the first shooting star and one frame: the stars are the second pool twinkled once, and the shooting stars are the first star flown once |
| Starfield.SpaceBackground.Resize | space-background.js:41-47 | the new size and a fresh pool; shooting stars untouched |
| Starfield.SpaceBackground.CreateStars | space-background.js:49-61 | the pool becomes `FreshStars`, 300 stars that fit the viewport |
| Starfield.SpaceBackground.CreateShootingStar | space-background.js:63-100 | exactly one star is appended, as `NewShootingStar` says |
| Starfield.SpaceBackground.DrawStars | space-background.js:112-131 | every star twinkles; returns the stars given a halo (size > 1.5) |
| Starfield.SpaceBackground.DrawShootingStars | space-background.js:133-179 | the list becomes `Flown` of the old one, and every star stays lit |
| Starfield.SpaceBackground.Animate | space-background.js:181-190 | one frame: the stars, then the shooting stars |
| Glyphs.Cells | src/floating-characters.js:54-55 | `Math.ceil(n / 80)`: the least c with 80·c ≥ n |
| Glyphs.PickChar | src/floating-characters.js:67 | the glyph is a character of the alphabet |
| Glyphs.NewGlyphPlaced | src/floating-characters.js:60-75 | a new glyph sits within 15 px of its cell corner with y == baseY, counter 0, interval [50, 150), opacity [0.3, 0.9), size [12, 16) |
| Glyphs.GridLength | src/floating-characters.js:57-77 | the nested loops yield cols·rows glyphs |
| Glyphs.GridAt | src/floating-characters.js:57-77 | glyph (gx, gy) is at position gx·rows + gy (column-major order) |
| Glyphs.FreshGlyphsGrid | src/floating-characters.js:52-78 | ceil(w/80)·ceil(h/80) glyphs, one per cell in column-major order, each placed as above |
| Glyphs.GridPlaced | src/floating-characters.js:57-77 | every glyph of a fresh grid is placed |
| Glyphs.MakeGlyphs | src/floating-characters.js:53-77 | the nested loops build exactly `FreshGlyphs`, seven draws per glyph |
| Glyphs.TickSteady | src/floating-characters.js:93-98 | the counter never passes the interval; only char, counter and interval change; the glyph changes iff the counter passes the interval, otherwise the counter goes up by one |
| Glyphs.TicksSteady | src/floating-characters.js:84-112 | a frame keeps the list length, ticks each glyph in place and keeps all glyphs steady |
| Glyphs.TicksStep | src/floating-characters.js:84-98 | glyphs tick in order, each with the draws left by the glyphs before it |
| Glyphs.TickGlyph | src/floating-characters.js:93-98 | one glyph's update is `Tick`, taking two draws iff it changes |
| Glyphs.TickAll | src/floating-characters.js:84-112 | the forEach loop computes exactly `Ticks` |
| Glyphs.FloatingCharacters.constructor | src/floating-characters.js:8-42 | two grid layouts and one frame: time = 0.05, and the glyphs are the second grid ticked once |
| Glyphs.FloatingCharacters.Resize | src/floating-characters.js:44-50 | the new size and a fresh grid; time is kept |
| Glyphs.FloatingCharacters.CreateCharacters | src/floating-characters.js:52-78 | the glyphs become `FreshGlyphs`, each placed |
| Glyphs.FloatingCharacters.DrawCharacters | src/floating-characters.js:80-113 | the glyphs become `Ticks` of the old ones and stay steady |
| Glyphs.FloatingCharacters.Animate | src/floating-characters.js:115-126 | time advances by exactly 0.05, then the glyphs tick |

## Left out

- Canvas drawing is not modelled: connections, pulses, node fills and halos, text measuring, gradients, the shooting-star trail. These are Canvas 2D calls with no state the page reads back. Only the halo decision and the caption string are kept.
- Layout geometry is not modelled: node x/y positions, the mobile and tablet factors, device pixel ratio. Nodes are identified by (layer, index).
- The loader's own background particles (`initBackgroundParticles`, `updateBackgroundParticles`, `drawBackground`) are not modelled. They are driven by the wall clock and affect only rendering.
- Trigonometry is not modelled. The shooting-star step takes `cos` and `sin` as function parameters. The wave offsets of the floating characters are never stored.
- `requestAnimationFrame`, `setTimeout` and `setInterval` are not modelled as timers. Each frame or callback is an explicit method call, so real time and interleaving are out of scope. The starfield's 1500 ms interval and 500 ms extra star are calls to `CreateShootingStar`.
- `finish` only removes the loader element from the page. It is modelled as the `finished` flag, and `Animate` requires `!finished` because no further frame is requested.
- DOM glue is not modelled: event listeners, `localStorage`, the theme icon, the `data-theme` attribute read for glyph colours, the navbar's `transform` style, and a missing navbar element.
- Loader.ToUpper: only ASCII letters are upper-cased; locale-specific case mapping is not modelled.
- Numbers are exact reals and viewport sizes are whole pixels; IEEE rounding is not modelled. Thresholds such as 0.2, 0.94, 0.008 and 0.015 are taken at face value, and π is a decimal constant.
- PageScripts.Typewriter.constructor: requires every text to be non-empty. With an empty text, `type()` would let `charIndex` run past the end. The page's rotation has a single non-empty text.
- The navbar's `pageYOffset || scrollTop` fallback is not modelled; the scroll offset is a parameter.
