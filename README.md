# Solar simulation: the gravity step, the frame loop and the description wrap

This project models the logic of a pygame solar-system viewer. The viewer is one Python file, `solar_simulation.py`. The model covers four parts.

- **`Trail`** (`trail.dfy`): a planet's orbit trail. Each step appends the new position and keeps only the newest 400 points. This is a bounded FIFO.
- **`Planets`** (`planet.dfy`): the `Planet` class.
  - It has the fields that `__init__` sets.
  - `attraction` gives the pull of one other planet. It writes `distance_to_sun` when that planet is the sun.
  - `update_position` has three parts:
    - it sums the pulls of every other planet in list order;
    - it updates the velocity, then the position from the new velocity (semi-implicit Euler);
    - it extends the trail.
  - The methods change the class's fields in place. Each is proved against a pure function on a value snapshot `Body`: `Pull`, `SweepOf`, `Move` and `Advance`.
- **`Frame`** (`frame.dfy`): one frame of the main loop. Unless the simulation is paused, every planet runs `update_position(planets)` once, in list order, in place.
  - The method `UpdateFrame` is proved against the function `Frame`.
  - The lemmas about `Frame` say three things:
    - each planet is updated exactly once;
    - planet k sees the already-moved planets before it and the not-yet-moved planets after it;
    - an exception ends the frame at the planet that raised it.
- **`Wrap`** (`wrap.dfy`): the description block of the sidebar, taken out as a stand-alone operation.
  - `description.split()` is modelled with Python's `str.isspace` character set.
  - The method `WrapDescription` packs the words greedily into lines shorter than 40 characters. It is proved against the fold `Fill`.
  - A word of 40 or more characters gets a line of its own. As the first word, it also leaves an empty first line before it.

Python raises `ZeroDivisionError` in two places:

- `attraction` divides by `distance**2` when two planets coincide;
- `update_position` divides by the mass when the mass is 0.

The model returns these as a `Fault` (`Coincident`, `Massless`). It keeps the exact state reached at that point:

- the `distance_to_sun` already written;
- the planets already stepped in the frame.

The four library calls of `attraction` (`math.sqrt`, `math.atan2`, `math.cos`, `math.sin`) are parameters of type `MathLib`.

- The lemmas that need a real square root require `SqrtSound`: `sqrt` is the non-negative root, and it is positive exactly for a positive argument.
- `G = 6.67428e-11` and `TIMESTEP = 86400` are the source's constants.

The main loop updates the planets one at a time, in place (`for planet in planets: planet.update_position(planets)`). So planet k's forces use the new positions of planets 0..k-1, not positions taken at the start of the frame; see `Frame.FrameOrder`. The sun moves like any other planet; it is not held fixed.

## Model

| member | source | states |
|---|---|---|
| Planets.Planet.constructor | solar_simulation.py:35-49 | A new planet has the given position, radius, colour, mass, name and description; name and description default to empty. It is at rest, with an empty trail, is not the sun, and has a distance to the sun of 0. |
| Planets.Pull | solar_simulation.py:91-104 | The pull fails, with `Coincident`, exactly when the computed distance is 0, where Python divides by `distance**2`. Otherwise it succeeds. |
| Planets.PullFailsIffCoincident | solar_simulation.py:94-100 | With a real square root, `attraction` raises exactly when the two planets are at the same position. |
| Planets.SunDistanceIsEuclidean | solar_simulation.py:94-98 | The `distance_to_sun` recorded against the sun is non-negative. Its square is the squared Euclidean distance between the positions. |
| Planets.Planet.Attraction | solar_simulation.py:91-104 | `attraction` writes only `distance_to_sun`. It writes it before the division, so also when the division fails. The new value is the distance when `other` is the sun and the old value otherwise. The result is `Pull` of the old positions and masses. |
| Planets.Without | solar_simulation.py:108-110 | The planet itself is never among the planets whose pull is summed. |
| Planets.WithoutSkipsOnlySelf | solar_simulation.py:108-110 | The force loop visits exactly the other planets of the list: `q` is visited iff `q` is in the list and is not the planet itself. |
| Planets.Planet.SumForces | solar_simulation.py:107-114 | The force loop ends with the total force, the `distance_to_sun` and the fault that `SweepOf` gives for the other planets in list order. It stops at the first raising `attraction`. |
| Planets.SweepSumsPulls | solar_simulation.py:107-114 | The force loop completes iff every pull succeeds. Its total is then the sum of the pulls of all the other planets. |
| Planets.SweepKeepsDistanceWithoutSun | solar_simulation.py:97-98 | After the force loop, whether it completed or stopped at an exception, `distance_to_sun` is unchanged when no other planet is flagged `sun`. |
| Planets.SweepRecordsSunDistance | solar_simulation.py:97-98 | After a force loop that completes, `distance_to_sun` is the distance to the last other planet flagged `sun`. |
| Planets.StepKeepsDistanceWithoutSun | solar_simulation.py:106-124 | After `update_position`, whether it completed or raised, `distance_to_sun` is unchanged when no other planet is flagged `sun`. |
| Planets.StepRecordsSunDistance | solar_simulation.py:106-124 | After an `update_position` that completes, `distance_to_sun` is the distance to the last other planet flagged `sun`. |
| Planets.Move | solar_simulation.py:116-124 | The velocity, position and trail update keeps mass, sun flag and `distance_to_sun`. It leaves a trail of 1..400 points whose newest point is the new position. |
| Planets.Planet.Accelerate | solar_simulation.py:116-124 | The fields after the velocity, position and trail update are `Move` of the fields before it. |
| Planets.Advance | solar_simulation.py:106-124 | `update_position` never changes mass or the sun flag. Its `distance_to_sun` is the one the force loop left, faulted or not. On a fault nothing else has changed. Without a fault the trail holds 1..400 points and ends with the new position. |
| Planets.SweepFaultIsCoincident | solar_simulation.py:98-114 | The force loop can only stop with `Coincident`, because `attraction` divides by `distance**2` and nothing else in the loop raises. |
| Planets.AdvanceFaultsIff | solar_simulation.py:106-124 | `update_position` raises `Coincident` exactly when some pull fails. It raises `Massless` exactly when every pull succeeds and the mass is 0. Otherwise it completes. |
| Planets.NetForceNoneIff | solar_simulation.py:94-114 | With a real square root, the sum of the pulls fails exactly when some other planet is at the same position. |
| Planets.StepRaisesIffCoincident | solar_simulation.py:94-117 | With a real square root, `update_position` raises `Coincident` exactly when some other planet is at the planet's own position. |
| Planets.Planet.UpdatePosition | solar_simulation.py:106-124 | `update_position` writes only the planet's position, velocity, trail and `distance_to_sun`. Its physical state and the raised fault end as `Advance` of its old state against the other planets' old states. Name, description, radius, colour, mass and sun flag are unchanged. |
| Planets.PositionUsesNewVelocity | solar_simulation.py:116-120 | The new velocity is the old velocity plus force / mass times TIMESTEP. The new position is the old position plus old velocity times TIMESTEP plus force / mass times TIMESTEP squared, so the position step uses the already-updated velocity (semi-implicit Euler). |
| Planets.StepExtendsTrail | solar_simulation.py:121-124 | A completed step appends the new position to the trail and keeps the newest points of the old trail in order. |
| Trail.Retain | solar_simulation.py:121-124 | After an append, the trail has min(n+1, 400) points. The last point is the new one, and the ones before it are the newest points of the old trail, in order. |
| Trail.RecordKeepsNewest | solar_simulation.py:121-124 | After any history of n appends, the trail is exactly the newest min(n, 400) points, oldest first. |
| Trail.TrailFull | solar_simulation.py:123-124 | After 400 or more appends, the trail holds exactly 400 points and ends with the latest one. |
| Frame.Stepped | solar_simulation.py:370-372 | A partial frame keeps the number of planets. |
| Frame.LaterUntouched | solar_simulation.py:370-372 | Before turn k of a frame, planets k onwards still have their old state. |
| Frame.EarlierSettled | solar_simulation.py:370-372 | Once turn j is over, planets 0..j-1 do not change again in the frame: each planet is updated at most once. |
| Frame.FaultSticks | solar_simulation.py:370-372 | After an exception in some turn, the remaining turns change nothing. |
| Frame.StepOrder | solar_simulation.py:370-372 | In a frame without an exception, planet k ends as its update from its old state against the final states of planets 0..k-1 and the old states of planets k+1 onwards. |
| Frame.FrameOrder | solar_simulation.py:370-372 | The same for `update_position`. Planet k moves against the already-moved planets before it and the unmoved planets after it. |
| Frame.FrameKeepsMasses | solar_simulation.py:370-372 | A frame keeps every planet's mass and sun flag. |
| Frame.WithoutDistinct | solar_simulation.py:108-110 | In a list without repeats, the planets that planet k's force loop visits are the list without entry k, in order. |
| Frame.UpdateFrame | solar_simulation.py:370-372 | Paused, the frame changes nothing. Unpaused, the planets end as `Frame` of their old states, and the raised fault is returned. Names, descriptions, radii and colours never change. |
| Frame.RunFrame | solar_simulation.py:371-372 | The unpaused loop writes only the planets' positions, velocities, trails and `distance_to_sun`. It leaves the planets as `Stepped` says and keeps their labels. |
| Frame.Turn | solar_simulation.py:372 | One turn of the loop writes only planet k's position, velocity, trail and `distance_to_sun`. It advances the state as one step of `Stepped` and keeps every label. |
| Wrap.WordLength | solar_simulation.py:194 | The length of the leading run of non-whitespace characters: none of those characters is whitespace, and the one after them is. |
| Wrap.Words | solar_simulation.py:194 | Every entry `split()` returns is a non-empty run without whitespace. |
| Wrap.WordsOfWord | solar_simulation.py:194 | `split()` keeps a word whole: a text that is a single word splits into exactly that word. |
| Wrap.WordsSplitAtSpace | solar_simulation.py:194 | `split()` cuts at every whitespace character: the words of `a + [c] + b` with `c` whitespace are the words of `a` followed by the words of `b`. |
| Wrap.WordsKeepText | solar_simulation.py:194 | `split()` loses only whitespace: its words glued together are the non-whitespace characters of the description, in order. |
| Wrap.WrapDescription | solar_simulation.py:194-207 | The loop over the words gives the lines `Wrapped` defines: the finished lines, then the current line when it is not empty. |
| Wrap.FillShape | solar_simulation.py:198-204 | The current line is empty only before the first word. A finished line other than the first is never empty. The first is empty exactly when the first word has 40 or more characters. |
| Wrap.WrapKeepsWords | solar_simulation.py:194-207 | The non-empty lines joined by single spaces are the words joined by single spaces. No word is lost, split, reordered or duplicated. |
| Wrap.LongLineIsWord | solar_simulation.py:198-207 | Every line of 40 or more characters is a single word of the description. |
| Wrap.EmptyLineOnlyFirst | solar_simulation.py:198-207 | An empty line can only be the first one. It is there exactly when the first word has 40 or more characters. |
| Wrap.NoWordsNoLines | solar_simulation.py:194-207 | There are no lines exactly when the description has no words. |
| Wrap.AdjacentLinesOverflow | solar_simulation.py:198-207 | The packing is greedy: for every non-empty line, the line, a space and the first word of the next line together have 40 characters or more, so that word did not fit. |

## Left out

- Everything pygame does is not part of this model: the window, fonts, the starfield, `draw`, the rest of `draw_sidebar`, event handling and `clock.tick`. It is input, output and presentation.
- Floating-point arithmetic is not modelled: positions, velocities, masses and forces are reals. NaN, infinity and rounding are therefore not modelled, and neither are the values `math.sqrt`, `math.atan2`, `math.cos` and `math.sin` return. These four are parameters.
- Planets.Pull: the failure condition is stated for the distance the supplied `sqrt` returns. Only under `SqrtSound` does it become "the positions coincide" (`PullFailsIffCoincident`).
- Python starts `x_vel`, `y_vel` and `distance_to_sun` as the integer 0. The model uses the real 0.0, which behaves the same in the arithmetic that follows.
- Frame.UpdateFrame: requires the list to hold each planet object once. A list holding one planet twice would update it twice per frame, and its force loop would skip both entries. That case is not modelled.
- An exception from `update_position` ends the Python program. The model stops the frame there and returns the fault with the state reached. It does not model what happens after.
- `get_planet_at_pos` and the `Planet.SCALE` zoom (`*= 1.1` in, `*= 0.9` out) are not modelled. They are screen-coordinate logic over a class-level global.
- The initial planet table in `main` is configuration data and is not modelled.
- Orbital stability, energy and momentum conservation are not claimed. They are floating-point and analysis properties, and momentum is not conserved even over the reals, because the planets move one after another in place.
