# Wind-map data pipeline: a verified model

This project models the core of `python/herbie_datagrab.py`, the backend step of
the checklist wind map. A request names a target instant and a pressure level and
is answered with two velocity documents, one for `u` and one for `v`. The pipeline
does the following:

- It picks the GFS model run that covers the target. The target is clamped to
  what can already be published, then floored to a 00/06/12/18 UTC run. A
  publication fallback and a forecast-horizon walk follow.
- It serves a cache file named after that run while the file is less than six
  hours old.
- Otherwise it tries five forecast hours around the resolved one against Herbie,
  the GRIB download library. The first dataset that has both wind components wins.
- It serializes the winning dataset into the documents the map client reads. NaN
  and the infinities become `null`. The documents are saved under the resolved
  run's name.
- It renames every longitude Herbie returns into [-180, 180) and rolls the grid
  by half its width.

Modules, in dependency order:

- `Wrappers` (`wrappers.dfy`): `Option`.
- `Text` (`text.dfy`): Python's `str(int)` and `{n:0Wd}` on integers, with
  injectivity proofs.
- `Calendar` (`calendar.dfy`): instants as integer microseconds since the Unix
  epoch, UTC. It has the hour-of-day and start-of-day arithmetic, the proleptic
  Gregorian conversion behind `strftime`, and the `%Y%m%d%H` and
  `%Y-%m-%d %H:%M:%S UTC` renderings.
- `CycleResolver` (`cycle_resolver.dfy`): run resolution, lines 57-112, and the
  `Z` rewrite, lines 32-35.
- `Grid` (`grid.dfy`): datasets, and longitude normalisation and roll, lines 15-16.
- `Serializer` (`serializer.dfy`): `convert_wind_to_velocity_json`, lines 331-390.
- `Cache` (`cache.dfy`): cache file names, freshness and the file store.
- `WindData` (`wind_data.dfy`): the cache check, the retry loop and the write,
  lines 121-188. `Process` is the specification of a whole request.
  `ProcessWindData` performs it step by step and is proved equal to it.

The environment is injected:

- `now` is the clock reading at line 57.
- `checkedAt` is the reading of `datetime.now()` at line 134.
- `savedAt` is the modification time the write at line 174 gives the file.
- `saveOk` says whether that write succeeded.
- `fetch` is the Herbie download plus GRIB decode, as a function from the
  attempt number (0 to 4) and `(init, fxx, level)` to a dataset. `None` means
  it raised. Because every attempt is a download of its own, a repeated hour
  can succeed after a temporary failure (`WindData.RetryOfTheSameHour`).

## Where the code and its description differ (the model follows the code)

- **Reported forecast time.** `forecastTime` is computed from the *clamped*
  target. `target_date_utc` is reassigned at lines 60 and 74 and later passed to
  the serializer. The target as the caller gave it is not used after line 74. With the resolver's
  result, the reported forecast time is therefore always the resolved `fxx`
  (`WindData.AnswerDescribesResolvedRun`).
- **Late-evening scenario.** Take a target of 2024-03-10T23:00Z with `now` equal
  to the target. The 4-hour clamp moves the target to 19:00Z, so the code picks
  the 18Z run with forecast hour 1. Without the clamp, 23:00Z would floor to the
  same 18Z run with forecast hour 5 (`CycleResolver.ScenarioLateEvening`).
- **Horizon walk.** The comment at line 107 says the walk moves to a more recent
  run with a shorter forecast. The walk at lines 108-110 instead moves the run
  6 hours *earlier* and *adds* 6 to `fxx` at each step.
  `fxx > 120` therefore stays true, and only the 3-day bound ends the walk. The
  walk never brings `fxx` down to 120 or below (`CycleResolver.CapHorizon`).
- **Dead branches.** Once both clamps are applied, neither the "too recent"
  fallback (lines 92-102) nor the horizon walk (105-110) can run. The floored
  run always starts at least 4 hours before `now`, and `fxx` is at most 5. The
  "no suitable hour" branch at lines 86-89 is dead for the same reason: hour 0
  is always at or below the target hour. The model keeps all three branches and
  proves they never change the result. There is one difference in the lines 86-89
  branch. It never assigns `init_hour`, so reaching the fallback after it would
  raise UnboundLocalError at line 95. The model gives that branch run hour 18
  instead. `CycleResolver.ResolveCycle` and `CycleResolver.FallbackNeverFires`
  state these facts.
- **Failure.** With every attempt failed, line 188 evaluates `None(__file__)`.
  This raises a TypeError rather than returning `None`, and the server reports
  it as an error. The model's outcome is `Failure`.
- Lines 189-329 repeat earlier code after the `return` at line 188 and can
  never run. They are not part of this model.

## Model

| member | source | states |
|---|---|---|
| CycleResolver.RewriteZulu | python/herbie_datagrab.py:32-35 | a trailing `Z` becomes `+00:00`; any other string is kept |
| CycleResolver.RewriteZuluIdempotent | python/herbie_datagrab.py:32-35 | a rewritten date no longer ends in `Z`, so rewriting twice equals rewriting once |
| CycleResolver.EffectiveTarget | python/herbie_datagrab.py:57-74 | the clamped target is at most `now - 4h` and at most the request; it is one of the two |
| CycleResolver.FloorToRun | python/herbie_datagrab.py:77-89 | the run hour is the target hour rounded down to a multiple of 6; the run starts at that hour of the target's day; `fxx` is the hour difference |
| CycleResolver.FloorToRunIsCycle | python/herbie_datagrab.py:77-89 | the run hour is in {0,6,12,18}; the start is a whole hour on the target's UTC day and not after the target; start plus `fxx` hours is the target truncated to the hour; `0 <= fxx <= 5` |
| CycleResolver.AtOrBelow | python/herbie_datagrab.py:80 | the filtered list holds exactly the run hours at or below the bound |
| CycleResolver.Below | python/herbie_datagrab.py:96 | the filtered list holds exactly the run hours below the bound |
| CycleResolver.MaxOf | python/herbie_datagrab.py:83 | the result is an element of the list and no element exceeds it |
| CycleResolver.LatestRunHour | python/herbie_datagrab.py:80-83 | for every hour of day the filtered list is non-empty and its maximum is the hour rounded down to a multiple of 6 |
| CycleResolver.Fallback | python/herbie_datagrab.py:95-102 | for a run hour above 0, the greatest GFS run hour below it, on the target's day, with `fxx` the target hour minus it; for hour 0, 18Z of the previous day with `fxx` the target hour plus 6 |
| CycleResolver.FallbackIsPreviousRun | python/herbie_datagrab.py:92-102 | were the fallback taken after the floored run, it would start exactly 6 hours earlier at a GFS run hour, with `fxx` 6 larger |
| CycleResolver.FallbackNeverFires | python/herbie_datagrab.py:92 | after both clamps the floored run plus 4 hours is never after `now` |
| CycleResolver.HorizonSteps | python/herbie_datagrab.py:105-110 | no steps exactly when `fxx` is at most 120 or the start is already 3 days or more before the target; otherwise the least number of 6-hour steps that reaches `target - 3 days` |
| CycleResolver.CapHorizon | python/herbie_datagrab.py:105-110 | the walk keeps start plus `fxx` hours; it takes exactly `HorizonSteps` steps; when it runs, `fxx` never falls and the start ends 3 days or more before the target |
| CycleResolver.ResolveCycle | python/herbie_datagrab.py:57-112 | the clamped target and the floored run come out unchanged by the fallback and the horizon walk, with every property of `FloorToRunIsCycle` |
| CycleResolver.ScenarioEarlyMorning | python/herbie_datagrab.py:57-89 | a target of 2024-03-10T05:00Z requested at 10:00Z resolves to the 00Z run with forecast hour 5 |
| CycleResolver.ScenarioLateEvening | python/herbie_datagrab.py:57-89 | a target of 2024-03-10T23:00Z requested at that instant is clamped to 19:00Z and resolves to the 18Z run with forecast hour 1 |
| Calendar.HourOf | python/herbie_datagrab.py:77 | the UTC hour of an instant is in 0..23 |
| Calendar.DayStart | python/herbie_datagrab.py:84 | midnight UTC of the instant's day: a whole day, at or before the instant and less than a day before |
| Calendar.Decompose | python/herbie_datagrab.py:84-85 | an instant is its midnight plus whole hours plus the part of an hour below |
| Calendar.AtHour | python/herbie_datagrab.py:84 | `replace(hour=h, minute=0, second=0, microsecond=0)` for an hour of day `h` keeps the day, has hour `h` and is a whole hour |
| Calendar.DaysBeforeMonthStep | python/herbie_datagrab.py:122 | consecutive month offsets differ by the month's length, and the twelve months fill the year |
| Calendar.DaysBeforeNextYear | python/herbie_datagrab.py:122 | consecutive year offsets differ by the year's length |
| Calendar.YearSplit | python/herbie_datagrab.py:122 | a day count splits into a year and a day inside that year, and the two add back to it |
| Calendar.MonthOf | python/herbie_datagrab.py:122 | the month found is the one whose offset range holds the day of the year |
| Calendar.CivilFromDays | python/herbie_datagrab.py:122 | the date of a day count is a valid Gregorian date that converts back to the same day count |
| Calendar.CivilInjective | python/herbie_datagrab.py:122 | different days have different dates |
| Calendar.DateOf | python/herbie_datagrab.py:122 | the date of an instant is a valid Gregorian date |
| Calendar.DateHourText | python/herbie_datagrab.py:122 | `%Y%m%d%H` of a date in years 0-9999 is ten digits |
| Calendar.HourStamp | python/herbie_datagrab.py:122 | the stamp of an instant in `datetime`'s range is ten digits |
| Calendar.PadWidth | python/herbie_datagrab.py:122 | zero-padding to 2 or 4 places a number that fits gives exactly that many characters |
| Calendar.DateHourTextPieces | python/herbie_datagrab.py:122 | `%Y%m%d%H` is the padded year, month, day and hour, laid end to end |
| Calendar.DateHourTextInjective | python/herbie_datagrab.py:122 | equal `%Y%m%d%H` texts come from equal dates and hours |
| Calendar.HourStampInjective | python/herbie_datagrab.py:122 | two whole-hour instants in range with the same stamp are the same instant |
| Calendar.UtcTimestampLayout | python/herbie_datagrab.py:341 | `strftime("%Y-%m-%d %H:%M:%S UTC")` is 23 characters: the zero-padded year, month, day, hour, minute and second at fixed places between `-`, ` ` and `:`, then ` UTC`; each field reads back as that part of the instant |
| Text.Dec | python/herbie_datagrab.py:124-126 | the decimal text of a natural is non-empty and all digits; it has one digit exactly below 10 and at most 2, 3 or 4 digits below 100, 1000 or 10000; it starts with `0` only for 0, so there is no leading zero |
| Text.IntStr | python/herbie_datagrab.py:124-126 | `{level}` is non-empty, made of digits and `-`; a non-negative number is all digits that read back as the number; a negative one is `-` followed by digits that read back as its magnitude; neither has a leading zero, so 0 is `0`, 850 is `850` and -5 is `-5` |
| Text.Zeros | python/herbie_datagrab.py:124 | `k` zero characters |
| Text.ZeroPad | python/herbie_datagrab.py:124 | `{n:03d}` is all digits, padded to the width or longer when the number needs it |
| Text.ValueOfDec | python/herbie_datagrab.py:124-126 | the decimal text of `n` denotes `n` |
| Text.ValueIgnoresLeadingZeros | python/herbie_datagrab.py:124 | leading zeros do not change the number a digit string denotes |
| Text.ZerosValue | python/herbie_datagrab.py:124 | a string of zeros denotes 0 |
| Text.ValueOfZeroPad | python/herbie_datagrab.py:124 | a zero-padded number still denotes that number |
| Text.ZeroPadInjective | python/herbie_datagrab.py:124 | equal padded texts come from equal numbers |
| Text.DecInjective | python/herbie_datagrab.py:124-126 | equal decimal texts come from equal naturals |
| Text.IntStrInjective | python/herbie_datagrab.py:124-126 | equal `{level}` texts come from equal integers |
| Grid.Mod360 | python/herbie_datagrab.py:15 | Python's float `% 360` lies in [0, 360) and differs from its input by a whole number of turns |
| Grid.NormalizeLongitude | python/herbie_datagrab.py:15 | `((lon + 180) % 360) - 180` lies in [-180, 180), is congruent to `lon` modulo 360, and is `lon` itself when `lon` is already in range |
| Grid.NormalizeAll | python/herbie_datagrab.py:15 | the coordinate array is renamed element by element and keeps its length |
| Grid.Roll | python/herbie_datagrab.py:16 | `roll` by `k` keeps the length and the multiset of elements; element `i` of the result is element `(i - k) mod n` of the input |
| Grid.RollAt | python/herbie_datagrab.py:16 | the two-slice rotation puts element `(i - k) mod n` at `i` |
| Grid.RollRows | python/herbie_datagrab.py:16 | every row is rolled by the same amount and the grid keeps its number of rows |
| Grid.NormalizeAndRoll | python/herbie_datagrab.py:15-16 | the dataset keeps its variables, its latitudes and its width; every longitude is in [-180, 180) |
| Grid.NormalizeAndRollKeepsCellsWithTheirLongitude | python/herbie_datagrab.py:15-16 | after the roll, column `j` holds every variable's cells and the renamed longitude of the same source column: coordinates and data move together |
| Grid.GlobalGridBecomesAscending | python/herbie_datagrab.py:15-16 | a global grid `0, step, ..., 360 - step` comes out as `-180, -180 + step, ...`: the roll restores ascending order after the renaming |
| Grid.AscendingAt | python/herbie_datagrab.py:15-16 | output column `j` of the global grid has longitude `-180 + j * step` |
| Grid.MovesByOneTurn | python/herbie_datagrab.py:15 | a longitude in [180, 540) is renamed one turn down |
| Serializer.Min | python/herbie_datagrab.py:362-365 | the minimum is a coordinate and no coordinate is below it |
| Serializer.Max | python/herbie_datagrab.py:362-365 | the maximum is a coordinate and no coordinate is above it |
| Serializer.ComponentName | python/herbie_datagrab.py:351 | the name is `U-component_of_wind` for `u` and `V-component_of_wind` for anything else |
| Serializer.MakeHeader | python/herbie_datagrab.py:333-368 | parameter number 2 for `u` and 3 otherwise, named `U-component_of_wind` or `V-component_of_wind`; the fixed metadata (discipline 0, category 2 "Momentum", unit `m.s-1`, surface type 100 "Isobaric surface", `Latitude_Longitude`, `m/s`); `forecastTime` is the whole hours from run start to target; `refTime` is the UTC rendering of the run start; `surface1Value` is the level; `nx` and `ny` are the axis lengths; `lo1`/`lo2` are the least/greatest longitude and `la2`/`la1` the least/greatest latitude; `dx` and `dy` are the given steps |
| Serializer.Flatten | python/herbie_datagrab.py:371 | the flattening is empty exactly when every row is, and it starts with the first row |
| Serializer.FlattenLength | python/herbie_datagrab.py:371 | flattening an `ny` by `nx` grid gives `ny * nx` cells |
| Serializer.RowBound | python/herbie_datagrab.py:371 | row-major index `i * nx + j` of a cell is below `ny * nx` |
| Serializer.FlattenAt | python/herbie_datagrab.py:371 | `flatten(order="C")` puts cell `(i, j)` at index `i * nx + j` |
| Serializer.JsonValue | python/herbie_datagrab.py:380-385 | a cell becomes `null` exactly when it is NaN or infinite; a finite value passes through unchanged |
| Serializer.Sanitized | python/herbie_datagrab.py:372-385 | the data array has one entry per cell: `null` exactly for NaN and infinite cells, the value itself for finite ones |
| Serializer.SanitizeCells | python/herbie_datagrab.py:372-385 | the append loop builds exactly the sanitized array |
| Serializer.ConvertWindToVelocityJson | python/herbie_datagrab.py:331-390 | the document is the header of `MakeHeader` and the sanitized row-major flattening of the field |
| Serializer.DocumentLayout | python/herbie_datagrab.py:371-385 | a document for an `ny` by `nx` field holds `ny * nx` values, and value `i * nx + j` is cell `(i, j)` sanitized |
| Cache.ForecastTag | python/herbie_datagrab.py:123-126 | the tag is empty exactly for hours 0 and below; otherwise it starts `_f` and its digits read back as the hour |
| Cache.Glue | python/herbie_datagrab.py:124-126 | `NameLayout`: `gfs_velocity_`, then the stamp from offset 13, the tag right after it, one `_`, the level, and `mb.json` as the last seven characters |
| Cache.CacheName | python/herbie_datagrab.py:122-126 | `NameLayout` with the run's `%Y%m%d%H` stamp, the `ForecastTag` of `fxx` (`_fNNN` or nothing) and the level's `IntStr`, so the name reads `gfs_velocity_<stamp>[_fNNN]_<level>mb.json` |
| Cache.ForecastTagShape | python/herbie_datagrab.py:123-126 | below hour 1000, a positive forecast hour adds the five characters `_fNNN` and any other hour adds nothing |
| Cache.CacheNameInjective | python/herbie_datagrab.py:122-126 | two whole-hour runs in range, with forecast hours 0-999, that give the same file name have the same start, forecast hour and level |
| Cache.TagsAlign | python/herbie_datagrab.py:123-126 | equal names with equally long stamps carry equally long forecast tags |
| Cache.CharAfterStamp | python/herbie_datagrab.py:123-126 | the character after `gfs_velocity_<stamp>_` is `f` for a tagged name and the level's first character otherwise |
| Cache.FieldsEqual | python/herbie_datagrab.py:124-126 | equal names with equally long pieces have equal stamps, tags and levels |
| Cache.NonPositiveHoursShareTheUntaggedName | python/herbie_datagrab.py:123-126 | hour 0 and every negative hour get the same name, which has no `_f` part |
| Cache.Lookup | python/herbie_datagrab.py:131-142 | a hit needs the file to exist, to be younger than six hours at the check and to parse, and returns its content; otherwise it is a miss |
| Cache.SaveThenLookup | python/herbie_datagrab.py:131-178 | a file written at `savedAt` is served back unchanged at any check less than six hours later |
| Cache.StaleIsMiss | python/herbie_datagrab.py:134-140 | a file six hours old or older is never served |
| Cache.SaveLeavesOtherNames | python/herbie_datagrab.py:173-175 | writing one file changes the lookup of no other name |
| Cache.FileStore.Save | python/herbie_datagrab.py:172-178 | a successful write stores the documents under the name with the write time; a failed write leaves the directory as it was |
| WindData.Candidates | python/herbie_datagrab.py:147 | five hours: `fxx` first, then `max(0, fxx-1)` and `max(0, fxx-2)`, then `fxx+1` and `fxx+2`; for `fxx >= 0` all are non-negative and within 2 of `fxx` |
| WindData.CandidatesAtRunStart | python/herbie_datagrab.py:147 | duplicates are kept: hour 0 gives `[0, 0, 0, 1, 2]` and hour 1 gives `[1, 0, 0, 2, 3]` |
| WindData.RetryOfTheSameHour | python/herbie_datagrab.py:147-150 | a repeated hour is a fresh download: at hour 0, when the first download fails and the second of the same hour is usable, the request goes on with the second |
| WindData.FetchGfsData | python/herbie_datagrab.py:10-23 | a dataset comes back from an attempt exactly when Herbie yields one at that attempt, and it is Herbie's renamed and rolled |
| WindData.Attempt | python/herbie_datagrab.py:148-165 | an attempt goes on exactly with a dataset fetched at that attempt that has `u`, `v` and two coordinates on each axis |
| WindData.FirstUsable | python/herbie_datagrab.py:147-185 | the attempt found is usable and every earlier attempt moved on; finding none means every attempt moved on |
| WindData.FirstUsableAt | python/herbie_datagrab.py:147-185 | the first candidate whose attempt goes on is the one found |
| WindData.FirstUsableNone | python/herbie_datagrab.py:147-188 | when every attempt moves on, nothing is found |
| WindData.AttemptOf | python/herbie_datagrab.py:148-165 | the loop's own checks decide the attempt as `Attempt` does |
| WindData.LonStep | python/herbie_datagrab.py:164 | the first longitude plus the step is the second |
| WindData.LatStep | python/herbie_datagrab.py:165 | the second latitude plus the step is the first (latitudes run north to south) |
| WindData.SerializeBoth | python/herbie_datagrab.py:164-170 | the two serializer calls give the `u` and `v` documents of the dataset |
| WindData.WireDocs | python/herbie_datagrab.py:162-170 | two documents, `u` (number 2) then `v` (number 3), each with its component's name and the fixed metadata, and the sanitized row-major cells of its own component |
| WindData.ComponentsShareRunAndGrid | python/herbie_datagrab.py:162-168 | the `u` and `v` headers agree on forecast time, reference time, level, grid size, bounding box and steps |
| WindData.TryCandidates | python/herbie_datagrab.py:146-188 | the first usable candidate's documents are returned and, if the write succeeds, saved under the resolved name; with none usable the result is `Failure` and nothing is written |
| WindData.Process | python/herbie_datagrab.py:57-188 | a failed request leaves the directory unchanged; any request leaves it unchanged or changes only the entry under its own resolved name |
| WindData.ProcessWindData | python/herbie_datagrab.py:57-188 | the step-by-step request returns what `Process` says and leaves the directory as `Process` says |
| WindData.ServeRun | python/herbie_datagrab.py:121-188 | given the resolved run of the clamped target, the cache check followed by the candidate loop returns exactly the response and leaves exactly the directory that `Process` states |
| WindData.MissAnswer | python/herbie_datagrab.py:146-188 | on a cache miss the answer is the first usable attempt's `u` and `v` documents, saved under the request's own name when the write succeeds; with no usable attempt it is a failure that writes nothing |
| WindData.FreshHitIsServedVerbatim | python/herbie_datagrab.py:131-138 | a fresh, readable file is returned as it is; nothing is fetched and nothing is written |
| WindData.FailureWritesNothing | python/herbie_datagrab.py:147-188 | a request fails exactly on a cache miss with all five attempts failed, and a failed request writes nothing |
| WindData.ProcessFailsOnMissAndNoAttempt | python/herbie_datagrab.py:131-188 | a request fails exactly when the cache misses and no candidate is usable, and then the directory is unchanged |
| WindData.WritesOnlyItsOwnName | python/herbie_datagrab.py:121-178 | a request leaves the directory alone or writes only its own resolved name, holding exactly what it returns |
| WindData.WireDocsDescribeRun | python/herbie_datagrab.py:162-170 | both documents carry the resolved run's forecast hour as forecast time, its start as reference time, and the level asked |
| WindData.ComponentDescribesRun | python/herbie_datagrab.py:331-358 | a component's header built with a run whose forecast hour is the whole hours to the target carries that forecast hour, start time and level |
| WindData.AnswerDescribesResolvedRun | python/herbie_datagrab.py:162-170 | a fetched answer is two documents, `u` then `v`; each reports the resolved forecast hour, the run start and the level, even when a neighbouring hour was fetched |
| WindData.SavedAnswerIsServedAgain | python/herbie_datagrab.py:131-178 | after a saved answer, the same request checked within six hours gets the same documents from the cache and writes nothing, whatever Herbie would say |
| WindData.DistinctRunsDistinctFiles | python/herbie_datagrab.py:122-126 | requests with the same cache file resolve to the same run start, forecast hour and level |

## Left out

- Herbie, the GRIB download and decode, and the xarray selection (lines 13-14) are foreign library calls. They are the injected `fetch` function.
- File-system I/O is modelled by a map from name to modification time and parsed content:
  - `os.makedirs` and the path joins (lines 117-119);
  - `os.path.exists`, `getmtime` and `json.load` (lines 131-142);
  - `json.dump` (lines 173-178).
  - A file that does not parse is an entry with no content.
  - A write that fails part-way, leaving a truncated file, is not modelled: a failed write leaves the directory as it was.
- The file age at line 134 subtracts two naive local times. The model uses the elapsed time `checkedAt - modifiedAt`. Local-time effects such as a daylight-saving shift inside the six hours are not modelled.
- `datetime.fromisoformat` and the time-zone conversion (lines 38-53) are library parsing. The target is taken as a UTC instant, and only the `Z` rewrite is modelled. A date that does not parse makes the source return `None`; that path is not modelled.
- `CycleResolver.ResolveCycle`: instants are microseconds. The `timedelta` and `replace` calls are exact on them, so nothing is lost there.
- `Calendar.HourStamp` and `Calendar.UtcTimestampLayout`: `%Y` is rendered with four digits, both in the cache-name stamp and in `refTime` (line 341), so `refTime` is 23 characters for every year from 1 to 9999. Python's padding of years below 1000 depends on the platform.
- `Serializer.MakeHeader`: `forecastTime` is `(target - init) / HOUR` on integer microseconds. The source floors a float `total_seconds()`; the two agree except for float rounding.
- `Serializer.MakeHeader`: the naive-datetime branches at lines 336-337 and 343-344 are not modelled. Both instants are always time-zone-aware here, so the `UTC` rendering is the one used.
- Grid values, coordinates and the `dx`/`dy` steps are exact reals. Float rounding in `% 360`, in the subtraction at lines 164-165 and in `item()` is not modelled.
- In the serializer a cell is finite, NaN or an infinity. Numpy's scalar-versus-float distinction (line 376) has no effect on the value and is not modelled.
- `int(len(...) / 2)` at line 16 is taken as `|lon| / 2`. The two agree for every length a float represents exactly.
- The lat/lon of the request reach `fetch_gfs_data`, which never uses them. They are not parameters of the model, and a cache name never depends on them.
- Printing, tracebacks and logging throughout are not modelled.
- Lines 189-329, a duplicate after the `return`, are not part of this model.
- The Flask servers (`python/enhanced_herbie_server.py`, `python/herbie_server.py`) and the browser extension (`checklist-wind-map.js`) are not part of this model. They are I/O and UI plumbing.
- The level is an `int`, and so is the header's `surface1Value` (line 357). The GET routes convert it with `type=int` (`python/enhanced_herbie_server.py:150`, `python/herbie_server.py:68`), but the POST routes pass `data.get('level', 850)` on as the client sent it (`python/enhanced_herbie_server.py:35`, `python/herbie_server.py:42`), and the page script sends strings such as `"850"` (`checklist-wind-map.js:316`). A string level of digits gives the same file name, but the source then writes `surface1Value` as a JSON string. The model cannot represent that string value.
- Concurrent requests are not modelled. The threaded Flask development server that both servers start can serve several requests at once, so two of them can miss the cache and fetch together; the source has no locking.
