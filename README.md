# CityEye monitoring loop — a Dafny model

This project models the per-frame decision logic of the camera monitoring
server in `real_server.py` (the `run_ai_loop` producer loop), together with the
seeding of the alert log when the module loads. The loop does four things for
each frame:

- It applies the operator's key commands to three exclusive manual scenario
  flags: littering, kickboard/illegal parking and flyer posting.
- It scans the pose model's skeletons for a smoker with a nose-to-wrist
  distance heuristic. If a manual scenario is active, skeleton 0 is named the
  offender instead.
- It decides, skeleton by skeleton, whether the head is blurred or framed.
- It resolves the frame's violation type by precedence and publishes the
  status snapshot. Log records and the smoking announcement are throttled by
  one shared 3-second timer.

Modules, one per component of the loop:

- `Geometry` (`geometry.dfy`): keypoints, the smoking test and the scan, the
  head box, and the clean-zone rectangle.
- `Violations` (`violations.dfy`): the manual flags, key codes, announcement
  names, the violation types and their precedence, and the offender choice.
- `Redaction` (`redaction.dfy`): the per-skeleton blur/frame loop.
- `Alerts` (`alerts.dfy`): alert records, the status snapshot, the log
  invariants and the seed table with its seeding loop.
- `Producer` (`producer.dfy`): the `Pipeline` class. It holds the state the loop
  keeps across frames: the flags, `lastAudioTime`, the log, the id counter, the
  running total and the snapshot. Its methods are the loop body and the loop.
- `Wrappers` (`wrappers.dfy`): `Option`, which stands for Python's `None`.

Modelling choices:

- Keypoints are pairs of reals.
- Python's `int()` on a float is truncation toward zero (`Trunc`).
- `math.dist(a, b) < 160` is decided on squared distances, which is exact
  because both sides are non-negative. The 999 sentinel becomes 999².
- `cv2.waitKey(1) & 0xFF` is the raw key value modulo 256. This agrees with
  Python for negative values too (`-1 & 0xFF == 255`).
- The wall clock (`time.time()`) is a `now` parameter. The formatted clock
  string is an opaque `clock` parameter.
- Each `random.randint(97, 99)` draw is a parameter required to lie in [97, 99].

`Pipeline.Valid()` is the invariant every method keeps:

- at most one manual flag is set;
- record ids run from the log's length down to 1, newest first;
- the counter is the log's length plus one, and the running total equals the
  log's length;
- every logged confidence lies in [97, 99];
- the snapshot's location and time never change;
- the clock readings at which live records were logged lie more than 3 seconds
  apart, and the newest of them is at most `lastAudioTime`.

`lastAudioTime` is only ever assigned a reading more than 3 seconds past its
old value. So the spacing holds even if the clock goes backwards.

Behaviour of the code that the model keeps as written:

- A keypoint counts as missing for the smoking test when its x is 0. Its y
  value plays no part.
- The head box filters the head x values and the head y values separately.
- A head box is computed, and the head blurred or framed, when the skeleton
  has more than 10 keypoints and at least one non-zero head x and one non-zero
  head y.
- One cooldown timer is shared by the smoking announcement and every manual
  log entry. There is no timer per event type.
- The cooldown test is strict (`> 3.0`).
- The manual scenario keys request their announcement on every press, with no
  cooldown.

## Model

| member | source | states |
|---|---|---|
| `Geometry.Trunc` | real_server.py:173-174 | `int()` truncates toward zero: within 1 of the value and never farther from 0 than the value |
| `Geometry.WristDistSq` | real_server.py:145-146 | the distance used for a wrist is near iff both the nose and the wrist have a non-zero x and their true squared distance is below 160²; it is never negative |
| `Geometry.SqDist` | real_server.py:145-146 | the squared `math.dist` of two keypoints is never negative |
| `Geometry.IsSmoker` | real_server.py:143-155 | a skeleton smokes iff it has more than 10 keypoints, a nose with non-zero x, and a wrist with non-zero x whose squared distance to the nose is below 160²; the 999 sentinel never qualifies |
| `Geometry.FirstSmoker` | real_server.py:142-158 | the scan's index is the smallest index of a smoking skeleton, or -1 when none smokes |
| `Geometry.SmokingScan` | real_server.py:135-158 | the scan loop with its early `break` returns exactly FirstSmoker, and `is_smoking_now` holds iff the index is not -1 |
| `Geometry.MinOf` | real_server.py:173-174 | `min` of a non-empty list is one of its elements and is at most every element |
| `Geometry.MaxOf` | real_server.py:173-174 | `max` of a non-empty list is one of its elements and is at least every element |
| `Geometry.NonZero` | real_server.py:169-170 | the comprehension keeps exactly the coordinates that are not 0 |
| `Geometry.HeadBox` | real_server.py:168-175 | a head box exists iff the skeleton has more than 10 keypoints, a non-zero head x and a non-zero head y; after clamping, min x and min y are at least 0, max x is at most w and max y at most h |
| `Geometry.HeadBoxSides` | real_server.py:169-175 | each side is the extreme detected head coordinate on that side (leftmost x, topmost y, rightmost x, lowest y), truncated, widened by 40/60/40/30 and clamped to the frame |
| `Geometry.HeadBoxCovers` | real_server.py:169-175 | with margins 40/60/30, the box contains every detected head keypoint that lies inside the frame |
| `Geometry.CleanZone` | real_server.py:111 | each side is `int()` of its proportion of the frame (0.65w, 0.2h, 0.95w, 0.7h): at most the exact proportion and less than 1 below it; the region lies inside the frame and is not inverted (the 0.7 side on exact reals, see "Left out") |
| `Violations.KeyCode` | real_server.py:114 | the key code is the byte congruent to the raw value modulo 256 (`& 0xFF`); a byte value passes unchanged, and "no key" (-1) becomes 255 |
| `Violations.ApplyKey` | real_server.py:117-131 | `u` clears all three flags; `l`/`k`/`j` each set exactly their own flag; any other code leaves the flags alone; so at most one flag is ever set |
| `Violations.CommandCues` | real_server.py:117-131 | `u` requests "UNDO", `l` "LITTERING", `k` "PM_VIOLATION", `j` "FLYER"; any other code requests nothing; a key never requests "SMOKING" |
| `Producer.FrameCues` | real_server.py:117-235 | a frame requests at most two announcements: the key's command announcement, if any, and "SMOKING" exactly when the smoking announcement is due |
| `Violations.UpdateType` | real_server.py:205-231 | the frame's type is None iff no flag is set and nobody smokes; otherwise it is a condition that holds and outranks every other that holds (posting > parking > littering > smoking) |
| `Violations.EventActive` | real_server.py:165 | an event is active iff the frame has a violation type, i.e. a manual flag is set or somebody smokes |
| `Violations.Banner` | real_server.py:205-231 | the status bar reads "NORMAL - Monitoring" iff the frame has no violation type |
| `Violations.LabelsDistinct` | real_server.py:205-231 | distinct frame outcomes store distinct type labels (or none), so the snapshot's type names exactly one outcome |
| `Violations.SelectOffender` | real_server.py:160-162 | a manual flag with a non-empty batch names skeleton 0, whatever the scan found; with no flag the smoker stays; there is an offender exactly when an event is active and the batch is non-empty |
| `Redaction.Redact` | real_server.py:164-193 | only skeletons with a head box are drawn, on that box. While an event is active every head except the offender's is blurred; the offender is never blurred and is the only one framed red. With no event nothing is blurred and every head is framed green |
| `Alerts.Publish` | real_server.py:244-255 | the snapshot is "경고" with the type, the detection text and the sampled confidence when there is a type, and "정상" with no type and confidence 0 otherwise; location and time never change |
| `Alerts.LiveRecord` | real_server.py:250 | a live record carries the given id, type, confidence and clock time, the fixed date "2025-01-03", the warning status, the live detection area and the "Live" zone |
| `Alerts.CountsDownDescending` | real_server.py:248-253 | ids that count down from the log's length are strictly decreasing front to back, so none repeats, and all are at least 1 |
| `Alerts.PrependCountsDown` | real_server.py:250-251 | inserting the record with id `log_id_counter` at index 0 keeps the countdown |
| `Alerts.SpacedApart` | real_server.py:248-253 | any two log instants, not only neighbours, lie more than the cooldown apart |
| `Alerts.SeedTableSize` | real_server.py:33-38 | the seed table holds 100 records (35 + 30 + 15 + 20), matching the initial total |
| `Alerts.GroupAtBlock` | real_server.py:41-53 | the nested seeding loops give each group's records the positions right after the earlier groups' records |
| `Alerts.SeedGroups` | real_server.py:33-53 | seeded ids 1-35 are smoking, 36-65 littering, 66-80 parking and 81-100 posting records |
| `Alerts.SeedLogs` | real_server.py:40-54 | after the loops and `reverse()` the log holds ids 100 down to 1, newest first, each with its group's type and place and its own confidence draw, and the counter is 101 |
| `Producer.PrependSpaced` | real_server.py:248-253 | logging only when more than 3 seconds have passed since the timer keeps every pair of log instants more than 3 seconds apart |
| `Producer.Pipeline.constructor` | real_server.py:40-103 | the start state: the seeded log, counter 101 and total 100 (lines 40-57); timer 0 and idle flags (lines 97-103); and the initial snapshot |
| `Producer.Pipeline.Sync` | real_server.py:228-255 | the smoking announcement fires iff the type is smoking and the timer is due. A record is logged iff a manual flag is set and the timer is due; it goes to the front with id `counter`, and the counter and total each rise by 1. Otherwise log, counter and total are unchanged. The timer moves to now exactly when one of these fired |
| `Producer.Pipeline.Process` | real_server.py:117-255 | one frame: the flags after the key; the offender; the redaction decisions; the type; the banner; the clean zone (only for posting); the announcements; the snapshot; and the log, counter, total and timer after the frame, all in terms of the frame's inputs and the old state |
| `Producer.Pipeline.Step` | real_server.py:114-255 | the quit key stops the loop and changes nothing; any other key has exactly the effect stated for Process (`FrameEffect`); either way the old log survives unchanged behind any new record |
| `Producer.Pipeline.Run` | real_server.py:105-115 | frames are processed in order, none of them carrying the quit key, and the loop stops exactly at the first quit key or at the end of the stream; the invariant holds throughout and old records are never altered or removed |

## Left out

- Pose inference (`YOLO`, `model_pose`): a foreign library. The skeletons of a frame are an input sequence.
- A frame whose pose result has no keypoints at all is modelled as an empty batch: no smoker, no offender, no head drawn, and the type decided by the flags alone. The source does not assign `is_event_active` on such a frame. After an earlier frame with keypoints it reuses that frame's value, which only drives the flashing border. Before any frame with keypoints the name is unbound, so the border test raises `UnboundLocalError` and `run_ai_loop` ends without `cap.release()`. That crash is not modelled.
- Camera capture, flipping, `waitKey`, Gaussian blur, drawing, `imshow` and `imencode`: pixel I/O. The model keeps what is decided: blur or frame, the box, the colour role, the banner text and whether the clean zone is drawn.
- The nose-to-wrist guide line drawn below 300 pixels: display only, no effect on any decision.
- The flashing red border (`int(time.time()*8) % 2`): wall-clock display only.
- The confidence label drawn on the offender (a separate random draw): display only. `Framed(box, true)` marks where it is drawn.
- Audio playback (`pyttsx3`) and its detached threads: foreign calls and concurrency. The model records only the scenario names whose announcement was requested.
- The lock-protected `output_frame` handoff, `generate_frames`, `stop_event`, the startup thread and the FastAPI routes with the HTML dashboard: concurrency, transport and UI. Stopping through `stop_event` or a failed camera read is modelled as the end of the frame sequence given to `Pipeline.Run`.
- `time.sleep(0.01)`: rate limiting only.
- `locations_status` and the other `insights_data` fields: the loop never changes them.
- `datetime` formatting of the log time: an opaque string parameter.
- `Geometry.CleanZone`: the proportions are taken on exact reals, not binary floating point, and the 0.7 side differs from the source for 70 of the heights up to 4096, 720 and 1440 among them. At 1280×720 the source computes `720*0.7 == 503.99999999999994` and draws `y2` at 503, where the model gives 504. The 0.65, 0.95 and 0.2 sides agree with the source for every size up to 4096.
- Float rounding elsewhere: keypoint coordinates are exact reals, so a distance or head coordinate that binary floating point rounds across a threshold or an integer is decided as the exact value.
- `Producer.Pipeline.Run`: returns how many frames were processed rather than the displayed frames, and does not chain each frame's effect across the stream; `Producer.Pipeline.Step` states the effect of one frame.
