# xlivewall, modelled in Dafny

`xlivewall.py` plays a looping video with mpv as the X11 desktop background and keeps only one
instance alive. A launch first picks the video: the first argument that is not a flag (as
written, the program name itself; see Findings), or a random video from a folder. It then probes the player's control socket. If an instance answers, the
launcher *joins* it: it clears the video filters, loads the new video in place of the old one,
sets the new `--vf=` filters and exits. Otherwise the launcher *becomes* the instance:
- it creates a desktop window;
- it builds the mpv command line, with the window id substituted for `WID` and each of nine defaults appended unless an argument already starts with its key;
- it spawns the player and waits for its socket;
- it then turns the arrow-up and arrow-down keys into volume messages until the player exits or a
  signal arrives;
- finally it terminates the player and closes the display.

The model has seven modules:

- `Wrappers` (`wrappers.dfy`): `Option` and `Result`.
- `Text` (`text.dfy`): the string operations the script relies on. These are `startswith`, first and last index of a character, `split(sep, 1)[1]` and ASCII lower-casing.
- `Ipc` (`ipc.dfy`):
  - the socket path and the four control commands the launcher sends;
  - their JSON `command` arrays, and `Parse`, the model's own inverse of those arrays (not the player's parser);
  - the one-line framing of a message.
- `Builder` (`builder.dfy`): `build_cmd`.
  - `WID` replacement with Python's left-to-right, non-overlapping `str.replace`.
  - The window id `0x<hex>`.
  - The ordered defaults table, merged by prefix test against the growing list.
  - The method `BuildCommand` keeps the source's loop over the table and is proved against the specification function `BuildSpec`.
- `Selector` (`selector.dfy`): `pick_video`.
  - The filesystem's answer for the second argument is an input `Listing`, and `random.choice` is an input `roll`.
  - `pathlib`'s `name`/`suffix` and the case-insensitive extension test are modelled.
  - `PickVideo` works in place on an `array` of arguments, as the source mutates `cmd_args[1]`.
- `Volume` (`volume.dfy`): the volume loop.
  - It is a method over a sequence of loop turns. Each turn has the liveness poll's answer and what woke the event wait: an X event, or SIGINT/SIGTERM.
  - It appends `set_property volume` messages to a log.
  - It is proved against the function `Run`, and `Run` is proved equal to an independent description: keys handled, levels, final volume.
- `Launcher` (`launcher.dfy`): `main` as a trace of effects.
  - Inputs are the probe's answer, the window id, readiness, the loop turns and an oracle for whether each message is delivered.
  - The trace covers usage error, selection failure, probe, sends, signal trap, display, window, spawn, readiness wait, terminate and display close, plus the exit status.
  - `Launch` is proved against the function `Expected`. Both take the index where `pick_video`'s fallback scan starts: 0 is the code as written, 1 the corrected scan (see Findings).

Two behaviours of the code that the model keeps as they are:

- An empty invocation is rejected by `argparse`'s `p.error`, which exits with status 2 (xlivewall.py:124-125).
- When the player never opens its socket, the code terminates it and exits 1 without closing the display (xlivewall.py:156-158). The display is released only by process exit, and the trace shows no `CloseDisplay` on that path.

## Model

| member | source | states |
|---|---|---|
| Ipc.Words | xlivewall.py:133-140 | every command the launcher sends is a 2- or 3-element `command` array starting with a string, and `Parse` reads it back as the same command; `Parse` is the model's inverse of the four arrays, not the player's parser, and the launch trace records commands rather than these arrays |
| Ipc.Frame | xlivewall.py:38 | a message on the wire is its JSON text followed by exactly one newline; for JSON without raw newlines, the first newline is the terminator and the first line is the JSON text |
| Builder.SubstituteAll | xlivewall.py:78 | the substituted list has the arguments' length; arguments without `WID` are kept unchanged; with an inert id (non-empty, free of W, I and D) no element holds `WID` afterwards |
| Builder.SubstituteFirstPlaceholder | xlivewall.py:78 | the first `WID` is replaced by the id, the text before it is kept, and replacement carries on after it |
| Builder.SubstituteWithoutPlaceholder | xlivewall.py:78 | an argument without `WID` is left unchanged by the replacement |
| Builder.SubstituteClears | xlivewall.py:78 | with a window id that is non-empty and free of W, I and D, no `WID` remains after replacement, not even one formed across a replaced id |
| Builder.PlaceholderCanReappear | xlivewall.py:78 | an id merely free of `WID` is not enough: replacing in `WIDID` with id `W` yields `WID` again |
| Builder.RebuildCanChange | xlivewall.py:76-93 | for the whole builder with the id `W`: building `WIDID` gives `WID` first, and building that result again gives `W`, so idempotence needs more than a `WID`-free id |
| Builder.Hex | xlivewall.py:149 | `format(id, 'x')` is a non-empty string of lower-case hexadecimal digits that starts with `0` only for the id 0 |
| Builder.HexRoundTrip | xlivewall.py:149 | reading the digits of `Hex(n)` back in base 16 gives `n` |
| Builder.Handle | xlivewall.py:149 | the window id is `0x` followed by lower-case hexadecimal digits whose base-16 value is the window's id, with no leading zero except for id 0; it is free of W, I and D |
| Builder.HandleInjective | xlivewall.py:149 | windows with different ids get different handles |
| Builder.Render | xlivewall.py:92 | a valueless default is its bare key; any other default is `key=value`; both start with the key |
| Builder.Defaults | xlivewall.py:79-89 | the defaults table has nine entries, in the source's order |
| Builder.KeysByThirdChar | xlivewall.py:79-89 | among the nine keys, only `--hwdec` has `h` as its third character, and only `--cache` and `--cache-secs` have `c` |
| Builder.MergeKeepsBase | xlivewall.py:90-93 | the defaults loop keeps the user's arguments as a prefix and appends at most one flag per default |
| Builder.MergeCovers | xlivewall.py:90-92 | after the loop, every default key is a prefix of some argument |
| Builder.MergeAppendsOnlyMissing | xlivewall.py:90-92 | every appended flag is the rendering of a default whose key no user argument starts with |
| Builder.MergeCoveredIsIdentity | xlivewall.py:90-92 | when every key is already covered, nothing is appended |
| Builder.MergeIdempotent | xlivewall.py:90-93 | running the defaults loop on its own output changes nothing |
| Builder.MergeSplit | xlivewall.py:90-92 | the loop over a table split in two is the loop over the second part applied to the result of the first |
| Builder.MergeInOrder | xlivewall.py:90-92 | default t is appended exactly when no element of the list grown so far (user arguments and earlier defaults) starts with its key |
| Builder.BuildCommand | xlivewall.py:76-93 | the built command equals `BuildSpec`; its length is between \|args\| and \|args\|+9; it starts with the substituted user arguments in order; it covers every default key |
| Builder.DefaultsHaveNoPlaceholder | xlivewall.py:79-89 | with an inert window id and a `WID`-free socket path, no rendered default contains `WID` |
| Builder.BuildIdempotent | xlivewall.py:76-93 | building again from a built command, with the same inert id and socket path, gives the same command |
| Builder.HwdecUserWins | xlivewall.py:83-92 | a user `--hwdec=no` stays at its position, and no flag starting with `--hwdec` (such as `--hwdec=auto`) is appended |
| Builder.CacheSecsSuppressesCache | xlivewall.py:84-92 | a user `--cache-secs=10` stays at its position, and no flag starting with `--cache` is appended, so `--cache=yes` is suppressed too |
| Selector.NameIsLastComponent | xlivewall.py:61 | the name of an entry's path is the whole text after its last `/`: a slash-free suffix preceded by a `/`, or the whole path when it has no `/` (as for the entries of `.`) |
| Selector.Suffix | xlivewall.py:62 | a non-empty suffix is a dot and at least one more character, with no further dot, and ends the name; an empty suffix means no dot, a single leading dot, or a trailing dot |
| Selector.CandidatesSound | xlivewall.py:61-62 | every candidate is the path of a regular file whose lower-cased suffix is a video extension |
| Selector.CandidatesComplete | xlivewall.py:61-62 | every regular file with a video extension is a candidate |
| Selector.FirstPlainIsFirst | xlivewall.py:70-72 | the scan finds exactly the first argument not starting with `-`, and finds nothing exactly when all of them do |
| Selector.Select | xlivewall.py:55-74 | Directory branch: failure (no video) iff no entry is a video, else the pick is a video entry. Otherwise: failure (no video specified) iff every scanned argument is a flag, else the pick is the first non-flag |
| Selector.Rewritten | xlivewall.py:68 | only a directory pick overwrites the second argument, with the pick; every other argument is untouched, and without a directory pick nothing changes |
| Selector.EveryCandidateReachable | xlivewall.py:66 | every candidate is returned for some roll, so the model excludes no video the random choice can return |
| Selector.VideoByExtension | xlivewall.py:62 | a regular file `dir/stem.ext` is a video exactly when `.ext`, lower-cased, is in the allowed set |
| Selector.VideoFile | xlivewall.py:61-62 | a regular file `dir/stem` followed by any allowed extension written in lower case is a video |
| Selector.FolderScenario | xlivewall.py:61-62 | a folder with `a.mp4`, `b.mkv` and `notes.txt` has exactly the two videos as candidates, in order |
| Selector.UpperCaseExtension | xlivewall.py:62 | `CLIP.MP4` counts as a video: the extension test ignores case |
| Selector.ProgramNameIsPicked | xlivewall.py:70-72 | as written, the scan returns the program name whenever it is not a flag: `mpv clip.mp4` gives `mpv` |
| Selector.IntendedPicksMedia | xlivewall.py:70-74 | scanning after the program name, `mpv clip.mp4` and `mpv --loop clip.mp4 --vf=...` give `clip.mp4`, and `mpv` alone fails with no video specified |
| Selector.FirstNonFlag | xlivewall.py:70-74 | the loop returns the first index at or after the start whose argument is not a flag, or nothing when every argument there is a flag |
| Selector.PickFrom | xlivewall.py:55-74 | the in-place selection returns `Select` of the original arguments and leaves the array equal to `Rewritten` |
| Selector.PickVideo | xlivewall.py:55-74 | `pick_video` as written, with the fallback scan from index 0 |
| Selector.PickVideoIntended | xlivewall.py:55-74 | `pick_video` with the fallback scan from index 1, the corrected version |
| Volume.Adjust | xlivewall.py:167-170 | arrow up raises by 5 or reaches 100; arrow down lowers by 5 or reaches 0; a level in 0..100 stays in 0..100 |
| Volume.VolumeLoop | xlivewall.py:160-174 | the loop from volume 0 ends with the final volume, message log and end reason of `Run` |
| Volume.Handled | xlivewall.py:162-165 | the loop handles the longest run of live turns that bring an event; the turn after it, if any, is a dead poll or a signal |
| Volume.RunMatchesReference | xlivewall.py:162-174 | the loop sends one message per volume key among the handled turns, carrying the level after that key; it ends with the level after all of them; it stops as still waiting, player exited or interrupted, according to the first unhandled turn |
| Volume.LevelsInRange | xlivewall.py:167-170 | starting in 0..100, every level and the final volume stay in 0..100 |
| Volume.LastLevelIsFinal | xlivewall.py:173-174 | the last level sent is the final volume |
| Volume.SentLevelsInRange | xlivewall.py:160-174 | from 0, every message sets a level in 0..100, the final volume is in 0..100, and the last message carries it |
| Volume.OneMessagePerVolumeKey | xlivewall.py:164-174 | the number of messages equals the number of arrow keys handled, with none for other events or keys |
| Volume.IgnoredTurn | xlivewall.py:164-172 | a turn with a non-key event or another key changes neither the volume nor the messages |
| Volume.UpsSaturate | xlivewall.py:167-168 | n arrow-up presses from v give min(100, v+5n) |
| Volume.DownsSaturate | xlivewall.py:169-170 | n arrow-down presses from v give max(0, v-5n) |
| Volume.ClampedKeysStillSend | xlivewall.py:167-174 | at 100, each further arrow up still sends a message, each with level 100 |
| Volume.ThreeUps | xlivewall.py:160-174 | three arrow-up presses from the start send 5, 10 and 15 and leave the volume at 15 |
| Launcher.VfSpec | xlivewall.py:138-139 | the text after the first `=` of a `--vf=` argument is everything after the `--vf=` prefix: `--vf=hue=h=90` gives `hue=h=90` |
| Launcher.VfSets | xlivewall.py:137-140 | the filter messages are all `vf set`, at most one per argument |
| Launcher.VfSetsAppend | xlivewall.py:137-140 | filter messages follow argument order: those of a concatenation are those of each part in turn |
| Launcher.JoinCommands | xlivewall.py:133-140 | a joining launcher sends `vf clear` first, exactly one `loadfile <video> replace` second, and only `vf set` after that |
| Launcher.JoinStep | xlivewall.py:137-140 | each argument adds one `vf set` message when it starts with `--vf=`, and none otherwise |
| Launcher.JoinInstance | xlivewall.py:130-141 | the Join path's loop of sends yields one `Send` per join command, in order, numbered from 0 |
| Launcher.JoinTrace | xlivewall.py:130-141 | the Join trace is the probe then only sends, and its messages are `vf clear`, `loadfile`, then the filters |
| Launcher.JoinNeverSpawns | xlivewall.py:130-141 | a joining launcher creates no window, spawns and terminates nothing, exits 0, and sends `vf clear`, `loadfile <video> replace`, then one `vf set` per `--vf=` argument in order |
| Launcher.FilterScenario | xlivewall.py:137-140 | for `player video --vf=spec` only the last argument yields a filter message, `vf set spec` |
| Launcher.JoinScenario | xlivewall.py:130-141 | joining with `player video --vf=spec` sends `vf clear`, then `loadfile player replace` as written or `loadfile video replace` with the corrected scan, then `vf set spec` |
| Launcher.HueScenario | xlivewall.py:130-141 | joining with `player clip.mp4 --vf=hue=h=90` sends `vf clear`, then `loadfile player replace` as written or `loadfile clip.mp4 replace` with the corrected scan, then `vf set hue=h=90` |
| Launcher.ProgramAloneDiverges | xlivewall.py:70-74 | for `player` alone, the code as written probes the socket and, with a live instance, sends `vf clear` and `loadfile player replace` and exits 0; the corrected scan fails with no video specified and exits 1 before the probe |
| Launcher.ExitCodes | xlivewall.py:124-178 | for either scan start: exit 2 iff the invocation is empty; exit 1 iff no video was selected or the new player never became ready; still running iff the volume loop is still waiting; every exit status is at most 2 |
| Launcher.SelectionFailureStopsEarly | xlivewall.py:127-130 | for either scan start, a failed selection exits 1 before the socket probe, with no other effect |
| Launcher.BecomeSpawns | xlivewall.py:147-154 | the Become path creates the window fourth and spawns the player fifth, with the arguments' substituted command for that window |
| Launcher.SpawnsForItsWindow | xlivewall.py:147-154 | the player is spawned for the window just created: the id in the command is `0x` and lower-case hexadecimal digits whose base-16 value is the world's window id, and the command starts with the user's arguments with `WID` replaced by that id, plus at most nine further arguments |
| Launcher.BecomeNotReady | xlivewall.py:156-158 | a player that never becomes ready is terminated, as the last effect and only once, the display is never closed, and the run exits 1 |
| Launcher.ReadinessFailure | xlivewall.py:156-158 | the same for a whole launch: readiness failure ends with `Terminate` after the wait, exit 1, no display close and no messages |
| Launcher.BecomeSendsLoopMessages | xlivewall.py:160-177 | the messages sent on the Become path are exactly those of the volume loop |
| Launcher.BecomeTeardown | xlivewall.py:160-177 | once the loop ends, the last two effects are `Terminate` then `CloseDisplay`, neither occurs earlier, and the exit is 0; while it waits, neither has occurred |
| Launcher.Teardown | xlivewall.py:160-177 | the same for a whole launch: whether the player exited or a signal arrived, the player is terminated and the display closed exactly once each, last and in that order |
| Launcher.BecomeIgnoresDelivery | xlivewall.py:35-40 | on the Become path, whether messages arrive changes nothing but the delivery flags |
| Launcher.SendFailuresSwallowed | xlivewall.py:35-40 | a failed send never changes what the run does next or how it exits: two runs that differ only in delivery have the same trace up to delivery flags and the same exit |
| Launcher.Launch | xlivewall.py:115-178 | `main`, with the fallback scan from the given index, produces exactly the trace and exit of `Expected` |
| Launcher.BecomeInstance | xlivewall.py:143-177 | the Become path (window, build, spawn, readiness wait, volume loop, teardown) produces the trace and exit of `Become` |

## Left out

- `wait_socket` (xlivewall.py:42-53) depends on the monotonic clock, sleeps and connect timeouts. Only its boolean outcome is modelled: `World.instanceLive` for the short probe and `World.ready` for the readiness wait. The `--socket-timeout` option only feeds that wait, so it is not modelled.
- `create_window` and the rest of Xlib (xlivewall.py:95-113, 163, 166) are foreign windowing calls.
  - The window id the server assigns is the input `World.windowId`.
  - Events and key symbols are reduced to arrow up, arrow down, another key, or another event.
  - Errors raised by `next_event` are not modelled.
- `subprocess.Popen` and `proc.poll` (xlivewall.py:152-154, 162) are OS process management. Liveness is the `alive` flag of each loop turn. A failure to spawn is not modelled.
- Signals are modelled only while the volume loop waits for an event, where they lead to teardown and exit 0. A signal that arrives after the handlers are installed but before the loop would exit 0 without terminating the spawned player. That window is not modelled.
- Socket I/O in `send_ipc` becomes a `Send` effect whose delivery comes from the oracle `World.delivered`. The JSON encoding of `json.dumps` is not modelled: `Ipc.Frame` takes the encoded text, and `Ipc.Words` gives only the array's elements.
- `Text.Lower` lower-cases ASCII only. Python's `str.lower` also maps non-ASCII capitals. For example, `.MKV` spelled with the Kelvin sign for K lower-cases to `.mkv` in Python, but the model does not treat it as a video.
- `Selector.Name` takes the text after the last `/`. It does not model `pathlib`'s normalisation of repeated or trailing slashes, which `iterdir` never produces.
- `random.choice` becomes the input `roll`, and the pick is candidate `roll % n`. The distribution is not modelled.
- The race between the probe and becoming the instance spans processes: two concurrent launches can both become instances. It is not modelled.
- Logging, the `argparse` help text and the parsing of options other than the remainder are not modelled.
- Launcher.Launch: the index where the fallback scan starts is a parameter, not a constant. With 0 it is `main` as written. With 1 it uses the corrected selection of Findings: a file argument gives that file, and a launch naming only the player exits 1 before the probe instead of joining or becoming the instance with the player's name as its video (`Launcher.ProgramAloneDiverges`).

## Findings

| source | as written | input that shows it | evidently intended | confidence | as-written member | corrected member |
|---|---|---|---|---|---|---|
| xlivewall.py:70-72 | the fallback scan for a video starts at index 0, the program name | `mpv clip.mp4` (no directory): `pick_video` returns `mpv`, so a joining launch sends `loadfile mpv replace` | the scan skips the program name and returns `clip.mp4`, the first non-flag argument after it | not executed | Selector.PickVideo, Selector.ProgramNameIsPicked, Launcher.ProgramAloneDiverges | Selector.PickVideoIntended, Selector.IntendedPicksMedia |
