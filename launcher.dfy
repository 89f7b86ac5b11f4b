/**
 * One run of the launcher (xlivewall.py:115-178) as the trace of its effects on the outside world.
 *
 * After choosing the video, the launcher probes the control socket. If a player already answers,
 * it joins that instance: it sends `vf clear`, `loadfile <video> replace` and one `vf set <spec>` per
 * `--vf=<spec>` argument, then returns. Otherwise it becomes the instance. It traps SIGINT and
 * SIGTERM, opens the display, creates the desktop window and spawns the player with the built
 * command line. It then waits for the socket and runs the volume loop. Finally it terminates the
 * player and closes the display.
 */
module Launcher {
  import opened Wrappers
  import opened Text
  import opened Ipc
  import opened Builder
  import opened Selector
  import opened Volume

  /** The effects of one run, in the order they happen. */
  datatype Effect =
    | UsageError                          // argparse rejects an empty invocation
    | SelectionFailed(err: SelectError)   // no video to play
    | Probe(found: bool)                  // the short socket probe and its answer
    | Send(cmd: Command, delivered: bool) // one control message; a failed send is only logged
    | TrapSignals                         // SIGINT and SIGTERM now exit with status 0
    | OpenDisplay
    | CreateWindow(wid: string)
    | Spawn(argv: seq<string>)
    | AwaitReady(ready: bool)             // waiting for the new player's socket, and the outcome
    | Terminate                           // `proc.terminate()` is called; a no-op once the player has exited
    | CloseDisplay

  /** How the run ends: with an exit status, or still inside the volume loop. */
  datatype Exit = Exited(code: nat) | Running

  /**
   * Everything the run observes from outside: what the second argument names on disk, the random
   * roll, the probe's answer, the id the X server gives the window, whether the player's socket
   * becomes ready, the turns of the volume loop, and whether the k-th message sent arrives.
   */
  datatype World = World(
    listing: Listing,
    roll: nat,
    instanceLive: bool,
    windowId: nat,
    ready: bool,
    ticks: seq<Tick>,
    delivered: nat -> bool)

  datatype Session = Session(trace: seq<Effect>, exit: Exit)

  const VfPrefix: string := "--vf="

  /** The filter of a `--vf=` argument: everything after its first `=`, which is the rest of the argument. */
  function VfSpec(arg: string): (spec: string)
    requires StartsWith(arg, VfPrefix)
    ensures spec == arg[|VfPrefix|..]
  {
    assert arg[..5] == VfPrefix;
    assert arg[4] == '=' && '=' !in arg[..4] by {
      assert arg[..4] == "--vf";
    }
    FirstAtFour(arg, AfterFirst(arg, '='));
    AfterFirst(arg, '=')
  }

  /** In an argument starting with `--vf=`, the first `=` is the one at index 4. */
  lemma FirstAtFour(arg: string, rest: string)
    requires |arg| > 4 && arg[4] == '=' && '=' !in arg[..4]
    requires exists i :: 0 <= i < |arg| && arg[i] == '=' && '=' !in arg[..i] && rest == arg[i + 1..]
    ensures rest == arg[5..]
  {
    var i :| 0 <= i < |arg| && arg[i] == '=' && '=' !in arg[..i] && rest == arg[i + 1..];
  }

  /** The `vf set` commands for the `--vf=` arguments, in argument order. */
  function VfSets(args: seq<string>): (cmds: seq<Command>)
    ensures |cmds| <= |args|
    ensures forall k :: 0 <= k < |cmds| ==> cmds[k].VfSet?
    decreases |args|
  {
    if args == [] then []
    else (if StartsWith(args[0], VfPrefix) then [VfSet(VfSpec(args[0]))] else []) + VfSets(args[1..])
  }

  /** The messages a joining launcher sends for `video` and the arguments `args`. */
  function JoinCommands(video: string, args: seq<string>): (cmds: seq<Command>)
    ensures |cmds| >= 2 && cmds[0] == VfClear && cmds[1] == LoadReplace(video)
    ensures forall k :: 2 <= k < |cmds| ==> cmds[k].VfSet?
  {
    [VfClear, LoadReplace(video)] + VfSets(args)
  }

  /** The `Send` effects for `cmds`, the first of them being the `from`-th message of the run. */
  function Deliveries(cmds: seq<Command>, from: nat, delivered: nat -> bool): (effects: seq<Effect>)
    ensures |effects| == |cmds|
    ensures forall k :: 0 <= k < |cmds| ==> effects[k] == Send(cmds[k], delivered(from + k))
    decreases |cmds|
  {
    if cmds == [] then [] else [Send(cmds[0], delivered(from))] + Deliveries(cmds[1..], from + 1, delivered)
  }

  /**
   * What a run does, given the command line and the world, when `pick_video`'s fallback scan starts
   * at `scanFrom`: 0 as the source is written, 1 as intended.
   */
  function Expected(cmd: seq<string>, w: World, scanFrom: nat): Session {
    if cmd == [] then Session([UsageError], Exited(2))
    else
      var r := Select(cmd, w.listing, w.roll, scanFrom);
      if r.Failure? then Session([SelectionFailed(r.error)], Exited(1))
      else
        var args := Rewritten(cmd, w.listing, r);
        if w.instanceLive then Session([Probe(true)] + Deliveries(JoinCommands(r.value, args), 0, w.delivered), Exited(0))
        else Become(args, w)
  }

  /** The run of a launcher that finds no instance and becomes one, with the final arguments `args`. */
  function Become(args: seq<string>, w: World): Session {
    var wid := Handle(w.windowId);
    var setup := [Probe(false), TrapSignals, OpenDisplay, CreateWindow(wid),
                  Spawn(BuildSpec(args, wid, IpcPath)), AwaitReady(w.ready)];
    if !w.ready then Session(setup + [Terminate], Exited(1))
    else
      var o := Run(0, w.ticks);
      var sends := Deliveries(o.sent, 0, w.delivered);
      if o.end == Waiting then Session(setup + sends, Running)
      else Session(setup + sends + [Terminate, CloseDisplay], Exited(0))
  }

  lemma {:induction false} VfSetsAppend(a: seq<string>, b: seq<string>)
    ensures VfSets(a + b) == VfSets(a) + VfSets(b)
    decreases |a|
  {
    if a == [] {
      assert a + b == b;
    } else {
      assert (a + b)[1..] == a[1..] + b;
      VfSetsAppend(a[1..], b);
    }
  }

  lemma {:induction false} DeliveriesAppend(a: seq<Command>, b: seq<Command>, from: nat, delivered: nat -> bool)
    ensures Deliveries(a + b, from, delivered) == Deliveries(a, from, delivered) + Deliveries(b, from + |a|, delivered)
  {
    var lhs, rhs := Deliveries(a + b, from, delivered), Deliveries(a, from, delivered) + Deliveries(b, from + |a|, delivered);
    assert |lhs| == |rhs|;
    forall k | 0 <= k < |lhs| ensures lhs[k] == rhs[k] {
      if k >= |a| {
        assert (a + b)[k] == b[k - |a|];
      }
    }
  }

  /**
   * The loop of the joining launcher: the sends so far are those of the arguments scanned so far,
   * followed by the `vf set` of the next argument when it is a `--vf=` argument.
   */
  lemma JoinStep(video: string, args: seq<string>, i: nat, delivered: nat -> bool)
    requires i < |args|
    ensures var step := if StartsWith(args[i], VfPrefix) then [VfSet(VfSpec(args[i]))] else [];
      var before := JoinCommands(video, args[..i]);
      && JoinCommands(video, args[..i + 1]) == before + step
      && Deliveries(JoinCommands(video, args[..i + 1]), 0, delivered)
         == Deliveries(before, 0, delivered) + Deliveries(step, |before|, delivered)
  {
    assert args[..i + 1] == args[..i] + [args[i]];
    VfSetsAppend(args[..i], [args[i]]);
    assert [args[i]][1..] == [];
    var step := if StartsWith(args[i], VfPrefix) then [VfSet(VfSpec(args[i]))] else [];
    var before := JoinCommands(video, args[..i]);
    assert JoinCommands(video, args[..i + 1]) == before + step;
    DeliveriesAppend(before, step, 0, delivered);
  }

  /** The commands of the `Send` effects of `trace`, in order. */
  function Sent(trace: seq<Effect>): (cmds: seq<Command>)
    ensures |cmds| <= |trace|
    decreases |trace|
  {
    if trace == [] then [] else SentBy(trace[0]) + Sent(trace[1..])
  }

  function SentBy(e: Effect): seq<Command> {
    if e.Send? then [e.cmd] else []
  }

  /** `trace` with the outcome of every send forgotten. */
  function Control(trace: seq<Effect>): (c: seq<Effect>)
    ensures |c| == |trace|
    ensures forall k :: 0 <= k < |trace| ==> c[k] == if trace[k].Send? then Send(trace[k].cmd, true) else trace[k]
    decreases |trace|
  {
    if trace == [] then [] else [if trace[0].Send? then Send(trace[0].cmd, true) else trace[0]] + Control(trace[1..])
  }

  lemma {:induction false} SentAppend(a: seq<Effect>, b: seq<Effect>)
    ensures Sent(a + b) == Sent(a) + Sent(b)
    decreases |a|
  {
    if a == [] {
      assert a + b == b;
    } else {
      assert (a + b)[0] == a[0] && (a + b)[1..] == a[1..] + b;
      SentAppend(a[1..], b);
    }
  }

  lemma {:induction false} SentWithoutSends(trace: seq<Effect>)
    requires forall k :: 0 <= k < |trace| ==> !trace[k].Send?
    ensures Sent(trace) == []
    decreases |trace|
  {
    if trace != [] {
      SentWithoutSends(trace[1..]);
    }
  }

  lemma {:induction false} SentOfDeliveries(cmds: seq<Command>, from: nat, delivered: nat -> bool)
    ensures Sent(Deliveries(cmds, from, delivered)) == cmds
    decreases |cmds|
  {
    if cmds != [] {
      var d := Deliveries(cmds, from, delivered);
      assert d[1..] == Deliveries(cmds[1..], from + 1, delivered);
      SentOfDeliveries(cmds[1..], from + 1, delivered);
    }
  }

  lemma ControlAppend(a: seq<Effect>, b: seq<Effect>)
    ensures Control(a + b) == Control(a) + Control(b)
  {
    assert |Control(a + b)| == |Control(a) + Control(b)|;
    forall k | 0 <= k < |a + b| ensures Control(a + b)[k] == (Control(a) + Control(b))[k] {
      if k >= |a| {
        assert (a + b)[k] == b[k - |a|];
      }
    }
  }

  lemma ControlOfDeliveries(cmds: seq<Command>, from: nat, d1: nat -> bool, d2: nat -> bool)
    ensures Control(Deliveries(cmds, from, d1)) == Control(Deliveries(cmds, from, d2))
  {
    assert |Control(Deliveries(cmds, from, d1))| == |Control(Deliveries(cmds, from, d2))|;
  }

  lemma BecomeIgnoresDelivery(args: seq<string>, w: World, other: nat -> bool)
    ensures var s, t := Become(args, w), Become(args, w.(delivered := other));
      Control(s.trace) == Control(t.trace) && s.exit == t.exit
  {
    var v := w.(delivered := other);
    if w.ready {
      var wid := Handle(w.windowId);
      var setup := [Probe(false), TrapSignals, OpenDisplay, CreateWindow(wid),
                    Spawn(BuildSpec(args, wid, IpcPath)), AwaitReady(w.ready)];
      var o := Run(0, w.ticks);
      ControlOfDeliveries(o.sent, 0, w.delivered, other);
      ControlAppend(setup, Deliveries(o.sent, 0, w.delivered));
      ControlAppend(setup, Deliveries(o.sent, 0, other));
      ControlAppend(setup + Deliveries(o.sent, 0, w.delivered), [Terminate, CloseDisplay]);
      ControlAppend(setup + Deliveries(o.sent, 0, other), [Terminate, CloseDisplay]);
    }
  }

  /** Whether a message arrives never changes what the run does next: a failed send is only logged. */
  lemma SendFailuresSwallowed(cmd: seq<string>, w: World, scanFrom: nat, other: nat -> bool)
    ensures var s, t := Expected(cmd, w, scanFrom), Expected(cmd, w.(delivered := other), scanFrom);
      Control(s.trace) == Control(t.trace) && s.exit == t.exit
  {
    if cmd != [] {
      var r := Select(cmd, w.listing, w.roll, scanFrom);
      if r.Success? {
        var args := Rewritten(cmd, w.listing, r);
        if w.instanceLive {
          var cmds := JoinCommands(r.value, args);
          ControlOfDeliveries(cmds, 0, w.delivered, other);
          ControlAppend([Probe(true)], Deliveries(cmds, 0, w.delivered));
          ControlAppend([Probe(true)], Deliveries(cmds, 0, other));
        } else {
          BecomeIgnoresDelivery(args, w, other);
        }
      }
    }
  }

  /** The exit status: 2 for a usage error, 1 when no video or no ready player, otherwise 0 or still running. */
  lemma ExitCodes(cmd: seq<string>, w: World, scanFrom: nat)
    ensures var s, r := Expected(cmd, w, scanFrom), Select(cmd, w.listing, w.roll, scanFrom);
      && (s.exit == Exited(2) <==> cmd == [])
      && (s.exit == Exited(1) <==> cmd != [] && (r.Failure? || (!w.instanceLive && !w.ready)))
      && (s.exit == Running <==>
            cmd != [] && r.Success? && !w.instanceLive && w.ready && Run(0, w.ticks).end == Waiting)
      && (s.exit.Exited? ==> s.exit.code <= 2)
  {
  }

  /** Without a video the run stops before probing the socket and before any other effect. */
  lemma SelectionFailureStopsEarly(cmd: seq<string>, w: World, scanFrom: nat)
    requires cmd != [] && Select(cmd, w.listing, w.roll, scanFrom).Failure?
    ensures var s := Expected(cmd, w, scanFrom);
      && s.exit == Exited(1)
      && forall k :: 0 <= k < |s.trace| ==> s.trace[k].SelectionFailed?
  {
  }

  /**
   * A launcher that finds a running instance opens no window, spawns nothing, terminates nothing and
   * exits normally. Its messages are `vf clear`, `loadfile <video> replace`, then one `vf set` per
   * `--vf=` argument in order.
   */
  lemma JoinNeverSpawns(cmd: seq<string>, w: World, scanFrom: nat)
    requires cmd != [] && w.instanceLive
    requires Select(cmd, w.listing, w.roll, scanFrom).Success?
    ensures var s, r := Expected(cmd, w, scanFrom), Select(cmd, w.listing, w.roll, scanFrom);
      && s.exit == Exited(0)
      && s.trace[0] == Probe(true)
      && (forall k :: 1 <= k < |s.trace| ==> s.trace[k].Send?)
      && Sent(s.trace) == [VfClear, LoadReplace(r.value)] + VfSets(Rewritten(cmd, w.listing, r))
  {
    var r := Select(cmd, w.listing, w.roll, scanFrom);
    JoinsInstance(cmd, w, scanFrom);
    JoinTrace(r.value, Rewritten(cmd, w.listing, r), w.delivered);
  }

  /** The run of a launcher that finds an instance and has a video. */
  lemma JoinsInstance(cmd: seq<string>, w: World, scanFrom: nat)
    requires cmd != [] && w.instanceLive
    requires Select(cmd, w.listing, w.roll, scanFrom).Success?
    ensures var r := Select(cmd, w.listing, w.roll, scanFrom);
      Expected(cmd, w, scanFrom) == Session([Probe(true)] + Deliveries(JoinCommands(r.value, Rewritten(cmd, w.listing, r)), 0, w.delivered), Exited(0))
  {
  }

  lemma JoinTrace(video: string, args: seq<string>, delivered: nat -> bool)
    ensures var trace := [Probe(true)] + Deliveries(JoinCommands(video, args), 0, delivered);
      && trace[0] == Probe(true)
      && (forall k :: 1 <= k < |trace| ==> trace[k].Send?)
      && Sent(trace) == [VfClear, LoadReplace(video)] + VfSets(args)
  {
    var cmds := JoinCommands(video, args);
    SentAppend([Probe(true)], Deliveries(cmds, 0, delivered));
    SentOfDeliveries(cmds, 0, delivered);
    SentWithoutSends([Probe(true)]);
  }

  /** The run of a launcher that finds no instance and has a video. */
  lemma BecomesInstance(cmd: seq<string>, w: World, scanFrom: nat)
    requires cmd != [] && !w.instanceLive
    requires Select(cmd, w.listing, w.roll, scanFrom).Success?
    ensures Expected(cmd, w, scanFrom) == Become(Rewritten(cmd, w.listing, Select(cmd, w.listing, w.roll, scanFrom)), w)
  {
  }

  lemma BecomeNotReady(args: seq<string>, w: World)
    requires !w.ready
    ensures var s := Become(args, w);
      && s.exit == Exited(1)
      && |s.trace| >= 2 && s.trace[|s.trace| - 1] == Terminate && s.trace[|s.trace| - 2] == AwaitReady(false)
      && (forall k :: 0 <= k < |s.trace| - 1 ==> s.trace[k] != Terminate)
      && (forall k :: 0 <= k < |s.trace| ==> s.trace[k] != CloseDisplay)
      && Sent(s.trace) == []
  {
    SentWithoutSends(Become(args, w).trace);
  }

  /** If the new player never opens its socket, it is terminated and the run exits with 1; the display is left open. */
  lemma ReadinessFailure(cmd: seq<string>, w: World, scanFrom: nat)
    requires cmd != [] && !w.instanceLive && !w.ready
    requires Select(cmd, w.listing, w.roll, scanFrom).Success?
    ensures var s := Expected(cmd, w, scanFrom);
      && s.exit == Exited(1)
      && |s.trace| >= 2 && s.trace[|s.trace| - 1] == Terminate && s.trace[|s.trace| - 2] == AwaitReady(false)
      && (forall k :: 0 <= k < |s.trace| - 1 ==> s.trace[k] != Terminate)
      && (forall k :: 0 <= k < |s.trace| ==> s.trace[k] != CloseDisplay)
      && Sent(s.trace) == []
  {
    BecomesInstance(cmd, w, scanFrom);
    BecomeNotReady(Rewritten(cmd, w.listing, Select(cmd, w.listing, w.roll, scanFrom)), w);
  }

  lemma BecomeSendsLoopMessages(args: seq<string>, w: World)
    requires w.ready
    ensures Sent(Become(args, w).trace) == Run(0, w.ticks).sent
  {
    var wid := Handle(w.windowId);
    var setup := [Probe(false), TrapSignals, OpenDisplay, CreateWindow(wid),
                  Spawn(BuildSpec(args, wid, IpcPath)), AwaitReady(true)];
    var o := Run(0, w.ticks);
    var sends := Deliveries(o.sent, 0, w.delivered);
    assert Become(args, w).trace == if o.end == Waiting then setup + sends else setup + sends + [Terminate, CloseDisplay];
    SentOfDeliveries(o.sent, 0, w.delivered);
    SentWithoutSends(setup);
    SentAppend(setup, sends);
    if o.end != Waiting {
      SentWithoutSends([Terminate, CloseDisplay]);
      SentAppend(setup + sends, [Terminate, CloseDisplay]);
    }
  }

  lemma BecomeTeardown(args: seq<string>, w: World)
    requires w.ready
    ensures var s, o := Become(args, w), Run(0, w.ticks);
      && (o.end != Waiting ==>
            && s.exit == Exited(0)
            && |s.trace| >= 2 && s.trace[|s.trace| - 2] == Terminate && s.trace[|s.trace| - 1] == CloseDisplay
            && forall k :: 0 <= k < |s.trace| - 2 ==> s.trace[k] != Terminate && s.trace[k] != CloseDisplay)
      && (o.end == Waiting ==>
            && s.exit == Running
            && forall k :: 0 <= k < |s.trace| ==> s.trace[k] != Terminate && s.trace[k] != CloseDisplay)
  {
    var wid := Handle(w.windowId);
    var setup := [Probe(false), TrapSignals, OpenDisplay, CreateWindow(wid),
                  Spawn(BuildSpec(args, wid, IpcPath)), AwaitReady(true)];
    var o := Run(0, w.ticks);
    var body := setup + Deliveries(o.sent, 0, w.delivered);
    assert Become(args, w).trace == if o.end == Waiting then body else body + [Terminate, CloseDisplay];
    forall k | 0 <= k < |body| ensures body[k] != Terminate && body[k] != CloseDisplay {
      if k >= |setup| {
        assert body[k].Send?;
      }
    }
  }

  /**
   * Once the volume loop ends, because the player quit or a signal arrived, the player is
   * terminated and the display closed, exactly once each and in that order, as the very last
   * effects, and the run exits with 0. While the loop is still waiting neither has happened.
   */
  lemma Teardown(cmd: seq<string>, w: World, scanFrom: nat)
    requires cmd != [] && !w.instanceLive && w.ready
    requires Select(cmd, w.listing, w.roll, scanFrom).Success?
    ensures var s, o := Expected(cmd, w, scanFrom), Run(0, w.ticks);
      && Sent(s.trace) == o.sent
      && (o.end != Waiting ==>
            && s.exit == Exited(0)
            && |s.trace| >= 2 && s.trace[|s.trace| - 2] == Terminate && s.trace[|s.trace| - 1] == CloseDisplay
            && forall k :: 0 <= k < |s.trace| - 2 ==> s.trace[k] != Terminate && s.trace[k] != CloseDisplay)
      && (o.end == Waiting ==>
            && s.exit == Running
            && forall k :: 0 <= k < |s.trace| ==> s.trace[k] != Terminate && s.trace[k] != CloseDisplay)
  {
    BecomesInstance(cmd, w, scanFrom);
    var args := Rewritten(cmd, w.listing, Select(cmd, w.listing, w.roll, scanFrom));
    BecomeSendsLoopMessages(args, w);
    BecomeTeardown(args, w);
  }

  /**
   * The player is spawned for the window just created: the window id in the command is `0x` and the
   * base-16 digits of the id the server gave the window, and the command starts with the user's
   * arguments, their `WID`s replaced by it.
   */
  lemma SpawnsForItsWindow(cmd: seq<string>, w: World, scanFrom: nat)
    requires cmd != [] && !w.instanceLive
    requires Select(cmd, w.listing, w.roll, scanFrom).Success?
    ensures var s, args := Expected(cmd, w, scanFrom), Rewritten(cmd, w.listing, Select(cmd, w.listing, w.roll, scanFrom));
      SpawnedFor(s.trace, args, w.windowId)
  {
    BecomesInstance(cmd, w, scanFrom);
    BecomeSpawns(Rewritten(cmd, w.listing, Select(cmd, w.listing, w.roll, scanFrom)), w);
  }

  /**
   * The fourth effect creates a window named `0x` and the base-16 digits of `id`, and the fifth spawns
   * a player for it with the arguments `args`.
   */
  predicate SpawnedFor(trace: seq<Effect>, args: seq<string>, id: nat) {
    && |trace| >= 6 && trace[3].CreateWindow? && trace[4].Spawn?
    && var wid, argv := trace[3].wid, trace[4].argv;
    && |wid| > 2 && wid[..2] == "0x"
    && (forall i :: 2 <= i < |wid| ==> wid[i] in HexDigits)
    && HexValue(wid[2..]) == id && (wid[2] == '0' <==> id == 0)
    && |args| <= |argv| <= |args| + 9
    && forall i :: 0 <= i < |args| ==> argv[i] == Substitute(args[i], wid)
  }

  lemma BecomeSpawns(args: seq<string>, w: World)
    ensures SpawnedFor(Become(args, w).trace, args, w.windowId)
  {
    var wid := Handle(w.windowId);
    var argv := BuildSpec(args, wid, IpcPath);
    MergeKeepsBase(SubstituteAll(args, wid), Defaults(wid, IpcPath));
    assert argv[..|args|] == SubstituteAll(args, wid);
    assert forall i :: 0 <= i < |args| ==> argv[i] == argv[..|args|][i];
    var trace := Become(args, w).trace;
    assert trace[3] == CreateWindow(wid) && trace[4] == Spawn(argv);
  }

  lemma VfSetsOfOne(arg: string)
    ensures VfSets([arg]) == if StartsWith(arg, VfPrefix) then [VfSet(arg[|VfPrefix|..])] else []
  {
    assert [arg][1..] == [];
  }

  lemma PlainArgumentHasNoFilter(arg: string)
    requires |arg| > 0 && arg[0] != '-'
    ensures VfSets([arg]) == []
  {
    VfSetsOfOne(arg);
  }

  lemma FilterArgument(spec: string)
    ensures VfSets([VfPrefix + spec]) == [VfSet(spec)]
  {
    VfSetsOfOne(VfPrefix + spec);
    assert (VfPrefix + spec)[..|VfPrefix|] == VfPrefix && (VfPrefix + spec)[|VfPrefix|..] == spec;
  }

  /** `player video --vf=spec`: only the last argument carries a filter, `spec`. */
  lemma FilterScenario(player: string, video: string, spec: string)
    requires |player| > 0 && player[0] != '-' && |video| > 0 && video[0] != '-'
    ensures VfSets([player, video, VfPrefix + spec]) == [VfSet(spec)]
  {
    PlainArgumentHasNoFilter(player);
    PlainArgumentHasNoFilter(video);
    FilterArgument(spec);
    VfSetsAppend([player], [video]);
    assert [player] + [video] == [player, video];
    VfSetsAppend([player, video], [VfPrefix + spec]);
    assert [player, video] + [VfPrefix + spec] == [player, video, VfPrefix + spec];
  }

  /**
   * Joining a running instance with `player video --vf=spec`, where neither of the first two is a
   * flag and the second is not a directory, clears the filters and sets the filter `spec`. With the
   * scan as intended it loads `video` in place of the current video; as written it loads `player`.
   */
  lemma JoinScenario(w: World, player: string, video: string, spec: string)
    requires w.instanceLive && w.listing == NotADirectory
    requires |player| > 0 && player[0] != '-' && |video| > 0 && video[0] != '-'
    ensures var cmd := [player, video, VfPrefix + spec];
      && Sent(Expected(cmd, w, 1).trace) == [VfClear, LoadReplace(video), VfSet(spec)]
      && Sent(Expected(cmd, w, 0).trace) == [VfClear, LoadReplace(player), VfSet(spec)]
  {
    var cmd := [player, video, VfPrefix + spec];
    assert Select(cmd, NotADirectory, w.roll, 1) == Success(video) by {
      assert !IsFlag(cmd[1]);
    }
    assert Select(cmd, NotADirectory, w.roll, 0) == Success(player) by {
      assert !IsFlag(cmd[0]);
    }
    JoinNeverSpawns(cmd, w, 1);
    JoinNeverSpawns(cmd, w, 0);
    FilterScenario(player, video, spec);
  }

  /**
   * `player clip.mp4 --vf=hue=h=90` joining: `vf clear`, `loadfile clip.mp4 replace` and
   * `vf set hue=h=90` as intended; as written the second message is `loadfile player replace`.
   */
  lemma HueScenario(w: World)
    requires w.instanceLive && w.listing == NotADirectory
    ensures var cmd := ["player", "clip.mp4", "--vf=hue=h=90"];
      && Sent(Expected(cmd, w, 1).trace) == [VfClear, LoadReplace("clip.mp4"), VfSet("hue=h=90")]
      && Sent(Expected(cmd, w, 0).trace) == [VfClear, LoadReplace("player"), VfSet("hue=h=90")]
  {
    JoinScenario(w, "player", "clip.mp4", "hue=h=90");
    assert VfPrefix + "hue=h=90" == "--vf=hue=h=90";
  }

  /**
   * A launch naming only the player, `player`: as written the scan takes the program name for the
   * video, so the run probes the socket and, with an instance alive, loads `player` in its place and
   * exits 0. With the scan as intended no video is specified, and the run exits 1 before the probe.
   */
  lemma ProgramAloneDiverges(w: World, player: string)
    requires |player| > 0 && player[0] != '-'
    ensures var written := Expected([player], w, 0);
      && |written.trace| > 0 && written.trace[0] == Probe(w.instanceLive)
      && (w.instanceLive ==> written.exit == Exited(0) && Sent(written.trace) == [VfClear, LoadReplace(player)])
    ensures Expected([player], w, 1) == Session([SelectionFailed(NoVideoSpecified)], Exited(1))
  {
    assert Select([player], w.listing, w.roll, 0) == Success(player) by {
      assert !IsFlag([player][0]);
    }
    if w.instanceLive {
      JoinNeverSpawns([player], w, 0);
      PlainArgumentHasNoFilter(player);
    }
  }

  /** The launcher's `main`, with the outside world given as `w` and the fallback scan from `scanFrom`. */
  method Launch(cmd: seq<string>, w: World, scanFrom: nat) returns (trace: seq<Effect>, exit: Exit)
    ensures Session(trace, exit) == Expected(cmd, w, scanFrom)
  {
    if cmd == [] {
      return [UsageError], Exited(2);
    }
    var cmdArgs := new string[|cmd|](i requires 0 <= i < |cmd| => cmd[i]);
    assert cmdArgs[..] == cmd;
    var r := PickFrom(cmdArgs, w.listing, w.roll, scanFrom);
    if r.Failure? {
      return [SelectionFailed(r.error)], Exited(1);
    }
    var args := cmdArgs[..];
    if w.instanceLive {
      var sends := JoinInstance(r.value, args, w.delivered);
      return [Probe(true)] + sends, Exited(0);
    }
    trace, exit := BecomeInstance(args, w);
  }

  /** The joining launcher: send the messages one by one, numbering them from 0. */
  method JoinInstance(video: string, args: seq<string>, delivered: nat -> bool) returns (sends: seq<Effect>)
    ensures sends == Deliveries(JoinCommands(video, args), 0, delivered)
  {
    sends := [Send(VfClear, delivered(0)), Send(LoadReplace(video), delivered(1))];
    var i := 0;
    assert args[..0] == [];
    while i < |args|
      invariant 0 <= i <= |args|
      invariant sends == Deliveries(JoinCommands(video, args[..i]), 0, delivered)
    {
      JoinStep(video, args, i, delivered);
      if StartsWith(args[i], VfPrefix) {
        sends := sends + [Send(VfSet(VfSpec(args[i])), delivered(|sends|))];
      }
      i := i + 1;
    }
    assert args[..|args|] == args;
  }

  /** The launcher that becomes the instance: window, player, volume loop and teardown. */
  method BecomeInstance(args: seq<string>, w: World) returns (trace: seq<Effect>, exit: Exit)
    ensures Session(trace, exit) == Become(args, w)
  {
    var wid := Handle(w.windowId);
    var argv := BuildCommand(args, wid, IpcPath);
    trace := [Probe(false), TrapSignals, OpenDisplay, CreateWindow(wid), Spawn(argv), AwaitReady(w.ready)];
    if !w.ready {
      return trace + [Terminate], Exited(1);
    }
    var vol, log, end := VolumeLoop(w.ticks);
    trace := trace + Deliveries(log, 0, w.delivered);
    if end == Waiting {
      return trace, Running;
    }
    return trace + [Terminate, CloseDisplay], Exited(0);
  }
}
