/**
 * The volume keys of a running background player (xlivewall.py:160-174). The launcher starts at
 * volume 0 and, while the player is alive, waits for X events. Arrow up raises the volume by 5 up to
 * 100. Arrow down lowers it by 5 down to 0. Each of the two sends one `set_property volume` message
 * carrying the new level. Every other event is ignored.
 */
module Volume {
  import opened Ipc

  const Step: int := 5
  const MaxVolume: int := 100

  /** The key symbol of a key press, reduced to what the loop distinguishes. */
  datatype Key = Up | Down | OtherKey

  /** An X event: a key press, or anything else (exposure, structure notifications). */
  datatype Event = KeyPress(key: Key) | OtherEvent

  /** What the blocked `next_event` call returns with: an event, or a SIGINT/SIGTERM. */
  datatype Wake = Input(ev: Event) | Interrupt

  /**
   * One turn of the loop. `alive` is the answer of the liveness poll at its head, `wake` what
   * interrupts the wait for the next event.
   */
  datatype Tick = Tick(alive: bool, wake: Wake)

  /** How the loop ends: the player quit, a signal arrived, or it is still waiting for more events. */
  datatype LoopEnd = PlayerExited | Interrupted | Waiting

  /** What the loop leaves behind: the final volume, the messages sent in order, and how it ended. */
  datatype Outcome = Outcome(vol: int, sent: seq<Command>, end: LoopEnd)

  /** An event that changes the volume. */
  predicate Accepts(ev: Event) {
    ev.KeyPress? && ev.key != OtherKey
  }

  /** The new level after a volume key. */
  function Adjust(vol: int, key: Key): (r: int)
    requires key != OtherKey
    ensures 0 <= vol <= MaxVolume ==> 0 <= r <= MaxVolume
    ensures key == Up ==> (r == vol + Step || r == MaxVolume) && (vol <= MaxVolume ==> vol <= r)
    ensures key == Down ==> (r == vol - Step || r == 0) && (0 <= vol ==> r <= vol)
  {
    if key == Up then
      if vol + Step < MaxVolume then vol + Step else MaxVolume
    else
      if vol - Step > 0 then vol - Step else 0
  }

  /** The behaviour of the loop from volume `vol` on the turns `ticks`. */
  function Run(vol: int, ticks: seq<Tick>): (o: Outcome)
    ensures |o.sent| <= |ticks|
    decreases |ticks|
  {
    if ticks == [] then Outcome(vol, [], Waiting)
    else if !ticks[0].alive then Outcome(vol, [], PlayerExited)
    else match ticks[0].wake
      case Interrupt => Outcome(vol, [], Interrupted)
      case Input(ev) =>
        if Accepts(ev) then
          var v := Adjust(vol, ev.key);
          var o := Run(v, ticks[1..]);
          Outcome(o.vol, [SetVolume(v)] + o.sent, o.end)
        else Run(vol, ticks[1..])
  }

  /** Messages `sent` followed by the outcome `o` of the rest of the loop. */
  function After(sent: seq<Command>, o: Outcome): Outcome {
    Outcome(o.vol, sent + o.sent, o.end)
  }

  /**
   * The loop itself: poll the player, wait for an event, adjust and send. The messages are appended
   * to the returned log in the order they are sent.
   */
  method VolumeLoop(ticks: seq<Tick>) returns (vol: int, log: seq<Command>, end: LoopEnd)
    ensures Outcome(vol, log, end) == Run(0, ticks)
  {
    vol, log, end := 0, [], Waiting;
    var i := 0;
    while i < |ticks| && end == Waiting
      invariant 0 <= i <= |ticks|
      invariant end == Waiting ==> After(log, Run(vol, ticks[i..])) == Run(0, ticks)
      invariant end != Waiting ==> Outcome(vol, log, end) == Run(0, ticks)
      decreases |ticks| - i, if end == Waiting then 1 else 0
    {
      var t := ticks[i];
      assert ticks[i..][1..] == ticks[i + 1..];
      if !t.alive {
        end := PlayerExited;
      } else if t.wake.Interrupt? {
        end := Interrupted;
      } else if Accepts(t.wake.ev) {
        vol := Adjust(vol, t.wake.ev.key);
        log := log + [SetVolume(vol)];
        i := i + 1;
      } else {
        i := i + 1;
      }
    }
  }

  /*
   * An independent description of the loop: it handles the longest run of live turns that bring an
   * event, sends one message per volume key in that run, and stops at the first dead poll or signal.
   */

  /** The number of turns the loop handles before it stops. */
  function Handled(ticks: seq<Tick>): (h: nat)
    ensures h <= |ticks|
    ensures forall k :: 0 <= k < h ==> ticks[k].alive && ticks[k].wake.Input?
    ensures h < |ticks| ==> !(ticks[h].alive && ticks[h].wake.Input?)
  {
    if ticks == [] || !ticks[0].alive || ticks[0].wake.Interrupt? then 0 else 1 + Handled(ticks[1..])
  }

  /** The volume keys among the events of `ticks`, in order. */
  function Keys(ticks: seq<Tick>): (keys: seq<Key>)
    ensures |keys| <= |ticks|
    ensures forall k :: 0 <= k < |keys| ==> keys[k] != OtherKey
  {
    if ticks == [] then []
    else if ticks[0].wake.Input? && Accepts(ticks[0].wake.ev) then [ticks[0].wake.ev.key] + Keys(ticks[1..])
    else Keys(ticks[1..])
  }

  /** The level after each of `keys`, starting from `vol`. */
  function Levels(vol: int, keys: seq<Key>): (levels: seq<int>)
    requires forall k :: 0 <= k < |keys| ==> keys[k] != OtherKey
    ensures |levels| == |keys|
    decreases |keys|
  {
    if keys == [] then [] else var v := Adjust(vol, keys[0]); [v] + Levels(v, keys[1..])
  }

  /** The level after all of `keys`, starting from `vol`. */
  function Final(vol: int, keys: seq<Key>): int
    requires forall k :: 0 <= k < |keys| ==> keys[k] != OtherKey
    decreases |keys|
  {
    if keys == [] then vol else Final(Adjust(vol, keys[0]), keys[1..])
  }

  /** One `set_property volume` message per level. */
  function Messages(levels: seq<int>): (m: seq<Command>)
    ensures |m| == |levels|
    ensures forall k :: 0 <= k < |m| ==> m[k] == SetVolume(levels[k])
  {
    if levels == [] then [] else [SetVolume(levels[0])] + Messages(levels[1..])
  }

  /** The loop agrees with the independent description above. */
  lemma {:induction false} RunMatchesReference(vol: int, ticks: seq<Tick>)
    ensures var h := Handled(ticks); var keys := Keys(ticks[..h]);
      Run(vol, ticks) == Outcome(
        Final(vol, keys),
        Messages(Levels(vol, keys)),
        if h == |ticks| then Waiting else if !ticks[h].alive then PlayerExited else Interrupted)
    decreases |ticks|
  {
    if ticks != [] && ticks[0].alive && ticks[0].wake.Input? {
      var h := Handled(ticks);
      assert ticks[1..][..h - 1] == ticks[..h][1..];
      RunMatchesReference(if Accepts(ticks[0].wake.ev) then Adjust(vol, ticks[0].wake.ev.key) else vol, ticks[1..]);
    }
  }

  /** Starting in range, every level stays within 0..100. */
  lemma {:induction false} LevelsInRange(vol: int, keys: seq<Key>)
    requires 0 <= vol <= MaxVolume
    requires forall k :: 0 <= k < |keys| ==> keys[k] != OtherKey
    ensures forall k :: 0 <= k < |keys| ==> 0 <= Levels(vol, keys)[k] <= MaxVolume
    ensures 0 <= Final(vol, keys) <= MaxVolume
    decreases |keys|
  {
    if keys != [] {
      LevelsInRange(Adjust(vol, keys[0]), keys[1..]);
    }
  }

  /** The last level sent is the volume the loop ends with. */
  lemma {:induction false} LastLevelIsFinal(vol: int, keys: seq<Key>)
    requires forall k :: 0 <= k < |keys| ==> keys[k] != OtherKey
    requires keys != []
    ensures Levels(vol, keys)[|keys| - 1] == Final(vol, keys)
    decreases |keys|
  {
    if |keys| > 1 {
      LastLevelIsFinal(Adjust(vol, keys[0]), keys[1..]);
    }
  }

  /**
   * From the initial volume 0 every message sets a level within 0..100, the final volume is within
   * 0..100, and it is the level of the last message, if any was sent.
   */
  lemma SentLevelsInRange(ticks: seq<Tick>)
    ensures var o := Run(0, ticks);
      && 0 <= o.vol <= MaxVolume
      && (forall k :: 0 <= k < |o.sent| ==> o.sent[k].SetVolume? && 0 <= o.sent[k].level <= MaxVolume)
      && (o.sent != [] ==> o.sent[|o.sent| - 1] == SetVolume(o.vol))
  {
    RunMatchesReference(0, ticks);
    var keys := Keys(ticks[..Handled(ticks)]);
    LevelsInRange(0, keys);
    if keys != [] {
      LastLevelIsFinal(0, keys);
    }
  }

  /** One message per volume key the loop handles: none for other events, other keys or clamping. */
  lemma OneMessagePerVolumeKey(vol: int, ticks: seq<Tick>)
    ensures |Run(vol, ticks).sent| == |Keys(ticks[..Handled(ticks)])|
  {
    RunMatchesReference(vol, ticks);
  }

  /** A turn with an event that is not a volume key changes nothing and sends nothing. */
  lemma IgnoredTurn(vol: int, t: Tick, rest: seq<Tick>)
    requires t.alive && t.wake.Input? && !Accepts(t.wake.ev)
    ensures Run(vol, [t] + rest) == Run(vol, rest)
  {
    assert ([t] + rest)[1..] == rest;
  }

  /** `n` presses of `key`. */
  function Repeat(key: Key, n: nat): (keys: seq<Key>)
    ensures |keys| == n && forall k :: 0 <= k < n ==> keys[k] == key
  {
    if n == 0 then [] else [key] + Repeat(key, n - 1)
  }

  /** Arrow up saturates: `n` presses from `v` give the smaller of 100 and `v + 5n`. */
  lemma {:induction false} UpsSaturate(v: int, n: nat)
    requires 0 <= v <= MaxVolume
    ensures Final(v, Repeat(Up, n)) == if v + Step * n < MaxVolume then v + Step * n else MaxVolume
    decreases n
  {
    if n > 0 {
      assert Repeat(Up, n)[1..] == Repeat(Up, n - 1);
      UpsSaturate(Adjust(v, Up), n - 1);
    }
  }

  /** Arrow down saturates: `n` presses from `v` give the larger of 0 and `v - 5n`. */
  lemma {:induction false} DownsSaturate(v: int, n: nat)
    requires 0 <= v <= MaxVolume
    ensures Final(v, Repeat(Down, n)) == if v - Step * n > 0 then v - Step * n else 0
    decreases n
  {
    if n > 0 {
      assert Repeat(Down, n)[1..] == Repeat(Down, n - 1);
      DownsSaturate(Adjust(v, Down), n - 1);
    }
  }

  /** At the maximum, every further arrow up still sends a message, each with level 100. */
  lemma {:induction false} ClampedKeysStillSend(n: nat)
    ensures forall k :: 0 <= k < n ==> Levels(MaxVolume, Repeat(Up, n))[k] == MaxVolume
  {
    if n > 0 {
      assert Repeat(Up, n)[1..] == Repeat(Up, n - 1);
      ClampedKeysStillSend(n - 1);
    }
  }

  /** Three presses of arrow up from the start send 5, 10 and 15 and leave the volume at 15. */
  lemma ThreeUps()
    ensures var up := Tick(true, Input(KeyPress(Up)));
      Run(0, [up, up, up]) == Outcome(15, [SetVolume(5), SetVolume(10), SetVolume(15)], Waiting)
  {
    var up := Tick(true, Input(KeyPress(Up)));
    assert [up, up, up][1..] == [up, up];
    assert [up, up][1..] == [up];
    assert [up][1..] == [];
    assert Run(10, [up]) == Outcome(15, [SetVolume(15)], Waiting);
    assert Run(5, [up, up]) == Outcome(15, [SetVolume(10), SetVolume(15)], Waiting);
  }
}
