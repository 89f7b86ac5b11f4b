/**
 * The mpv command line (xlivewall.py:76-93): every `WID` in the user's arguments becomes the
 * window id, then each of nine defaults is appended unless an argument already starts with its key.
 */
module Builder {
  import opened Wrappers
  import opened Text

  // ---------------------------------------------------------------------------------------------
  // The `WID` placeholder

  /** `s` holds the placeholder `WID` at index `i`. */
  predicate PlaceholderAt(s: string, i: int) {
    0 <= i && i + 3 <= |s| && s[i] == 'W' && s[i + 1] == 'I' && s[i + 2] == 'D'
  }

  predicate HasPlaceholder(s: string) {
    exists i :: 0 <= i < |s| && PlaceholderAt(s, i)
  }

  /** `s.replace("WID", wid)`: occurrences are replaced left to right and never overlap. */
  function Substitute(s: string, wid: string): string
    decreases |s|
  {
    if |s| < 3 then s
    else if PlaceholderAt(s, 0) then wid + Substitute(s[3..], wid)
    else [s[0]] + Substitute(s[1..], wid)
  }

  /**
   * `[arg.replace('WID', wid) for arg in args]`: arguments without a placeholder are kept as they
   * are, and with an inert id no argument holds a placeholder afterwards.
   */
  function SubstituteAll(args: seq<string>, wid: string): (r: seq<string>)
    ensures |r| == |args| && forall i :: 0 <= i < |args| ==> r[i] == Substitute(args[i], wid)
    ensures forall i :: 0 <= i < |args| && !HasPlaceholder(args[i]) ==> r[i] == args[i]
    ensures Inert(wid) ==> forall i :: 0 <= i < |r| ==> !HasPlaceholder(r[i])
  {
    assert forall i :: 0 <= i < |args| && !HasPlaceholder(args[i]) ==> Substitute(args[i], wid) == args[i] by {
      forall i | 0 <= i < |args| && !HasPlaceholder(args[i]) ensures Substitute(args[i], wid) == args[i] {
        SubstituteWithoutPlaceholder(args[i], wid);
      }
    }
    assert Inert(wid) ==> forall i :: 0 <= i < |args| ==> !HasPlaceholder(Substitute(args[i], wid)) by {
      if Inert(wid) {
        forall i | 0 <= i < |args| ensures !HasPlaceholder(Substitute(args[i], wid)) {
          SubstituteClears(args[i], wid);
        }
      }
    }
    seq(|args|, i requires 0 <= i < |args| => Substitute(args[i], wid))
  }

  /** A window id that cannot take part in a `WID`: non-empty, and none of its characters is W, I or D. */
  predicate Inert(wid: string) {
    |wid| > 0 && forall i :: 0 <= i < |wid| ==> wid[i] != 'W' && wid[i] != 'I' && wid[i] != 'D'
  }

  /** No character of `s` is the letter W. */
  predicate NoW(s: string) {
    forall i :: 0 <= i < |s| ==> s[i] != 'W'
  }

  /** Text without a placeholder is left as it is. */
  lemma {:induction false} SubstituteWithoutPlaceholder(s: string, wid: string)
    requires !HasPlaceholder(s)
    ensures Substitute(s, wid) == s
    decreases |s|
  {
    if |s| >= 3 {
      assert !PlaceholderAt(s, 0);
      forall i | PlaceholderAt(s[1..], i) ensures false {
        assert PlaceholderAt(s, i + 1);
      }
      SubstituteWithoutPlaceholder(s[1..], wid);
    }
  }

  /** The first `WID` of a string is replaced by the id, and substitution carries on after it. */
  lemma {:induction false} SubstituteFirstPlaceholder(a: string, b: string, wid: string)
    requires forall i :: 0 <= i < |a| ==> !PlaceholderAt(a + "WID" + b, i)
    ensures Substitute(a + "WID" + b, wid) == a + wid + Substitute(b, wid)
    decreases |a|
  {
    var s := a + "WID" + b;
    if a == [] {
      assert s == "WID" + b && PlaceholderAt(s, 0);
      assert s[3..] == b;
    } else {
      assert !PlaceholderAt(s, 0);
      assert s[1..] == a[1..] + "WID" + b;
      forall i | 0 <= i < |a[1..]| ensures !PlaceholderAt(a[1..] + "WID" + b, i) {
        assert !PlaceholderAt(s, i + 1);
      }
      SubstituteFirstPlaceholder(a[1..], b, wid);
      assert a + wid + Substitute(b, wid) == [a[0]] + (a[1..] + wid + Substitute(b, wid));
    }
  }

  /** After substitution with an inert id, the first character is only an I or a D when the input's was. */
  lemma SubstituteFirst(t: string, wid: string)
    requires Inert(wid) && |t| > 0
    ensures |Substitute(t, wid)| > 0
    ensures Substitute(t, wid)[0] == 'I' || Substitute(t, wid)[0] == 'D' ==> Substitute(t, wid)[0] == t[0]
  {
    if |t| >= 3 && PlaceholderAt(t, 0) {
      assert Substitute(t, wid)[0] == wid[0];
    }
  }

  /** With an inert id, no placeholder survives substitution, not even one formed across a replacement. */
  lemma {:induction false} SubstituteClears(s: string, wid: string)
    requires Inert(wid)
    ensures !HasPlaceholder(Substitute(s, wid))
    decreases |s|
  {
    var r := Substitute(s, wid);
    if |s| < 3 {
      forall i | PlaceholderAt(r, i) ensures false { }
    } else if PlaceholderAt(s, 0) {
      var rest := Substitute(s[3..], wid);
      SubstituteClears(s[3..], wid);
      assert r == wid + rest;
      forall i | PlaceholderAt(r, i) ensures false {
        if i >= |wid| {
          assert PlaceholderAt(rest, i - |wid|);
        }
      }
    } else {
      var t := s[1..];
      var rest := Substitute(t, wid);
      SubstituteClears(t, wid);
      assert r == [s[0]] + rest;
      forall i | PlaceholderAt(r, i) ensures false {
        if i > 0 {
          assert PlaceholderAt(rest, i - 1);
        } else {
          SubstituteFirst(t, wid);
        }
      }
    }
  }

  /** Placeholder-free text stays placeholder-free after a W-free prefix. */
  lemma NoPlaceholderAfterNoW(a: string, b: string)
    requires NoW(a) && !HasPlaceholder(b)
    ensures !HasPlaceholder(a + b)
  {
    forall i | PlaceholderAt(a + b, i) ensures false {
      if i >= |a| {
        assert PlaceholderAt(b, i - |a|);
      }
    }
  }

  /** An id merely free of `WID` is not enough for a second build to leave the arguments alone. */
  lemma PlaceholderCanReappear()
    ensures !HasPlaceholder("W") && Substitute("WIDID", "W") == "WID" && HasPlaceholder("WID")
  {
    assert PlaceholderAt("WID", 0);
    assert Substitute("ID", "W") == "ID";
  }

  // ---------------------------------------------------------------------------------------------
  // The window id handle, `f'0x{win.id:x}'`

  const HexDigits: string := "0123456789abcdef"

  /** The value of one lower-case hexadecimal digit. */
  function DigitValue(c: char): (d: nat)
    ensures c in HexDigits ==> d < 16 && HexDigits[d] == c
  {
    if '0' <= c <= '9' then c as int - '0' as int
    else if 'a' <= c <= 'f' then c as int - 'a' as int + 10
    else 0
  }

  /** The number a string of hexadecimal digits denotes in base 16, most significant digit first. */
  function HexValue(s: string): nat
    decreases |s|
  {
    if s == [] then 0 else HexValue(s[..|s| - 1]) * 16 + DigitValue(s[|s| - 1])
  }

  /** `format(n, 'x')`: lower-case hexadecimal digits of `n`, with a leading zero only for 0 itself. */
  function Hex(n: nat): (r: string)
    ensures |r| > 0 && forall i :: 0 <= i < |r| ==> r[i] in HexDigits
    ensures r[0] == '0' <==> n == 0
  {
    if n < 16 then [HexDigits[n]] else Hex(n / 16) + [HexDigits[n % 16]]
  }

  /** Reading the digits back in base 16 gives the number they were written for. */
  lemma {:induction false} HexRoundTrip(n: nat)
    ensures HexValue(Hex(n)) == n
    decreases n
  {
    var h := Hex(n);
    HexDigitValue(n % 16);
    if n < 16 {
      assert h[..|h| - 1] == [];
    } else {
      var q := Hex(n / 16);
      assert h[..|h| - 1] == q && h[|h| - 1] == HexDigits[n % 16];
      HexRoundTrip(n / 16);
      DivMod16(n);
    }
  }

  lemma DivMod16(n: nat)
    ensures (n / 16) * 16 + n % 16 == n
  {
  }

  lemma HexDigitValue(d: nat)
    requires d < 16
    ensures DigitValue(HexDigits[d]) == d
  {
  }

  /** `0x` followed by hexadecimal digits: inert, and the digits are what follows the prefix. */
  lemma PrefixedDigits(h: string)
    requires |h| > 0 && forall i :: 0 <= i < |h| ==> h[i] in HexDigits
    ensures var wid := "0x" + h;
      && Inert(wid) && |wid| > 2 && wid[..2] == "0x" && wid[2..] == h && wid[2] == h[0]
      && forall i :: 2 <= i < |wid| ==> wid[i] in HexDigits
  {
    var wid := "0x" + h;
    forall i | 0 <= i < |wid| ensures wid[i] != 'W' && wid[i] != 'I' && wid[i] != 'D' {
      if i >= 2 {
        assert wid[i] == h[i - 2] && h[i - 2] in HexDigits;
      }
    }
    assert wid[2..] == h;
  }

  /** The window id as the launcher writes it: `0x` and the base-16 digits of the id; it is always inert. */
  function Handle(id: nat): (wid: string)
    ensures Inert(wid) && |wid| > 2 && wid[..2] == "0x"
    ensures forall i :: 2 <= i < |wid| ==> wid[i] in HexDigits
    ensures HexValue(wid[2..]) == id && (wid[2] == '0' <==> id == 0)
  {
    HexRoundTrip(id);
    PrefixedDigits(Hex(id));
    "0x" + Hex(id)
  }

  /** Two windows with different ids are never given the same handle. */
  lemma HandleInjective(a: nat, b: nat)
    requires Handle(a) == Handle(b)
    ensures a == b
  {
  }

  // ---------------------------------------------------------------------------------------------
  // The defaults table and its merge

  /** One default flag: valueless (`--loop`) or `key=value`. */
  datatype Default = Default(key: string, value: Option<string>)

  /** The rendered flag always starts with its key. */
  function Render(d: Default): (flag: string)
    ensures StartsWith(flag, d.key)
    ensures d.value.None? ==> flag == d.key
    ensures d.value.Some? ==> |flag| == |d.key| + 1 + |d.value.value| && flag[|d.key|] == '=' && flag[|d.key| + 1..] == d.value.value
  {
    match d.value
    case None => d.key
    case Some(v) => d.key + "=" + v
  }

  /** The nine defaults, in the order of the source's table. */
  function Defaults(wid: string, ipc: string): (table: seq<Default>)
    ensures |table| == 9
  {
    [ Default("--wid", Some(wid)),
      Default("--loop", None),
      Default("--no-osc", None),
      Default("--hwdec", Some("auto")),
      Default("--cache", Some("yes")),
      Default("--cache-secs", Some("60")),
      Default("--volume", Some("0")),
      Default("--input-ipc-server", Some(ipc)),
      Default("--no-input-default-bindings", None) ]
  }

  /** `any(a.startswith(key) for a in base)`. */
  predicate Covered(base: seq<string>, key: string) {
    exists j :: 0 <= j < |base| && StartsWith(base[j], key)
  }

  /** One step of the defaults loop. */
  function Append(base: seq<string>, d: Default): seq<string> {
    if Covered(base, d.key) then base else base + [Render(d)]
  }

  /** The defaults loop: each default in turn, against the list as it has grown so far. */
  function Merge(base: seq<string>, table: seq<Default>): seq<string>
    decreases |table|
  {
    if table == [] then base else Merge(Append(base, table[0]), table[1..])
  }

  /** The whole of `build_cmd`. */
  function BuildSpec(args: seq<string>, wid: string, ipc: string): seq<string> {
    Merge(SubstituteAll(args, wid), Defaults(wid, ipc))
  }

  lemma CoveredExtends(base: seq<string>, more: seq<string>, key: string)
    requires Covered(base, key)
    ensures Covered(base + more, key)
  {
    var j :| 0 <= j < |base| && StartsWith(base[j], key);
    assert (base + more)[j] == base[j];
  }

  /** Merging keeps the list it starts from as a prefix and adds at most one flag per default. */
  lemma {:induction false} MergeKeepsBase(base: seq<string>, table: seq<Default>)
    ensures var r := Merge(base, table); |base| <= |r| <= |base| + |table| && r[..|base|] == base
    decreases |table|
  {
    if table != [] {
      var b1 := Append(base, table[0]);
      MergeKeepsBase(b1, table[1..]);
      assert Merge(b1, table[1..])[..|b1|][..|base|] == b1[..|base|];
    }
  }

  /** After merging, some argument starts with every key of the table. */
  lemma {:induction false} MergeCovers(base: seq<string>, table: seq<Default>)
    ensures forall t :: 0 <= t < |table| ==> Covered(Merge(base, table), table[t].key)
    decreases |table|
  {
    if table != [] {
      var b1 := Append(base, table[0]);
      var r := Merge(b1, table[1..]);
      MergeCovers(b1, table[1..]);
      MergeKeepsBase(b1, table[1..]);
      if !Covered(base, table[0].key) {
        assert b1[|base|] == Render(table[0]);
      }
      assert Covered(b1, table[0].key);
      CoveredExtends(b1, r[|b1|..], table[0].key);
      assert b1 + r[|b1|..] == r;
      forall t | 0 <= t < |table| ensures Covered(r, table[t].key) {
        if t > 0 {
          assert table[t] == table[1..][t - 1];
        }
      }
    }
  }

  /** Everything merging appends is the rendering of a default whose key no starting argument had. */
  lemma {:induction false} MergeAppendsOnlyMissing(base: seq<string>, table: seq<Default>)
    ensures var r := Merge(base, table);
      forall j :: |base| <= j < |r| ==>
        exists t :: 0 <= t < |table| && r[j] == Render(table[t]) && !Covered(base, table[t].key)
    decreases |table|
  {
    if table != [] {
      var b1 := Append(base, table[0]);
      var r := Merge(b1, table[1..]);
      MergeAppendsOnlyMissing(b1, table[1..]);
      MergeKeepsBase(b1, table[1..]);
      forall j | |base| <= j < |r|
        ensures exists t :: 0 <= t < |table| && r[j] == Render(table[t]) && !Covered(base, table[t].key)
      {
        if j < |b1| {
          assert r[j] == b1[j] == Render(table[0]);
        } else {
          var t :| 0 <= t < |table[1..]| && r[j] == Render(table[1..][t]) && !Covered(b1, table[1..][t].key);
          if Covered(base, table[1..][t].key) {
            CoveredExtends(base, b1[|base|..], table[1..][t].key);
          }
          assert table[1..][t] == table[t + 1];
        }
      }
    }
  }

  /** A table whose every key is already covered adds nothing. */
  lemma {:induction false} MergeCoveredIsIdentity(base: seq<string>, table: seq<Default>)
    requires forall t :: 0 <= t < |table| ==> Covered(base, table[t].key)
    ensures Merge(base, table) == base
    decreases |table|
  {
    if table != [] {
      assert Append(base, table[0]) == base;
      forall t | 0 <= t < |table[1..]| ensures Covered(base, table[1..][t].key) {
        assert table[1..][t] == table[t + 1];
      }
      MergeCoveredIsIdentity(base, table[1..]);
    }
  }

  /** Merging the same table twice is merging it once. */
  lemma MergeIdempotent(base: seq<string>, table: seq<Default>)
    ensures Merge(Merge(base, table), table) == Merge(base, table)
  {
    MergeCovers(base, table);
    MergeCoveredIsIdentity(Merge(base, table), table);
  }

  /** Merging a table in two parts is merging the second part into the result of the first. */
  lemma {:induction false} MergeSplit(base: seq<string>, a: seq<Default>, b: seq<Default>)
    ensures Merge(base, a + b) == Merge(Merge(base, a), b)
    decreases |a|
  {
    if a != [] {
      assert (a + b)[0] == a[0] && (a + b)[1..] == a[1..] + b;
      assert Merge(base, a) == Merge(Append(base, a[0]), a[1..]);
      MergeSplit(Append(base, a[0]), a[1..], b);
    } else {
      assert a + b == b;
    }
  }

  /**
   * The defaults are decided one at a time in table order: default `t` is appended exactly when no
   * argument of the list grown so far (user arguments and earlier defaults) starts with its key.
   */
  lemma MergeInOrder(base: seq<string>, table: seq<Default>, t: nat)
    requires t < |table|
    ensures Merge(base, table[..t + 1]) ==
      if Covered(Merge(base, table[..t]), table[t].key) then Merge(base, table[..t])
      else Merge(base, table[..t]) + [Render(table[t])]
  {
    assert table[..t + 1] == table[..t] + [table[t]];
    MergeSplit(base, table[..t], [table[t]]);
  }

  // ---------------------------------------------------------------------------------------------
  // The builder

  /** `build_cmd(args, wid, ipc)`: the list comprehension, then the loop over the defaults table. */
  method BuildCommand(args: seq<string>, wid: string, ipc: string) returns (cmd: seq<string>)
    ensures cmd == BuildSpec(args, wid, ipc)
    ensures |args| <= |cmd| <= |args| + 9
    ensures forall i :: 0 <= i < |args| ==> cmd[i] == Substitute(args[i], wid)
    ensures forall t :: 0 <= t < 9 ==> Covered(cmd, Defaults(wid, ipc)[t].key)
  {
    var base := SubstituteAll(args, wid);
    var table := Defaults(wid, ipc);
    cmd := base;
    for i := 0 to |table|
      invariant Merge(cmd, table[i..]) == Merge(base, table)
    {
      assert table[i..][0] == table[i] && table[i..][1..] == table[i + 1..];
      if !Covered(cmd, table[i].key) {
        cmd := cmd + [Render(table[i])];
      }
    }
    MergeKeepsBase(base, table);
    MergeCovers(base, table);
  }

  /** Text in which W never occurs cannot hold `WID`. */
  lemma NoWIsClean(s: string)
    requires NoW(s)
    ensures !HasPlaceholder(s)
  {
    NoPlaceholderAfterNoW(s, "");
    assert s + "" == s;
  }

  /** A default renders without a placeholder when its key has no W and its value has no placeholder. */
  lemma RenderClean(d: Default)
    requires NoW(d.key) && (d.value.Some? ==> !HasPlaceholder(d.value.value))
    ensures !HasPlaceholder(Render(d))
  {
    match d.value {
      case None =>
        NoWIsClean(d.key);
      case Some(v) =>
        assert NoW(d.key + "=");
        NoPlaceholderAfterNoW(d.key + "=", v);
    }
  }

  lemma ShortKeysWithoutW()
    ensures NoW("--wid") && NoW("--loop") && NoW("--no-osc") && NoW("--hwdec") && NoW("--cache")
  {
  }

  lemma LongKeysWithoutW()
    ensures NoW("--cache-secs") && NoW("--volume") && NoW("--input-ipc-server") && NoW("--no-input-default-bindings")
  {
  }

  lemma FixedValuesWithoutW()
    ensures NoW("auto") && NoW("yes") && NoW("60") && NoW("0")
  {
  }

  /** Every default renders from a key without W and a value without placeholder. */
  lemma DefaultsParts(wid: string, ipc: string)
    requires Inert(wid) && !HasPlaceholder(ipc)
    ensures forall t :: 0 <= t < 9 ==> NoW(Defaults(wid, ipc)[t].key)
    ensures forall t :: 0 <= t < 9 && Defaults(wid, ipc)[t].value.Some? ==> !HasPlaceholder(Defaults(wid, ipc)[t].value.value)
  {
    ShortKeysWithoutW();
    LongKeysWithoutW();
    FixedValuesWithoutW();
    assert NoW(wid);
    NoWIsClean(wid);
    NoWIsClean("auto");
    NoWIsClean("yes");
    NoWIsClean("60");
    NoWIsClean("0");
  }

  /** None of the rendered defaults holds a placeholder, given an inert id and a placeholder-free socket path. */
  lemma DefaultsHaveNoPlaceholder(wid: string, ipc: string)
    requires Inert(wid) && !HasPlaceholder(ipc)
    ensures forall t :: 0 <= t < 9 ==> !HasPlaceholder(Render(Defaults(wid, ipc)[t]))
  {
    var table := Defaults(wid, ipc);
    DefaultsParts(wid, ipc);
    forall t | 0 <= t < 9 ensures !HasPlaceholder(Render(table[t])) {
      RenderClean(table[t]);
    }
  }

  /** Building again from a built command, with the same inert id and socket path, changes nothing. */
  lemma BuildIdempotent(args: seq<string>, wid: string, ipc: string)
    requires Inert(wid) && !HasPlaceholder(ipc)
    ensures BuildSpec(BuildSpec(args, wid, ipc), wid, ipc) == BuildSpec(args, wid, ipc)
  {
    var base := SubstituteAll(args, wid);
    var table := Defaults(wid, ipc);
    var r := Merge(base, table);
    MergeKeepsBase(base, table);
    MergeAppendsOnlyMissing(base, table);
    DefaultsHaveNoPlaceholder(wid, ipc);
    forall j | 0 <= j < |r| ensures Substitute(r[j], wid) == r[j] {
      if j < |base| {
        assert r[j] == base[j] == Substitute(args[j], wid);
        SubstituteClears(args[j], wid);
      } else {
        var t :| 0 <= t < |table| && r[j] == Render(table[t]) && !Covered(base, table[t].key);
      }
      SubstituteWithoutPlaceholder(r[j], wid);
    }
    assert SubstituteAll(r, wid) == r;
    MergeIdempotent(base, table);
  }

  /**
   * With an id merely free of `WID`, building again from a built command can change it: from
   * `WIDID` and the id `W`, the first build gives `WID` and the second `W`.
   */
  lemma RebuildCanChange(ipc: string)
    ensures var once := BuildSpec(["WIDID"], "W", ipc); var twice := BuildSpec(once, "W", ipc);
      && !HasPlaceholder("W") && |once| > 0 && once[0] == "WID" && |twice| > 0 && twice[0] == "W"
  {
    PlaceholderCanReappear();
    var once := BuildSpec(["WIDID"], "W", ipc);
    MergeKeepsBase(SubstituteAll(["WIDID"], "W"), Defaults("W", ipc));
    assert once[0] == once[..1][0] == "WID";
    MergeKeepsBase(SubstituteAll(once, "W"), Defaults("W", ipc));
    assert Substitute("WID", "W") == "W" by {
      assert PlaceholderAt("WID", 0);
      assert "WID"[3..] == "";
    }
    var twice := BuildSpec(once, "W", ipc);
    assert twice[0] == twice[..|once|][0] == SubstituteAll(once, "W")[0];
  }

  /** A string that starts with `key` cannot start with a prefix that differs from `key` at its third character. */
  lemma ThirdCharRulesOut(s: string, key: string, p: string)
    requires StartsWith(s, key) && |key| > 2 && |p| > 2 && key[2] != p[2]
    ensures !StartsWith(s, p)
  {
    assert s[2] == s[..|key|][2] == key[2];
  }

  /** Only `--hwdec` has an h after its dashes, and only `--cache` and `--cache-secs` have a c. */
  lemma KeysByThirdChar(wid: string, ipc: string, t: nat)
    requires t < 9
    ensures var key := Defaults(wid, ipc)[t].key;
      |key| > 2 && (key[2] == 'h' ==> t == 3) && (key[2] == 'c' ==> t == 4 || t == 5)
  {
  }

  /** A user's `--hwdec=no` stays where it is, and no `--hwdec` default (such as `--hwdec=auto`) is added. */
  lemma HwdecUserWins(args: seq<string>, wid: string, ipc: string, i: nat)
    requires i < |args| && args[i] == "--hwdec=no"
    ensures var cmd := BuildSpec(args, wid, ipc);
      |args| <= |cmd| && cmd[i] == "--hwdec=no" && forall j :: |args| <= j < |cmd| ==> !StartsWith(cmd[j], "--hwdec")
  {
    var base := SubstituteAll(args, wid);
    var table := Defaults(wid, ipc);
    var cmd := Merge(base, table);
    assert NoW(args[i]);
    NoPlaceholderAfterNoW(args[i], "");
    assert args[i] + "" == args[i];
    SubstituteWithoutPlaceholder(args[i], wid);
    assert StartsWith(base[i], "--hwdec");
    assert Covered(base, table[3].key);
    MergeKeepsBase(base, table);
    MergeAppendsOnlyMissing(base, table);
    forall j | |args| <= j < |cmd| ensures !StartsWith(cmd[j], "--hwdec") {
      var t :| 0 <= t < |table| && cmd[j] == Render(table[t]) && !Covered(base, table[t].key);
      KeysByThirdChar(wid, ipc, t);
      ThirdCharRulesOut(cmd[j], table[t].key, "--hwdec");
    }
    assert cmd[i] == cmd[..|base|][i];
  }

  /** A user's `--cache-secs=10` also stops `--cache=yes`: no appended flag starts with `--cache`. */
  lemma CacheSecsSuppressesCache(args: seq<string>, wid: string, ipc: string, i: nat)
    requires i < |args| && args[i] == "--cache-secs=10"
    ensures var cmd := BuildSpec(args, wid, ipc);
      |args| <= |cmd| && cmd[i] == "--cache-secs=10" && forall j :: |args| <= j < |cmd| ==> !StartsWith(cmd[j], "--cache")
  {
    var base := SubstituteAll(args, wid);
    var table := Defaults(wid, ipc);
    var cmd := Merge(base, table);
    assert NoW(args[i]);
    NoPlaceholderAfterNoW(args[i], "");
    assert args[i] + "" == args[i];
    SubstituteWithoutPlaceholder(args[i], wid);
    assert StartsWith(base[i], "--cache") && StartsWith(base[i], "--cache-secs");
    assert Covered(base, table[4].key) && Covered(base, table[5].key);
    MergeKeepsBase(base, table);
    MergeAppendsOnlyMissing(base, table);
    forall j | |args| <= j < |cmd| ensures !StartsWith(cmd[j], "--cache") {
      var t :| 0 <= t < |table| && cmd[j] == Render(table[t]) && !Covered(base, table[t].key);
      KeysByThirdChar(wid, ipc, t);
      ThirdCharRulesOut(cmd[j], table[t].key, "--cache");
    }
    assert cmd[i] == cmd[..|base|][i];
  }
}
