/**
 * The mpv control channel as the launcher uses it (xlivewall.py:33-40): one JSON object per
 * connection, `{"command": [...]}`, written as a single line. The launcher's trace records
 * `Command` values; `Words` and `Frame` describe how each one goes on the wire, on their own.
 */
module Ipc {
  import opened Wrappers
  import opened Text

  /** The fixed socket path of the single instance. */
  const IpcPath: string := "/tmp/mpv-background.sock"

  /** The four commands the launcher ever sends. */
  datatype Command =
    | VfClear                   // ["vf", "clear"]
    | LoadReplace(path: string) // ["loadfile", path, "replace"]
    | VfSet(spec: string)       // ["vf", "set", spec]
    | SetVolume(level: int)     // ["set_property", "volume", level]

  /** One element of the JSON `command` array. */
  datatype Word = Str(s: string) | Int(n: int)

  /** The `command` array sent for `c`; the player reads it back as the same command. */
  function Words(c: Command): (w: seq<Word>)
    ensures 2 <= |w| <= 3 && w[0].Str?
    ensures Parse(w) == Some(c)
  {
    match c
    case VfClear => [Str("vf"), Str("clear")]
    case LoadReplace(p) => [Str("loadfile"), Str(p), Str("replace")]
    case VfSet(spec) => [Str("vf"), Str("set"), Str(spec)]
    case SetVolume(v) => [Str("set_property"), Str("volume"), Int(v)]
  }

  /**
   * The inverse of `Words` on the four commands, standing for the player reading the array back; it
   * is not the player's own command parser. `None` for anything the launcher never sends.
   */
  function Parse(w: seq<Word>): Option<Command> {
    if w == [Str("vf"), Str("clear")] then Some(VfClear)
    else if |w| == 3 && w[0] == Str("loadfile") && w[1].Str? && w[2] == Str("replace") then Some(LoadReplace(w[1].s))
    else if |w| == 3 && w[0] == Str("vf") && w[1] == Str("set") && w[2].Str? then Some(VfSet(w[2].s))
    else if |w| == 3 && w[0] == Str("set_property") && w[1] == Str("volume") && w[2].Int? then Some(SetVolume(w[2].n))
    else None
  }

  /**
   * The bytes written on the connection for an already encoded JSON text: the text and one newline.
   * The JSON encoding itself is not modelled; it never contains a raw newline.
   */
  function Frame(json: string): (line: string)
    ensures |line| == |json| + 1 && line[|json|] == '\n'
    ensures '\n' !in json ==> Find(line, '\n') == Some(|json|) && FirstLine(line) == json
  {
    json + "\n"
  }

  /** What a line-oriented reader takes from a stream: everything before the first newline. */
  function FirstLine(s: string): string {
    match Find(s, '\n')
    case None => s
    case Some(i) => s[..i]
  }
}
