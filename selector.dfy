/**
 * Video selection (`pick_video`, xlivewall.py:55-74). The filesystem answers for `cmd_args[1]` and
 * `random.choice` are inputs: a `Listing` and a `roll` that picks an index among the candidates.
 */
module Selector {
  import opened Wrappers
  import opened Text

  /** A directory entry as `iterdir` yields it: its path and whether it is a regular file. */
  datatype Entry = Entry(path: string, isFile: bool)

  /** What the filesystem says about the second argument. */
  datatype Listing = NotADirectory | Directory(entries: seq<Entry>)

  /** The two ways selection ends the launch with exit status 1. */
  datatype SelectError = NoVideoFound | NoVideoSpecified

  const VideoExtensions: set<string> := {".mp4", ".mkv", ".webm", ".avi", ".mov", ".flv"}

  /** `Path(path).name` for the paths `iterdir` yields: the text after the last slash. */
  function Name(path: string): (name: string)
    ensures '/' !in name && |name| <= |path| && path[|path| - |name|..] == name
  {
    match FindLast(path, '/')
    case None => path
    case Some(i) => path[i + 1..]
  }

  /**
   * The name is the whole last component: the entire path when it has no slash (as the entries of
   * `Path('.').iterdir()` are), and otherwise everything after a slash that ends the path's last but one
   * component.
   */
  lemma NameIsLastComponent(path: string)
    ensures var name := Name(path);
      && '/' !in name && path[|path| - |name|..] == name
      && ('/' !in path ==> name == path)
      && ('/' in path ==> |name| < |path| && path[|path| - |name| - 1] == '/')
  {
  }

  /** `Path.suffix`: the name from its last dot, unless that dot is its first or last character. */
  function Suffix(name: string): (ext: string)
    ensures ext != "" ==> 2 <= |ext| < |name| && ext[0] == '.' && '.' !in ext[1..] && name[|name| - |ext|..] == ext
    ensures ext == "" ==> '.' !in name || (name[0] == '.' && '.' !in name[1..]) || name[|name| - 1] == '.'
  {
    match FindLast(name, '.')
    case None => ""
    case Some(i) => if 0 < i < |name| - 1 then name[i..] else ""
  }

  /** `f.is_file() and f.suffix.lower() in VIDEO_EXTENSIONS`. */
  predicate IsVideo(e: Entry) {
    e.isFile && Lower(Suffix(Name(e.path))) in VideoExtensions
  }

  /** The list comprehension `vids`: the paths of the video files, in listing order. */
  function Candidates(entries: seq<Entry>): (vids: seq<string>)
    ensures |vids| <= |entries|
  {
    if entries == [] then []
    else (if IsVideo(entries[0]) then [entries[0].path] else []) + Candidates(entries[1..])
  }

  /** Every candidate is the path of a regular file with a video extension. */
  lemma {:induction false} CandidatesSound(entries: seq<Entry>, v: string)
    requires v in Candidates(entries)
    ensures exists e :: e in entries && IsVideo(e) && e.path == v
  {
    if !(IsVideo(entries[0]) && v == entries[0].path) {
      CandidatesSound(entries[1..], v);
      var e :| e in entries[1..] && IsVideo(e) && e.path == v;
      assert e in entries;
    }
  }

  /** Every regular file with a video extension is a candidate. */
  lemma {:induction false} CandidatesComplete(entries: seq<Entry>, e: Entry)
    requires e in entries && IsVideo(e)
    ensures e.path in Candidates(entries)
  {
    if e != entries[0] {
      assert e in entries[1..];
      CandidatesComplete(entries[1..], e);
    }
  }

  /** `arg.startswith('-')`: an argument that starts with a dash is taken for a flag. */
  predicate IsFlag(arg: string) {
    |arg| > 0 && arg[0] == '-'
  }

  /** Index of the first argument at or after `from` that is not a flag. */
  function FirstPlain(args: seq<string>, from: nat): Option<nat>
    decreases |args| - from
  {
    if from >= |args| then None
    else if !IsFlag(args[from]) then Some(from)
    else FirstPlain(args, from + 1)
  }

  /** `FirstPlain` finds exactly the first non-flag at or after `from`, and nothing when there is none. */
  lemma {:induction false} FirstPlainIsFirst(args: seq<string>, from: nat)
    ensures forall i :: FirstPlain(args, from) == Some(i) <==>
      from <= i < |args| && !IsFlag(args[i]) && forall j :: from <= j < i ==> IsFlag(args[j])
    ensures FirstPlain(args, from) == None <==> forall j :: from <= j < |args| ==> IsFlag(args[j])
    decreases |args| - from
  {
    if from < |args| && IsFlag(args[from]) {
      FirstPlainIsFirst(args, from + 1);
    }
  }

  /**
   * The outcome of `pick_video` when the fallback scan starts at `scanFrom`; the source scans from 0.
   * A directory with no video fails with `NoVideoFound`; otherwise the roll picks one candidate.
   * Anything else yields the first non-flag argument, or fails with `NoVideoSpecified`.
   */
  function Select(args: seq<string>, listing: Listing, roll: nat, scanFrom: nat): (r: Result<string, SelectError>)
    ensures |args| > 1 && listing.Directory? ==>
      && (r.Failure? <==> forall e :: e in listing.entries ==> !IsVideo(e))
      && (r.Failure? ==> r.error == NoVideoFound)
      && (r.Success? ==> exists e :: e in listing.entries && IsVideo(e) && e.path == r.value)
    ensures !(|args| > 1 && listing.Directory?) ==>
      && (r.Failure? <==> forall j :: scanFrom <= j < |args| ==> IsFlag(args[j]))
      && (r.Failure? ==> r.error == NoVideoSpecified)
      && (r.Success? ==> exists i :: scanFrom <= i < |args| && r.value == args[i] && !IsFlag(args[i]) &&
                                     forall j :: scanFrom <= j < i ==> IsFlag(args[j]))
  {
    FirstPlainIsFirst(args, scanFrom);
    if |args| > 1 && listing.Directory? then
      var vids := Candidates(listing.entries);
      if vids == [] then
        assert forall e :: e in listing.entries ==> !IsVideo(e) by {
          forall e | e in listing.entries && IsVideo(e) ensures false {
            CandidatesComplete(listing.entries, e);
          }
        }
        Failure(NoVideoFound)
      else
        CandidatesSound(listing.entries, vids[roll % |vids|]);
        Success(vids[roll % |vids|])
    else match FirstPlain(args, scanFrom)
      case Some(i) => Success(args[i])
      case None => Failure(NoVideoSpecified)
  }

  /** The argument list after selection: only a picked directory entry replaces the second argument. */
  function Rewritten(args: seq<string>, listing: Listing, r: Result<string, SelectError>): (out: seq<string>)
    ensures |out| == |args| && forall i :: 0 <= i < |args| && i != 1 ==> out[i] == args[i]
    ensures |args| > 1 && listing.Directory? && r.Success? ==> out[1] == r.value
    ensures !(|args| > 1 && listing.Directory? && r.Success?) ==> out == args
  {
    if |args| > 1 && listing.Directory? && r.Success? then args[1 := r.value] else args
  }

  /** The directory branch of `Select`: the roll picks among the candidates. */
  lemma DirectoryPick(args: seq<string>, entries: seq<Entry>, roll: nat, scanFrom: nat)
    requires |args| > 1 && Candidates(entries) != []
    ensures var vids := Candidates(entries);
      Select(args, Directory(entries), roll, scanFrom) == Success(vids[roll % |vids|])
  {
  }

  /** A roll below the number of candidates picks the candidate at that index. */
  lemma SmallRemainder(k: nat, n: nat)
    requires k < n
    ensures k % n == k
  {
  }

  /** Every candidate is the pick of some roll: the model excludes no video `random.choice` could return. */
  lemma EveryCandidateReachable(args: seq<string>, entries: seq<Entry>, scanFrom: nat, v: string)
    requires |args| > 1 && v in Candidates(entries)
    ensures exists roll: nat :: Select(args, Directory(entries), roll, scanFrom) == Success(v)
  {
    var vids := Candidates(entries);
    var k :| 0 <= k < |vids| && vids[k] == v;
    SmallRemainder(k, |vids|);
    DirectoryPick(args, entries, k, scanFrom);
  }

  /** The name of `dir/file` is `file`. */
  lemma NameOfJoined(dir: string, file: string)
    requires '/' !in file
    ensures Name(dir + "/" + file) == file
  {
    var p := dir + "/" + file;
    assert p[|dir|] == '/' && p[|dir| + 1..] == file;
    var i := FindLast(p, '/');
    assert i.Some?;
  }

  /** The suffix of `stem.ext` is `.ext`, for a non-empty stem and a non-empty extension without dots. */
  lemma SuffixOfDotted(stem: string, ext: string)
    requires |stem| > 0 && |ext| > 0 && '.' !in ext
    ensures Suffix(stem + "." + ext) == "." + ext
  {
    var n := stem + "." + ext;
    assert n[|stem|] == '.' && n[|stem| + 1..] == ext;
    var i := FindLast(n, '.');
    assert i.Some?;
    assert n[|stem|..] == "." + ext;
  }

  /** A regular file `dir/stem.ext` is a video exactly when `.ext`, lower-cased, is an allowed extension. */
  lemma VideoByExtension(path: string, dir: string, stem: string, ext: string, dotExt: string)
    requires path == dir + "/" + stem + "." + ext && dotExt == "." + ext
    requires '/' !in stem && |stem| > 0 && |ext| > 0 && '.' !in ext && '/' !in ext
    ensures IsVideo(Entry(path, true)) <==> Lower(dotExt) in VideoExtensions
  {
    assert path == dir + "/" + (stem + "." + ext);
    NameOfJoined(dir, stem + "." + ext);
    SuffixOfDotted(stem, ext);
  }

  /** Every allowed extension is a dot and a non-empty lower-case tail without dots or slashes. */
  lemma AllowedExtensionShape(e: string)
    requires e in VideoExtensions
    ensures |e| > 1 && e == "." + e[1..] && '.' !in e[1..] && '/' !in e[1..]
    ensures forall i :: 0 <= i < |e| ==> !('A' <= e[i] <= 'Z')
  {
  }

  /** A regular file `dir/stem` followed by an allowed extension, written in lower case, is a video. */
  lemma VideoFile(path: string, dir: string, stem: string, e: string)
    requires path == dir + "/" + stem + e && '/' !in stem && |stem| > 0 && e in VideoExtensions
    ensures IsVideo(Entry(path, true))
  {
    AllowedExtensionShape(e);
    LowerWithoutCapitals(e);
    assert path == dir + "/" + stem + "." + e[1..];
    VideoByExtension(path, dir, stem, e[1..], e);
  }

  lemma TxtIsNoVideoExtension()
    ensures ".txt" !in VideoExtensions
  {
  }

  lemma NotVideoTxt(dir: string)
    ensures !IsVideo(Entry(dir + "/notes.txt", true))
  {
    LowerWithoutCapitals(".txt");
    TxtIsNoVideoExtension();
    VideoByExtension(dir + "/notes.txt", dir, "notes", "txt", ".txt");
  }

  lemma CandidatesKeep(e: Entry, rest: seq<Entry>)
    requires IsVideo(e)
    ensures Candidates([e] + rest) == [e.path] + Candidates(rest)
  {
    assert ([e] + rest)[1..] == rest;
  }

  lemma CandidatesSkip(e: Entry, rest: seq<Entry>)
    requires !IsVideo(e)
    ensures Candidates([e] + rest) == Candidates(rest)
  {
    assert ([e] + rest)[1..] == rest;
  }

  lemma CandidatesOfTwo(b: Entry, n: Entry)
    requires IsVideo(b) && !IsVideo(n)
    ensures Candidates([b, n]) == [b.path]
  {
    CandidatesSkip(n, []);
    assert [n] + [] == [n];
    CandidatesKeep(b, [n]);
    assert [b] + [n] == [b, n];
  }

  lemma CandidatesOfThree(a: Entry, b: Entry, n: Entry)
    requires IsVideo(a) && IsVideo(b) && !IsVideo(n)
    ensures Candidates([a, b, n]) == [a.path, b.path]
  {
    CandidatesOfTwo(b, n);
    CandidatesKeep(a, [b, n]);
    assert [a] + [b, n] == [a, b, n];
    assert [a.path] + [b.path] == [a.path, b.path];
  }

  /** A folder holding `a.mp4`, `b.mkv` and `notes.txt`: the candidates are the two videos, never the notes. */
  lemma FolderScenario(dir: string)
    ensures Candidates([Entry(dir + "/a.mp4", true), Entry(dir + "/b.mkv", true), Entry(dir + "/notes.txt", true)])
      == [dir + "/a.mp4", dir + "/b.mkv"]
  {
    assert ".mp4" in VideoExtensions && ".mkv" in VideoExtensions;
    assert dir + "/a.mp4" == dir + "/" + "a" + ".mp4" && dir + "/b.mkv" == dir + "/" + "b" + ".mkv";
    VideoFile(dir + "/a.mp4", dir, "a", ".mp4");
    VideoFile(dir + "/b.mkv", dir, "b", ".mkv");
    NotVideoTxt(dir);
    CandidatesOfThree(Entry(dir + "/a.mp4", true), Entry(dir + "/b.mkv", true), Entry(dir + "/notes.txt", true));
  }

  /** The extension test ignores case: `CLIP.MP4` is a video. */
  lemma UpperCaseExtension(dir: string)
    ensures IsVideo(Entry(dir + "/CLIP.MP4", true))
  {
    assert Lower(".MP4") == ".mp4";
    VideoByExtension(dir + "/CLIP.MP4", dir, "CLIP", "MP4", ".MP4");
  }

  /**
   * As written, the fallback scan starts at the program name, so whenever that name is not a flag it
   * is what `pick_video` returns: `mpv clip.mp4` yields `mpv`.
   */
  lemma {:induction false} ProgramNameIsPicked(args: seq<string>, roll: nat)
    requires |args| > 0 && !IsFlag(args[0])
    ensures Select(args, NotADirectory, roll, 0) == Success(args[0])
    ensures Select(["mpv", "clip.mp4"], NotADirectory, roll, 0) == Success("mpv")
  {
    assert !IsFlag("mpv");
  }

  /** Scanning after the program name, as intended, `mpv clip.mp4 --vf=...` yields `clip.mp4`. */
  lemma IntendedPicksMedia(roll: nat)
    ensures Select(["mpv", "clip.mp4"], NotADirectory, roll, 1) == Success("clip.mp4")
    ensures Select(["mpv", "--loop", "clip.mp4", "--vf=hue=h=90"], NotADirectory, roll, 1) == Success("clip.mp4")
    ensures Select(["mpv"], NotADirectory, roll, 1) == Failure(NoVideoSpecified)
  {
    assert !IsFlag("clip.mp4") && IsFlag("--loop");
    assert FirstPlain(["mpv", "--loop", "clip.mp4", "--vf=hue=h=90"], 1) == Some(2);
  }

  /** The `for arg in cmd_args` scan, from index `from`. */
  method FirstNonFlag(args: seq<string>, from: nat) returns (r: Option<nat>)
    ensures r.Some? ==> from <= r.value < |args| && !IsFlag(args[r.value]) &&
                        forall j :: from <= j < r.value ==> IsFlag(args[j])
    ensures r.None? ==> forall j :: from <= j < |args| ==> IsFlag(args[j])
  {
    var i := from;
    while i < |args|
      invariant from <= i
      invariant forall j :: from <= j < i && j < |args| ==> IsFlag(args[j])
    {
      if !IsFlag(args[i]) {
        return Some(i);
      }
      i := i + 1;
    }
    return None;
  }

  /** `pick_video` with its fallback scan starting at `scanFrom`; overwrites `cmdArgs[1]` in place. */
  method PickFrom(cmdArgs: array<string>, listing: Listing, roll: nat, scanFrom: nat)
    returns (r: Result<string, SelectError>)
    modifies cmdArgs
    ensures r == Select(old(cmdArgs[..]), listing, roll, scanFrom)
    ensures cmdArgs[..] == Rewritten(old(cmdArgs[..]), listing, r)
  {
    if cmdArgs.Length > 1 && listing.Directory? {
      var vids := Candidates(listing.entries);
      if vids == [] {
        return Failure(NoVideoFound);
      }
      var choice := vids[roll % |vids|];
      cmdArgs[1] := choice;
      return Success(choice);
    }
    var found := FirstNonFlag(cmdArgs[..], scanFrom);
    FirstPlainIsFirst(cmdArgs[..], scanFrom);
    match found {
      case Some(i) => r := Success(cmdArgs[i]);
      case None => r := Failure(NoVideoSpecified);
    }
  }

  /** `pick_video` as written: the fallback scan starts at index 0, the program name. */
  method PickVideo(cmdArgs: array<string>, listing: Listing, roll: nat) returns (r: Result<string, SelectError>)
    modifies cmdArgs
    ensures r == Select(old(cmdArgs[..]), listing, roll, 0)
    ensures cmdArgs[..] == Rewritten(old(cmdArgs[..]), listing, r)
  {
    r := PickFrom(cmdArgs, listing, roll, 0);
  }

  /** `pick_video` as intended: the fallback scan skips the program name. */
  method PickVideoIntended(cmdArgs: array<string>, listing: Listing, roll: nat) returns (r: Result<string, SelectError>)
    modifies cmdArgs
    ensures r == Select(old(cmdArgs[..]), listing, roll, 1)
    ensures cmdArgs[..] == Rewritten(old(cmdArgs[..]), listing, r)
  {
    r := PickFrom(cmdArgs, listing, roll, 1);
  }
}
