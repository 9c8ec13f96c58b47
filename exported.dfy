/** The iteration of tomlraider that the package re-exports
    (src/tomlraider/_main.py): the same path language as `Core`, but with
    plain TypeError for the lookup failures, a CLI error for a bad segment,
    and a `join_path` that writes every step after a dot.

    `_validate_key`, `_look_for_key_indice` and `_dumps` are the same code
    as in core.py and are modelled once, by `Core.ClassifySegment` and
    `Core.DumpsShell`. */
module Exported {
  import opened PyRuntime
  import opened TomlTree
  import Core

  const PathSeparator: char := '.'

  // =====================================================================
  // _TomlContainer.__getitem__ and read_toml
  // =====================================================================

  /** `_TomlContainer(c)[s]`: as core's subscript, except that a step of
      the wrong kind raises a TypeError without a message. */
  function GetItem(c: Value, s: Step): (r: Result<Value>)
    requires c.IsContainer()
    ensures Core.Mismatched(c, s) <==> r == Raise(TypeError(""))
    ensures !Core.Mismatched(c, s) ==> r == Core.GetItem(c, s)
  {
    if c.Array? && s.Index? then
      match ListItem(c.items, s.index)
      case Some(v) => Ok(v)
      case None => Raise(IndexError)
    else if c.Table? && s.Key? then
      match TableItem(c.entries, s.key)
      case Some(v) => Ok(v)
      case None => Raise(KeyError(s.key))
    else
      Raise(TypeError(""))
  }

  const RootIndexMsg: string := "first part of a path can't be an index, toml's root is always a Table"
  const AtomicMsg: string := "any atomic value are only valid for the last part of a path"

  /** The walk from `loc` along `steps`: every step but the last must land
      on a container. */
  function ResolveFrom(loc: Value, steps: seq<Step>): (r: Result<Value>)
    requires loc.IsContainer() && |steps| >= 1
    decreases |steps|
  {
    var item := GetItem(loc, steps[0]);
    if |steps| == 1 || item.Raise? then item
    else if item.value.IsContainer() then ResolveFrom(item.value, steps[1..])
    else Raise(TypeError(AtomicMsg))
  }

  /** What `read_toml` returns for a decoded document `root`. */
  function Resolve(root: Value, path: seq<Step>): (r: Result<Value>)
    requires root.Table?
  {
    if path == [] then Ok(root)
    else if path[0].Index? then Raise(TypeError(RootIndexMsg))
    else ResolveFrom(root, path)
  }

  /** The empty path gives the whole document; a path that starts with an
      Index raises TypeError. */
  lemma ResolveRootCases(root: Value, path: seq<Step>)
    requires root.Table?
    ensures path == [] ==> Resolve(root, path) == Ok(root)
    ensures path != [] && path[0].Index? ==> Resolve(root, path) == Raise(TypeError(RootIndexMsg))
  {
  }

  /** `read_toml` once `tomllib.loads` has produced `root`, with its stack
      `locations` of the containers visited so far. */
  method ReadToml(root: Value, path: seq<Step>) returns (r: Result<Value>)
    requires root.Table?
    ensures r == Resolve(root, path)
  {
    var locations := [root];
    if path == [] {
      return Ok(root);
    }
    if path[0].Index? {
      return Raise(TypeError(RootIndexMsg));
    }
    var i := 0;
    while i < |path| - 1
      invariant 0 <= i <= |path| - 1
      invariant |locations| == i + 1
      invariant forall j :: 0 <= j < |locations| ==> locations[j].IsContainer()
      invariant Resolve(root, path) == ResolveFrom(locations[i], path[i..])
    {
      var loc := locations[|locations| - 1];
      var item := GetItem(loc, path[i]);
      assert path[i..][1..] == path[i + 1..];
      if item.Raise? {
        return item;
      }
      if !item.value.IsContainer() {
        return Raise(TypeError(AtomicMsg));
      }
      locations := locations + [item.value];
      i := i + 1;
    }
    assert path[i..] == [path[|path| - 1]];
    r := GetItem(locations[|locations| - 1], path[|path| - 1]);
  }

  /** The two iterations agree on every walk: the same value where either
      succeeds, the same KeyError or IndexError, and a TypeError here
      exactly where core.py raises TOMLLookUpError. */
  predicate AgreesWithCore(mine: Result<Value>, core: Result<Value>)
  {
    (mine.Ok? <==> core.Ok?)
    && (core.Ok? ==> mine == core)
    && (core.Raise? && core.exc.TOMLLookUpError? <==> mine.Raise? && mine.exc.TypeError?)
    && (core.Raise? && !core.exc.TOMLLookUpError? ==> mine == core)
  }

  lemma {:induction false} ResolveFromAgrees(loc: Value, steps: seq<Step>)
    requires loc.IsContainer() && |steps| >= 1
    ensures AgreesWithCore(ResolveFrom(loc, steps), Core.ResolveFrom(loc, steps))
    decreases |steps|
  {
    var item := Core.GetItem(loc, steps[0]);
    if |steps| > 1 && item.Ok? && item.value.IsContainer() {
      ResolveFromAgrees(item.value, steps[1..]);
    }
  }

  /** `read_toml` here and in core.py succeed on the same paths with the
      same value, and fail with the same exception but for the lookup
      failures, which are a TypeError here. */
  lemma ResolveAgreesWithCore(root: Value, path: seq<Step>)
    requires root.Table?
    ensures AgreesWithCore(Resolve(root, path), Core.Resolve(root, path))
  {
    if path != [] && path[0].Key? {
      ResolveFromAgrees(root, path);
    }
  }

  // =====================================================================
  // parse_path
  // =====================================================================

  function InvalidKeyError(seg: string): Exc
  {
    CliError("Invalid key: " + seg, false, 1)
  }

  /** One turn of `parse_path`'s loop, as in core.py but raising the CLI
      error with code 1 for a segment of neither form. */
  function ParseStep(validKey: string -> bool, acc: Result<seq<Step>>, seg: string): Result<seq<Step>>
  {
    match acc
    case Raise(e) => Raise(e)
    case Ok(out) =>
      if seg == "" then Ok(out)
      else
        match Core.ClassifySegment(validKey, seg)
        case Steps(steps) => Ok(out + steps)
        case BadLiteral(lit) => Raise(ValueError(lit))
        case Invalid => Raise(InvalidKeyError(seg))
  }

  /** `parse_path` over the segments, taken from the back. */
  function ParseSegments(validKey: string -> bool, segs: seq<string>): (r: Result<seq<Step>>)
    ensures r.Raise? ==> r.exc.CliError? || r.exc.ValueError?
  {
    if segs == [] then Ok([])
    else ParseStep(validKey, ParseSegments(validKey, segs[..|segs| - 1]), segs[|segs| - 1])
  }

  lemma ParseSegmentsSnoc(validKey: string -> bool, init: seq<string>, seg: string)
    ensures ParseSegments(validKey, init + [seg]) == ParseStep(validKey, ParseSegments(validKey, init), seg)
  {
    assert (init + [seg])[..|init|] == init;
  }

  lemma {:induction false} ParseSegmentsKeepsError(validKey: string -> bool, segs: seq<string>, i: nat)
    requires i <= |segs| && ParseSegments(validKey, segs[..i]).Raise?
    ensures ParseSegments(validKey, segs) == ParseSegments(validKey, segs[..i])
    decreases |segs| - i
  {
    if i < |segs| {
      ParseSegmentsSnoc(validKey, segs[..i], segs[i]);
      assert segs[..i] + [segs[i]] == segs[..i + 1];
      ParseSegmentsKeepsError(validKey, segs, i + 1);
    } else {
      assert segs[..i] == segs;
    }
  }

  /** What `parse_path(path)` returns or raises. */
  function Parse(validKey: string -> bool, path: string): Result<seq<Step>>
  {
    ParseSegments(validKey, Split(path, PathSeparator))
  }

  /** `parse_path`: a loop over the segments that appends to `out`. */
  method ParsePath(validKey: string -> bool, path: string) returns (r: Result<seq<Step>>)
    ensures r == Parse(validKey, path)
  {
    var parts := Split(path, PathSeparator);
    var out: seq<Step> := [];
    var i := 0;
    while i < |parts|
      invariant 0 <= i <= |parts|
      invariant ParseSegments(validKey, parts[..i]) == Ok(out)
    {
      var part := parts[i];
      ParseSegmentsNext(validKey, parts, i);
      if part == "" {
        i := i + 1;
        continue;
      }
      if validKey(part) {
        assert Core.ClassifySegment(validKey, part) == Core.Steps([Key(part)]);
        out := out + [Key(part)];
      } else {
        var search := Core.LookForKeyIndice(validKey, part);
        if search.None? {
          assert Core.ClassifySegment(validKey, part).Invalid?;
          r := Raise(InvalidKeyError(part));
          ParseSegmentsKeepsError(validKey, parts, i + 1);
          return;
        }
        var n := ParseInt(search.value.1);
        if n.None? {
          r := Raise(ValueError(search.value.1));
          ParseSegmentsKeepsError(validKey, parts, i + 1);
          return;
        }
        assert Core.ClassifySegment(validKey, part) == Core.Steps([Key(search.value.0), Index(n.value)]);
        out := out + [Key(search.value.0), Index(n.value)];
      }
      i := i + 1;
    }
    assert parts[..i] == parts;
    r := Ok(out);
  }

  lemma ParseSegmentsNext(validKey: string -> bool, parts: seq<string>, i: int)
    requires 0 <= i < |parts|
    ensures ParseSegments(validKey, parts[..i + 1]) == ParseStep(validKey, ParseSegments(validKey, parts[..i]), parts[i])
  {
    ParseSegmentsSnoc(validKey, parts[..i], parts[i]);
    assert parts[..i] + [parts[i]] == parts[..i + 1];
  }

  /** Both iterations of `parse_path` accept the same paths with the same
      steps and raise the same ValueError; where core.py raises
      TOMLPathFormatError for a segment, this one raises the CLI error with
      code 1 for that same segment. */
  lemma {:induction false} ParseSegmentsAgreeWithCore(validKey: string -> bool, segs: seq<string>)
    ensures ParseSegments(validKey, segs).Ok? <==> Core.ParseSegments(validKey, segs).Ok?
    ensures Core.ParseSegments(validKey, segs).Ok? ==>
              ParseSegments(validKey, segs) == Core.ParseSegments(validKey, segs)
    ensures forall lit :: Core.ParseSegments(validKey, segs) == Raise(ValueError(lit)) <==>
                          ParseSegments(validKey, segs) == Raise(ValueError(lit))
    ensures forall seg :: Core.ParseSegments(validKey, segs) == Raise(TOMLPathFormatError(Core.InvalidKeyMsg(seg))) <==>
                          ParseSegments(validKey, segs) == Raise(InvalidKeyError(seg))
  {
    if segs != [] {
      var init, seg := segs[..|segs| - 1], segs[|segs| - 1];
      ParseSegmentsAgreeWithCore(validKey, init);
      ParseSegmentsSnoc(validKey, init, seg);
      Core.ParseSegmentsSnoc(validKey, init, seg);
      assert init + [seg] == segs;
      forall s ensures Core.InvalidKeyMsg(s) == Core.InvalidKeyMsg(seg) ==> s == seg {
        if Core.InvalidKeyMsg(s) == Core.InvalidKeyMsg(seg) {
          assert s == Core.InvalidKeyMsg(s)[|"Invalid key in TomlPath: "|..];
        }
      }
      forall s ensures InvalidKeyError(s) == InvalidKeyError(seg) ==> s == seg {
        if InvalidKeyError(s) == InvalidKeyError(seg) {
          assert s == InvalidKeyError(s).msg[|"Invalid key: "|..];
        }
      }
    }
  }

  // =====================================================================
  // join_path
  // =====================================================================

  /** `str` of a step: the key itself or the decimal index. */
  function StepStr(s: Step): string
  {
    match s
    case Key(k) => k
    case Index(n) => IntToString(n)
  }

  /** `join_path`: `".".join(map(str, path))`. */
  function JoinPath(p: seq<Step>): (r: string)
    ensures p != [] && (forall j :: 0 <= j < |p| && p[j].Key? ==> PathSeparator !in p[j].key) ==>
              Split(r, PathSeparator) == StepTexts(p)
  {
    if p != [] && (forall j :: 0 <= j < |p| && p[j].Key? ==> PathSeparator !in p[j].key) then
      StepTextsSplit(p);
      JoinWith(StepTexts(p), [PathSeparator])
    else
      JoinWith(StepTexts(p), [PathSeparator])
  }

  /** `map(str, path)`: the text of each step. */
  function StepTexts(p: seq<Step>): (texts: seq<string>)
    ensures |texts| == |p|
    ensures forall j :: 0 <= j < |p| ==> texts[j] == StepStr(p[j])
  {
    seq(|p|, j requires 0 <= j < |p| => StepStr(p[j]))
  }

  /** No step text holds a dot when no key does: an index prints as
      digits and `-`. */
  lemma StepTextsSplit(p: seq<Step>)
    requires p != []
    requires forall j :: 0 <= j < |p| && p[j].Key? ==> PathSeparator !in p[j].key
    ensures Split(JoinWith(StepTexts(p), [PathSeparator]), PathSeparator) == StepTexts(p)
  {
    var parts := StepTexts(p);
    forall j | 0 <= j < |parts|
      ensures PathSeparator !in parts[j]
    {
      if p[j].Index? {
        assert PathSeparator !in IntToString(p[j].index);
      }
    }
    SplitJoin(parts, PathSeparator);
  }

  /** The path `join_path` loses its indices to: every Index becomes the
      Key spelled by its number. */
  function ForgetIndices(p: seq<Step>): (q: seq<Step>)
    ensures |q| == |p|
    ensures forall j :: 0 <= j < |p| ==> q[j] == Key(StepStr(p[j]))
  {
    seq(|p|, j requires 0 <= j < |p| => Key(StepStr(p[j])))
  }

  /** A run of segments that are all valid keys parses to those keys. */
  lemma {:induction false} ParseValidSegments(validKey: string -> bool, segs: seq<string>)
    requires forall j :: 0 <= j < |segs| ==> segs[j] != "" && validKey(segs[j])
    ensures ParseSegments(validKey, segs) == Ok(seq(|segs|, j requires 0 <= j < |segs| => Key(segs[j])))
  {
    if segs != [] {
      var init, seg := segs[..|segs| - 1], segs[|segs| - 1];
      ParseValidSegments(validKey, init);
      ParseSegmentsSnoc(validKey, init, seg);
      assert init + [seg] == segs;
      var keys := seq(|init|, j requires 0 <= j < |init| => Key(init[j]));
      assert keys + [Key(seg)] == seq(|segs|, j requires 0 <= j < |segs| => Key(segs[j]));
    } else {
      assert seq(|segs|, j requires 0 <= j < |segs| => Key(segs[j])) == [];
    }
  }

  /** Re-parsing `join_path(p)` gives back `p` with every Index turned into
      the Key of its number, whenever each step's text is a valid key and
      every key is non-empty and free of the separator. */
  lemma JoinPathReparse(validKey: string -> bool, p: seq<Step>)
    requires forall j :: 0 <= j < |p| ==> validKey(StepStr(p[j]))
    requires forall j :: 0 <= j < |p| && p[j].Key? ==> p[j].key != "" && PathSeparator !in p[j].key
    ensures Parse(validKey, JoinPath(p)) == Ok(ForgetIndices(p))
  {
    var parts := StepTexts(p);
    if p == [] {
      ParseSegmentsSnoc(validKey, [], "");
      assert [] + [""] == [""];
    } else {
      forall j | 0 <= j < |parts|
        ensures parts[j] != "" && validKey(parts[j])
      {
      }
      StepTextsSplit(p);
      ParseValidSegments(validKey, parts);
      assert seq(|parts|, j requires 0 <= j < |parts| => Key(parts[j])) == ForgetIndices(p);
    }
  }

  /** The evident case: `[Key a, Index 1]` prints as `a.1`, which parses
      back as two keys, `a` and `1`. */
  lemma JoinPathLosesIndex(validKey: string -> bool, a: string)
    requires a != "" && PathSeparator !in a && validKey(a) && validKey("1")
    ensures JoinPath([Key(a), Index(1)]) == a + ".1"
    ensures Parse(validKey, JoinPath([Key(a), Index(1)])) == Ok([Key(a), Key("1")])
  {
    var p := [Key(a), Index(1)];
    assert IntToString(1) == "1";
    var parts := StepTexts(p);
    assert parts == [a, "1"];
    assert parts[1..] == ["1"];
    assert JoinWith(parts, [PathSeparator]) == a + [PathSeparator] + "1";
    assert a + [PathSeparator] + "1" == a + ".1";
    JoinPathReparse(validKey, p);
    assert ForgetIndices(p) == [Key(a), Key("1")];
  }
}
