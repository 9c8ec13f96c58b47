/** The current iteration of tomlraider (src/tomlraider/core.py): the path
    parser `parse_path`, the path printer `join_path`, the evaluator
    `read_toml` over an already decoded document, and the shell branch of
    `dumps`.

    Key validity (`_validate_key`, which asks the TOML decoder whether
    `<key>='test'` is a document) is foreign code: every operation that
    needs it takes it as the parameter `validKey`. */
module Core {
  import opened PyRuntime
  import opened TomlTree

  const PathSeparator: char := '.'
  const ShellListSeparator: string := " "

  // =====================================================================
  // TomlContainer.__getitem__
  // =====================================================================

  function ContainerKind(c: Value): string
  {
    if c.Array? then "array" else "table"
  }

  function StepKind(s: Step): string
  {
    if s.Key? then "TomlKey" else "TomlIndex"
  }

  /** The message of the TOMLLookUpError for a step of the wrong kind. */
  function MismatchMsg(c: Value, s: Step): string
  {
    "trying to access a Toml's " + ContainerKind(c) + " with a " + StepKind(s)
  }

  /** True when the step's kind does not fit the container's: a Key on an
      array or an Index on a table. */
  predicate Mismatched(c: Value, s: Step)
  {
    (c.Array? && s.Key?) || (c.Table? && s.Index?)
  }

  /** `TomlContainer(c)[s]`: a Key subscripts a table, an Index an array;
      any other pairing raises TOMLLookUpError, while a missing key or an
      index out of range lets Python's own KeyError or IndexError through. */
  function GetItem(c: Value, s: Step): (r: Result<Value>)
    requires c.IsContainer()
    ensures Mismatched(c, s) <==> r == Raise(TOMLLookUpError(MismatchMsg(c, s)))
    ensures c.Table? && s.Key? ==>
              (r.Ok? <==> HasKey(c.entries, s.key))
              && (r.Ok? ==> (s.key, r.value) in c.entries)
              && (r.Raise? ==> r.exc == KeyError(s.key))
    ensures c.Array? && s.Index? ==>
              (r.Ok? <==> -|c.items| <= s.index < |c.items|)
              && (r.Ok? ==> r.value == c.items[if s.index < 0 then |c.items| + s.index else s.index])
              && (r.Raise? ==> r.exc == IndexError)
  {
    if c.Array? && s.Index? then
      match ListItem(c.items, s.index)
      case Some(v) => Ok(v)
      case None => Raise(IndexError)
    else if c.Table? && s.Key? then
      match TableItem(c.entries, s.key)
      case Some(v) => Ok(v)
      case None => Raise(KeyError(s.key))
    else
      Raise(TOMLLookUpError(MismatchMsg(c, s)))
  }

  // =====================================================================
  // read_toml
  // =====================================================================

  const RootIndexMsg: string := "trying to address the Toml's global table with an index"

  /** The message of the TOMLLookUpError for a step that reaches an atom
      before the end of the path. */
  function AtomicMsg(v: Value): string
  {
    "trying to address an atomic Toml value, " + ClassRepr(v) + " is not subscriptable"
  }

  /** The walk from `loc` along `steps`: every step but the last must land
      on a container; the last may land on anything. */
  function ResolveFrom(loc: Value, steps: seq<Step>): (r: Result<Value>)
    requires loc.IsContainer() && |steps| >= 1
    ensures r.Raise? ==> r.exc.TOMLLookUpError? || r.exc.KeyError? || r.exc.IndexError?
    decreases |steps|
  {
    var item := GetItem(loc, steps[0]);
    if |steps| == 1 || item.Raise? then item
    else if item.value.IsContainer() then ResolveFrom(item.value, steps[1..])
    else Raise(TOMLLookUpError(AtomicMsg(item.value)))
  }

  /** What `read_toml` returns for a decoded document `root`: the root for
      the empty path, an error for a path that starts with an Index, and
      otherwise the walk. Every failure is a TOMLLookUpError, a KeyError or
      an IndexError. */
  function Resolve(root: Value, path: seq<Step>): (r: Result<Value>)
    requires root.Table?
    ensures r.Raise? ==> r.exc.TOMLLookUpError? || r.exc.KeyError? || r.exc.IndexError?
  {
    if path == [] then Ok(root)
    else if path[0].Index? then Raise(TOMLLookUpError(RootIndexMsg))
    else ResolveFrom(root, path)
  }

  /** The empty path gives the whole document; a path that starts with an
      Index is refused before any lookup. */
  lemma ResolveRootCases(root: Value, path: seq<Step>)
    requires root.Table?
    ensures path == [] ==> Resolve(root, path) == Ok(root)
    ensures path != [] && path[0].Index? ==> Resolve(root, path) == Raise(TOMLLookUpError(RootIndexMsg))
    ensures path != [] && path[0].Key? ==> Resolve(root, path) == ResolveFrom(root, path)
  {
  }

  /** `read_toml` once `tomllib.loads` has produced `root`: the loop keeps
      the stack `locations` of the containers visited so far. */
  method ReadToml(root: Value, path: seq<Step>) returns (r: Result<Value>)
    requires root.Table?
    ensures r == Resolve(root, path)
  {
    var locations := [root];
    if path == [] {
      return Ok(root);
    }
    if path[0].Index? {
      return Raise(TOMLLookUpError(RootIndexMsg));
    }
    var i := 0;
    while i < |path| - 1
      invariant 0 <= i <= |path| - 1
      invariant |locations| == i + 1
      invariant forall j :: 0 <= j < |locations| ==> locations[j].IsContainer()
      invariant Resolve(root, path) == ResolveFrom(locations[i], path[i..])
    {
      var loc := locations[|locations| - 1];
      var item := GetItem(loc, path[i]);
      assert path[i..][1..] == path[i + 1..];
      if item.Raise? {
        return item;
      }
      if !item.value.IsContainer() {
        return Raise(TOMLLookUpError(AtomicMsg(item.value)));
      }
      locations := locations + [item.value];
      i := i + 1;
    }
    assert path[i..] == [path[|path| - 1]];
    r := GetItem(locations[|locations| - 1], path[|path| - 1]);
  }

  /** `locs` are the places a walk along `path` visits from `root`: each is
      its predecessor subscripted by the step, and all but the last are
      containers. */
  ghost predicate IsTrail(root: Value, path: seq<Step>, locs: seq<Value>)
  {
    |locs| == |path| + 1 && locs[0] == root
    && forall j :: 0 <= j < |path| ==>
         locs[j].IsContainer() && GetItem(locs[j], path[j]) == Ok(locs[j + 1])
  }

  lemma {:induction false} TrailOfWalk(loc: Value, steps: seq<Step>, v: Value)
    requires loc.IsContainer() && |steps| >= 1
    requires ResolveFrom(loc, steps) == Ok(v)
    ensures exists locs :: IsTrail(loc, steps, locs) && locs[|steps|] == v
    decreases |steps|
  {
    var item := GetItem(loc, steps[0]);
    if |steps| == 1 {
      assert IsTrail(loc, steps, [loc, v]);
    } else {
      TrailOfWalk(item.value, steps[1..], v);
      var rest :| IsTrail(item.value, steps[1..], rest) && rest[|steps| - 1] == v;
      TrailCons(loc, steps, rest);
    }
  }

  /** A step from a container, then a walk from where it lands. */
  lemma TrailCons(loc: Value, steps: seq<Step>, rest: seq<Value>)
    requires loc.IsContainer() && |steps| >= 1
    requires |rest| == |steps| && IsTrail(rest[0], steps[1..], rest) && GetItem(loc, steps[0]) == Ok(rest[0])
    ensures IsTrail(loc, steps, [loc] + rest) && ([loc] + rest)[|steps|] == rest[|steps| - 1]
  {
    var locs := [loc] + rest;
    forall j | 0 <= j < |steps|
      ensures locs[j].IsContainer() && GetItem(locs[j], steps[j]) == Ok(locs[j + 1])
    {
      if j > 0 {
        assert locs[j] == rest[j - 1] && locs[j + 1] == rest[j] && steps[j] == steps[1..][j - 1];
      }
    }
  }

  lemma {:induction false} WalkOfTrail(loc: Value, steps: seq<Step>, locs: seq<Value>)
    requires |steps| >= 1 && IsTrail(loc, steps, locs)
    ensures loc.IsContainer() && ResolveFrom(loc, steps) == Ok(locs[|steps|])
    decreases |steps|
  {
    if |steps| > 1 {
      var rest := locs[1..];
      assert forall j :: 0 <= j < |steps| - 1 ==> rest[j] == locs[j + 1] && steps[1..][j] == steps[j + 1];
      assert IsTrail(locs[1], steps[1..], rest);
      WalkOfTrail(locs[1], steps[1..], rest);
    }
  }

  /** `read_toml` succeeds with `v` exactly when the path does not start
      with an Index and some walk along it from the root ends at `v`; the
      value at the end may be an atom, a table or an array. The empty path
      has the one-place walk `[root]`. */
  lemma ResolveIsTrail(root: Value, path: seq<Step>, v: Value)
    requires root.Table?
    ensures Resolve(root, path) == Ok(v) <==>
              (path == [] || path[0].Key?) && exists locs :: IsTrail(root, path, locs) && locs[|path|] == v
  {
    if path == [] {
      if Resolve(root, path) == Ok(v) {
        assert IsTrail(root, path, [root]);
      }
    } else if path[0].Key? {
      if Resolve(root, path) == Ok(v) {
        TrailOfWalk(root, path, v);
      }
      if exists locs :: IsTrail(root, path, locs) && locs[|path|] == v {
        var locs :| IsTrail(root, path, locs) && locs[|path|] == v;
        WalkOfTrail(root, path, locs);
      }
    }
  }

  /** Once a walk has reached `locs[i]` along the first `i` steps, what
      `read_toml` returns is decided by the rest of the path from there. */
  lemma {:induction false} ResolveResumes(root: Value, path: seq<Step>, locs: seq<Value>, i: nat)
    requires root.Table? && |path| >= 1 && path[0].Key?
    requires i < |path| && IsTrail(root, path[..i], locs) && locs[i].IsContainer()
    ensures Resolve(root, path) == ResolveFrom(locs[i], path[i..])
  {
    if i > 0 {
      var prev := locs[..i];
      assert path[..i][..i - 1] == path[..i - 1];
      assert IsTrail(root, path[..i - 1], prev);
      ResolveResumes(root, path, prev, i - 1);
      assert path[i - 1..][1..] == path[i..];
      assert path[i - 1] == path[..i][i - 1];
    }
  }

  /** Where a walk stops: at `locs[i]`, reached along the first `i` steps of
      a path that is longer than `i`,
      - an atom (only possible after a step that was not the last) gives
        TOMLLookUpError about an atomic value;
      - a step of the wrong kind gives TOMLLookUpError naming both kinds;
      - a missing key gives KeyError and an out-of-range index IndexError,
        neither wrapped as TOMLLookUpError. */
  lemma ResolveStopsAt(root: Value, path: seq<Step>, locs: seq<Value>, i: nat)
    requires root.Table? && |path| >= 1 && path[0].Key?
    requires i < |path| && IsTrail(root, path[..i], locs)
    ensures !locs[i].IsContainer() ==>
              i > 0 && Resolve(root, path) == Raise(TOMLLookUpError(AtomicMsg(locs[i])))
    ensures locs[i].IsContainer() && Mismatched(locs[i], path[i]) ==>
              Resolve(root, path) == Raise(TOMLLookUpError(MismatchMsg(locs[i], path[i])))
    ensures locs[i].Table? && path[i].Key? && !HasKey(locs[i].entries, path[i].key) ==>
              Resolve(root, path) == Raise(KeyError(path[i].key))
    ensures locs[i].Array? && path[i].Index? && !(-|locs[i].items| <= path[i].index < |locs[i].items|) ==>
              Resolve(root, path) == Raise(IndexError)
  {
    if locs[i].IsContainer() {
      ResolveResumes(root, path, locs, i);
    } else {
      var prev := locs[..i];
      assert path[..i][..i - 1] == path[..i - 1];
      assert IsTrail(root, path[..i - 1], prev);
      ResolveResumes(root, path, prev, i - 1);
      assert path[i - 1] == path[..i][i - 1];
      assert path[i - 1..][1..] == path[i..];
    }
  }

  // =====================================================================
  // _validate_key, _look_for_key_indice
  // =====================================================================

  /** The position of the last `c` in `s`. */
  function LastIndexOf(s: string, c: char): (r: Option<nat>)
    ensures r.Some? ==> r.value < |s| && s[r.value] == c && c !in s[r.value + 1..]
    ensures r.None? ==> c !in s
  {
    if s == [] then None
    else if s[|s| - 1] == c then Some(|s| - 1)
    else
      var r := LastIndexOf(s[..|s| - 1], c);
      assert r.Some? ==> s[r.value + 1..] == s[..|s| - 1][r.value + 1..] + [s[|s| - 1]];
      assert s == s[..|s| - 1] + [s[|s| - 1]];
      r
  }

  /** The match of `^(.+)\[(-?\d*)\]$` against a segment, with its two
      groups: `.` matches anything but a newline, `$` matches at the end or
      before one final newline, `\d` is an ASCII digit. The bracket the
      pattern matches is the last `[` of the segment, since the second
      group cannot hold one. */
  function MatchKeyIndex(seg: string): (r: Option<(string, string)>)
    ensures r.Some? ==> r.value.0 != "" && '\n' !in r.value.0 && IsIndexBody(r.value.1)
    ensures r.Some? ==> var bracketed := r.value.0 + "[" + r.value.1 + "]";
                        seg == bracketed || seg == bracketed + "\n"
  {
    var t := if seg != [] && seg[|seg| - 1] == '\n' then seg[..|seg| - 1] else seg;
    if t == [] || t[|t| - 1] != ']' then None
    else
      match LastIndexOf(t[..|t| - 1], '[')
      case None => None
      case Some(j) =>
        var prefix, body := t[..j], t[j + 1..|t| - 1];
        if prefix != [] && '\n' !in prefix && IsIndexBody(body) then
          assert t == prefix + "[" + body + "]";
          Some((prefix, body))
        else None
  }

  /** The last `c` is the one after which no `c` follows. */
  lemma {:induction false} LastIndexOfIs(s: string, c: char, i: nat)
    requires i < |s| && s[i] == c && c !in s[i + 1..]
    ensures LastIndexOf(s, c) == Some(i)
  {
    if i < |s| - 1 {
      var init := s[..|s| - 1];
      assert s[|s| - 1] == s[i + 1..][|s| - 2 - i];
      assert init[i + 1..] == s[i + 1..|s| - 1];
      LastIndexOfIs(init, c, i);
    }
  }

  /** An ASCII index body holds no bracket. */
  lemma IndexBodyHasNoBracket(body: string)
    requires IsIndexBody(body)
    ensures '[' !in body
  {
    forall i | 0 <= i < |body|
      ensures body[i] != '['
    {
      if body[0] == '-' && i > 0 {
        assert body[i] == body[1..][i - 1];
      }
    }
  }

  /** A bracketed ASCII index after a non-empty, newline-free prefix always
      matches, with the prefix and the index as the groups. */
  lemma MatchKeyIndexComplete(k: string, body: string)
    requires k != "" && '\n' !in k && IsIndexBody(body)
    ensures MatchKeyIndex(k + "[" + body + "]") == Some((k, body))
  {
    var seg := k + "[" + body + "]";
    assert seg[|seg| - 1] == ']';
    var s := seg[..|seg| - 1];
    assert s == k + "[" + body;
    IndexBodyHasNoBracket(body);
    assert s[|k| + 1..] == body;
    LastIndexOfIs(s, '[', |k|);
    assert seg[..|k|] == k;
    assert seg[|k| + 1..|seg| - 1] == body;
  }

  /** `_look_for_key_indice`: the two groups of the match, when the first
      is itself a valid key. */
  function LookForKeyIndice(validKey: string -> bool, seg: string): (r: Option<(string, string)>)
    ensures r.Some? <==> MatchKeyIndex(seg).Some? && validKey(MatchKeyIndex(seg).value.0)
    ensures r.Some? ==> r == MatchKeyIndex(seg)
  {
    match MatchKeyIndex(seg)
    case None => None
    case Some(groups) => if validKey(groups.0) then Some(groups) else None
  }

  // =====================================================================
  // parse_path
  // =====================================================================

  /** What one non-empty segment contributes to a path: its steps, or the
      literal `int()` refuses, or nothing valid at all. */
  datatype SegmentOutcome = Steps(steps: seq<Step>) | BadLiteral(literal: string) | Invalid

  /** One turn of `parse_path`'s loop: a valid key gives `Key(seg)`;
      otherwise `key[n]` with a valid key gives `Key(key), Index(int(n))`. */
  function ClassifySegment(validKey: string -> bool, seg: string): (r: SegmentOutcome)
    ensures validKey(seg) ==> r == Steps([Key(seg)])
    ensures r.Steps? ==>
              (r.steps == [Key(seg)] && validKey(seg))
              || (|r.steps| == 2 && r.steps[0].Key? && r.steps[1].Index?
                  && validKey(r.steps[0].key) && r.steps[0].key != ""
                  && '\n' !in r.steps[0].key && r.steps[0].key < seg)
    ensures r.Invalid? <==> !validKey(seg) && LookForKeyIndice(validKey, seg).None?
  {
    if validKey(seg) then Steps([Key(seg)])
    else
      match LookForKeyIndice(validKey, seg)
      case None => Invalid
      case Some(groups) =>
        match ParseInt(groups.1)
        case None => BadLiteral(groups.1)
        case Some(n) => Steps([Key(groups.0), Index(n)])
  }

  function InvalidKeyMsg(seg: string): string
  {
    "Invalid key in TomlPath: " + seg
  }

  /** One turn of `parse_path`'s loop over `seg`, after the turns before
      it ended in `acc`: an error is kept, an empty segment is skipped. */
  function ParseStep(validKey: string -> bool, acc: Result<seq<Step>>, seg: string): Result<seq<Step>>
  {
    match acc
    case Raise(e) => Raise(e)
    case Ok(out) =>
      if seg == "" then Ok(out)
      else
        match ClassifySegment(validKey, seg)
        case Steps(steps) => Ok(out + steps)
        case BadLiteral(lit) => Raise(ValueError(lit))
        case Invalid => Raise(TOMLPathFormatError(InvalidKeyMsg(seg)))
  }

  /** `parse_path` over the segments of the split path, taken from the back
      as the loop builds its output: empty segments are skipped, the first
      bad segment in order decides the error. */
  function ParseSegments(validKey: string -> bool, segs: seq<string>): (r: Result<seq<Step>>)
    ensures r.Raise? ==> r.exc.TOMLPathFormatError? || r.exc.ValueError?
  {
    if segs == [] then Ok([])
    else ParseStep(validKey, ParseSegments(validKey, segs[..|segs| - 1]), segs[|segs| - 1])
  }

  lemma ParseSegmentsSnoc(validKey: string -> bool, init: seq<string>, seg: string)
    ensures ParseSegments(validKey, init + [seg]) == ParseStep(validKey, ParseSegments(validKey, init), seg)
  {
    assert (init + [seg])[..|init|] == init;
  }

  /** Once a turn raises, the later turns keep that error. */
  lemma {:induction false} ParseSegmentsKeepsError(validKey: string -> bool, segs: seq<string>, i: nat)
    requires i <= |segs| && ParseSegments(validKey, segs[..i]).Raise?
    ensures ParseSegments(validKey, segs) == ParseSegments(validKey, segs[..i])
    decreases |segs| - i
  {
    if i < |segs| {
      ParseSegmentsSnoc(validKey, segs[..i], segs[i]);
      assert segs[..i] + [segs[i]] == segs[..i + 1];
      ParseSegmentsKeepsError(validKey, segs, i + 1);
    } else {
      assert segs[..i] == segs;
    }
  }

  /** What `parse_path(path)` returns or raises. */
  function Parse(validKey: string -> bool, path: string): Result<seq<Step>>
  {
    ParseSegments(validKey, Split(path, PathSeparator))
  }

  /** `parse_path`: a loop over the segments that appends to `out`. */
  method ParsePath(validKey: string -> bool, path: string) returns (r: Result<seq<Step>>)
    ensures r == Parse(validKey, path)
  {
    var parts := Split(path, PathSeparator);
    var out: seq<Step> := [];
    var i := 0;
    while i < |parts|
      invariant 0 <= i <= |parts|
      invariant ParseSegments(validKey, parts[..i]) == Ok(out)
    {
      var part := parts[i];
      ParseSegmentsNext(validKey, parts, i);
      if part == "" {
        i := i + 1;
        continue;
      }
      if validKey(part) {
        assert ClassifySegment(validKey, part) == Steps([Key(part)]);
        out := out + [Key(part)];
      } else {
        var search := LookForKeyIndice(validKey, part);
        if search.None? {
          r := Raise(TOMLPathFormatError(InvalidKeyMsg(part)));
          ParseSegmentsKeepsError(validKey, parts, i + 1);
          return;
        }
        var n := ParseInt(search.value.1);
        if n.None? {
          r := Raise(ValueError(search.value.1));
          ParseSegmentsKeepsError(validKey, parts, i + 1);
          return;
        }
        assert ClassifySegment(validKey, part) == Steps([Key(search.value.0), Index(n.value)]);
        out := out + [Key(search.value.0), Index(n.value)];
      }
      i := i + 1;
    }
    assert parts[..i] == parts;
    r := Ok(out);
  }

  lemma ParseSegmentsNext(validKey: string -> bool, parts: seq<string>, i: int)
    requires 0 <= i < |parts|
    ensures ParseSegments(validKey, parts[..i + 1]) == ParseStep(validKey, ParseSegments(validKey, parts[..i]), parts[i])
  {
    ParseSegmentsSnoc(validKey, parts[..i], parts[i]);
    assert parts[..i] + [parts[i]] == parts[..i + 1];
  }

  /** `parse_path` succeeds exactly when every non-empty segment is a key
      or a key with an index. */
  lemma {:induction false} ParseSegmentsOkIff(validKey: string -> bool, segs: seq<string>)
    ensures ParseSegments(validKey, segs).Ok? <==>
              forall j :: 0 <= j < |segs| && segs[j] != "" ==> ClassifySegment(validKey, segs[j]).Steps?
  {
    if segs != [] {
      var init, last := segs[..|segs| - 1], segs[|segs| - 1];
      ParseSegmentsOkIff(validKey, init);
      ParseSegmentsSnoc(validKey, init, last);
      assert init + [last] == segs;
      assert forall j :: 0 <= j < |init| ==> init[j] == segs[j];
    }
  }

  /** A TOMLPathFormatError names a segment of the path that is neither a
      key nor a key with an index. */
  lemma {:induction false} ParseErrorNamesSegment(validKey: string -> bool, segs: seq<string>, msg: string)
    requires ParseSegments(validKey, segs) == Raise(TOMLPathFormatError(msg))
    ensures exists j :: 0 <= j < |segs| && segs[j] != ""
              && ClassifySegment(validKey, segs[j]).Invalid? && msg == InvalidKeyMsg(segs[j])
  {
    var init, last := segs[..|segs| - 1], segs[|segs| - 1];
    ParseSegmentsSnoc(validKey, init, last);
    assert init + [last] == segs;
    if ParseSegments(validKey, init).Raise? {
      ParseErrorNamesSegment(validKey, init, msg);
      var j :| 0 <= j < |init| && init[j] != ""
               && ClassifySegment(validKey, init[j]).Invalid? && msg == InvalidKeyMsg(init[j]);
      assert segs[j] == init[j];
    } else {
      assert ClassifySegment(validKey, last).Invalid?;
    }
  }

  /** A key `parse_path` can emit: valid, non-empty, free of the separator. */
  ghost predicate KeyOk(validKey: string -> bool, k: string)
  {
    validKey(k) && k != "" && PathSeparator !in k
  }

  /** A path as `parse_path` builds it, read from the back: a run of
      well-formed keys, each possibly followed by one index, where a key
      followed by an index has no newline. */
  ghost predicate WellFormed(validKey: string -> bool, p: seq<Step>)
    decreases |p|
  {
    if p == [] then true
    else if p[|p| - 1].Key? then
      KeyOk(validKey, p[|p| - 1].key) && WellFormed(validKey, p[..|p| - 1])
    else
      |p| >= 2 && p[|p| - 2].Key? && KeyOk(validKey, p[|p| - 2].key) && '\n' !in p[|p| - 2].key
      && WellFormed(validKey, p[..|p| - 2])
  }

  lemma WellFormedSnocKey(validKey: string -> bool, p: seq<Step>, k: string)
    requires WellFormed(validKey, p) && KeyOk(validKey, k)
    ensures WellFormed(validKey, p + [Key(k)])
  {
    assert (p + [Key(k)])[..|p|] == p;
  }

  lemma WellFormedSnocKeyIndex(validKey: string -> bool, p: seq<Step>, k: string, n: int)
    requires WellFormed(validKey, p) && KeyOk(validKey, k) && '\n' !in k
    ensures WellFormed(validKey, p + [Key(k), Index(n)])
  {
    assert (p + [Key(k), Index(n)])[..|p|] == p;
  }

  /** In a well-formed path every Index comes right after a Key. */
  lemma {:induction false} WellFormedIndexFollowsKey(validKey: string -> bool, p: seq<Step>)
    requires WellFormed(validKey, p)
    ensures forall j :: 0 <= j < |p| && p[j].Index? ==> j > 0 && p[j - 1].Key?
    decreases |p|
  {
    if p != [] {
      var m := if p[|p| - 1].Key? then |p| - 1 else |p| - 2;
      WellFormedIndexFollowsKey(validKey, p[..m]);
      assert forall j :: 0 <= j < m ==> p[..m][j] == p[j];
    }
  }

  /** A key found before the last bracket of a segment holds no separator
      if the segment holds none. */
  lemma PrefixKeepsNoSep(k: string, seg: string)
    requires k < seg && PathSeparator !in seg
    ensures PathSeparator !in k
  {
    assert forall i :: 0 <= i < |k| ==> k[i] == seg[i];
  }

  /** What `parse_path` builds is well formed. */
  lemma {:induction false} ParseSegmentsWellFormed(validKey: string -> bool, segs: seq<string>)
    requires forall j :: 0 <= j < |segs| ==> PathSeparator !in segs[j]
    ensures ParseSegments(validKey, segs).Ok? ==> WellFormed(validKey, ParseSegments(validKey, segs).value)
  {
    if segs != [] {
      var init, seg := segs[..|segs| - 1], segs[|segs| - 1];
      ParseSegmentsWellFormed(validKey, init);
      ParseSegmentsSnoc(validKey, init, seg);
      assert init + [seg] == segs;
      var acc := ParseSegments(validKey, init);
      if acc.Ok? && seg != "" {
        var c := ClassifySegment(validKey, seg);
        if c.Steps? {
          if c.steps == [Key(seg)] {
            WellFormedSnocKey(validKey, acc.value, seg);
          } else {
            var k := c.steps[0].key;
            PrefixKeepsNoSep(k, seg);
            assert c.steps == [Key(k), Index(c.steps[1].index)];
            WellFormedSnocKeyIndex(validKey, acc.value, k, c.steps[1].index);
          }
        }
      }
    }
  }

  /** Every Index that `parse_path` emits directly follows a Key, so a
      parsed path never starts with an Index. */
  lemma ParsedIndexFollowsKey(validKey: string -> bool, path: string, p: seq<Step>)
    requires Parse(validKey, path) == Ok(p)
    ensures forall j :: 0 <= j < |p| && p[j].Index? ==> j > 0 && p[j - 1].Key?
    ensures p == [] || p[0].Key?
  {
    ParseSegmentsWellFormed(validKey, Split(path, PathSeparator));
    WellFormedIndexFollowsKey(validKey, p);
  }

  /** Empty segments produce no steps: `""` and `"."` parse to the empty
      path and `"..a.."` to `[Key a]` for a valid key `a`. */
  lemma ParseSkipsEmptySegments(validKey: string -> bool)
    ensures Parse(validKey, "") == Ok([])
    ensures Parse(validKey, ".") == Ok([])
    ensures validKey("a") ==> Parse(validKey, "..a..") == Ok([Key("a")])
  {
    ParseSegmentsSnoc(validKey, [], "");
    assert [] + [""] == [""];
    SplitAppend("", '.', "");
    assert "" + ['.'] + "" == ".";
    ParseSegmentsSnoc(validKey, [""], "");
    assert [""] + [""] == ["", ""];
    if validKey("a") {
      var segs := ["", "", "a", "", ""];
      assert JoinWith(segs, ".") == "..a.." by {
        assert segs[1..] == ["", "a", "", ""];
        assert segs[1..][1..] == ["a", "", ""];
        assert segs[1..][1..][1..] == ["", ""];
        assert segs[1..][1..][1..][1..] == [""];
      }
      SplitJoin(segs, '.');
      ParseSegmentsSnoc(validKey, ["", ""], "a");
      assert ["", ""] + ["a"] == ["", "", "a"];
      ParseSegmentsSnoc(validKey, ["", "", "a"], "");
      assert ["", "", "a"] + [""] == ["", "", "a", ""];
      ParseSegmentsSnoc(validKey, ["", "", "a", ""], "");
      assert ["", "", "a", ""] + [""] == segs;
      assert [] + [Key("a")] == [Key("a")];
    }
  }

  /** A valid key without the separator parses to that one Key. */
  lemma ParseSingleKey(validKey: string -> bool, k: string)
    requires validKey(k) && k != "" && PathSeparator !in k
    ensures Parse(validKey, k) == Ok([Key(k)])
  {
    SplitNoSep(k, PathSeparator);
    ParseSegmentsSnoc(validKey, [], k);
    assert [] + [k] == [k];
    assert [] + [Key(k)] == [Key(k)];
  }

  /** The segment `k[n]` as `join_path` and users write it. */
  function IndexedSegment(k: string, n: int): string
  {
    k + StepText(Index(n))
  }

  /** `ClassifySegment` on `k[n]` when the whole is not a key but `k` is. */
  lemma ClassifyIndexed(validKey: string -> bool, k: string, n: int)
    requires validKey(k) && k != "" && '\n' !in k
    requires !validKey(IndexedSegment(k, n))
    ensures ClassifySegment(validKey, IndexedSegment(k, n)) == Steps([Key(k), Index(n)])
  {
    ParseIntToString(n);
    MatchKeyIndexComplete(k, IntToString(n));
    BracketAssoc(k, IntToString(n));
  }

  lemma BracketAssoc(k: string, body: string)
    ensures k + ("[" + body + "]") == k + "[" + body + "]"
  {
  }

  /** `k[n]`, for a valid key `k` that is not itself valid with the
      bracket attached, parses to `Key k, Index n`, negative `n` included. */
  lemma ParseKeyIndex(validKey: string -> bool, k: string, n: int)
    requires validKey(k) && k != "" && PathSeparator !in k && '\n' !in k
    requires !validKey(IndexedSegment(k, n))
    ensures Parse(validKey, IndexedSegment(k, n)) == Ok([Key(k), Index(n)])
  {
    var seg := IndexedSegment(k, n);
    ClassifyIndexed(validKey, k, n);
    assert PathSeparator !in IntToString(n);
    assert PathSeparator !in seg;
    SplitNoSep(seg, PathSeparator);
    ParseSegmentsSnoc(validKey, [], seg);
    assert [] + [seg] == [seg];
    assert [] + [Key(k), Index(n)] == [Key(k), Index(n)];
  }

  /** Parsing a path that is one segment without a separator. */
  lemma ParseOneSegment(validKey: string -> bool, seg: string)
    requires seg != "" && PathSeparator !in seg
    ensures Parse(validKey, seg) == ParseStep(validKey, Ok([]), seg)
  {
    SplitNoSep(seg, PathSeparator);
    ParseSegmentsSnoc(validKey, [], seg);
    assert [] + [seg] == [seg];
  }

  /** `a[x]` has no digits between the brackets: TOMLPathFormatError. */
  lemma ParseRejectsLetterIndex(validKey: string -> bool)
    requires !validKey("a[x]")
    ensures Parse(validKey, "a[x]") == Raise(TOMLPathFormatError(InvalidKeyMsg("a[x]")))
  {
    ParseOneSegment(validKey, "a[x]");
    LastIndexOfIs("a[x", '[', 1);
    assert "a[x]"[..3] == "a[x" && "a[x"[2..] == "x";
    assert !IsDigit("x"[0]);
  }

  /** `[0]` has nothing before the bracket: TOMLPathFormatError. */
  lemma ParseRejectsBareIndex(validKey: string -> bool)
    requires !validKey("[0]")
    ensures Parse(validKey, "[0]") == Raise(TOMLPathFormatError(InvalidKeyMsg("[0]")))
  {
    ParseOneSegment(validKey, "[0]");
    LastIndexOfIs("[0", '[', 0);
    assert "[0]"[..2] == "[0";
  }

  /** `a[1][2]`: the part before the last bracket, `a[1]`, must itself be
      a valid key, so two indices in one segment raise TOMLPathFormatError. */
  lemma ParseRejectsDoubleIndex(validKey: string -> bool)
    requires !validKey("a[1][2]") && !validKey("a[1]")
    ensures Parse(validKey, "a[1][2]") == Raise(TOMLPathFormatError(InvalidKeyMsg("a[1][2]")))
  {
    ParseOneSegment(validKey, "a[1][2]");
    MatchDoubleIndex();
    assert ClassifySegment(validKey, "a[1][2]") == Invalid;
  }

  lemma MatchDoubleIndex()
    ensures MatchKeyIndex("a[1][2]") == Some(("a[1]", "2"))
  {
    assert '\n' !in "a[1]";
    assert IsIndexBody("2");
    MatchKeyIndexComplete("a[1]", "2");
    assert "a[1]" + "[" + "2" + "]" == "a[1][2]";
  }

  /** `a[]` passes the pattern and then `int("")` raises ValueError. */
  lemma ParseRejectsEmptyIndex(validKey: string -> bool)
    requires !validKey("a[]") && validKey("a")
    ensures Parse(validKey, "a[]") == Raise(ValueError(""))
  {
    ParseOneSegment(validKey, "a[]");
    MatchKeyIndexComplete("a", "");
    assert "a" + "[" + "" + "]" == "a[]";
  }

  // =====================================================================
  // join_path
  // =====================================================================

  /** How `join_path` writes one step: `.key` or `[n]`. */
  function StepText(s: Step): string
  {
    match s
    case Key(k) => [PathSeparator] + k
    case Index(n) => "[" + IntToString(n) + "]"
  }

  /** What `join_path(p)` returns, read from the back. */
  function Join(p: seq<Step>): string
  {
    if p == [] then "" else Join(p[..|p| - 1]) + StepText(p[|p| - 1])
  }

  /** `join_path`: a loop that extends the list `out` and joins it at the end. */
  method JoinPath(p: seq<Step>) returns (s: string)
    ensures s == Join(p)
  {
    var out: seq<string> := [];
    for i := 0 to |p|
      invariant Concat(out) == Join(p[..i])
    {
      JoinPrefixSnoc(p, i);
      match p[i]
      case Key(k) =>
        ConcatSnocTwo(out, [PathSeparator], k);
        out := out + [[PathSeparator], k];
      case Index(n) =>
        ConcatSnoc(out, "[" + IntToString(n) + "]");
        out := out + ["[" + IntToString(n) + "]"];
    }
    assert p[..|p|] == p;
    s := Concat(out);
  }

  lemma JoinPrefixSnoc(p: seq<Step>, i: int)
    requires 0 <= i < |p|
    ensures Join(p[..i + 1]) == Join(p[..i]) + StepText(p[i])
  {
    assert p[..i + 1][..i] == p[..i];
  }

  lemma ConcatSnoc(out: seq<string>, x: string)
    ensures Concat(out + [x]) == Concat(out) + x
  {
    assert (out + [x])[..|out|] == out;
  }

  lemma ConcatSnocTwo(out: seq<string>, x: string, y: string)
    ensures Concat(out + [x, y]) == Concat(out) + x + y
  {
    ConcatSnoc(out, x);
    assert out + [x, y] == (out + [x]) + [y];
    ConcatSnoc(out + [x], y);
  }

  /** `_validate_key` in the TOML intent rejects a key followed by a
      bracketed index. */
  ghost predicate RejectsIndexed(validKey: string -> bool)
  {
    forall k: string, n: int :: !validKey(IndexedSegment(k, n))
  }

  lemma SnocLast(p: seq<Step>)
    requires |p| >= 1
    ensures p[..|p| - 1] + [p[|p| - 1]] == p
  {
  }

  lemma SnocLastTwo(p: seq<Step>)
    requires |p| >= 2
    ensures p[..|p| - 2] + [p[|p| - 2], p[|p| - 1]] == p
  {
  }

  lemma ConcatAssoc(a: string, b: string, c: string, d: string)
    ensures (a + (b + c)) + d == a + b + (c + d)
  {
  }

  /** Appending a key to a path whose text re-parses. */
  lemma ReparseSnocKey(validKey: string -> bool, p: seq<Step>)
    requires |p| >= 1 && p[|p| - 1].Key? && KeyOk(validKey, p[|p| - 1].key)
    requires ParseSegments(validKey, Split(Join(p[..|p| - 1]), PathSeparator)) == Ok(p[..|p| - 1])
    ensures ParseSegments(validKey, Split(Join(p), PathSeparator)) == Ok(p)
  {
    var init, k := p[..|p| - 1], p[|p| - 1].key;
    var segs := Split(Join(init), PathSeparator);
    SplitJoinSnocKey(p);
    ParseSegmentsSnocKey(validKey, segs, init, k);
    assert p[|p| - 1] == Key(k);
    SnocLast(p);
  }

  lemma SplitJoinSnocKey(p: seq<Step>)
    requires |p| >= 1 && p[|p| - 1].Key? && PathSeparator !in p[|p| - 1].key
    ensures Split(Join(p), PathSeparator) == Split(Join(p[..|p| - 1]), PathSeparator) + [p[|p| - 1].key]
  {
    assert Join(p) == Join(p[..|p| - 1]) + [PathSeparator] + p[|p| - 1].key;
    SplitAppend(Join(p[..|p| - 1]), PathSeparator, p[|p| - 1].key);
  }

  lemma ParseSegmentsSnocKey(validKey: string -> bool, segs: seq<string>, init: seq<Step>, k: string)
    requires KeyOk(validKey, k) && ParseSegments(validKey, segs) == Ok(init)
    ensures ParseSegments(validKey, segs + [k]) == Ok(init + [Key(k)])
  {
    ParseSegmentsSnoc(validKey, segs, k);
  }

  /** Appending a key with an index to a path whose text re-parses. */
  lemma ReparseSnocKeyIndex(validKey: string -> bool, p: seq<Step>)
    requires |p| >= 2 && p[|p| - 2].Key? && p[|p| - 1].Index?
    requires KeyOk(validKey, p[|p| - 2].key) && '\n' !in p[|p| - 2].key
    requires !validKey(IndexedSegment(p[|p| - 2].key, p[|p| - 1].index))
    requires ParseSegments(validKey, Split(Join(p[..|p| - 2]), PathSeparator)) == Ok(p[..|p| - 2])
    ensures ParseSegments(validKey, Split(Join(p), PathSeparator)) == Ok(p)
  {
    var init, k, n := p[..|p| - 2], p[|p| - 2].key, p[|p| - 1].index;
    var seg := IndexedSegment(k, n);
    assert Join(p) == Join(init) + [PathSeparator] + seg by {
      assert p[..|p| - 1][..|p| - 2] == init;
      ConcatAssoc(Join(init), [PathSeparator], k, StepText(Index(n)));
    }
    IndexedSegmentNoSep(k, n);
    var segs := Split(Join(init), PathSeparator);
    SplitAppend(Join(init), PathSeparator, seg);
    ParseSegmentsSnoc(validKey, segs, seg);
    ClassifyIndexed(validKey, k, n);
    assert p[|p| - 2] == Key(k) && p[|p| - 1] == Index(n);
    SnocLastTwo(p);
  }

  lemma IndexedSegmentNoSep(k: string, n: int)
    requires PathSeparator !in k
    ensures PathSeparator !in IndexedSegment(k, n)
  {
    assert PathSeparator !in IntToString(n);
  }

  /** Re-parsing `join_path(p)` of a well-formed path yields `p`. */
  lemma {:induction false} JoinWellFormedReparses(validKey: string -> bool, p: seq<Step>)
    requires RejectsIndexed(validKey) && WellFormed(validKey, p)
    ensures ParseSegments(validKey, Split(Join(p), PathSeparator)) == Ok(p)
    decreases |p|
  {
    if p == [] {
      ParseSegmentsSnoc(validKey, [], "");
      assert [] + [""] == [""];
    } else if p[|p| - 1].Key? {
      JoinWellFormedReparses(validKey, p[..|p| - 1]);
      ReparseSnocKey(validKey, p);
    } else {
      JoinWellFormedReparses(validKey, p[..|p| - 2]);
      assert !validKey(IndexedSegment(p[|p| - 2].key, p[|p| - 1].index));
      ReparseSnocKeyIndex(validKey, p);
    }
  }

  /** Re-parsing what `join_path` writes gives back the parsed path, as
      long as no valid key ends in a bracketed index. */
  lemma JoinParseRoundTrip(validKey: string -> bool, path: string, p: seq<Step>)
    requires RejectsIndexed(validKey)
    requires Parse(validKey, path) == Ok(p)
    ensures Parse(validKey, Join(p)) == Ok(p)
  {
    ParseSegmentsWellFormed(validKey, Split(path, PathSeparator));
    JoinWellFormedReparses(validKey, p);
  }

  // =====================================================================
  // dumps, shell branch
  // =====================================================================

  /** The space-separated `str()` of each element of a list. */
  function ShellList(items: seq<Value>): string
  {
    JoinWith(seq(|items|, j requires 0 <= j < |items| => PyStr(items[j])), ShellListSeparator)
  }

  /** `dumps(value, Output.SHELL, path)`: booleans as 1/0, strings and
      numbers and datetimes and times as their `str()`, a list as its
      elements' `str()` joined by a space, a table as the path text after a
      dot; a plain date reaches the default branch. */
  function DumpsShell(v: Value, path: string): (r: Result<string>)
    ensures r.Raise? <==> v.Date?
    ensures r.Raise? ==> r.exc.NotImplementedError?
    ensures v.Table? ==> r == Ok([PathSeparator] + path)
  {
    match v
    case Bool(b) => Ok(if b then "1" else "0")
    case Str(_) => Ok(PyStr(v))
    case Int(_) => Ok(PyStr(v))
    case Float(_) => Ok(PyStr(v))
    case DateTime(_) => Ok(PyStr(v))
    case Time(_) => Ok(PyStr(v))
    case Array(items) => Ok(ShellList(items))
    case Table(_) => Ok([PathSeparator] + path)
    case Date(_) => Raise(NotImplementedError("Unsupported type: " + ClassRepr(v)))
  }

  /** Shell output of the three kinds the formatter treats specially:
      booleans are 1 and 0; every table, whatever it holds, is `.path`;
      booleans inside a list print as Python's True and False. */
  lemma DumpsShellSpecialKinds(path: string, t1: Value, t2: Value)
    requires t1.Table? && t2.Table?
    ensures DumpsShell(Bool(true), path) == Ok("1") && DumpsShell(Bool(false), path) == Ok("0")
    ensures DumpsShell(t1, path) == DumpsShell(t2, path) == Ok("." + path)
    ensures DumpsShell(Array([Bool(true), Bool(false)]), path) == Ok("True False")
    ensures DumpsShell(Array([Int(1), Int(2), Int(3)]), path) == Ok("1 2 3")
  {
    var bs := [Bool(true), Bool(false)];
    assert seq(2, j requires 0 <= j < 2 => PyStr(bs[j])) == ["True", "False"];
    assert JoinWith(["True", "False"], " ") == "True False" by {
      assert ["True", "False"][1..] == ["False"];
    }
    var ns := [Int(1), Int(2), Int(3)];
    assert IntToString(1) == "1" && IntToString(2) == "2" && IntToString(3) == "3";
    assert seq(3, j requires 0 <= j < 3 => PyStr(ns[j])) == ["1", "2", "3"];
    assert JoinWith(["1", "2", "3"], " ") == "1 2 3" by {
      assert ["1", "2", "3"][1..] == ["2", "3"];
      assert ["2", "3"][1..] == ["3"];
    }
  }

  /** The shell output of a non-empty list splits back on spaces into the
      `str()` of its elements, as long as none of those holds a space. */
  lemma DumpsShellListSplits(items: seq<Value>, path: string)
    requires |items| >= 1
    requires forall j :: 0 <= j < |items| ==> ' ' !in PyStr(items[j])
    ensures DumpsShell(Array(items), path).Ok?
    ensures Split(DumpsShell(Array(items), path).value, ' ')
            == seq(|items|, j requires 0 <= j < |items| => PyStr(items[j]))
  {
    var parts := seq(|items|, j requires 0 <= j < |items| => PyStr(items[j]));
    assert forall j :: 0 <= j < |parts| ==> ' ' !in parts[j];
    SplitJoin(parts, ' ');
  }

  /** Every value but a plain date has a shell rendering; a TOML local
      date (decoded as `datetime.date`, neither a datetime nor a time)
      raises NotImplementedError. */
  lemma DumpsShellRejectsDate(v: Value, path: string)
    ensures DumpsShell(v, path).Raise? <==> v.Date?
    ensures v.Date? ==> DumpsShell(v, path) == Raise(NotImplementedError("Unsupported type: <class 'datetime.date'>"))
  {
    if v.Date? {
      assert ClassRepr(v) == "<class 'datetime.date'>" by {
        assert TypeName(v) == "datetime.date";
        assert "<class '" + "datetime.date" + "'>" == "<class 'datetime.date'>";
      }
      assert "Unsupported type: " + "<class 'datetime.date'>" == "Unsupported type: <class 'datetime.date'>";
    } else {
      assert DumpsShell(v, path).Ok?;
    }
  }

  /** `dumps` as evidently intended: a date prints its `str()` like the
      other date and time values, so every decoded value has a rendering,
      the same as the original's wherever that one has one. */
  function DumpsShellIntended(v: Value, path: string): (r: string)
    ensures DumpsShell(v, path).Ok? ==> r == DumpsShell(v, path).value
    ensures v.Date? ==> r == v.dateText
  {
    if v.Date? then PyStr(v) else DumpsShell(v, path).value
  }

  // =====================================================================
  // A concrete key-validity check, for examples
  // =====================================================================

  /** A TOML bare key (ASCII letters, digits, `_` and `-`): every such
      segment is a valid key, so this is a sound stand-in for
      `_validate_key` on bare keys. */
  predicate BareKey(s: string)
  {
    s != [] && forall i :: 0 <= i < |s| ==>
      ('A' <= s[i] <= 'Z') || ('a' <= s[i] <= 'z') || ('0' <= s[i] <= '9') || s[i] == '_' || s[i] == '-'
  }

  /** Bare keys never end in a bracketed index, so the round trip of
      `join_path` holds for them. */
  lemma BareKeyRejectsIndexed()
    ensures RejectsIndexed(BareKey)
  {
    forall k: string, n: int ensures !BareKey(IndexedSegment(k, n)) {
      var s := IndexedSegment(k, n);
      assert s[|s| - 1] == ']';
    }
  }

  /** In `{"a": {"b": [1, 2, 3]}}`, `a.b[1]` is 2 and `a.b[-1]` is 3. */
  lemma ResolveExample()
    ensures var doc := Table([("a", Table([("b", Array([Int(1), Int(2), Int(3)]))]))]);
            Resolve(doc, [Key("a"), Key("b"), Index(1)]) == Ok(Int(2))
            && Resolve(doc, [Key("a"), Key("b"), Index(-1)]) == Ok(Int(3))
  {
    var doc := Table([("a", Table([("b", Array([Int(1), Int(2), Int(3)]))]))]);
    var p := [Key("a"), Key("b"), Index(1)];
    assert p[1..][1..] == [Index(1)];
    var q := [Key("a"), Key("b"), Index(-1)];
    assert q[1..][1..] == [Index(-1)];
  }
}
