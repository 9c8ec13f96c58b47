/** The earliest iteration of tomlraider (src/tomlraider/main.py): a path
    is a list of plain keys, the walk uses `dict.get` and answers None for a
    missing key, and the shell output joins a list only when it holds
    strings. */
module Early {
  import opened PyRuntime
  import opened TomlTree
  import Core

  const PathSeparator: char := '.'

  // =====================================================================
  // parse_path
  // =====================================================================

  /** The non-empty strings of `segs`, in order (NonEmptyAppend and
      NonEmptySingle pin the order down). */
  function NonEmpty(segs: seq<string>): (r: seq<string>)
    ensures |r| <= |segs|
    ensures forall j :: 0 <= j < |r| ==> r[j] != "" && r[j] in segs
    ensures forall s :: s in segs && s != "" ==> s in r
  {
    if segs == [] then []
    else
      var init, last := segs[..|segs| - 1], segs[|segs| - 1];
      var r := NonEmpty(init);
      assert forall j :: 0 <= j < |r| ==> r[j] in segs by {
        assert forall s :: s in init ==> s in segs;
      }
      if last == "" then r else r + [last]
  }

  /** `parse_path`: the non-empty parts of the path split on dots. */
  function ParsePath(path: string): (parts: seq<string>)
    ensures forall j :: 0 <= j < |parts| ==> parts[j] != "" && PathSeparator !in parts[j]
    ensures forall s :: s in Split(path, PathSeparator) && s != "" ==> s in parts
  {
    NonEmpty(Split(path, PathSeparator))
  }

  /** Filtering a concatenation filters each half and keeps them in order. */
  lemma {:induction false} NonEmptyAppend(a: seq<string>, b: seq<string>)
    ensures NonEmpty(a + b) == NonEmpty(a) + NonEmpty(b)
  {
    if b == [] {
      assert a + b == a;
    } else {
      var init, last := b[..|b| - 1], b[|b| - 1];
      NonEmptyAppend(a, init);
      assert (a + b)[..|a + b| - 1] == a + init;
      assert (a + b)[|a + b| - 1] == last;
    }
  }

  /** A single string is kept exactly when it is not empty. */
  lemma NonEmptySingle(s: string)
    ensures NonEmpty([s]) == if s == "" then [] else [s]
  {
    assert [s][..0] == [];
  }

  /** The parts of `x.y` are the parts of `x` followed by those of `y`:
      `parse_path` keeps every non-empty segment, in order, however many
      empty segments surround it. */
  lemma ParsePathConcat(x: string, y: string)
    requires PathSeparator !in y
    ensures ParsePath(x + [PathSeparator] + y) == ParsePath(x) + NonEmpty([y])
  {
    SplitAppend(x, PathSeparator, y);
    NonEmptyAppend(Split(x, PathSeparator), [y]);
  }

  lemma {:induction false} NonEmptyKeepsAll(segs: seq<string>)
    requires forall j :: 0 <= j < |segs| ==> segs[j] != ""
    ensures NonEmpty(segs) == segs
  {
    if segs != [] {
      NonEmptyKeepsAll(segs[..|segs| - 1]);
    }
  }

  /** Printing keys with dots between them and parsing the text gives the
      keys back, provided none is empty or holds a dot. */
  lemma ParsePathRoundTrip(keys: seq<string>)
    requires forall j :: 0 <= j < |keys| ==> keys[j] != "" && PathSeparator !in keys[j]
    ensures ParsePath(JoinWith(keys, [PathSeparator])) == keys
  {
    if keys == [] {
      assert Split("", PathSeparator) == [""];
      assert [""][..0] == [];
    } else {
      SplitJoin(keys, PathSeparator);
      NonEmptyKeepsAll(keys);
    }
  }

  /** Empty parts vanish: `""`, `"."` and `"..a.."` parse to `[]`, `[]`
      and `["a"]`. */
  lemma ParsePathSkipsEmpty()
    ensures ParsePath("") == [] && ParsePath(".") == [] && ParsePath("..a..") == ["a"]
  {
    assert [""][..0] == [];
    SplitAppend("", '.', "");
    assert "" + ['.'] + "" == ".";
    assert ["", ""][..1] == [""];
    var segs := ["", "", "a", "", ""];
    assert JoinWith(segs, ".") == "..a.." by {
      assert segs[1..] == ["", "a", "", ""];
      assert segs[1..][1..] == ["a", "", ""];
      assert segs[1..][1..][1..] == ["", ""];
      assert segs[1..][1..][1..][1..] == [""];
    }
    SplitJoin(segs, '.');
    assert NonEmpty([""]) == [] by { assert [""][..0] == []; }
    assert NonEmpty(["", ""]) == [] by { assert ["", ""][..1] == [""]; }
    assert NonEmpty(["", "", "a"]) == ["a"] by { assert ["", "", "a"][..2] == ["", ""]; }
    assert NonEmpty(["", "", "a", ""]) == ["a"] by { assert ["", "", "a", ""][..3] == ["", "", "a"]; }
    assert NonEmpty(segs) == ["a"] by { assert segs[..4] == ["", "", "a", ""]; }
  }

  /** The plain keys as core steps. */
  function Keys(parts: seq<string>): (steps: seq<Step>)
    ensures |steps| == |parts|
    ensures forall j :: 0 <= j < |parts| ==> steps[j] == Key(parts[j])
  {
    seq(|parts|, j requires 0 <= j < |parts| => Key(parts[j]))
  }

  lemma {:induction false} ParseSegmentsOfValidKeys(validKey: string -> bool, segs: seq<string>)
    requires forall j :: 0 <= j < |segs| && segs[j] != "" ==> validKey(segs[j])
    ensures Core.ParseSegments(validKey, segs) == Ok(Keys(NonEmpty(segs)))
  {
    if segs == [] {
      assert Keys([]) == [];
    } else {
      var init, last := segs[..|segs| - 1], segs[|segs| - 1];
      ParseSegmentsOfValidKeys(validKey, init);
      Core.ParseSegmentsSnoc(validKey, init, last);
      assert init + [last] == segs;
      if last != "" {
        assert Keys(NonEmpty(init)) + [Key(last)] == Keys(NonEmpty(init) + [last]);
      }
    }
  }

  /** Where every part of the path is a valid key, core.py's `parse_path`
      yields exactly the keys this one does. */
  lemma ParsePathMatchesCore(validKey: string -> bool, path: string)
    requires forall s :: s in Split(path, PathSeparator) && s != "" ==> validKey(s)
    ensures Core.Parse(validKey, path) == Ok(Keys(ParsePath(path)))
  {
    ParseSegmentsOfValidKeys(validKey, Split(path, PathSeparator));
  }

  // =====================================================================
  // read_toml
  // =====================================================================

  /** The message of the AttributeError that `.get` on a value other than
      a dict raises. */
  function NoGetMsg(v: Value): string
  {
    "'" + TypeName(v) + "' object has no attribute 'get'"
  }

  /** How a `.get` walk ends: with a value, with a missing key, or at a
      value that has no `.get`, reached after `depth` keys. */
  datatype Lookup = Found(v: Value) | Missing | NoGet(depth: nat, holder: Value)

  /** The walk from `loc`, reached after `depth` keys, along `keys`. */
  function WalkFrom(loc: Value, keys: seq<string>, depth: nat): (r: Lookup)
    requires |keys| >= 1
    decreases |keys|
  {
    if !loc.Table? then NoGet(depth, loc)
    else
      match TableItem(loc.entries, keys[0])
      case None => Missing
      case Some(v) => if |keys| == 1 then Found(v) else WalkFrom(v, keys[1..], depth + 1)
  }

  /** The walk `read_toml` makes from the decoded document. */
  function Walk(root: Value, keys: seq<string>): Lookup
  {
    if keys == [] then Found(root) else WalkFrom(root, keys, 0)
  }

  /** What the walk means to a Python caller: a value, None, or the
      AttributeError of the `.get` that could not be called. */
  function AsResult(l: Lookup): Result<Option<Value>>
  {
    match l
    case Found(v) => Ok(Some(v))
    case Missing => Ok(None)
    case NoGet(_, h) => Raise(AttributeError(NoGetMsg(h)))
  }

  /** `read_toml` once `tomllib.loads` has produced `root`: the location is
      reassigned key by key, with an early return of None. */
  method ReadToml(root: Value, path: seq<string>) returns (r: Result<Option<Value>>)
    requires root.Table?
    ensures r == AsResult(Walk(root, path))
  {
    var loc := root;
    if path == [] {
      return Ok(Some(loc));
    }
    var i := 0;
    while i < |path| - 1
      invariant 0 <= i <= |path| - 1
      invariant Walk(root, path) == WalkFrom(loc, path[i..], i)
    {
      if !loc.Table? {
        return Raise(AttributeError(NoGetMsg(loc)));
      }
      assert path[i..][1..] == path[i + 1..];
      var next := TableItem(loc.entries, path[i]);
      if next.None? {
        return Ok(None);
      }
      loc := next.value;
      i := i + 1;
    }
    if !loc.Table? {
      return Raise(AttributeError(NoGetMsg(loc)));
    }
    r := Ok(TableItem(loc.entries, path[|path| - 1]));
  }

  /** The walk stops at the value reached after `depth` keys, and that
      value is not a table. */
  lemma {:induction false} WalkFromNoGet(loc: Value, keys: seq<string>, depth: nat, d: nat, h: Value)
    requires |keys| >= 1 && WalkFrom(loc, keys, depth) == NoGet(d, h)
    ensures depth <= d < depth + |keys| && !h.Table?
    ensures d == depth ==> h == loc
    ensures d > depth ==> WalkFrom(loc, keys[..d - depth], depth) == Found(h)
    decreases |keys|
  {
    if loc.Table? {
      var v := TableItem(loc.entries, keys[0]).value;
      WalkFromNoGet(v, keys[1..], depth + 1, d, h);
      if d > depth + 1 {
        assert keys[..d - depth][1..] == keys[1..][..d - depth - 1];
      }
    }
  }

  /** An AttributeError comes from a key before the last: after the first
      `d` keys (0 < d < |path|) the walk finds a value that is not a table. */
  lemma WalkNoGet(root: Value, path: seq<string>, d: nat, h: Value)
    requires root.Table? && Walk(root, path) == NoGet(d, h)
    ensures 1 <= d < |path| && !h.Table? && Walk(root, path[..d]) == Found(h)
  {
    WalkFromNoGet(root, path, 0, d, h);
  }

  /** The `.get` walk and core.py's walk agree on key-only paths. */
  predicate AgreesWithCore(l: Lookup, c: Result<Value>)
  {
    (l.Found? <==> c.Ok?)
    && (l.Found? ==> c.value == l.v)
    && (l.Missing? <==> c.Raise? && c.exc.KeyError?)
    && (l.NoGet? <==> c.Raise? && c.exc.TOMLLookUpError?)
  }

  lemma {:induction false} WalkFromAgrees(loc: Value, keys: seq<string>, depth: nat)
    requires loc.IsContainer() && |keys| >= 1
    ensures AgreesWithCore(WalkFrom(loc, keys, depth), Core.ResolveFrom(loc, Keys(keys)))
    decreases |keys|
  {
    if loc.Table? {
      var item := TableItem(loc.entries, keys[0]);
      if item.Some? && |keys| > 1 {
        assert Keys(keys)[1..] == Keys(keys[1..]);
        if item.value.IsContainer() {
          WalkFromAgrees(item.value, keys[1..], depth + 1);
        }
      }
    }
  }

  /** On a path of plain keys, this `read_toml` returns the value core.py
      returns, None exactly where core.py raises KeyError, and raises
      AttributeError exactly where core.py raises TOMLLookUpError. */
  lemma ReadTomlMatchesCore(root: Value, path: seq<string>)
    requires root.Table?
    ensures AgreesWithCore(Walk(root, path), Core.Resolve(root, Keys(path)))
  {
    if path != [] {
      WalkFromAgrees(root, path, 0);
    }
  }

  // =====================================================================
  // The report of a failed walk (main, the AttributeError branch)
  // =====================================================================

  /** The message `main` prints for an AttributeError, as written: it names
      the part before the last. */
  function NotTableReport(property: string, path: seq<string>): string
    requires |path| >= 2
  {
    "error reading property <" + property + ">, <" + path[|path| - 2] + "> is not a table"
  }

  /** The message naming the part whose value has no `.get`. */
  function NotTableReportIntended(property: string, path: seq<string>, d: nat): string
    requires 1 <= d <= |path|
  {
    "error reading property <" + property + ">, <" + path[d - 1] + "> is not a table"
  }

  /** Whenever the walk raises AttributeError, the corrected report names
      the part whose value is not a table. It coincides with the report as
      written exactly when that part's name equals the name before the last
      one, which is so when the holder is the part before the last. */
  lemma NotTableReportIntendedNamesHolder(root: Value, property: string, path: seq<string>, d: nat, h: Value)
    requires root.Table? && Walk(root, path) == NoGet(d, h)
    ensures 1 <= d < |path| && |path| >= 2
    ensures Walk(root, path[..d]) == Found(h) && !h.Table?
    ensures NotTableReportIntended(property, path, d) ==
              "error reading property <" + property + ">, <" + path[d - 1] + "> is not a table"
    ensures d == |path| - 1 ==> NotTableReportIntended(property, path, d) == NotTableReport(property, path)
    ensures NotTableReportIntended(property, path, d) == NotTableReport(property, path)
            <==> path[d - 1] == path[|path| - 2]
  {
    WalkNoGet(root, path, d, h);
    if NotTableReportIntended(property, path, d) == NotTableReport(property, path) {
      MiddleCancels("error reading property <" + property + ">, <", path[d - 1], path[|path| - 2], "> is not a table");
    }
  }

  /** Two texts with the same prefix and suffix are equal only if their
      middles are. */
  lemma MiddleCancels(a: string, x: string, y: string, b: string)
    requires a + x + b == a + y + b
    ensures x == y
  {
    assert |x| == |y|;
    assert x == (a + x + b)[|a|..|a| + |x|];
    assert y == (a + y + b)[|a|..|a| + |y|];
  }

  /** In `{"a": [1]}` the path `a.b.c` stops at the list under `a`, yet the
      report as written says `<b> is not a table`. */
  lemma NotTableReportNamesWrongPart()
    ensures var root := Table([("a", Array([Int(1)]))]);
            Walk(root, ["a", "b", "c"]) == NoGet(1, Array([Int(1)]))
            && NotTableReport("a.b.c", ["a", "b", "c"]) == "error reading property <a.b.c>, <b> is not a table"
            && NotTableReportIntended("a.b.c", ["a", "b", "c"], 1) == "error reading property <a.b.c>, <a> is not a table"
  {
    var root := Table([("a", Array([Int(1)]))]);
    var path := ["a", "b", "c"];
    assert path[1..] == ["b", "c"];
    assert TableItem(root.entries, "a") == Some(Array([Int(1)]));
  }

  // =====================================================================
  // dumps, shell branch
  // =====================================================================

  /** The position of the first element that is not a string. */
  function FirstNonStr(items: seq<Value>): (r: Option<nat>)
    ensures r.None? <==> forall j :: 0 <= j < |items| ==> items[j].Str?
    ensures r.Some? ==> r.value < |items| && !items[r.value].Str?
                        && forall j :: 0 <= j < r.value ==> items[j].Str?
  {
    if items == [] then None
    else if !items[0].Str? then Some(0)
    else
      match FirstNonStr(items[1..])
      case None => None
      case Some(i) => Some(i + 1)
  }

  /** `" ".join(items)`: the strings joined by a space, or the TypeError
      naming the first element that is not a string. */
  function JoinStrs(items: seq<Value>): (r: Result<string>)
    ensures r.Ok? <==> forall j :: 0 <= j < |items| ==> items[j].Str?
    ensures r.Raise? ==> exists i :: 0 <= i < |items| && !items[i].Str?
                           && (forall j :: 0 <= j < i ==> items[j].Str?)
                           && r.exc == TypeError("sequence item " + IntToString(i) + ": expected str instance, "
                                                 + TypeName(items[i]) + " found")
  {
    match FirstNonStr(items)
    case None => Ok(JoinWith(seq(|items|, j requires 0 <= j < |items| => items[j].s), " "))
    case Some(i) =>
      Raise(TypeError("sequence item " + IntToString(i) + ": expected str instance, " + TypeName(items[i]) + " found"))
  }

  /** `dumps(value, Output.SHELL, path)` of this iteration: None prints as
      `__null`, a list is joined as it stands. */
  function Dumps(v: Option<Value>, path: string): (r: Result<string>)
    ensures v.None? ==> r == Ok("__null")
    ensures r.Raise? <==> v.Some? && (v.value.Date? || (v.value.Array? && FirstNonStr(v.value.items).Some?))
    ensures r.Raise? ==> r.exc.TypeError? || r.exc.NotImplementedError?
  {
    match v
    case None => Ok("__null")
    case Some(x) =>
      match x
      case Bool(b) => Ok(if b then "1" else "0")
      case Str(_) => Ok(PyStr(x))
      case Int(_) => Ok(PyStr(x))
      case Float(_) => Ok(PyStr(x))
      case DateTime(_) => Ok(PyStr(x))
      case Time(_) => Ok(PyStr(x))
      case Array(items) => JoinStrs(items)
      case Table(_) => Ok([PathSeparator] + path)
      case Date(_) => Raise(NotImplementedError("Unsupported type: " + ClassRepr(x)))
  }

  /** The shell output agrees with core.py's on every value but a list, and
      on a list of strings; a missing value prints as `__null`; a list
      holding anything but strings raises TypeError, where core.py prints
      the `str()` of each element. */
  lemma DumpsMatchesCore(v: Value, path: string)
    ensures !v.Array? ==> Dumps(Some(v), path) == Core.DumpsShell(v, path)
    ensures v.Array? ==>
              (Dumps(Some(v), path).Ok? <==> forall j :: 0 <= j < |v.items| ==> v.items[j].Str?)
    ensures v.Array? && Dumps(Some(v), path).Ok? ==> Dumps(Some(v), path) == Core.DumpsShell(v, path)
    ensures Dumps(None, path) == Ok("__null")
  {
    if v.Array? && Dumps(Some(v), path).Ok? {
      var items := v.items;
      assert seq(|items|, j requires 0 <= j < |items| => items[j].s)
          == seq(|items|, j requires 0 <= j < |items| => PyStr(items[j]));
    }
  }

  /** `["a", 1]` in a list is refused, naming item 1 and its type. */
  lemma DumpsRejectsMixedList(path: string)
    ensures Dumps(Some(Array([Str("a"), Int(1)])), path)
            == Raise(TypeError("sequence item 1: expected str instance, int found"))
  {
    var items := [Str("a"), Int(1)];
    assert FirstNonStr(items) == Some(1) by {
      assert items[1..] == [Int(1)];
      assert FirstNonStr([Int(1)]) == Some(0);
    }
    assert IntToString(1) == "1" && TypeName(Int(1)) == "int";
    MixedListMessage();
  }

  lemma MixedListMessage()
    ensures "sequence item " + "1" + ": expected str instance, " + "int" + " found"
            == "sequence item 1: expected str instance, int found"
  {
  }
}
