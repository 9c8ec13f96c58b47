/** The decoded TOML document as the three iterations of tomlraider see it
    (the value `tomllib.loads` returns), the steps of a path, and the
    Python operations the walkers apply to them: dict and list subscripts,
    `type(...)` and `str(...)`. */
module TomlTree {
  import opened PyRuntime

  /** A decoded TOML value. Floats and date/time values keep only their
      `str()` text: the model never computes with them. */
  datatype Value =
    | Table(entries: seq<(string, Value)>)   // dict[str, ...], in insertion order, keys unique
    | Array(items: seq<Value>)               // list[...]
    | Bool(b: bool)
    | Str(s: string)
    | Int(i: int)
    | Float(floatText: string)
    | DateTime(dateTimeText: string)         // datetime.datetime
    | Date(dateText: string)                 // datetime.date (a TOML local date)
    | Time(timeText: string)                 // datetime.time
  {
    /** `isinstance(v, (dict, list))`. */
    predicate IsContainer() { Table? || Array? }
  }

  /** One step of a path: `TomlKey(str)` or `TomlIndex(int)`. */
  datatype Step = Key(key: string) | Index(index: int)

  /** `k in d` for a dict given by its entries. */
  predicate HasKey(entries: seq<(string, Value)>, k: string)
  {
    exists j :: 0 <= j < |entries| && entries[j].0 == k
  }

  /** `d[k]` on a dict: the entry's value, or None where Python raises KeyError. */
  function TableItem(entries: seq<(string, Value)>, k: string): (r: Option<Value>)
    ensures r.Some? <==> HasKey(entries, k)
    ensures r.Some? ==> (k, r.value) in entries
  {
    if entries == [] then None
    else if entries[0].0 == k then Some(entries[0].1)
    else
      var r := TableItem(entries[1..], k);
      assert HasKey(entries, k) ==> HasKey(entries[1..], k) by {
        if HasKey(entries, k) {
          var j :| 0 <= j < |entries| && entries[j].0 == k;
          assert j > 0 && entries[1..][j - 1].0 == k;
        }
      }
      assert r.Some? ==> HasKey(entries, k) by {
        if r.Some? {
          var j :| 0 <= j < |entries[1..]| && entries[1..][j].0 == k;
          assert entries[j + 1].0 == k;
        }
      }
      r
  }

  /** `l[i]` on a list with an int: negative indices count from the end;
      None where Python raises IndexError. */
  function ListItem(items: seq<Value>, i: int): (r: Option<Value>)
    ensures r.Some? <==> -|items| <= i < |items|
    ensures r.Some? && 0 <= i ==> r.value == items[i]
  {
    if 0 <= i < |items| then Some(items[i])
    else if -|items| <= i < 0 then Some(items[|items| + i])
    else None
  }

  /** An index `-k` reaches the element `|items| - k` places from the front. */
  lemma NegativeIndexCountsFromEnd(items: seq<Value>, k: int)
    requires 1 <= k <= |items|
    ensures ListItem(items, -k) == ListItem(items, |items| - k) == Some(items[|items| - k])
  {
  }

  /** `str(type(v))`, as it appears in core.py's message about an atomic value. */
  function ClassRepr(v: Value): string
  {
    "<class '" + TypeName(v) + "'>"
  }

  /** The Python type name of a decoded value (`type(v).__name__`, qualified
      by module for the datetime types, as `tp_name` is). */
  function TypeName(v: Value): string
  {
    match v
    case Table(_) => "dict"
    case Array(_) => "list"
    case Bool(_) => "bool"
    case Str(_) => "str"
    case Int(_) => "int"
    case Float(_) => "float"
    case DateTime(_) => "datetime.datetime"
    case Date(_) => "datetime.date"
    case Time(_) => "datetime.time"
  }

  /** `str(b)` of a Python bool. */
  function BoolText(b: bool): string
  {
    if b then "True" else "False"
  }

  /** `str(v)` of an atom. */
  function AtomText(v: Value): string
    requires !v.IsContainer()
  {
    match v
    case Bool(b) => BoolText(b)
    case Str(s) => s
    case Int(i) => IntToString(i)
    case Float(t) => t
    case DateTime(t) => t
    case Date(t) => t
    case Time(t) => t
  }

  /** `str(v)`: atoms print as themselves; a container prints as its repr. */
  function PyStr(v: Value): string
  {
    if v.IsContainer() then Repr(v) else AtomText(v)
  }

  /** `repr(v)` of a value nested inside a container. Strings are quoted
      with `'` and not escaped, and date/time values print their text:
      Python's escaping and its constructor-style repr of datetime values
      are not modelled. */
  function Repr(v: Value): string
  {
    match v
    case Table(entries) =>
      "{" + JoinWith(seq(|entries|, j requires 0 <= j < |entries| =>
                           "'" + entries[j].0 + "': " + Repr(entries[j].1)), ", ") + "}"
    case Array(items) =>
      "[" + JoinWith(seq(|items|, j requires 0 <= j < |items| => Repr(items[j])), ", ") + "]"
    case Str(s) => "'" + s + "'"
    case _ => AtomText(v)
  }
}
