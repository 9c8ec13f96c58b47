/** The pieces of the Python runtime that tomlraider leans on: the
    exceptions it raises or lets escape, `str.split` and `str.join` with
    one-character separators, `str.strip` of one character, `str(int)` and
    `int(...)` on the literals the index pattern admits. */
module PyRuntime {

  datatype Option<+T> = None | Some(value: T)

  /** The exceptions raised along the core's paths, with the data each
      carries that the program reads back (a message or a code). */
  datatype Exc =
    | TOMLPathFormatError(msg: string)
    | TOMLLookUpError(msg: string)
    | KeyError(key: string)
    | IndexError
    | ValueError(literal: string)
    | TypeError(msg: string)
    | AttributeError(msg: string)
    | NotImplementedError(msg: string)
    | CliError(msg: string, quiet: bool, code: int)

  /** A Python call either returns a value or raises. */
  datatype Result<+T> = Ok(value: T) | Raise(exc: Exc)

  // ---------------------------------------------------------------------
  // str.split(sep) and sep.join(parts)
  // ---------------------------------------------------------------------

  /** `s.split(sep)` for a one-character separator: the pieces between
      separators, empty ones included. */
  function Split(s: string, sep: char): (parts: seq<string>)
    ensures |parts| >= 1
    ensures forall i :: 0 <= i < |parts| ==> sep !in parts[i]
  {
    if |s| == 0 then [""]
    else
      var rest := Split(s[1..], sep);
      if s[0] == sep then [""] + rest
      else [[s[0]] + rest[0]] + rest[1..]
  }

  /** `sep.join(parts)`. */
  function JoinWith(parts: seq<string>, sep: string): string
  {
    if |parts| == 0 then ""
    else if |parts| == 1 then parts[0]
    else parts[0] + sep + JoinWith(parts[1..], sep)
  }

  /** `"".join(parts)`, taken from the back as a loop that appends builds it. */
  function Concat(parts: seq<string>): string
  {
    if parts == [] then "" else Concat(parts[..|parts| - 1]) + parts[|parts| - 1]
  }

  /** Joining the pieces of a split with the same separator gives the string back. */
  lemma {:induction false} JoinSplit(s: string, sep: char)
    ensures JoinWith(Split(s, sep), [sep]) == s
  {
    if |s| > 0 {
      JoinSplit(s[1..], sep);
      var rest := Split(s[1..], sep);
      if s[0] == sep {
        assert Split(s, sep) == [""] + rest;
        assert ([""] + rest)[1..] == rest;
      } else if |rest| == 1 {
        assert Split(s, sep) == [[s[0]] + rest[0]];
        assert s == [s[0]] + s[1..];
      } else {
        var first := [s[0]] + rest[0];
        assert Split(s, sep) == [first] + rest[1..];
        assert ([first] + rest[1..])[1..] == rest[1..];
        assert JoinWith(rest, [sep]) == rest[0] + [sep] + JoinWith(rest[1..], [sep]);
        assert s == [s[0]] + s[1..];
      }
    }
  }

  /** A string without the separator splits into itself alone. */
  lemma {:induction false} SplitNoSep(s: string, sep: char)
    requires sep !in s
    ensures Split(s, sep) == [s]
  {
    if |s| > 0 {
      SplitNoSep(s[1..], sep);
      assert [s[0]] + s[1..] == s;
    }
  }

  /** Appending a separator and a separator-free tail adds exactly one piece. */
  lemma {:induction false} SplitAppend(x: string, sep: char, y: string)
    requires sep !in y
    ensures Split(x + [sep] + y, sep) == Split(x, sep) + [y]
  {
    if |x| == 0 {
      assert x + [sep] + y == [sep] + y;
      assert ([sep] + y)[1..] == y;
      SplitNoSep(y, sep);
    } else {
      var t := x[1..] + [sep] + y;
      assert (x + [sep] + y)[0] == x[0];
      assert (x + [sep] + y)[1..] == t;
      SplitAppend(x[1..], sep, y);
      var r := Split(x[1..], sep);
      assert Split(t, sep) == r + [y];
      if x[0] != sep {
        assert (r + [y])[0] == r[0];
        assert (r + [y])[1..] == r[1..] + [y];
      }
    }
  }

  /** Splitting a join of separator-free pieces gives the pieces back. */
  lemma {:induction false} SplitJoin(parts: seq<string>, sep: char)
    requires |parts| >= 1
    requires forall i :: 0 <= i < |parts| ==> sep !in parts[i]
    ensures Split(JoinWith(parts, [sep]), sep) == parts
  {
    if |parts| == 1 {
      SplitNoSep(parts[0], sep);
    } else {
      var init := parts[..|parts| - 1];
      var last := parts[|parts| - 1];
      JoinWithSnoc(init, last, [sep]);
      SplitJoin(init, sep);
      SplitAppend(JoinWith(init, [sep]), sep, last);
      assert init + [last] == parts;
    }
  }

  /** `sep.join` read from the back. */
  lemma {:induction false} JoinWithSnoc(init: seq<string>, last: string, sep: string)
    requires |init| >= 1
    ensures JoinWith(init + [last], sep) == JoinWith(init, sep) + sep + last
  {
    if |init| == 1 {
      assert (init + [last])[1..] == [last];
    } else {
      assert (init + [last])[1..] == init[1..] + [last];
      JoinWithSnoc(init[1..], last, sep);
    }
  }

  /** `s.strip(c)`: drop every leading and trailing `c`. */
  function Strip(s: string, c: char): (r: string)
    ensures |r| <= |s|
    ensures r != [] ==> r[0] != c && r[|r| - 1] != c
  {
    if s == [] then s
    else if s[0] == c then Strip(s[1..], c)
    else if s[|s| - 1] == c then Strip(s[..|s| - 1], c)
    else s
  }

  /** Every character of `s` outside `s[i..j]` is `c`. */
  predicate PaddedWith(s: string, i: int, j: int, c: char)
    requires 0 <= i <= j <= |s|
  {
    (forall k :: 0 <= k < i ==> s[k] == c) && (forall k :: j <= k < |s| ==> s[k] == c)
  }

  /** What `strip` keeps is a slice of `s`, and everything it drops is `c`. */
  lemma {:induction false} StripIsSlice(s: string, c: char)
    ensures exists i, j :: 0 <= i <= j <= |s| && Strip(s, c) == s[i..j] && PaddedWith(s, i, j, c)
  {
    if s == [] {
      assert Strip(s, c) == s[0..0] && PaddedWith(s, 0, 0, c);
    } else if s[0] == c {
      StripIsSlice(s[1..], c);
      var i, j :| 0 <= i <= j <= |s| - 1 && Strip(s[1..], c) == s[1..][i..j] && PaddedWith(s[1..], i, j, c);
      PaddedFront(s, c, i, j);
    } else if s[|s| - 1] == c {
      StripIsSlice(s[..|s| - 1], c);
      var i, j :| 0 <= i <= j <= |s| - 1 && Strip(s[..|s| - 1], c) == s[..|s| - 1][i..j] && PaddedWith(s[..|s| - 1], i, j, c);
      PaddedBack(s, c, i, j);
    } else {
      assert Strip(s, c) == s[0..|s|] && PaddedWith(s, 0, |s|, c);
    }
  }

  lemma PaddedFront(s: string, c: char, i: int, j: int)
    requires s != [] && s[0] == c && 0 <= i <= j <= |s| - 1
    requires Strip(s[1..], c) == s[1..][i..j] && PaddedWith(s[1..], i, j, c)
    ensures Strip(s, c) == s[i + 1..j + 1] && PaddedWith(s, i + 1, j + 1, c)
  {
    assert forall k :: 1 <= k < |s| ==> s[k] == s[1..][k - 1];
  }

  lemma PaddedBack(s: string, c: char, i: int, j: int)
    requires s != [] && s[0] != c && s[|s| - 1] == c && 0 <= i <= j <= |s| - 1
    requires Strip(s[..|s| - 1], c) == s[..|s| - 1][i..j] && PaddedWith(s[..|s| - 1], i, j, c)
    ensures Strip(s, c) == s[i..j] && PaddedWith(s, i, j, c)
  {
    assert forall k :: 0 <= k < |s| - 1 ==> s[k] == s[..|s| - 1][k];
  }

  // ---------------------------------------------------------------------
  // str(int) and int(literal)
  // ---------------------------------------------------------------------

  predicate IsDigit(c: char) { '0' <= c <= '9' }

  predicate AllDigits(s: string) { forall i :: 0 <= i < |s| ==> IsDigit(s[i]) }

  function DigitChar(d: nat): (c: char)
    requires d < 10
    ensures IsDigit(c) && c as int - '0' as int == d
  {
    (d + '0' as int) as char
  }

  /** The decimal numeral of a natural number, without leading zeros. */
  function NatToString(n: nat): (s: string)
    ensures |s| >= 1 && AllDigits(s)
    ensures |s| > 1 ==> s[0] != '0'
  {
    if n < 10 then [DigitChar(n)] else NatToString(n / 10) + [DigitChar(n % 10)]
  }

  /** `str(i)` for a Python int: a minus sign for negatives, then the digits. */
  function IntToString(i: int): (s: string)
    ensures |s| >= 1
    ensures forall k :: 0 <= k < |s| ==> IsDigit(s[k]) || s[k] == '-'
  {
    if i < 0 then "-" + NatToString(-i) else NatToString(i)
  }

  /** The value of a non-empty run of ASCII digits (leading zeros allowed). */
  function DigitsValue(s: string): nat
    requires AllDigits(s)
  {
    if s == [] then 0
    else DigitsValue(s[..|s| - 1]) * 10 + (s[|s| - 1] as int - '0' as int)
  }

  /** What the index pattern's second group admits: an optional `-` and ASCII digits. */
  predicate IsIndexBody(s: string)
  {
    if s != [] && s[0] == '-' then AllDigits(s[1..]) else AllDigits(s)
  }

  /** `int(s)` for a string the index pattern admits; None where Python
      raises ValueError (no digit at all). */
  function ParseInt(s: string): (r: Option<int>)
    requires IsIndexBody(s)
    ensures r.None? <==> s == "" || s == "-"
  {
    if s == "" || s == "-" then None
    else if s[0] == '-' then Some(0 - DigitsValue(s[1..]) as int)
    else Some(DigitsValue(s))
  }

  lemma {:induction false} DigitsValueOfNat(n: nat)
    ensures DigitsValue(NatToString(n)) == n
  {
    if n >= 10 {
      DigitsValueOfNat(n / 10);
      var s := NatToString(n);
      assert s[..|s| - 1] == NatToString(n / 10);
    }
  }

  /** `int(str(i)) == i`. */
  lemma ParseIntToString(i: int)
    ensures IsIndexBody(IntToString(i))
    ensures ParseInt(IntToString(i)) == Some(i)
  {
    var s := IntToString(i);
    if i < 0 {
      assert s[1..] == NatToString(-i);
      DigitsValueOfNat(-i);
    } else {
      DigitsValueOfNat(i);
    }
  }
}
