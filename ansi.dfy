/** The ANSI control sequences of src/tomlraider/ansi.py, after ECMA-48:
    a control sequence (section 5.4) is ESC `[`, the decimal parameters
    separated by `;`, and a final character (`m` for SGR, section 8.3.117;
    `J` for ED, 8.3.39; `K` for EL, 8.3.41); an operating system command
    (8.3.89) is ESC `]` and its parameters, here closed by BEL as xterm
    does for the window title. */
module Ansi {
  import opened PyRuntime

  const Esc: char := '\U{1B}'
  const Bel: char := '\U{7}'

  /** `C1.prefix`, `CSI.prefix` and `OSC.prefix`. */
  const C1Prefix: string := [Esc]
  const CsiPrefix: string := C1Prefix + "["
  const OscPrefix: string := C1Prefix + "]"

  /** A control sequence starts with ESC `[` and an operating system
      command with ESC `]`, both the C1 escape followed by one character. */
  lemma ControlPrefixes()
    ensures CsiPrefix == [Esc, '['] && OscPrefix == [Esc, ']']
    ensures CsiPrefix[..1] == OscPrefix[..1] == C1Prefix
  {
  }

  /** `BELL()()`. */
  function Bell(): (s: string)
    ensures s == [Bel]
  {
    [Bel]
  }

  // =====================================================================
  // CSI and OSC
  // =====================================================================

  /** `map(str, params)` for integer parameters. */
  function Numerals(params: seq<int>): (r: seq<string>)
    ensures |r| == |params|
    ensures forall j :: 0 <= j < |params| ==> r[j] == IntToString(params[j])
  {
    seq(|params|, j requires 0 <= j < |params| => IntToString(params[j]))
  }

  /** `CSI(*params)()` with command `cmd`. */
  function Csi(params: seq<int>, cmd: string): (s: string)
    ensures |s| >= 2 + |cmd| && s[..2] == [Esc, '['] && s[|s| - |cmd|..] == cmd
  {
    CsiPrefix + JoinWith(Numerals(params), ";") + cmd
  }

  /** A parameter of an operating system command: an int or a str. */
  datatype OscParam = IntParam(i: int) | StrParam(s: string)

  function OscParamText(p: OscParam): string
  {
    match p
    case IntParam(i) => IntToString(i)
    case StrParam(s) => s
  }

  /** `OSC(*params)()` with command `cmd`. */
  function Osc(params: seq<OscParam>, cmd: string): (s: string)
    ensures |s| >= 2 + |cmd| && s[..2] == [Esc, ']'] && s[|s| - |cmd|..] == cmd
  {
    OscPrefix + JoinWith(seq(|params|, j requires 0 <= j < |params| => OscParamText(params[j])), ";") + cmd
  }

  /** `ED(*params)()`, `EL(*params)()`, `SGR(*params)()` and
      `TITLE(*params)()`. */
  function Ed(params: seq<int>): string { Csi(params, "J") }
  function El(params: seq<int>): string { Csi(params, "K") }
  function Sgr(params: seq<int>): string { Csi(params, "m") }
  function Title(params: seq<OscParam>): string { Osc(params, Bell()) }

  // =====================================================================
  // Decoding a control sequence
  // =====================================================================

  /** The decimal parameters of a control sequence, each a non-empty run
      of digits. */
  function DecodeParams(parts: seq<string>): Option<seq<int>>
  {
    if parts == [] then Some([])
    else
      var last := parts[|parts| - 1];
      match DecodeParams(parts[..|parts| - 1])
      case None => None
      case Some(ps) => if last != "" && AllDigits(last) then Some(ps + [DigitsValue(last)]) else None
  }

  /** Reading a control sequence back: ESC `[`, the parameters, and the
      final character. */
  function DecodeCsi(s: string): Option<(seq<int>, char)>
  {
    if |s| < 3 || s[..2] != CsiPrefix then None
    else
      var body, final := s[2..|s| - 1], s[|s| - 1];
      if body == "" then Some(([], final))
      else
        match DecodeParams(Split(body, ';'))
        case None => None
        case Some(ps) => Some((ps, final))
  }

  lemma {:induction false} DecodeNumerals(params: seq<int>)
    requires forall j :: 0 <= j < |params| ==> params[j] >= 0
    ensures DecodeParams(Numerals(params)) == Some(params)
  {
    if params != [] {
      var init, last := params[..|params| - 1], params[|params| - 1];
      DecodeNumerals(init);
      assert Numerals(params)[..|params| - 1] == Numerals(init);
      DigitsValueOfNat(last);
      assert init + [last] == params;
    }
  }

  /** A control sequence with non-negative parameters reads back as its
      parameters and its one-character command. */
  lemma CsiRoundTrip(params: seq<int>, c: char)
    requires forall j :: 0 <= j < |params| ==> params[j] >= 0
    ensures DecodeCsi(Csi(params, [c])) == Some((params, c))
  {
    var s := Csi(params, [c]);
    var body := JoinWith(Numerals(params), ";");
    assert s == CsiPrefix + body + [c];
    assert s[..2] == CsiPrefix;
    assert s[2..|s| - 1] == body;
    if params != [] {
      var parts := Numerals(params);
      forall j | 0 <= j < |parts|
        ensures ';' !in parts[j]
      {
        assert forall k :: 0 <= k < |parts[j]| ==> IsDigit(parts[j][k]) || parts[j][k] == '-';
      }
      SplitJoin(parts, ';');
      DecodeNumerals(params);
      assert body != "" by {
        JoinWithLength(parts, ";");
      }
    }
  }

  lemma {:induction false} JoinWithLength(parts: seq<string>, sep: string)
    requires |parts| >= 1
    ensures |JoinWith(parts, sep)| >= |parts[0]|
  {
  }

  // =====================================================================
  // SGR parameters: Style, Foreground, Background
  // =====================================================================

  /** `Style`. */
  datatype Style = ResetAll | Bright | Dim | Normal | Italic | Underline | SlowBlink | Blink | Invert

  function StyleCode(s: Style): int
  {
    match s
    case ResetAll => 0
    case Bright => 1
    case Dim => 2
    case Normal => 22
    case Italic => 3
    case Underline => 4
    case SlowBlink => 5
    case Blink => 6
    case Invert => 7
  }

  /** The colours `Foreground` and `Background` share. */
  datatype Color =
    | Black | Red | Green | Yellow | Blue | Magenta | Cyan | White | Reset
    | LightBlack | LightRed | LightGreen | LightYellow | LightBlue | LightMagenta | LightCyan | LightWhite

  /** `Foreground`. */
  function ForegroundCode(c: Color): int
  {
    match c
    case Black => 30
    case Red => 31
    case Green => 32
    case Yellow => 33
    case Blue => 34
    case Magenta => 35
    case Cyan => 36
    case White => 37
    case Reset => 39
    case LightBlack => 90
    case LightRed => 91
    case LightGreen => 92
    case LightYellow => 93
    case LightBlue => 94
    case LightMagenta => 95
    case LightCyan => 96
    case LightWhite => 97
  }

  /** `Background`. */
  function BackgroundCode(c: Color): int
  {
    match c
    case Black => 40
    case Red => 41
    case Green => 42
    case Yellow => 43
    case Blue => 44
    case Magenta => 45
    case Cyan => 46
    case White => 47
    case Reset => 49
    case LightBlack => 100
    case LightRed => 101
    case LightGreen => 102
    case LightYellow => 103
    case LightBlue => 104
    case LightMagenta => 105
    case LightCyan => 106
    case LightWhite => 107
  }

  /** Each background colour is the same-named foreground colour plus 10. */
  lemma BackgroundIsForegroundPlusTen(c: Color)
    ensures BackgroundCode(c) == ForegroundCode(c) + 10
  {
  }

  /** An argument of `style`: a member of one of the three enums. */
  datatype SgrParam = StyleParam(style: Style) | Fg(fg: Color) | Bg(bg: Color)

  /** The integer value of an enum member. */
  function SgrCode(p: SgrParam): (n: int)
    ensures 0 <= n <= 107
  {
    match p
    case StyleParam(s) => StyleCode(s)
    case Fg(c) => ForegroundCode(c)
    case Bg(c) => BackgroundCode(c)
  }

  /** Which enum member, if any, an SGR parameter value is. */
  function SgrParamOf(n: int): Option<SgrParam>
  {
    match n
    case 0 => Some(StyleParam(ResetAll))
    case 1 => Some(StyleParam(Bright))
    case 2 => Some(StyleParam(Dim))
    case 22 => Some(StyleParam(Normal))
    case 3 => Some(StyleParam(Italic))
    case 4 => Some(StyleParam(Underline))
    case 5 => Some(StyleParam(SlowBlink))
    case 6 => Some(StyleParam(Blink))
    case 7 => Some(StyleParam(Invert))
    case _ =>
      if 30 <= n <= 49 || 90 <= n <= 107 then
        var fg := n < 40 || (90 <= n < 100);
        var base := if fg then n else n - 10;
        match ColorOf(base)
        case None => None
        case Some(c) => Some(if fg then Fg(c) else Bg(c))
      else None
  }

  function ColorOf(n: int): Option<Color>
  {
    match n
    case 30 => Some(Black)
    case 31 => Some(Red)
    case 32 => Some(Green)
    case 33 => Some(Yellow)
    case 34 => Some(Blue)
    case 35 => Some(Magenta)
    case 36 => Some(Cyan)
    case 37 => Some(White)
    case 39 => Some(Reset)
    case 90 => Some(LightBlack)
    case 91 => Some(LightRed)
    case 92 => Some(LightGreen)
    case 93 => Some(LightYellow)
    case 94 => Some(LightBlue)
    case 95 => Some(LightMagenta)
    case 96 => Some(LightCyan)
    case 97 => Some(LightWhite)
    case _ => None
  }

  /** Every member's value names that member alone: the values are unique
      within each enum and across the three. */
  lemma SgrCodeUnique(p: SgrParam)
    ensures SgrParamOf(SgrCode(p)) == Some(p)
  {
  }

  lemma SgrCodeInjective(p: SgrParam, q: SgrParam)
    ensures SgrCode(p) == SgrCode(q) <==> p == q
  {
    SgrCodeUnique(p);
    SgrCodeUnique(q);
  }

  // =====================================================================
  // style, set_title and the predefined sequences
  // =====================================================================

  function SgrCodes(args: seq<SgrParam>): (r: seq<int>)
    ensures |r| == |args|
    ensures forall j :: 0 <= j < |args| ==> r[j] == SgrCode(args[j])
  {
    seq(|args|, j requires 0 <= j < |args| => SgrCode(args[j]))
  }

  /** `style(*args)`: the SGR sequence of the members' values. */
  function StyleSeq(args: seq<SgrParam>): (s: string)
    ensures |s| >= 3 && s[..2] == [Esc, '['] && s[|s| - 1] == 'm'
  {
    Sgr(SgrCodes(args))
  }

  /** A style sequence reads back as SGR with the members given, in order;
      with no member it is ESC `[m`. */
  lemma StyleDecodes(args: seq<SgrParam>)
    ensures DecodeCsi(StyleSeq(args)) == Some((SgrCodes(args), 'm'))
    ensures forall j :: 0 <= j < |args| ==> SgrParamOf(SgrCodes(args)[j]) == Some(args[j])
    ensures StyleSeq([]) == [Esc, '[', 'm']
  {
    CsiRoundTrip(SgrCodes(args), 'm');
    forall j | 0 <= j < |args|
      ensures SgrParamOf(SgrCodes(args)[j]) == Some(args[j])
    {
      SgrCodeUnique(args[j]);
    }
    assert Numerals([]) == [];
  }

  /** `set_title(title)`: `TITLE(2, title)()`. */
  function SetTitle(title: string): (s: string)
    ensures |s| >= 3 && s[..2] == [Esc, ']'] && s[|s| - 1] == Bel
  {
    Title([IntParam(2), StrParam(title)])
  }

  /** The title goes in as it stands, between ESC `]2;` and BEL. */
  lemma SetTitleText(title: string)
    ensures SetTitle(title) == [Esc, ']', '2', ';'] + title + [Bel]
  {
    var texts := seq(2, j requires 0 <= j < 2 => OscParamText([IntParam(2), StrParam(title)][j]));
    assert IntToString(2) == "2";
    assert texts == ["2", title];
    assert texts[1..] == [title];
    assert JoinWith(texts, ";") == "2" + ";" + title;
    assert OscPrefix == [Esc, ']'];
    assert SetTitle(title) == OscPrefix + ("2" + ";" + title) + [Bel];
  }

  /** The sequence ends at its first BEL exactly when the title holds no
      BEL: nothing in the title is escaped. */
  lemma SetTitleEndsAtFirstBel(title: string)
    ensures var s := SetTitle(title);
            (forall i :: 0 <= i < |s| - 1 ==> s[i] != Bel) <==> Bel !in title
  {
    SetTitleText(title);
    var s := SetTitle(title);
    if Bel in title {
      var k :| 0 <= k < |title| && title[k] == Bel;
      assert s[4 + k] == Bel;
    } else {
      forall i | 0 <= i < |s| - 1
        ensures s[i] != Bel
      {
        if i >= 4 {
          assert s[i] == title[i - 4];
        }
      }
    }
  }

  /** The predefined sequences of the module. */
  function ClearScreen(): string { Ed([0]) }
  function ClearScreenBefore(): string { Ed([1]) }
  function ClearFullscreen(): string { Ed([2]) }
  function ClearScrollback(): string { Ed([3]) }
  function ClearLine(): string { El([2]) }
  function ClearLineBefore(): string { El([1]) }
  function ClearLineAfter(): string { El([0]) }

  /** ED(n) is ESC `[` n `J` and EL(n) is ESC `[` n `K`. */
  lemma EraseSequences()
    ensures ClearScreen() == [Esc, '[', '0', 'J']
    ensures ClearScreenBefore() == [Esc, '[', '1', 'J']
    ensures ClearFullscreen() == [Esc, '[', '2', 'J']
    ensures ClearScrollback() == [Esc, '[', '3', 'J']
    ensures ClearLine() == [Esc, '[', '2', 'K']
    ensures ClearLineBefore() == [Esc, '[', '1', 'K']
    ensures ClearLineAfter() == [Esc, '[', '0', 'K']
  {
    assert IntToString(0) == "0" && IntToString(1) == "1";
    assert IntToString(2) == "2" && IntToString(3) == "3";
    assert Numerals([0]) == ["0"] && Numerals([1]) == ["1"];
    assert Numerals([2]) == ["2"] && Numerals([3]) == ["3"];
  }
}
