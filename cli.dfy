/** The command line of tomlraider (src/tomlraider/cli.py): the exit code
    a `_CLIError` carries, chosen by the exact type of the exception that
    caused it, and what `main` returns for each way `_parse_argv` ends.
    Argument parsing and file reading are not modelled: the run takes the
    property, the quiet flag and what became of the input file as
    parameters, and produces shell output only. */
module Cli {
  import opened PyRuntime
  import opened TomlTree
  import Core

  const ProgName: string := "tomlraider"

  // =====================================================================
  // _CLIError
  // =====================================================================

  /** The exact type of the exception a `_CLIError` is raised from. Any
      other type, a subclass of a listed one included, is `OtherType`. */
  datatype ExcType =
    | TOMLDecodeErrorType
    | TOMLPathFormatErrorType
    | TOMLLookUpErrorType
    | KeyErrorType
    | IndexErrorType
    | OtherType(name: string)

  /** `_error_codes.get(type(_from), 1) if _from else 1`. */
  function ErrorCode(cause: Option<ExcType>): (code: int)
    ensures 1 <= code <= 6
    ensures code == 1 <==> cause.None? || cause.value.OtherType?
  {
    match cause
    case None => 1
    case Some(t) =>
      match t
      case TOMLDecodeErrorType => 2
      case TOMLPathFormatErrorType => 3
      case TOMLLookUpErrorType => 4
      case KeyErrorType => 5
      case IndexErrorType => 6
      case OtherType(_) => 1
  }

  /** Each listed type has a code of its own, so the code tells the cause's
      type back. */
  lemma ErrorCodesDistinct(a: ExcType, b: ExcType)
    requires !a.OtherType? && !b.OtherType?
    ensures ErrorCode(Some(a)) == ErrorCode(Some(b)) <==> a == b
  {
  }

  /** The code of each listed type. */
  lemma ErrorCodeTable()
    ensures ErrorCode(Some(TOMLDecodeErrorType)) == 2
    ensures ErrorCode(Some(TOMLPathFormatErrorType)) == 3
    ensures ErrorCode(Some(TOMLLookUpErrorType)) == 4
    ensures ErrorCode(Some(KeyErrorType)) == 5
    ensures ErrorCode(Some(IndexErrorType)) == 6
    ensures ErrorCode(None) == 1
  {
  }

  /** `_CLIError(msg, quiet, _from)`. */
  function NewCliError(msg: string, quiet: bool, cause: Option<ExcType>): (e: Exc)
    ensures e.CliError? && e.msg == msg && e.quiet == quiet && e.code == ErrorCode(cause)
  {
    CliError(msg, quiet, ErrorCode(cause))
  }

  // =====================================================================
  // main
  // =====================================================================

  /** How `_parse_argv` ends: having written its output, or raising. */
  datatype Outcome = Completed(stdout: string) | Failed(exc: Exc)

  /** What `main` does: return a code (after writing the output or the
      message), or let an exception through. */
  datatype Exit = Returned(code: int, stdout: string, stderr: string) | Crashed(exc: Exc)

  /** `_message(value, quiet)`: the program's name and the message on
      stderr, unless quiet. */
  function Message(value: string, quiet: bool): string
  {
    if quiet then "" else ProgName + ": " + value + "\n"
  }

  /** `main`: 0 when `_parse_argv` completes; the error's code, after its
      message, for a `_CLIError`; anything else escapes. */
  function Main(o: Outcome): (r: Exit)
    ensures o.Completed? ==> r == Returned(0, o.stdout, "")
    ensures o.Failed? && o.exc.CliError? ==>
              r == Returned(o.exc.code, "", Message(o.exc.msg, o.exc.quiet))
    ensures r.Crashed? <==> o.Failed? && !o.exc.CliError?
  {
    match o
    case Completed(out) => Returned(0, out, "")
    case Failed(e) =>
      if e.CliError? then Returned(e.code, "", Message(e.msg, e.quiet)) else Crashed(e)
  }

  // =====================================================================
  // _parse_argv
  // =====================================================================

  /** What became of the input file: no pyproject.toml was found, the named
      file does not exist, its text does not decode, or the decoded
      document. */
  datatype Source =
    | NoPyproject
    | NoFile(name: string)
    | Undecodable(fileName: string, err: string)
    | Document(root: Value)

  /** The run of `_parse_argv` in shell mode: parse the property, check the
      file, read the property, write its shell form. */
  function Run(validKey: string -> bool, property: string, quiet: bool, source: Source): (o: Outcome)
    requires source.Document? ==> source.root.Table?
    ensures o.Completed? ==> source.Document? && Core.Parse(validKey, property).Ok?
    ensures o.Failed? ==> o.exc.CliError? || o.exc.KeyError? || o.exc.IndexError?
                          || o.exc.ValueError? || o.exc.NotImplementedError?
  {
    match Core.Parse(validKey, property)
    case Raise(e) =>
      if e.TOMLPathFormatError? then Failed(NewCliError(e.msg, quiet, Some(TOMLPathFormatErrorType)))
      else Failed(e)
    case Ok(path) =>
      match source
      case NoPyproject => Failed(NewCliError("<pyproject.toml> file not found", quiet, None))
      case NoFile(name) => Failed(NewCliError("File not found: " + name, quiet, None))
      case Undecodable(fileName, err) =>
        Failed(NewCliError("error decoding <" + fileName + ">, " + err, quiet, Some(TOMLDecodeErrorType)))
      case Document(root) =>
        match Core.Resolve(root, path)
        case Raise(e) =>
          if e.TOMLLookUpError? then Failed(NewCliError(e.msg, quiet, Some(TOMLLookUpErrorType)))
          else Failed(e)
        case Ok(v) =>
          match Core.DumpsShell(v, Strip(property, Core.PathSeparator))
          case Ok(out) => Completed(out)
          case Raise(e) => Failed(e)
  }

  /** What each exit code of a run means: 0 the output was written; 1 the
      input file is missing; 2 it does not decode; 3 the property is not a
      path; 4 the path does not fit the document. */
  lemma RunExitCodes(validKey: string -> bool, property: string, quiet: bool, source: Source)
    requires source.Document? ==> source.root.Table?
    ensures var r := Main(Run(validKey, property, quiet, source));
            var parsed := Core.Parse(validKey, property);
            (r.Returned? && r.code == 3 <==> parsed.Raise? && parsed.exc.TOMLPathFormatError?)
            && (r.Returned? && r.code == 1 <==> parsed.Ok? && (source.NoPyproject? || source.NoFile?))
            && (r.Returned? && r.code == 2 <==> parsed.Ok? && source.Undecodable?)
            && (r.Returned? && r.code == 4 <==>
                  parsed.Ok? && source.Document?
                  && Core.Resolve(source.root, parsed.value).Raise?
                  && Core.Resolve(source.root, parsed.value).exc.TOMLLookUpError?)
            && (r.Returned? && r.code == 0 <==> Run(validKey, property, quiet, source).Completed?)
  {
  }

  /** As written, no run returns 5 or 6: a KeyError or IndexError from
      `read_toml` is never turned into a `_CLIError`, and ends the program
      with the exception instead. */
  lemma RunNeverReturnsKeyOrIndexCode(validKey: string -> bool, property: string, quiet: bool, source: Source)
    requires source.Document? ==> source.root.Table?
    ensures var r := Main(Run(validKey, property, quiet, source));
            (r.Returned? ==> 0 <= r.code <= 4)
            && (r.Crashed? ==> r.exc.KeyError? || r.exc.IndexError? || r.exc.ValueError? || r.exc.NotImplementedError?)
  {
    var parsed := Core.Parse(validKey, property);
    if parsed.Ok? && source.Document? {
      var found := Core.Resolve(source.root, parsed.value);
      if found.Ok? {
        Core.DumpsShellRejectsDate(found.value, Strip(property, Core.PathSeparator));
      }
    }
  }

  /** A missing key is the evident case: `a` in an empty document. */
  lemma MissingKeyCrashes(validKey: string -> bool, quiet: bool)
    requires validKey("a")
    ensures Main(Run(validKey, "a", quiet, Document(Table([])))) == Crashed(KeyError("a"))
  {
    Core.ParseSingleKey(validKey, "a");
  }

  /** `str(e)` of the two exceptions the table lists but the run lets
      through. */
  function LookupText(e: Exc): string
  {
    match e
    case KeyError(k) => "'" + k + "'"
    case _ => "list index out of range"
  }

  /** The run with KeyError and IndexError from `read_toml` caught as well,
      as the table of codes evidently intends. */
  function RunIntended(validKey: string -> bool, property: string, quiet: bool, source: Source): (o: Outcome)
    requires source.Document? ==> source.root.Table?
    ensures o.Failed? ==> o.exc.CliError? || o.exc.ValueError? || o.exc.NotImplementedError?
  {
    var o := Run(validKey, property, quiet, source);
    if o.Failed? && o.exc.KeyError? then Failed(NewCliError(LookupText(o.exc), quiet, Some(KeyErrorType)))
    else if o.Failed? && o.exc.IndexError? then Failed(NewCliError(LookupText(o.exc), quiet, Some(IndexErrorType)))
    else o
  }

  /** With the lookup errors caught, a missing key returns 5 and an index
      out of range 6; every other run ends as before. */
  lemma RunIntendedCodes(validKey: string -> bool, property: string, quiet: bool, source: Source)
    requires source.Document? ==> source.root.Table?
    ensures var parsed := Core.Parse(validKey, property);
            var r := Main(RunIntended(validKey, property, quiet, source));
            parsed.Ok? && source.Document? ==>
              ((Core.Resolve(source.root, parsed.value).Raise?
                && Core.Resolve(source.root, parsed.value).exc.KeyError?) <==> r.Returned? && r.code == 5)
              && (Core.Resolve(source.root, parsed.value) == Raise(IndexError) <==> r.Returned? && r.code == 6)
    ensures var o := Run(validKey, property, quiet, source);
            !(o.Failed? && (o.exc.KeyError? || o.exc.IndexError?)) ==> RunIntended(validKey, property, quiet, source) == o
    ensures var r := Main(RunIntended(validKey, property, quiet, source));
            r.Crashed? ==> r.exc.ValueError? || r.exc.NotImplementedError?
  {
    var parsed := Core.Parse(validKey, property);
    if parsed.Ok? && source.Document? {
      var found := Core.Resolve(source.root, parsed.value);
      if found.Ok? {
        Core.DumpsShellRejectsDate(found.value, Strip(property, Core.PathSeparator));
      }
    }
  }

  /** A table is printed as the property with its outer dots stripped,
      after one dot. */
  lemma RunPrintsTablePath(validKey: string -> bool, quiet: bool)
    requires validKey("a")
    ensures Run(validKey, "..a..", quiet, Document(Table([("a", Table([]))]))) == Completed(".a")
  {
    assert Core.Parse(validKey, "..a..") == Ok([Key("a")]) by {
      Core.ParseSkipsEmptySegments(validKey);
    }
    assert Strip("..a..", '.') == "a" by {
      assert Strip("a", '.') == "a";
      assert Strip("a.", '.') == "a" by { assert "a."[..1] == "a"; }
      assert Strip("a..", '.') == "a" by { assert "a.."[..2] == "a."; }
      assert Strip(".a..", '.') == "a" by { assert ".a.."[1..] == "a.."; }
      assert "..a.."[1..] == ".a..";
    }
    assert Core.Resolve(Table([("a", Table([]))]), [Key("a")]) == Ok(Table([]));
    assert Core.DumpsShell(Table([]), "a") == Ok(".a") by {
      assert [Core.PathSeparator] + "a" == ".a";
    }
  }
}
