/** The error records of the Errbit\Errors namespace (src/Errbit/Errors/Base.php
    and src/Errbit/Errors/Fatal.php).  A record is built once and never
    changed: the datatype has no update operations, only the four getters. */
module Errors {
  import opened PhpValues

  /** The record classes of Errbit\Errors: Base, its subclasses Notice,
      Warning and Fatal, and Error, which extends BaseError instead
      (src/Errbit/Errors/Error.php:5). */
  datatype Kind = BaseKind | NoticeKind | WarningKind | ErrorKind | FatalKind

  /** `get_class` of an instance of each kind. */
  function KindClassName(k: Kind): string
  {
    match k
    case BaseKind => "Errbit\\Errors\\Base"
    case NoticeKind => "Errbit\\Errors\\Notice"
    case WarningKind => "Errbit\\Errors\\Warning"
    case ErrorKind => "Errbit\\Errors\\Error"
    case FatalKind => "Errbit\\Errors\\Fatal"
  }

  /** The class name without its namespace. */
  function KindShortName(k: Kind): string
  {
    match k
    case BaseKind => "Base"
    case NoticeKind => "Notice"
    case WarningKind => "Warning"
    case ErrorKind => "Error"
    case FatalKind => "Fatal"
  }

  /** Every error class sits directly in the Errbit\Errors namespace. */
  lemma {:induction false} KindClassNameSplit(k: Kind)
    ensures KindClassName(k) == "Errbit\\Errors" + ['\\'] + KindShortName(k)
    ensures '\\' !in KindShortName(k)
  {
    match k
    case BaseKind =>
    case NoticeKind =>
    case WarningKind =>
    case ErrorKind =>
    case FatalKind =>
  }

  lemma {:induction false} KindClassNameInjective(j: Kind, k: Kind)
    ensures KindClassName(j) == KindClassName(k) ==> j == k
  {
  }

  /** Anything the notifier reports: its class name as `get_class` gives it,
      and what `getMessage`, `getLine`, `getFile` and `getTrace` return.  Both
      the records below and foreign exceptions take this shape. */
  datatype Record = Record(className: string, message: string, line: int, file: string, trace: seq<Value>)
  {
    function GetMessage(): string { message }

    function GetLine(): int { line }

    function GetFile(): string { file }

    function GetTrace(): seq<Value> { trace }
  }

  /** `new Base($message, $line, $file, $trace)`.  Notice and Warning are
      taken to inherit this constructor unchanged; their own files are not
      part of this model.  For Error, a subclass of BaseError, it is the
      record the conversion intends. */
  function NewRecord(k: Kind, message: string, line: int, file: string, trace: seq<Value>): (r: Record)
    ensures r.className == KindClassName(k)
    ensures r.GetMessage() == message && r.GetLine() == line && r.GetFile() == file
    ensures r.GetTrace() == trace
  {
    Record(KindClassName(k), message, line, file, trace)
  }

  /** The single frame a fatal error carries: where it happened, with an
      unknown function. */
  function FatalFrame(line: int, file: string): Value
  {
    VArr([(KStr("line"), VInt(line)), (KStr("file"), VStr(file)), (KStr("function"), VStr("<unknown>"))])
  }

  /** The frame answers for its three keys and for nothing else. */
  lemma {:induction false} FatalFrameFields(line: int, file: string)
    ensures Lookup(FatalFrame(line, file), "line") == VInt(line)
    ensures Lookup(FatalFrame(line, file), "file") == VStr(file)
    ensures Lookup(FatalFrame(line, file), "function") == VStr("<unknown>")
    ensures forall k :: k !in {"line", "file", "function"} ==> Lookup(FatalFrame(line, file), k) == VNull
  {
    var es := FatalFrame(line, file).entries;
    assert LookupEntries(es, KStr("line")) == VInt(line);
    assert LookupEntries(es[1..], KStr("file")) == VStr(file);
    assert LookupEntries(es[1..][1..], KStr("function")) == VStr("<unknown>");
    assert LookupEntries(es[1..], KStr("function")) == VStr("<unknown>");
    forall k | k !in {"line", "file", "function"}
      ensures LookupEntries(es, KStr(k)) == VNull
    {
      assert es[1..][1..][1..] == [];
      assert LookupEntries(es[1..][1..], KStr(k)) == VNull;
      assert LookupEntries(es[1..], KStr(k)) == VNull;
    }
  }

  /** `new Fatal($message, $line, $file)`: Base's fields with a synthetic
      one-frame trace. */
  function NewFatal(message: string, line: int, file: string): (r: Record)
    ensures r.className == KindClassName(FatalKind)
    ensures r.GetMessage() == message && r.GetLine() == line && r.GetFile() == file
    ensures |r.GetTrace()| == 1
    ensures Lookup(r.GetTrace()[0], "line") == VInt(line)
    ensures Lookup(r.GetTrace()[0], "file") == VStr(file)
    ensures Lookup(r.GetTrace()[0], "function") == VStr("<unknown>")
    ensures Lookup(r.GetTrace()[0], "class") == VNull && Lookup(r.GetTrace()[0], "type") == VNull
  {
    FatalFrameFields(line, file);
    NewRecord(FatalKind, message, line, file, [FatalFrame(line, file)])
  }
}

/** The root-level copy of the Fatal constructor (Errors/Fatal.php). */
module RootErrors {
  import opened PhpValues
  import Errors

  /** `new Fatal($message, $line, $file)` as the root-level copy writes it. */
  function NewFatal(message: string, line: int, file: string): (r: Errors.Record)
    ensures r.className == Errors.KindClassName(Errors.FatalKind)
    ensures r.GetMessage() == message && r.GetLine() == line && r.GetFile() == file
    ensures |r.GetTrace()| == 1
    ensures Lookup(r.GetTrace()[0], "line") == VInt(line)
    ensures Lookup(r.GetTrace()[0], "file") == VStr(file)
    ensures Lookup(r.GetTrace()[0], "function") == VStr("<unknown>")
  {
    var frame := VArr([(KStr("line"), VInt(line)), (KStr("file"), VStr(file)), (KStr("function"), VStr("<unknown>"))]);
    Errors.FatalFrameFields(line, file);
    assert frame == Errors.FatalFrame(line, file);
    Errors.NewRecord(Errors.FatalKind, message, line, file, [frame])
  }

  /** Both copies of the Fatal constructor build the same record. */
  lemma {:induction false} SameAsSrcFatal(message: string, line: int, file: string)
    ensures NewFatal(message, line, file) == Errors.NewFatal(message, line, file)
  {
  }
}

/** src/Errbit/Utils/Converter.php: from a PHP error code to an error record. */
module Converter {
  import opened Wrappers
  import opened PhpValues
  import opened Errors

  // PHP's error-level constants.
  const E_ERROR: int := 1
  const E_WARNING: int := 2
  const E_PARSE: int := 4
  const E_NOTICE: int := 8
  const E_CORE_ERROR: int := 16
  const E_CORE_WARNING: int := 32
  const E_COMPILE_ERROR: int := 64
  const E_COMPILE_WARNING: int := 128
  const E_USER_ERROR: int := 256
  const E_USER_WARNING: int := 512
  const E_USER_NOTICE: int := 1024
  const E_STRICT: int := 2048
  const E_RECOVERABLE_ERROR: int := 4096
  const E_DEPRECATED: int := 8192
  const E_USER_DEPRECATED: int := 16384

  predicate IsNoticeCode(code: int) { code == E_NOTICE || code == E_USER_NOTICE }

  predicate IsWarningCode(code: int) { code == E_WARNING || code == E_USER_WARNING }

  predicate IsFatalCode(code: int) { code == E_RECOVERABLE_ERROR || code == E_ERROR || code == E_CORE_ERROR }

  /** The TypeError PHP raises on the `E_USER_ERROR`/default arm. */
  const PreviousTypeError: string :=
    "Errbit\\Errors\\Error::__construct(): Argument #3 ($previous) must be of type ?Throwable, string given"

  /** `convert($code, $message, $file, $line, $backtrace)` as written.  The
      notice, warning and fatal arms build their record.  The
      `E_USER_ERROR`/default arm calls `new Error($message, $line, $file,
      $backtrace)`, whose constructor takes `?\Throwable $previous` third:
      the file name is a string, which PHP refuses with a TypeError in
      either typing mode, so no record comes back. */
  function Convert(code: int, message: string, file: string, line: int, backtrace: seq<Value>): (r: Result<Record, string>)
    ensures r.Success? <==> IsNoticeCode(code) || IsWarningCode(code) || IsFatalCode(code)
    ensures r.Success? ==> r.value == ConvertIntended(code, message, file, line, backtrace)
    ensures r.Failure? ==> r.error == PreviousTypeError
  {
    if IsNoticeCode(code) then Success(NewRecord(NoticeKind, message, line, file, backtrace))
    else if IsWarningCode(code) then Success(NewRecord(WarningKind, message, line, file, backtrace))
    else if IsFatalCode(code) then Success(NewFatal(message, line, file))
    else Failure(PreviousTypeError)
  }

  /** The conversion the source evidently intends, and its test for
      `E_USER_ERROR` expects: every other code gives an `Errbit\Errors\Error`
      record.  Note the order: the records take the line before the file. */
  function ConvertIntended(code: int, message: string, file: string, line: int, backtrace: seq<Value>): (r: Record)
    ensures r.GetMessage() == message && r.GetLine() == line && r.GetFile() == file
    ensures r.className == KindClassName(NoticeKind) <==> IsNoticeCode(code)
    ensures r.className == KindClassName(WarningKind) <==> IsWarningCode(code)
    ensures r.className == KindClassName(FatalKind) <==> IsFatalCode(code)
    ensures r.className == KindClassName(ErrorKind) <==> !IsNoticeCode(code) && !IsWarningCode(code) && !IsFatalCode(code)
    ensures IsFatalCode(code) ==> r.GetTrace() == [FatalFrame(line, file)]
    ensures !IsFatalCode(code) ==> r.GetTrace() == backtrace
  {
    if IsNoticeCode(code) then NewRecord(NoticeKind, message, line, file, backtrace)
    else if IsWarningCode(code) then NewRecord(WarningKind, message, line, file, backtrace)
    else if IsFatalCode(code) then NewFatal(message, line, file)
    else NewRecord(ErrorKind, message, line, file, backtrace)
  }

  /** Every code lands in exactly one of the four classes, as intended. */
  lemma {:induction false} ConvertIsOneOfFour(code: int, message: string, file: string, line: int, backtrace: seq<Value>)
    ensures var c := ConvertIntended(code, message, file, line, backtrace).className;
            c in {KindClassName(NoticeKind), KindClassName(WarningKind), KindClassName(FatalKind), KindClassName(ErrorKind)}
  {
  }

  /** The codes the source lists explicitly: the seven with their own arm
      give their record, and the user-error code, which shares the default
      arm, fails like every unlisted code such as `E_DEPRECATED`. */
  lemma {:induction false} ConvertListedCodes(message: string, file: string, line: int, bt: seq<Value>)
    ensures Convert(E_NOTICE, message, file, line, bt) == Success(NewRecord(NoticeKind, message, line, file, bt))
    ensures Convert(E_USER_NOTICE, message, file, line, bt) == Success(NewRecord(NoticeKind, message, line, file, bt))
    ensures Convert(E_WARNING, message, file, line, bt) == Success(NewRecord(WarningKind, message, line, file, bt))
    ensures Convert(E_USER_WARNING, message, file, line, bt) == Success(NewRecord(WarningKind, message, line, file, bt))
    ensures Convert(E_ERROR, message, file, line, bt) == Success(NewFatal(message, line, file))
    ensures Convert(E_CORE_ERROR, message, file, line, bt) == Success(NewFatal(message, line, file))
    ensures Convert(E_RECOVERABLE_ERROR, message, file, line, bt) == Success(NewFatal(message, line, file))
    ensures Convert(E_USER_ERROR, message, file, line, bt) == Failure(PreviousTypeError)
    ensures Convert(E_DEPRECATED, message, file, line, bt) == Failure(PreviousTypeError)
  {
  }

  /** `E_USER_ERROR`: the source as written raises a TypeError where the
      intended conversion gives the Error record its test expects. */
  lemma {:induction false} ConvertUserErrorFails(message: string, file: string, line: int, bt: seq<Value>)
    ensures Convert(E_USER_ERROR, message, file, line, bt).Failure?
    ensures ConvertIntended(E_USER_ERROR, message, file, line, bt) == NewRecord(ErrorKind, message, line, file, bt)
  {
  }
}
