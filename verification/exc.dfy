/** The `Exc` exception of `com.github.sttk.errs` and its unchecked adapter
    `RuntimeExc`, as immutable values with pure renderings. */
module Excs {
  import opened Wrappers
  import opened Reasons
  import Text
  import Decimal

  const ExcClassName := "com.github.sttk.errs.Exc"
  const RuntimeExcClassName := "com.github.sttk.errs.RuntimeExc"
  const NullReasonMessage := "reason is null"

  /** Java's `int`. */
  type Int32 = x: int | -0x8000_0000 <= x < 0x8000_0000

  /** The exceptions the class throws, each with its message. */
  datatype Error =
    | IllegalArgument(message: string)
    | NotSerializable(message: string)
    | InvalidObject(message: string)

  /** The stack frame captured at construction: the file is absent (Java null)
      and the line negative when the runtime does not know them. */
  datatype CallSite = CallSite(file: Option<string>, line: Int32)

  /** An `Exc`. Its reason is never null: the constructors refuse a null one. */
  datatype Exc = Exc(reason: Reason, cause: Option<Throwable>, site: CallSite)

  /** A cause: another `Exc`, a `RuntimeExc`, or any other throwable, known
      by its `toString`, its `getMessage` and, when it cannot be serialized,
      the class name the object stream reports for it. */
  datatype Throwable =
    | ExcCause(exc: Exc)
    | RuntimeExcCause(runtime: RuntimeExc)
    | OtherCause(rendering: string, message: Option<string>, unserializable: Option<string>)

  /** The unchecked wrapper `toRuntimeException` returns; its cause is `exc`. */
  datatype RuntimeExc = RuntimeExc(exc: Exc)

  /** `new Exc(reason)`, with the captured stack frame given as `site`. */
  function New(reason: Option<Reason>, site: CallSite): (r: Result<Exc, Error>)
    ensures r.Success? <==> reason.Some?
    ensures r.Failure? ==> r.error == IllegalArgument(NullReasonMessage)
    ensures r.Success? ==> r.value.reason == reason.value && r.value.cause == None
    ensures r.Success? ==> r.value.site.file == site.file && r.value.site.line == site.line
  {
    if reason.None? then Failure(IllegalArgument(NullReasonMessage))
    else Success(Exc(reason.value, None, site))
  }

  /** `new Exc(reason, cause)`; a null cause is `None`. */
  function NewWithCause(reason: Option<Reason>, cause: Option<Throwable>, site: CallSite): (r: Result<Exc, Error>)
    ensures r.Success? <==> reason.Some?
    ensures r.Failure? ==> r.error == IllegalArgument(NullReasonMessage)
    ensures r.Success? ==> r.value.reason == reason.value && r.value.cause == cause
    ensures r.Success? ==> r.value.site.file == site.file && r.value.site.line == site.line
  {
    if reason.None? then Failure(IllegalArgument(NullReasonMessage))
    else Success(Exc(reason.value, cause, site))
  }

  /** Passing a null cause to the two-argument constructor gives an exception
      that agrees with the one-argument constructor's on reason, cause, file
      and line, and so on its message and `toString`. */
  lemma NullCauseIsNoCause(reason: Option<Reason>, site: CallSite)
    ensures NewWithCause(reason, None, site) == New(reason, site)
  {
  }

  /** The record rendering without its leading simple name and opening
      bracket and without its closing bracket: `Exc.getMessage` cuts the
      string at these two indices. */
  lemma StripIndices(r: Reason)
    ensures 0 <= |r.simpleName| + 1 <= |Rendering(r)| - 1 <= |Rendering(r)|
    ensures Rendering(r)[|r.simpleName| + 1 .. |Rendering(r)| - 1] == Body(r)
  {
  }

  /** `Exc.getMessage`: the reason's full class name and its components,
      `FullName { a=1, b=2 }`, whatever the cause and call site. */
  function Message(e: Exc): (m: string)
    ensures m == Text.Braced(e.reason.fullName, Body(e.reason))
  {
    var rsn := Rendering(e.reason);
    var rname := e.reason.simpleName;
    StripIndices(e.reason);
    var stripped := rsn[|rname| + 1 .. |rsn| - 1];
    e.reason.fullName + " { " + stripped + " }"
  }

  /** The message depends on the reason alone. */
  lemma MessageIgnoresCauseAndSite(e: Exc, cause: Option<Throwable>, site: CallSite)
    ensures Message(Exc(e.reason, cause, site)) == Message(e)
  {
  }

  /** The file name as `StringBuilder.append(String)` writes it: a null
      reference becomes "null". */
  function FileText(file: Option<string>): (s: string)
    ensures file.Some? ==> s == file.value
    ensures file.None? ==> s == "null"
  {
    match file
    case None => "null"
    case Some(f) => f
  }

  /** The appends of `Exc.toString`, given the rendered message, file and
      line and, when there is a cause, the cause's `toString`. */
  function Describe(message: string, file: string, line: string, cause: Option<string>): string {
    var head := ExcClassName + " { reason = " + message + ", file = " + file + ", line = " + line;
    var tail := match cause
      case None => ""
      case Some(c) => ", cause = " + c;
    head + tail + " }"
  }

  /** `Exc.toString`. */
  function ToString(e: Exc): (s: string)
    ensures |ExcClassName| + 5 <= |s|
    ensures s[..|ExcClassName| + 3] == ExcClassName + " { "
    ensures s[|s| - 2..] == " }"
    decreases e
  {
    Describe(Message(e), FileText(e.site.file), Decimal.FromInt(e.site.line), CauseText(e.cause))
  }

  /** The cause's `toString` when there is a cause: what `Exc.toString` appends
      after ", cause = ". */
  function CauseText(c: Option<Throwable>): (r: Option<string>)
    ensures r.Some? <==> c.Some?
    decreases c
  {
    match c
    case None => None
    case Some(t) => Some(ThrowableToString(t))
  }

  /** `toString` of any cause. */
  function ThrowableToString(t: Throwable): string
    decreases t
  {
    match t
    case ExcCause(e) => ToString(e)
    case RuntimeExcCause(rt) => RuntimeToString(rt)
    case OtherCause(rendering, _, _) => rendering
  }

  /** `getMessage` of any cause; `None` is a null message. */
  function ThrowableMessage(t: Throwable): Option<string>
    decreases if t.ExcCause? then 0 else 1
  {
    match t
    case ExcCause(e) => Some(Message(e))
    case RuntimeExcCause(rt) => ThrowableMessage(RuntimeCause(rt))
    case OtherCause(_, message, _) => message
  }

  /** `Exc.toRuntimeException`. */
  function ToRuntimeException(e: Exc): (rt: RuntimeExc)
    ensures RuntimeCause(rt) == ExcCause(e)
  {
    RuntimeExc(e)
  }

  /** `RuntimeExc.getCause`: the wrapped `Exc`. */
  function RuntimeCause(rt: RuntimeExc): Throwable {
    ExcCause(rt.exc)
  }

  /** `RuntimeExc.getMessage`: its cause's message. */
  function RuntimeMessage(rt: RuntimeExc): (m: Option<string>)
    ensures m == Some(Message(rt.exc))
  {
    ThrowableMessage(RuntimeCause(rt))
  }

  /** `RuntimeExc.toString`: its class name, ": ", then its cause's `toString`. */
  function RuntimeToString(rt: RuntimeExc): (s: string)
    ensures |RuntimeExcClassName| + 2 <= |s|
    ensures s[..|RuntimeExcClassName| + 2] == RuntimeExcClassName + ": "
    ensures s[|RuntimeExcClassName| + 2..] == ToString(rt.exc)
    decreases rt
  {
    RuntimeExcClassName + ": " + ToString(rt.exc)
  }

  /** The fields `Exc.toString` lists, in order: the cause only when there is one. */
  function DescribedFields(message: string, file: string, line: string, cause: Option<string>): seq<Text.Field> {
    [Text.Field("reason", message), Text.Field("file", file), Text.Field("line", line)]
    + match cause
      case None => []
      case Some(c) => [Text.Field("cause", c)]
  }

  /** The same fields for an exception. */
  function Entries(e: Exc): seq<Text.Field> {
    DescribedFields(Message(e), FileText(e.site.file), Decimal.FromInt(e.site.line), CauseText(e.cause))
  }

  /** The part before the cause opens a braced list of reason, file and line. */
  lemma HeadLayout(m: string, f: string, l: string)
    ensures ExcClassName + " { reason = " + m + ", file = " + f + ", line = " + l
         == ExcClassName + " { " + Text.Fields(DescribedFields(m, f, l, None), " = ")
  {
    Text.ThreeFields(Text.Field("reason", m), Text.Field("file", f), Text.Field("line", l), " = ");
    assert DescribedFields(m, f, l, None) == [Text.Field("reason", m), Text.Field("file", f), Text.Field("line", l)];
    assert " { reason = " == " { " + "reason" + " = ";
    assert ", file = " == ", " + "file" + " = ";
    assert ", line = " == ", " + "line" + " = ";
  }

  /** The appends produce a braced `key = value` list of reason, file, line
      and, exactly when there is one, the cause, as the last field. */
  lemma DescribeLayout(m: string, f: string, l: string, cause: Option<string>)
    ensures Describe(m, f, l, cause) == Text.Braced(ExcClassName, Text.Fields(DescribedFields(m, f, l, cause), " = "))
    ensures |DescribedFields(m, f, l, cause)| == 4 <==> cause.Some?
    ensures cause.Some? ==> DescribedFields(m, f, l, cause)[3] == Text.Field("cause", cause.value)
  {
    HeadLayout(m, f, l);
    var base := DescribedFields(m, f, l, None);
    if cause.Some? {
      var c := Text.Field("cause", cause.value);
      assert DescribedFields(m, f, l, cause) == base + [c];
      Text.FieldsSnoc(base, c, " = ");
      assert ", cause = " == ", " + "cause" + " = ";
    }
  }

  /** `Exc.toString` lists reason, file, line and, exactly when there is a
      cause, the cause, in the `Name { key = value, ... }` layout. */
  lemma ToStringLayout(e: Exc)
    ensures ToString(e) == Text.Braced(ExcClassName, Text.Fields(Entries(e), " = "))
    ensures |Entries(e)| == 4 <==> e.cause.Some?
    ensures e.cause.Some? ==> Entries(e)[3] == Text.Field("cause", ThrowableToString(e.cause.value))
  {
    DescribeLayout(Message(e), FileText(e.site.file), Decimal.FromInt(e.site.line), CauseText(e.cause));
  }

  /** The adapter's cause is the `Exc` itself, its message is the `Exc`'s
      message, and its `toString` is the `Exc`'s prefixed by its class name. */
  lemma RuntimeExcDelegates(e: Exc)
    ensures RuntimeCause(ToRuntimeException(e)) == ExcCause(e)
    ensures RuntimeMessage(ToRuntimeException(e)) == Some(Message(e))
    ensures RuntimeToString(ToRuntimeException(e)) == RuntimeExcClassName + ": " + ToString(e)
    ensures ThrowableToString(RuntimeExcCause(ToRuntimeException(e)))
         == RuntimeExcClassName + ": " + ThrowableToString(RuntimeCause(ToRuntimeException(e)))
  {
  }
}
