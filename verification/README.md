# errs-java `Exc`, modelled in Dafny

This project models `Exc`, the exception of `com.github.sttk.errs` that carries a
*reason* record instead of needing one exception subclass per failure, and
`RuntimeExc`, the unchecked wrapper `Exc.toRuntimeException()` returns.

An `Exc` is modelled as an immutable value: a reason, an optional cause and the
stack frame (file, line) where it was built. The model covers:

- the two constructors, which refuse a null reason with an
  `IllegalArgumentException("reason is null")`;
- `getMessage`, which cuts the simple class name and the brackets out of the
  record's default rendering `Simple[a=1, b=2]` and returns `Full.Name { a=1, b=2 }`;
- `toString`, which lists reason, file, line and, only when there is one, the
  cause, in the layout `com.github.sttk.errs.Exc { reason = …, file = …, line = …, cause = … }`;
- `RuntimeExc`, whose cause is the `Exc`, whose message is the `Exc`'s, and whose
  `toString` is `com.github.sttk.errs.RuntimeExc: ` followed by the `Exc`'s;
- the private `writeObject`/`readObject` hooks. Serialization is modelled over an
  abstract field record (`Serial.ExcForm`) rather than bytes. Writing refuses a
  reason whose class is not `Serializable` and names that class, and fails on a
  component value that cannot be serialized, naming that value's class. Reading
  refuses a null reason with `"reason is null or invalid."`. Writing then reading
  gives back an exception with the same reason, call site and cause, and reading
  then writing gives back the stream.

Files and modules:

| file | module | contents |
|---|---|---|
| wrappers.dfy | `Wrappers` | `Option` (Java null) and `Result` (a thrown exception) |
| decimal.dfy | `Decimal` | Java's decimal rendering of an `int`, with a parser that reads it back |
| text.dfy | `Text` | the `name=value, …` field lists and the `Name { … }` layout |
| reasons.dfy | `Reasons` | the reason record and its default `toString` |
| exc.dfy | `Excs` | `Exc`, `RuntimeExc`, the causes, the constructors and renderings |
| serial.dfy | `Serial` | the serialization hooks and their round trips |
| examples.dfy | `ExcExamples` | the concrete cases of the repository's unit tests |

Modelling choices:

- A null reason or cause is `None`. The `Exc` datatype holds a plain `Reason`, so
  the rule that a reason is never null after construction holds by typing.
- The stack frame is an input (`Excs.CallSite`). Its file may be absent, and
  `toString` then prints `null`, as `StringBuilder.append(String)` does. Its line
  is a Java `int` and may be negative.
- A reason is given by its class's simple and full names, its record components
  (name and already-rendered value), whether its class is `Serializable`, and the
  class name the object stream reports for the first component value it cannot
  serialize, if any. The reflection that derives these in Java is not modelled.
- A stream holds only reasons it could have written: `Serial.StoredReason` is a
  `Serializable` record whose components can all be serialized.
- A cause is another `Exc` (`ExcCause`), a `RuntimeExc` (`RuntimeExcCause`), or
  any other throwable (`OtherCause`), checked or unchecked. Such another
  throwable is known by its `toString`, its `getMessage`, and the class name the
  object stream reports when one of its fields cannot be serialized. In a
  stream it is opaque, except for whether an `Exc` nested in its own fields
  reads back with a null reason.
- The object stream writes a class's superclass data before its subclass's. So the
  `Throwable` fields of an `Exc`, the cause among them, are written before
  `Exc.writeObject` checks the reason. Reading runs in the same order. The model
  keeps this order, so when both the cause chain and the reason fail, the
  cause's error is the one reported.
- The accessors `getReason`, `getCause`, `getFile` and `getLine` are the
  datatype's fields `reason`, `cause`, `site.file` and `site.line`. The
  constructors' contracts state that these fields hold exactly the inputs.

## Model

| member | source | states |
|---|---|---|
| Excs.New | src/main/java/com/github/sttk/errs/Exc.java:52-59 | fails with IllegalArgument("reason is null") exactly when the reason is null; otherwise the exception holds that reason, no cause, and the given file and line |
| Excs.NewWithCause | src/main/java/com/github/sttk/errs/Exc.java:70-80 | fails with IllegalArgument("reason is null") exactly when the reason is null; otherwise the exception holds that reason, exactly the given cause (absent when null), and the given file and line |
| Excs.NullCauseIsNoCause | src/main/java/com/github/sttk/errs/Exc.java:71-77 | a null cause gives an exception that agrees with the one-argument constructor's on reason, cause, file and line, hence on message and toString |
| Excs.StripIndices | src/main/java/com/github/sttk/errs/Exc.java:98-100 | the substring indices (simple-name length + 1, rendering length - 1) are within bounds and cut out exactly the record's component list |
| Excs.Message | src/main/java/com/github/sttk/errs/Exc.java:96-105 | the message is the reason's full class name, " { ", the components as `a=1, b=2`, and " }" |
| Excs.MessageIgnoresCauseAndSite | src/main/java/com/github/sttk/errs/Exc.java:97-104 | the message is the same whatever the cause and call site |
| Excs.FileText | src/main/java/com/github/sttk/errs/Exc.java:117 | a file name is printed as is, and an unknown (null) file as `null` |
| Excs.ToString | src/main/java/com/github/sttk/errs/Exc.java:113-123 | toString opens with `com.github.sttk.errs.Exc { ` and closes with ` }`, so a cause's rendering sits inside its exception's braces |
| Excs.DescribeLayout | src/main/java/com/github/sttk/errs/Exc.java:115-122 | the appends of toString produce a braced `key = value` list of reason, file and line, with the cause as a fourth and last field exactly when one is present |
| Excs.ToStringLayout | src/main/java/com/github/sttk/errs/Exc.java:113-123 | toString is `com.github.sttk.errs.Exc { reason = <message>, file = <file or null>, line = <line> }`, with `, cause = <cause.toString()>` before the closing brace exactly when a cause is present |
| Excs.ToRuntimeException | src/main/java/com/github/sttk/errs/Exc.java:152-154 | the wrapper's cause is the exception itself |
| Excs.RuntimeMessage | src/main/java/com/github/sttk/errs/Exc.java:207-209 | the wrapper's message is the wrapped Exc's message |
| Excs.RuntimeToString | src/main/java/com/github/sttk/errs/Exc.java:212-214 | the wrapper's toString is `com.github.sttk.errs.RuntimeExc: ` followed by the wrapped Exc's toString |
| Excs.RuntimeExcDelegates | src/main/java/com/github/sttk/errs/Exc.java:199-214 | the wrapper's cause is the Exc, its message equals the Exc's message, and its toString is `com.github.sttk.errs.RuntimeExc: ` followed by the Exc's toString |
| Decimal.FromNat | src/main/java/com/github/sttk/errs/Exc.java:118 | a non-negative line renders as a non-empty digit string with no leading zero, and "0" for zero |
| Decimal.FromInt | src/main/java/com/github/sttk/errs/Exc.java:118 | a line renders with a leading minus sign exactly when it is negative, followed by digits |
| Decimal.ParseFromInt | src/main/java/com/github/sttk/errs/Exc.java:118 | reading the rendered line back as a decimal gives the line |
| Decimal.FromIntInjective | src/main/java/com/github/sttk/errs/Exc.java:118 | different lines render differently |
| Serial.Write | src/main/java/com/github/sttk/errs/Exc.java:168-174 | a reason whose class is not Serializable, or that holds a component value that cannot be serialized, makes writing fail; every failure is a NotSerializable error; a successful write records the reason and the call site |
| Serial.WriteCause | src/main/java/com/github/sttk/errs/Exc.java:168-174 | writing the cause fails only with NotSerializable, and an absent cause is written as absent |
| Serial.WriteThrowable | src/main/java/com/github/sttk/errs/Exc.java:168-174 | writing any cause fails only with NotSerializable |
| Serial.WriteSucceedsIff | src/main/java/com/github/sttk/errs/Exc.java:168-174 | writing succeeds exactly when every reason in the cause chain is Serializable with serializable components and every other cause can be serialized |
| Serial.ThrowableWriteSucceedsIff | src/main/java/com/github/sttk/errs/Exc.java:168-174 | writing a cause succeeds exactly when it is writable |
| Serial.UnserializableReasonNamed | src/main/java/com/github/sttk/errs/Exc.java:169-171 | when the cause chain can be written, a non-Serializable reason fails the write with NotSerializable carrying the reason's full class name |
| Serial.UnserializableComponentNamed | src/main/java/com/github/sttk/errs/Exc.java:173 | when the cause chain can be written, a Serializable reason holding a component value that cannot be serialized fails the write with NotSerializable carrying that value's class name |
| Serial.Read | src/main/java/com/github/sttk/errs/Exc.java:189-196 | a null reason makes reading fail; every failure is InvalidObject("reason is null or invalid."); a successful read restores the reason and the call site, and what it returns can be written again |
| Serial.ReadCause | src/main/java/com/github/sttk/errs/Exc.java:189-196 | reading the cause fails only with InvalidObject, and an absent cause reads back as absent |
| Serial.ReadThrowable | src/main/java/com/github/sttk/errs/Exc.java:189-196 | reading any cause fails only with InvalidObject |
| Serial.ReadSucceedsIff | src/main/java/com/github/sttk/errs/Exc.java:191-195 | reading succeeds exactly when every reason in the cause chain is present, those of exceptions nested in other throwables included |
| Serial.ThrowableReadSucceedsIff | src/main/java/com/github/sttk/errs/Exc.java:191-195 | reading a cause succeeds exactly when every reason in it is present; another throwable fails to read exactly when an Exc nested in it has a null reason |
| Serial.WriteThenRead | src/main/java/com/github/sttk/errs/Exc.java:168-196 | after a successful write, reading gives back the same exception: reason, call site and cause, an absent cause included |
| Serial.ThrowableWriteThenRead | src/main/java/com/github/sttk/errs/Exc.java:168-196 | the same round trip for any cause |
| Serial.ReadThenWrite | src/main/java/com/github/sttk/errs/Exc.java:168-196 | writing back what was read reproduces the stream |
| Serial.ThrowableReadThenWrite | src/main/java/com/github/sttk/errs/Exc.java:168-196 | the same reverse round trip for any cause |
| ExcExamples.TestBody | src/test/java/com/github/sttk/errs/ExcTest.java:27-31 | the records IndexOutOfRange("data", 4, 0, 3) and SerializableReason("data", 4, 0, 3) list their components as `name=data, index=4, min=0, max=3` |
| ExcExamples.TestMessageOf | src/test/java/com/github/sttk/errs/ExcTest.java:164-166 | any exception with that reason has the message `com.github.sttk.errs.ExcTest$IndexOutOfRange { name=data, index=4, min=0, max=3 }` |
| ExcExamples.TestGetMessage | src/test/java/com/github/sttk/errs/ExcTest.java:162-175 | both constructors succeed on that reason, and the message is the same with and without a cause |
| ExcExamples.TestToString | src/test/java/com/github/sttk/errs/ExcTest.java:180-185 | the exact toString of the test exception built at ExcTest.java line 182 |
| ExcExamples.TestToStringWithCause | src/test/java/com/github/sttk/errs/ExcTest.java:187-193 | the exact toString of the test exception built at line 190 with an IndexOutOfBoundsException cause |
| ExcExamples.TestRuntimeExc | src/test/java/com/github/sttk/errs/ExcTest.java:198-211 | the wrapper's message is the test message and its cause is the Exc |
| ExcExamples.TestSerializeNotSerializable | src/test/java/com/github/sttk/errs/ExcTest.java:302-313 | writing an exception whose reason IndexOutOfRange is not Serializable fails with NotSerializable naming `com.github.sttk.errs.ExcTest$IndexOutOfRange` |
| ExcExamples.TestSerializeNoCause | src/test/java/com/github/sttk/errs/ExcTest.java:242-269 | an exception with reason SerializableReason and no cause is written, and reads back with the same reason and no cause |
| ExcExamples.TestSerializeWithCause | src/test/java/com/github/sttk/errs/ExcTest.java:271-300 | the same with an IndexOutOfBoundsException cause, which reads back with message `Index out of range: 4` |

## Left out

- The exception-handler registry (`addSyncHandler`, `addAsyncHandler`, `fixHandlers` and the notification on construction): the class comment at `src/main/java/com/github/sttk/errs/Exc.java:20` and `src/test/java/com/github/sttk/errs/ExcHandlerTest.java` mention it, but `Exc.java` has no code for it, so there is nothing to model. Its asynchronous half is concurrency in any case.
- `ExcHandler.java`: a one-method callback interface, used only by the registry.
- Capturing the stack frame through `getStackTrace()[0]`: JVM introspection. The file and line are constructor inputs.
- The object-stream byte format, `defaultWriteObject`/`defaultReadObject`, and the `ClassCastException` that `Record.class.cast` throws when the stream holds a non-record. Serialization works on a field record instead.
- `RuntimeExc.fillInStackTrace` and `printStackTrace` output: stack-trace formatting and platform line endings.
- Reflection-derived class names (`getName`, `getSimpleName`) and the JDK's record `toString`. They are fields of the reason, or computed from its components in the record's default layout.
- Records that override `toString`: the model always uses the default rendering. On an override shorter than the simple name plus two characters, Java's `substring` in `getMessage` would throw.
- The detail message `super(cause)` sets: `getMessage` is overridden, so it is never shown.
- A cause's or a reason component's serializability is reduced to one optional class name: the class the object stream would report. The JDK walks the object graph to find it.
- Serial.ReadSucceedsIff, Serial.ThrowableReadSucceedsIff: another throwable's own chain is opaque on reading. Its stream form holds one flag for whether an `Exc` nested in it reads back with a null reason. The `Exc` values inside it are not modelled.
- Serial.WriteThenRead, Serial.ThrowableWriteThenRead: record components are kept as their renderings, so the round trip also gives back the same `getMessage` and `toString`. Java restores a component's state, not its rendering. The two agree only when every component's `toString` depends on its state alone. A component whose rendering shows an identity hash, such as an `int[]`, prints differently after reading.
- The mutators `Exc` inherits from `Throwable` (`initCause`, `setStackTrace`, `addSuppressed`): they are not modelled. In Java, `new Exc(r)` leaves the cause unset, so `initCause` can still set it once, while `new Exc(r, null)` fixes it as null and `initCause` then throws `IllegalStateException`. The two constructions agree only on `getReason`, `getCause`, `getFile`, `getLine`, `getMessage` and `toString`.
- `package-info.java` and `module-info.java`: declarations only.
