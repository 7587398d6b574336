/** The custom serialization hooks of `Exc`, over an abstract field record
    instead of an object-stream byte format.

    The object stream writes a class's superclass data first, so the
    `Throwable` fields of an `Exc`, its cause among them, are written (or
    read) before `Exc.writeObject` (or `readObject`) runs; a cause that
    cannot be serialized therefore fails the write before the reason is
    looked at. */
module Serial {
  import opened Wrappers
  import opened Reasons
  import opened Excs

  const InvalidReasonMessage := "reason is null or invalid."

  /** A reason an object stream can hold: a `Serializable` record whose
      component values can all be serialized. */
  predicate Storable(r: Reason) {
    r.serializable && r.unserializable.None?
  }

  type StoredReason = r: Reason | Storable(r)
    witness Reason("", "", [], true, None)

  /** What the stream holds for an `Exc`: the serialized cause, the stack
      frame, and the reason written after it, which a corrupted stream may
      yield back as null. */
  datatype ExcForm = ExcForm(cause: Option<ThrowableForm>, site: CallSite, reason: Option<StoredReason>)

  /** What the stream holds for a cause. Any other throwable is opaque:
      `nestedInvalid` says whether an `Exc` held somewhere in its own fields
      (its own cause, say) reads back with a null reason. */
  datatype ThrowableForm =
    | ExcCauseForm(exc: ExcForm)
    | RuntimeExcCauseForm(inner: ExcForm)
    | OtherCauseForm(rendering: string, message: Option<string>, nestedInvalid: bool)

  /** Every `Exc` in the cause chain has a reason that can be stored, and
      every other throwable in it can be serialized. */
  predicate Writable(e: Exc)
    decreases e
  {
    Storable(e.reason) && (e.cause.None? || ThrowableWritable(e.cause.value))
  }

  predicate ThrowableWritable(t: Throwable)
    decreases t
  {
    match t
    case ExcCause(e) => Writable(e)
    case RuntimeExcCause(rt) => Writable(rt.exc)
    case OtherCause(_, _, unserializable) => unserializable.None?
  }

  /** Every reason in the stream's cause chain is present, those of the
      exceptions nested in other throwables included. */
  predicate Readable(f: ExcForm)
    decreases f
  {
    f.reason.Some? && (f.cause.None? || ThrowableReadable(f.cause.value))
  }

  predicate ThrowableReadable(t: ThrowableForm)
    decreases t
  {
    match t
    case ExcCauseForm(f) => Readable(f)
    case RuntimeExcCauseForm(f) => Readable(f)
    case OtherCauseForm(_, _, nestedInvalid) => !nestedInvalid
  }

  /** Serializing an `Exc`: the cause first, then `Exc.writeObject`, which
      refuses a reason whose class is not `Serializable`, naming that class,
      before writing any field of its own, and then writes the reason, which
      fails on the first component value that cannot be serialized, naming
      that value's class. */
  function Write(e: Exc): (r: Result<ExcForm, Error>)
    ensures r.Failure? ==> r.error.NotSerializable?
    ensures !e.reason.serializable ==> r.Failure?
    ensures e.reason.unserializable.Some? ==> r.Failure?
    ensures r.Success? ==> r.value.reason == Some(e.reason) && r.value.site == e.site
    decreases e
  {
    var cause :- WriteCause(e.cause);
    if !e.reason.serializable then Failure(NotSerializable(e.reason.fullName))
    else if e.reason.unserializable.Some? then Failure(NotSerializable(e.reason.unserializable.value))
    else Success(ExcForm(cause, e.site, Some(e.reason)))
  }

  function WriteCause(c: Option<Throwable>): (r: Result<Option<ThrowableForm>, Error>)
    ensures r.Failure? ==> r.error.NotSerializable?
    ensures r.Success? ==> (r.value.None? <==> c.None?)
    decreases c
  {
    match c
    case None => Success(None)
    case Some(t) =>
      var f :- WriteThrowable(t);
      Success(Some(f))
  }

  /** A `RuntimeExc` has no hooks of its own: its only content is its cause. */
  function WriteThrowable(t: Throwable): (r: Result<ThrowableForm, Error>)
    ensures r.Failure? ==> r.error.NotSerializable?
    decreases t
  {
    match t
    case ExcCause(e) =>
      var f :- Write(e);
      Success(ExcCauseForm(f))
    case RuntimeExcCause(rt) =>
      var f :- Write(rt.exc);
      Success(RuntimeExcCauseForm(f))
    case OtherCause(rendering, message, unserializable) =>
      if unserializable.Some? then Failure(NotSerializable(unserializable.value))
      else Success(OtherCauseForm(rendering, message, false))
  }

  /** Deserializing an `Exc`: the cause first, then `Exc.readObject`, which
      refuses a null reason. */
  function Read(f: ExcForm): (r: Result<Exc, Error>)
    ensures r.Failure? ==> r.error == InvalidObject(InvalidReasonMessage)
    ensures f.reason.None? ==> r.Failure?
    ensures r.Success? ==> Some(r.value.reason) == f.reason && r.value.site == f.site
    ensures r.Success? ==> Writable(r.value)
    decreases f
  {
    var cause :- ReadCause(f.cause);
    match f.reason
    case None => Failure(InvalidObject(InvalidReasonMessage))
    case Some(reason) => Success(Exc(reason, cause, f.site))
  }

  function ReadCause(c: Option<ThrowableForm>): (r: Result<Option<Throwable>, Error>)
    ensures r.Failure? ==> r.error == InvalidObject(InvalidReasonMessage)
    ensures r.Success? ==> (r.value.None? <==> c.None?)
    ensures r.Success? && r.value.Some? ==> ThrowableWritable(r.value.value)
    decreases c
  {
    match c
    case None => Success(None)
    case Some(t) =>
      var th :- ReadThrowable(t);
      Success(Some(th))
  }

  function ReadThrowable(t: ThrowableForm): (r: Result<Throwable, Error>)
    ensures r.Failure? ==> r.error == InvalidObject(InvalidReasonMessage)
    ensures r.Success? ==> ThrowableWritable(r.value)
    decreases t
  {
    match t
    case ExcCauseForm(f) =>
      var e :- Read(f);
      Success(ExcCause(e))
    case RuntimeExcCauseForm(f) =>
      var e :- Read(f);
      Success(RuntimeExcCause(RuntimeExc(e)))
    case OtherCauseForm(rendering, message, nestedInvalid) =>
      if nestedInvalid then Failure(InvalidObject(InvalidReasonMessage))
      else Success(OtherCause(rendering, message, None))
  }

  /** Serialization succeeds exactly when the whole cause chain is writable. */
  lemma {:induction false} WriteSucceedsIff(e: Exc)
    ensures Write(e).Success? <==> Writable(e)
    decreases e
  {
    if e.cause.Some? {
      ThrowableWriteSucceedsIff(e.cause.value);
    }
  }

  lemma {:induction false} ThrowableWriteSucceedsIff(t: Throwable)
    ensures WriteThrowable(t).Success? <==> ThrowableWritable(t)
    decreases t
  {
    match t
    case ExcCause(e) => WriteSucceedsIff(e);
    case RuntimeExcCause(rt) => WriteSucceedsIff(rt.exc);
    case OtherCause(_, _, _) =>
  }

  /** When the cause chain can be written, a reason whose class is not
      `Serializable` is reported by its own full class name. */
  lemma UnserializableReasonNamed(e: Exc)
    requires !e.reason.serializable
    requires e.cause.None? || ThrowableWritable(e.cause.value)
    ensures Write(e) == Failure(NotSerializable(e.reason.fullName))
  {
    if e.cause.Some? {
      ThrowableWriteSucceedsIff(e.cause.value);
    }
  }

  /** When the cause chain can be written, a `Serializable` reason holding a
      component value that cannot be serialized is reported by that value's
      class name. */
  lemma UnserializableComponentNamed(e: Exc)
    requires e.reason.serializable && e.reason.unserializable.Some?
    requires e.cause.None? || ThrowableWritable(e.cause.value)
    ensures Write(e) == Failure(NotSerializable(e.reason.unserializable.value))
  {
    if e.cause.Some? {
      ThrowableWriteSucceedsIff(e.cause.value);
    }
  }

  /** Deserialization succeeds exactly when every reason in the chain is present. */
  lemma {:induction false} ReadSucceedsIff(f: ExcForm)
    ensures Read(f).Success? <==> Readable(f)
    decreases f
  {
    if f.cause.Some? {
      ThrowableReadSucceedsIff(f.cause.value);
    }
  }

  lemma {:induction false} ThrowableReadSucceedsIff(t: ThrowableForm)
    ensures ReadThrowable(t).Success? <==> ThrowableReadable(t)
    decreases t
  {
    match t
    case ExcCauseForm(f) => ReadSucceedsIff(f);
    case RuntimeExcCauseForm(f) => ReadSucceedsIff(f);
    case OtherCauseForm(_, _, _) =>
  }

  /** Writing then reading gives back the same exception: reason, call site
      and cause, an absent cause included. */
  lemma {:induction false} WriteThenRead(e: Exc)
    requires Write(e).Success?
    ensures Read(Write(e).value) == Success(e)
    decreases e
  {
    if e.cause.Some? {
      ThrowableWriteThenRead(e.cause.value);
    }
  }

  lemma {:induction false} ThrowableWriteThenRead(t: Throwable)
    requires WriteThrowable(t).Success?
    ensures ReadThrowable(WriteThrowable(t).value) == Success(t)
    decreases t
  {
    match t
    case ExcCause(e) => WriteThenRead(e);
    case RuntimeExcCause(rt) => WriteThenRead(rt.exc);
    case OtherCause(_, _, _) =>
  }

  /** Reading a stream and writing the result back reproduces the stream. */
  lemma {:induction false} ReadThenWrite(f: ExcForm)
    requires Read(f).Success?
    ensures Write(Read(f).value) == Success(f)
    decreases f
  {
    if f.cause.Some? {
      ThrowableReadThenWrite(f.cause.value);
    }
  }

  lemma {:induction false} ThrowableReadThenWrite(t: ThrowableForm)
    requires ReadThrowable(t).Success?
    ensures WriteThrowable(ReadThrowable(t).value) == Success(t)
    decreases t
  {
    match t
    case ExcCauseForm(f) => ReadThenWrite(f);
    case RuntimeExcCauseForm(f) => ReadThenWrite(f);
    case OtherCauseForm(_, _, _) =>
  }
}
