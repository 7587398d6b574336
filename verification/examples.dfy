/** The concrete cases of the repository's unit tests, stated on the model:
    a record `IndexOutOfRange(String name, int index, int min, int max)`
    built as `IndexOutOfRange("data", 4, 0, 3)`. */
module ExcExamples {
  import opened Wrappers
  import opened Reasons
  import Text
  import opened Excs
  import Serial

  const IndexOutOfRangeName := "com.github.sttk.errs.ExcTest$IndexOutOfRange"
  const SerializableReasonName := "com.github.sttk.errs.ExcTest$SerializableReason"

  /** The component list the tests expect, "name=data, index=4, min=0, max=3",
      written in the order its pieces are appended. */
  const TestBodyText := "name=data" + ", " + "index=4" + ", " + "min=0" + ", " + "max=3"

  /** The message the tests expect:
      "com.github.sttk.errs.ExcTest$IndexOutOfRange { name=data, index=4, min=0, max=3 }". */
  const TestMessage := IndexOutOfRangeName + " { " + TestBodyText + " }"

  /** The components of both test records built as `("data", 4, 0, 3)`. */
  const TestComponents := [Text.Field("name", "data"), Text.Field("index", "4"),
                           Text.Field("min", "0"), Text.Field("max", "3")]

  /** `new IndexOutOfRange("data", 4, 0, 3)`: a record that is not `Serializable`. */
  const IndexOutOfRange := Reason("IndexOutOfRange", IndexOutOfRangeName, TestComponents, false, None)

  /** `new SerializableReason("data", 4, 0, 3)`: the same components in a
      `Serializable` record. */
  const SerializableReason := Reason("SerializableReason", SerializableReasonName, TestComponents, true, None)

  /** `new IndexOutOfBoundsException(4)`. */
  const IndexCause := OtherCause("java.lang.IndexOutOfBoundsException: Index out of range: 4",
                                 Some("Index out of range: 4"), None)

  /** The record component list as the record's `toString` prints it. */
  lemma TestBody(r: Reason)
    requires r.components == TestComponents
    ensures Body(r) == TestBodyText
  {
    Text.FourFields(r.components[0], r.components[1], r.components[2], r.components[3], "=");
  }

  /** The message of any exception with this reason. */
  lemma TestMessageOf(e: Exc)
    requires e.reason == IndexOutOfRange
    ensures Message(e) == TestMessage
  {
    TestBody(e.reason);
  }

  /** The message, with and without a cause. */
  lemma TestGetMessage(site: CallSite)
    ensures New(Some(IndexOutOfRange), site).Success?
    ensures Message(New(Some(IndexOutOfRange), site).value) == TestMessage
    ensures NewWithCause(Some(IndexOutOfRange), Some(IndexCause), site).Success?
    ensures Message(NewWithCause(Some(IndexOutOfRange), Some(IndexCause), site).value) == TestMessage
  {
    TestMessageOf(New(Some(IndexOutOfRange), site).value);
    TestMessageOf(NewWithCause(Some(IndexOutOfRange), Some(IndexCause), site).value);
  }

  /** `toString` without a cause, constructed at line 182:
      "com.github.sttk.errs.Exc { reason = ..., file = ExcTest.java, line = 182 }". */
  lemma TestToString(e: Exc)
    requires e == Exc(IndexOutOfRange, None, CallSite(Some("ExcTest.java"), 182))
    ensures ToString(e)
         == ExcClassName + " { reason = " + TestMessage + ", file = " + "ExcTest.java" + ", line = " + "182" + " }"
  {
    TestMessageOf(e);
    assert Decimal.FromInt(182) == "182" by {
      assert Decimal.FromNat(1) == "1";
      assert Decimal.FromNat(18) == "18";
    }
    DescribeWithoutCause(Message(e), FileText(e.site.file), Decimal.FromInt(e.site.line));
  }

  /** `toString` with an `IndexOutOfBoundsException` cause, constructed at line 190:
      "..., line = 190, cause = java.lang.IndexOutOfBoundsException: Index out of range: 4 }". */
  lemma TestToStringWithCause(e: Exc)
    requires e == Exc(IndexOutOfRange, Some(IndexCause), CallSite(Some("ExcTest.java"), 190))
    ensures ToString(e)
         == ExcClassName + " { reason = " + TestMessage + ", file = " + "ExcTest.java" + ", line = " + "190"
            + ", cause = " + IndexCause.rendering + " }"
  {
    TestMessageOf(e);
    assert Decimal.FromInt(190) == "190" by {
      assert Decimal.FromNat(1) == "1";
      assert Decimal.FromNat(19) == "19";
    }
    DescribeWithCause(Message(e), FileText(e.site.file), Decimal.FromInt(e.site.line),
      ThrowableToString(e.cause.value));
  }

  /** The appends of `toString` without and with a cause, written out. */
  lemma DescribeWithoutCause(m: string, f: string, l: string)
    ensures Describe(m, f, l, None) == ExcClassName + " { reason = " + m + ", file = " + f + ", line = " + l + " }"
  {
    var head := ExcClassName + " { reason = " + m + ", file = " + f + ", line = " + l;
    assert head + "" == head;
  }

  lemma DescribeWithCause(m: string, f: string, l: string, c: string)
    ensures Describe(m, f, l, Some(c))
         == ExcClassName + " { reason = " + m + ", file = " + f + ", line = " + l + ", cause = " + c + " }"
  {
  }

  /** The unchecked adapter reports the same message and has the `Exc` as its cause. */
  lemma TestRuntimeExc(site: CallSite)
    ensures RuntimeMessage(ToRuntimeException(Exc(IndexOutOfRange, None, site))) == Some(TestMessage)
    ensures RuntimeCause(ToRuntimeException(Exc(IndexOutOfRange, None, site)))
         == ExcCause(Exc(IndexOutOfRange, None, site))
  {
    TestMessageOf(Exc(IndexOutOfRange, None, site));
  }

  /** Writing an exception whose reason record is not `Serializable` fails,
      naming the record class. */
  lemma TestSerializeNotSerializable(site: CallSite)
    ensures Serial.Write(Exc(IndexOutOfRange, None, site)) == Failure(NotSerializable(IndexOutOfRangeName))
  {
  }

  /** A `Serializable` reason without a cause survives writing then reading:
      the cause stays null and the reason keeps its components. */
  lemma TestSerializeNoCause(site: CallSite)
    ensures Serial.Write(Exc(SerializableReason, None, site)).Success?
    ensures Serial.Read(Serial.Write(Exc(SerializableReason, None, site)).value)
         == Success(Exc(SerializableReason, None, site))
  {
    Serial.WriteThenRead(Exc(SerializableReason, None, site));
  }

  /** With an `IndexOutOfBoundsException` cause, the cause comes back with its
      message "Index out of range: 4". */
  lemma TestSerializeWithCause(site: CallSite)
    ensures Serial.Write(Exc(SerializableReason, Some(IndexCause), site)).Success?
    ensures Serial.Read(Serial.Write(Exc(SerializableReason, Some(IndexCause), site)).value)
         == Success(Exc(SerializableReason, Some(IndexCause), site))
    ensures ThrowableMessage(IndexCause) == Some("Index out of range: 4")
  {
    Serial.WriteThenRead(Exc(SerializableReason, Some(IndexCause), site));
  }
}
