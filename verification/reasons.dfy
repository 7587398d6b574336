/** The reason of an `Exc`: a Java record, seen through the class names and
    the component values its default `toString` shows. */
module Reasons {
  import opened Wrappers
  import Text

  /** A record value. `simpleName` and `fullName` are what `getSimpleName()`
      and `getName()` return for its class; `components` are its record
      components in declaration order, each value already rendered;
      `serializable` says whether the class implements `Serializable`; and
      `unserializable` is the class name the object stream reports for the
      first component value it cannot serialize, absent when it can serialize
      them all. */
  datatype Reason = Reason(
    simpleName: string,
    fullName: string,
    components: seq<Text.Field>,
    serializable: bool,
    unserializable: Option<string>)

  /** The component list as the record's `toString` shows it: `a=1, b=2`. */
  function Body(r: Reason): string {
    Text.Fields(r.components, "=")
  }

  /** A record's default `toString`: `SimpleName[a=1, b=2]`. */
  function Rendering(r: Reason): string {
    r.simpleName + "[" + Body(r) + "]"
  }
}
