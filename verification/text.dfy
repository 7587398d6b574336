/** The `Name { ... }` and `name=value, ...` layouts shared by a record's
    rendering, `Exc.getMessage` and `Exc.toString`. */
module Text {

  /** One named value of a rendering. */
  datatype Field = Field(name: string, value: string)

  function FieldText(f: Field, assign: string): string {
    f.name + assign + f.value
  }

  /** The fields, each as `name` + `assign` + `value`, separated by ", ". */
  function Fields(fs: seq<Field>, assign: string): string
    decreases |fs|
  {
    if |fs| == 0 then ""
    else if |fs| == 1 then FieldText(fs[0], assign)
    else FieldText(fs[0], assign) + ", " + Fields(fs[1..], assign)
  }

  /** `name { inner }`, the layout of both renderings of an `Exc`. */
  function Braced(name: string, inner: string): string {
    name + " { " + inner + " }"
  }

  /** A list of three fields, written out. */
  lemma ThreeFields(a: Field, b: Field, c: Field, assign: string)
    ensures Fields([a, b, c], assign)
         == FieldText(a, assign) + ", " + FieldText(b, assign) + ", " + FieldText(c, assign)
  {
    var fs := [a, b, c];
    assert fs[1..][1..] == [c];
    assert Fields(fs[1..], assign) == FieldText(b, assign) + ", " + FieldText(c, assign);
  }

  /** A list of four fields, written out: three, then the fourth appended. */
  lemma FourFields(a: Field, b: Field, c: Field, d: Field, assign: string)
    ensures Fields([a, b, c, d], assign)
         == FieldText(a, assign) + ", " + FieldText(b, assign) + ", "
            + FieldText(c, assign) + ", " + FieldText(d, assign)
  {
    assert [a, b, c, d] == [a, b, c] + [d];
    ThreeFields(a, b, c, assign);
    FieldsSnoc([a, b, c], d, assign);
  }

  /** Appending a field to a non-empty list appends ", " and its text. */
  lemma {:induction false} FieldsSnoc(fs: seq<Field>, f: Field, assign: string)
    requires |fs| > 0
    ensures Fields(fs + [f], assign) == Fields(fs, assign) + ", " + FieldText(f, assign)
    decreases |fs|
  {
    if |fs| > 1 {
      assert (fs + [f])[1..] == fs[1..] + [f];
      FieldsSnoc(fs[1..], f, assign);
    } else {
      assert (fs + [f])[1..] == [f];
    }
  }
}
