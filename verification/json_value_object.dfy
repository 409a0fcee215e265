/** `JsonValueObject.writeRawJsonValue`: an object is written as an opening
    brace, its key/value fields, and a closing brace on its own line. The
    writer calls are related here to an independent rendering of the text. */
module JsonValueObject {
  import opened Results
  import opened FastJsonWriter

  /** One `writeKeyVal(key, value)` call; `value` is the text the value
      writer appends for it. */
  datatype Field = Field(key: string, value: string)

  /** `writeKeyVal` for an already rendered value: key, then value text. */
  function WriteKeyVal(w: Writer, f: Field): Result<Writer> {
    match WriteKey(w, f.key)
    case Failure(e) => Failure(e)
    case Success(k) => Success(k.(text := k.text + f.value))
  }

  /** `writeJsonObjectFields`: the fields in call order (the base class
      writes none). */
  function WriteFields(w: Writer, fields: seq<Field>): Result<Writer>
    decreases |fields|
  {
    if fields == [] then Success(w)
    else
      match WriteKeyVal(w, fields[0])
      case Failure(e) => Failure(e)
      case Success(n) => WriteFields(n, fields[1..])
  }

  /** `writeRawJsonValue`. */
  function WriteRawJsonValue(w: Writer, fields: seq<Field>): (r: Result<Writer>)
    // never fails, whatever the enclosing stack holds
    ensures r.Success?
    // leaves indentation and the enclosing counts as it found them
    ensures r.value.indent == w.indent && r.value.valCount == w.valCount
    ensures r.value.text == w.text + RenderObject(w.indent, fields)
  {
    RawValueText(w, fields);
    match WriteFields(BeginRawObject(w), fields)
    case Failure(e) => Failure(e)
    case Success(f) => EndObject(f)
  }

  // ---------------------------------------------------------------------
  // Reference rendering

  /** One line of an object body: indentation, quoted key, ": ", value. */
  function Entry(indent: int, f: Field): string {
    Tabs(indent) + WriteString(f.key) + ": " + f.value
  }

  function Entries(indent: int, fields: seq<Field>): (es: seq<string>)
    ensures |es| == |fields|
    ensures forall i :: 0 <= i < |fields| ==> es[i] == Entry(indent, fields[i])
  {
    if fields == [] then [] else [Entry(indent, fields[0])] + Entries(indent, fields[1..])
  }

  /** parts separated by sep. */
  function Join(sep: string, parts: seq<string>): string {
    if |parts| == 0 then ""
    else if |parts| == 1 then parts[0]
    else parts[0] + sep + Join(sep, parts[1..])
  }

  /** The text of an object at indentation `indent`: entries one level
      deeper, separated by ",\n", closing brace back at `indent`. */
  function RenderObject(indent: int, fields: seq<Field>): string {
    "{\n" + Join(",\n", Entries(indent + 1, fields)) + "\n" + Tabs(indent) + "}"
  }

  /** One `writeKeyVal` call appends the separator and one entry line. */
  lemma WriteKeyValText(w: Writer, f: Field)
    requires w.valCount != []
    ensures WriteKeyVal(w, f) == Success(Writer(w.indent,
      w.text + Separator(w.valCount[|w.valCount| - 1], true) + Entry(w.indent, f), BumpTop(w.valCount)))
  {
    var sep := Separator(w.valCount[|w.valCount| - 1], true);
    var t, q := Tabs(w.indent), WriteString(f.key);
    assert w.text + sep + t + q + ": " + f.value == w.text + sep + (t + q + ": " + f.value);
  }

  /** The text a run of `writeKeyVal` calls appends, call by call, into a
      container that already holds c values. */
  function Appended(c: nat, indent: int, fields: seq<Field>): string
    decreases |fields|
  {
    if fields == [] then ""
    else Separator(c, true) + Entry(indent, fields[0]) + Appended(c + 1, indent, fields[1..])
  }

  lemma {:induction false} WriteFieldsAppends(w: Writer, fields: seq<Field>)
    requires w.valCount != []
    ensures WriteFields(w, fields) == Success(Writer(w.indent,
      w.text + Appended(w.valCount[|w.valCount| - 1], w.indent, fields),
      w.valCount[..|w.valCount| - 1] + [w.valCount[|w.valCount| - 1] + |fields|]))
    decreases |fields|
  {
    var n := |w.valCount|;
    var c := w.valCount[n - 1];
    if fields == [] {
      assert w.valCount[..n - 1] + [c] == w.valCount;
      assert w.text + "" == w.text;
    } else {
      var f, rest := fields[0], fields[1..];
      WriteKeyValText(w, f);
      var sep, e := Separator(c, true), Entry(w.indent, f);
      var w1 := Writer(w.indent, w.text + sep + e, BumpTop(w.valCount));
      WriteFieldsStep(w, fields);
      WriteFieldsAppends(w1, rest);
      assert w1.valCount[..n - 1] == w.valCount[..n - 1] && w1.valCount[n - 1] == c + 1;
      ConcatAssoc(w.text, sep, e);
      ConcatAssoc(w.text, sep + e, Appended(c + 1, w.indent, rest));
    }
  }

  lemma WriteFieldsStep(w: Writer, fields: seq<Field>)
    requires fields != [] && WriteKeyVal(w, fields[0]).Success?
    ensures WriteFields(w, fields) == WriteFields(WriteKeyVal(w, fields[0]).value, fields[1..])
  {
  }

  /** The appended text is the joined entries, after a separator when the
      container was not empty. */
  lemma {:induction false} AppendedIsJoin(c: nat, indent: int, fields: seq<Field>)
    ensures Appended(c, indent, fields)
         == Separator(if fields == [] then 0 else c, true) + Join(",\n", Entries(indent, fields))
    decreases |fields|
  {
    if fields != [] {
      var e, rest := Entry(indent, fields[0]), fields[1..];
      var s1 := Separator(if rest == [] then 0 else 1, true);
      var j := Join(",\n", Entries(indent, rest));
      AppendedIsJoin(c + 1, indent, rest);
      assert Separator(if rest == [] then 0 else c + 1, true) == s1;
      assert Entries(indent, fields) == [e] + Entries(indent, rest);
      JoinCons(e, Entries(indent, rest));
      ConcatAssoc(Separator(c, true), e, s1 + j);
      ConcatAssoc(e, s1, j);
    }
  }

  /** Writing fields into a container that already holds c values appends a
      separator (when c > 0) and then the joined entries. */
  lemma WriteFieldsText(w: Writer, fields: seq<Field>)
    requires w.valCount != []
    ensures WriteFields(w, fields) == Success(Writer(w.indent,
      w.text + (Separator(if fields == [] then 0 else w.valCount[|w.valCount| - 1], true)
                + Join(",\n", Entries(w.indent, fields))),
      w.valCount[..|w.valCount| - 1] + [w.valCount[|w.valCount| - 1] + |fields|]))
  {
    WriteFieldsAppends(w, fields);
    AppendedIsJoin(w.valCount[|w.valCount| - 1], w.indent, fields);
  }

  /** The whole object: open brace, the fields, close brace. */
  lemma RawValueText(w: Writer, fields: seq<Field>)
    ensures var m := WriteFields(BeginRawObject(w), fields);
            m.Success? && EndObject(m.value)
              == Success(Writer(w.indent, w.text + RenderObject(w.indent, fields), w.valCount))
  {
    var body := Join(",\n", Entries(w.indent + 1, fields));
    OpenedFields(w, fields);
    var f := Writer(w.indent + 1, (w.text + "{\n") + body, w.valCount + [|fields|]);
    EndObjectText(f);
    assert f.valCount[..|f.valCount| - 1] == w.valCount;
    Regroup(w.text, "{\n", body, "\n", Tabs(w.indent), "}");
  }

  /** After the open brace, the fields are the joined entries one level
      deeper, with no separator before the first. */
  lemma OpenedFields(w: Writer, fields: seq<Field>)
    ensures WriteFields(BeginRawObject(w), fields)
         == Success(Writer(w.indent + 1, (w.text + "{\n") + Join(",\n", Entries(w.indent + 1, fields)),
                           w.valCount + [|fields|]))
  {
    OpenText(w);
    var open := Writer(w.indent + 1, w.text + "{\n", w.valCount + [0]);
    assert open.valCount[|open.valCount| - 1] == 0 && open.valCount[..|open.valCount| - 1] == w.valCount;
    WriteFieldsFromEmpty(open, fields);
  }

  /** Into an empty container the fields are just the joined entries. */
  lemma WriteFieldsFromEmpty(w: Writer, fields: seq<Field>)
    requires w.valCount != [] && w.valCount[|w.valCount| - 1] == 0
    ensures WriteFields(w, fields) == Success(Writer(w.indent,
      w.text + Join(",\n", Entries(w.indent, fields)),
      w.valCount[..|w.valCount| - 1] + [|fields|]))
  {
    WriteFieldsText(w, fields);
    var body := Join(",\n", Entries(w.indent, fields));
    assert Separator(0, true) + body == body;
  }

  lemma OpenText(w: Writer)
    ensures BeginRawObject(w) == Writer(w.indent + 1, w.text + "{\n", w.valCount + [0])
  {
    assert "{" + NewLine == "{\n";
    ConcatAssoc(w.text, "{", NewLine);
  }

  lemma Regroup(a: string, o: string, b: string, n: string, t: string, c: string)
    ensures ((((a + o) + b) + n) + t) + c == a + ((((o + b) + n) + t) + c)
  {
    ConcatAssoc(a, o, b);
    ConcatAssoc(a, o + b, n);
    ConcatAssoc(a, (o + b) + n, t);
    ConcatAssoc(a, ((o + b) + n) + t, c);
  }

  lemma ConcatAssoc(a: string, b: string, c: string)
    ensures (a + b) + c == a + (b + c)
  {
  }

  lemma JoinCons(e: string, rest: seq<string>)
    ensures Join(",\n", [e] + rest) == e + Separator(if rest == [] then 0 else 1, true) + Join(",\n", rest)
  {
    assert ([e] + rest)[1..] == rest;
  }

  /** An object with no fields is three lines: "{", an empty line, and "}"
      at the writer's indentation. */
  lemma EmptyObjectText(w: Writer)
    ensures WriteRawJsonValue(w, []).value.text == w.text + "{\n\n" + Tabs(w.indent) + "}"
  {
    assert Entries(w.indent + 1, []) == [];
    assert RenderObject(w.indent, []) == "{\n" + "" + "\n" + Tabs(w.indent) + "}";
  }
}
