/** `FastJsonWriter`: the exporter's streaming JSON writer. It keeps a text
    buffer, an indentation level and a stack holding, for every open object
    or array, how many values have been written into it so far. */
module FastJsonWriter {
  import opened Results

  /** Writer state. The top of `valCount` is its last element; counts start
      at zero and only grow (32-bit overflow is not modelled). */
  datatype Writer = Writer(indent: int, text: string, valCount: seq<nat>)

  /** A fresh writer: no indentation, empty buffer, empty stack. */
  function NewWriter(): Writer {
    Writer(0, "", [])
  }

  /** `AppendLine` terminator (the platform newline, taken to be "\n"). */
  const NewLine: string := "\n"

  /** n tab characters, none when n is not positive. */
  function Tabs(n: int): (s: string)
    ensures |s| == if n > 0 then n else 0
    ensures forall i :: 0 <= i < |s| ==> s[i] == '\t'
    decreases if n > 0 then n else 0
  {
    if n <= 0 then "" else Tabs(n - 1) + "\t"
  }

  /** `writeString`: a quoted string (character escaping is not modelled). */
  function WriteString(s: string): (q: string)
    ensures |q| == |s| + 2 && q[0] == '"' && q[|q| - 1] == '"'
  {
    "\"" + s + "\""
  }

  /** The text appended between two writer states. */
  function Added(w: Writer, r: Writer): string
    requires |w.text| <= |r.text|
  {
    r.text[|w.text|..]
  }

  /** Indentation minus nesting depth: every operation keeps it, so a
      balanced sequence of operations returns to its starting indentation. */
  function Shape(w: Writer): int {
    w.indent - |w.valCount|
  }

  /** `writeIndent`: one tab per indentation level. */
  function WriteIndent(w: Writer): (r: Writer)
    ensures r.indent == w.indent && r.valCount == w.valCount
    ensures w.text <= r.text && |r.text| == |w.text| + (if w.indent > 0 then w.indent else 0)
    ensures forall i :: |w.text| <= i < |r.text| ==> r.text[i] == '\t'
  {
    var t := Tabs(w.indent);
    assert forall i :: |w.text| <= i < |w.text + t| ==> (w.text + t)[i] == t[i - |w.text|];
    w.(text := w.text + t)
  }

  /** Replaces the top of the stack with count + 1. */
  function BumpTop(stack: seq<nat>): (s: seq<nat>)
    requires stack != []
    ensures |s| == |stack| && s[..|s| - 1] == stack[..|stack| - 1]
    ensures s[|s| - 1] == stack[|stack| - 1] + 1
  {
    stack[..|stack| - 1] + [stack[|stack| - 1] + 1]
  }

  /** What `processComma` writes before a value when its container already
      holds `count` values. */
  function Separator(count: int, lineIndent: bool): string {
    if count > 0 then (if lineIndent then "," + NewLine else ", ") else ""
  }

  /** `processComma(bool indent)`: counts one more value in the innermost
      container; a separator precedes every value but the first, on a new
      indented line when `lineIndent` holds and inline otherwise. */
  function ProcessCommaWith(w: Writer, lineIndent: bool): (r: Result<Writer>)
    ensures r.Failure? <==> w.valCount == []
    ensures r.Failure? ==> r.error == EmptyStack
    ensures r.Success? ==> r.value.indent == w.indent && r.value.valCount == BumpTop(w.valCount)
    ensures r.Success? ==> w.text <= r.value.text
  {
    if w.valCount == [] then Failure(EmptyStack)
    else
      var sep := Separator(w.valCount[|w.valCount| - 1], lineIndent);
      var ind := if lineIndent then Tabs(w.indent) else "";
      Success(Writer(w.indent, w.text + sep + ind, BumpTop(w.valCount)))
  }

  /** Separators: a comma is written exactly when the container already
      holds a value, and a line break exactly for such a comma in line mode. */
  lemma CommaSeparatesValues(w: Writer, lineIndent: bool)
    requires w.valCount != []
    ensures var r := ProcessCommaWith(w, lineIndent).value;
            && (',' in Added(w, r) <==> w.valCount[|w.valCount| - 1] > 0)
            && ('\n' in Added(w, r) <==> lineIndent && w.valCount[|w.valCount| - 1] > 0)
  // inline: ", " between values; line mode: a comma ending the line, then the indentation
  ensures var r := ProcessCommaWith(w, lineIndent).value;
          !lineIndent ==> Added(w, r) == (if w.valCount[|w.valCount| - 1] > 0 then ", " else "")
  ensures var r := ProcessCommaWith(w, lineIndent).value;
          lineIndent ==> Added(w, r) == (if w.valCount[|w.valCount| - 1] > 0 then ",\n" else "") + Tabs(w.indent)
  {
    var sep := Separator(w.valCount[|w.valCount| - 1], lineIndent);
    var ind := if lineIndent then Tabs(w.indent) else "";
    var r := ProcessCommaWith(w, lineIndent).value;
    assert Added(w, r) == sep + ind;
    assert ',' in sep + ind <==> ',' in sep;
    assert '\n' in sep + ind <==> '\n' in sep;
  }

  /** `processComma()`. */
  function ProcessComma(w: Writer): (r: Result<Writer>)
    // the parameterless overload is the line-indented one
    ensures r == ProcessCommaWith(w, true)
  {
    if w.valCount == [] then Failure(EmptyStack)
    else
      var count := w.valCount[|w.valCount| - 1];
      var stacked := w.(valCount := BumpTop(w.valCount));
      var sep := if count > 0 then stacked.(text := stacked.text + "," + NewLine) else stacked;
      assert count > 0 ==> sep.text + Tabs(w.indent) == w.text + ("," + NewLine) + Tabs(w.indent);
      assert count <= 0 ==> sep.text + Tabs(w.indent) == w.text + "" + Tabs(w.indent);
      Success(WriteIndent(sep))
  }

  /** `beginRawObject(bool newLine)`. */
  function BeginRawObjectWith(w: Writer, newLine: bool): (r: Writer)
    ensures r.indent == w.indent + 1 && r.valCount == w.valCount + [0]
    ensures w.text <= r.text && |r.text| > |w.text| && r.text[|w.text|] == '{'
    ensures ('\n' in Added(w, r)) == newLine
    ensures Added(w, r) == (if newLine then "{\n" else "{")
  {
    var r := Writer(w.indent + 1, w.text + (if newLine then "{" + NewLine else "{"), w.valCount + [0]);
    assert Added(w, r) == if newLine then "{\n" else "{";
    r
  }

  /** `beginRawObject()`. */
  function BeginRawObject(w: Writer): (r: Writer)
    ensures r == BeginRawObjectWith(w, true)
  {
    Writer(w.indent + 1, w.text + "{" + NewLine, w.valCount + [0])
  }

  /** `beginRawArray()`. */
  function BeginRawArray(w: Writer): (r: Writer)
    ensures r.indent == w.indent + 1 && r.valCount == w.valCount + [0]
    ensures w.text <= r.text && Added(w, r) == "[\n"
  {
    Writer(w.indent + 1, w.text + "[" + NewLine, w.valCount + [0])
  }

  /** Closes the innermost container with `close`, optionally on its own
      line at the outer indentation, and pops its count. */
  function Close(w: Writer, writeLineIndent: bool, close: char): (r: Result<Writer>)
    ensures r.Failure? <==> w.valCount == []
    ensures r.Failure? ==> r.error == EmptyStack
    ensures r.Success? ==> r.value.indent == w.indent - 1
    ensures r.Success? ==> r.value.valCount == w.valCount[..|w.valCount| - 1]
    ensures r.Success? ==> w.text <= r.value.text && |r.value.text| > |w.text|
    ensures r.Success? ==> r.value.text[|r.value.text| - 1] == close
    ensures r.Success? ==>
      Added(w, r.value) == (if writeLineIndent then NewLine + Tabs(w.indent - 1) else "") + [close]
  {
    var inner := w.(indent := w.indent - 1);
    var lined := if writeLineIndent then WriteIndent(inner.(text := inner.text + NewLine)) else inner;
    if w.valCount == [] then Failure(EmptyStack)
    else Success(lined.(text := lined.text + [close], valCount := w.valCount[..|w.valCount| - 1]))
  }

  /** `endObject(bool writeLineIndent)`. */
  function EndObjectWith(w: Writer, writeLineIndent: bool): (r: Result<Writer>)
    ensures r.Failure? <==> w.valCount == []
    ensures r.Success? ==> Shape(r.value) == Shape(w) && |r.value.text| > 0
    ensures r.Success? ==> r.value.text[|r.value.text| - 1] == '}'
    ensures r.Success? ==> r.value.indent == w.indent - 1 && r.value.valCount == w.valCount[..|w.valCount| - 1]
    ensures r.Success? ==> r.value.text == w.text + (if writeLineIndent then "\n" + Tabs(w.indent - 1) else "") + "}"
  {
    Close(w, writeLineIndent, '}')
  }

  /** The text `endObject()` appends: a line break, the outer indentation
      and the closing brace. */
  lemma EndObjectText(w: Writer)
    requires w.valCount != []
    ensures EndObject(w) == Success(Writer(w.indent - 1,
      w.text + NewLine + Tabs(w.indent - 1) + "}", w.valCount[..|w.valCount| - 1]))
  {
  }

  /** `endObject()`. */
  function EndObject(w: Writer): (r: Result<Writer>)
    ensures r == EndObjectWith(w, true)
  {
    Close(w, true, '}')
  }

  /** `endArray()`. */
  function EndArray(w: Writer): (r: Result<Writer>)
    ensures r.Failure? <==> w.valCount == []
    ensures r.Success? ==> Shape(r.value) == Shape(w) && |r.value.text| > 0
    ensures r.Success? ==> r.value.text[|r.value.text| - 1] == ']'
    ensures r.Success? ==> r.value.indent == w.indent - 1 && r.value.valCount == w.valCount[..|w.valCount| - 1]
    ensures r.Success? ==> r.value.text == w.text + "\n" + Tabs(w.indent - 1) + "]"
  {
    Close(w, true, ']')
  }

  /** `writeKey(string key, bool indent)`: separator, quoted key, ": ". */
  function WriteKeyWith(w: Writer, key: string, lineIndent: bool): (r: Result<Writer>)
    ensures r.Failure? <==> w.valCount == []
    ensures r.Success? ==> r.value.indent == w.indent && r.value.valCount == BumpTop(w.valCount)
    ensures r.Success? ==> w.text <= r.value.text && |r.value.text| >= |w.text| + 2
    ensures r.Success? ==> r.value.text[|r.value.text| - 2..] == ": "
    // the separator and indentation of `processComma`, then the key in quotes
    ensures r.Success? ==>
      r.value.text == w.text + (if w.valCount[|w.valCount| - 1] > 0 then (if lineIndent then ",\n" else ", ") else "")
                      + (if lineIndent then Tabs(w.indent) else "") + "\"" + key + "\": "
  {
    match ProcessCommaWith(w, lineIndent)
    case Failure(e) => Failure(e)
    case Success(c) => Success(c.(text := c.text + WriteString(key) + ": "))
  }

  /** `writeKey(string key)`. */
  function WriteKey(w: Writer, key: string): (r: Result<Writer>)
    ensures r == WriteKeyWith(w, key, true)
  {
    match ProcessComma(w)
    case Failure(e) => Failure(e)
    case Success(c) => Success(c.(text := c.text + WriteString(key) + ": "))
  }

  /** `beginKeyArray(string key)`. */
  function BeginKeyArray(w: Writer, key: string): (r: Result<Writer>)
    ensures r.Failure? <==> w.valCount == []
    ensures r.Success? ==> r.value.indent == w.indent + 1 && |r.value.valCount| == |w.valCount| + 1
    ensures r.Success? ==> r.value.valCount[..|w.valCount|] == BumpTop(w.valCount)
    ensures r.Success? ==> r.value.valCount[|w.valCount|] == 0 && w.text <= r.value.text
    // the key as `writeKey` writes it, then the opening bracket on its own line
    ensures r.Success? ==> r.value.text == WriteKey(w, key).value.text + "[\n"
  {
    match WriteKey(w, key)
    case Failure(e) => Failure(e)
    case Success(k) => Success(BeginRawArray(k))
  }

  /** `beginKeyObject(string key)`. */
  function BeginKeyObject(w: Writer, key: string): (r: Result<Writer>)
    ensures r.Failure? <==> w.valCount == []
    ensures r.Success? ==> r.value.indent == w.indent + 1 && |r.value.valCount| == |w.valCount| + 1
    ensures r.Success? ==> r.value.valCount[..|w.valCount|] == BumpTop(w.valCount)
    ensures r.Success? ==> r.value.valCount[|w.valCount|] == 0 && w.text <= r.value.text
    // the key as `writeKey` writes it, then the opening bracket on its own line
    ensures r.Success? ==> r.value.text == WriteKey(w, key).value.text + "{\n"
  {
    match WriteKey(w, key)
    case Failure(e) => Failure(e)
    case Success(k) => Success(BeginRawObject(k))
  }

  // ---------------------------------------------------------------------
  // Sequences of writer calls

  /** One writer call; `Raw` is a value's own text appended by a value writer. */
  datatype Op =
    | Indent
    | Comma(lineIndent: bool)
    | BeginObject(newLine: bool)
    | BeginArray
    | EndObj(writeLineIndent: bool)
    | EndArr
    | Key(key: string, lineIndent: bool)
    | KeyArray(key: string)
    | KeyObject(key: string)
    | Raw(value: string)

  function Apply(w: Writer, op: Op): Result<Writer> {
    match op
    case Indent => Success(WriteIndent(w))
    case Comma(b) => ProcessCommaWith(w, b)
    case BeginObject(b) => Success(BeginRawObjectWith(w, b))
    case BeginArray => Success(BeginRawArray(w))
    case EndObj(b) => EndObjectWith(w, b)
    case EndArr => EndArray(w)
    case Key(k, b) => WriteKeyWith(w, k, b)
    case KeyArray(k) => BeginKeyArray(w, k)
    case KeyObject(k) => BeginKeyObject(w, k)
    case Raw(v) => Success(w.(text := w.text + v))
  }

  function Run(w: Writer, ops: seq<Op>): Result<Writer>
    decreases |ops|
  {
    if ops == [] then Success(w)
    else
      match Apply(w, ops[0])
      case Failure(e) => Failure(e)
      case Success(n) => Run(n, ops[1..])
  }

  /** Every call only appends to the buffer and keeps indentation in step
      with nesting depth. */
  lemma ApplyKeepsShape(w: Writer, op: Op)
    ensures Apply(w, op).Success? ==>
      w.text <= Apply(w, op).value.text && Shape(Apply(w, op).value) == Shape(w)
  {
    match op
    case Comma(b) =>
    case Key(k, b) =>
    case EndArr =>
    case EndObj(b) =>
    case _ =>
  }

  lemma {:induction false} RunKeepsShape(w: Writer, ops: seq<Op>)
    ensures Run(w, ops).Success? ==>
      w.text <= Run(w, ops).value.text && Shape(Run(w, ops).value) == Shape(w)
    decreases |ops|
  {
    if ops != [] {
      ApplyKeepsShape(w, ops[0]);
      if Apply(w, ops[0]).Success? {
        RunKeepsShape(Apply(w, ops[0]).value, ops[1..]);
      }
    }
  }

  /** A run that ends at the depth it started at is back at its indentation. */
  lemma BalancedRunRestoresIndent(w: Writer, ops: seq<Op>)
    requires Run(w, ops).Success? && |Run(w, ops).value.valCount| == |w.valCount|
    ensures Run(w, ops).value.indent == w.indent
  {
    RunKeepsShape(w, ops);
  }
}
