/** The indentation-driven YAML reader of the division loader: the tokenizer, the scalar reader
    and the three mutually recursive block readers. The functions give the meaning of the readers;
    the methods at the end are the readers with the loops of the original. */
module YamlParser {
  import opened Text

  datatype Value =
    | Null
    | Bool(flag: bool)
    | Num(number: int)
    | Str(text: string)
    | Arr(items: seq<Value>)
    | Obj(fields: seq<Field>)

  /** A property of an object, in insertion order. */
  datatype Field = Field(key: string, value: Value)

  datatype ParsedLine = ParsedLine(indent: nat, text: string, lineNumber: nat)

  datatype ErrorCode = InvalidIndent | InvalidMapping | TrailingContent

  datatype Outcome<+T> = Done(value: T, next: nat) | Fail(code: ErrorCode, lineNumber: nat)

  // ----- tokenizer ----------------------------------------------------------

  function DropCarriageReturn(line: string): string {
    if line != [] && line[|line| - 1] == '\r' then line[..|line| - 1] else line
  }

  /** Splitting at a line feed with an optional carriage return before it. */
  function SplitLines(raw: string): seq<string> {
    var parts := Split(raw, '\n');
    seq(|parts|, i requires 0 <= i < |parts| =>
      if i == |parts| - 1 then parts[i] else DropCarriageReturn(parts[i]))
  }

  predicate IsIgnored(rawLine: string) {
    Trim(rawLine) == [] || "#" <= TrimStart(rawLine)
  }

  function LeadingBlanks(rawLine: string): nat {
    if rawLine != [] && rawLine[0] == ' ' then 1 + LeadingBlanks(rawLine[1..]) else 0
  }

  function TokensFrom(rawLines: seq<string>, lineNumber: nat): seq<ParsedLine> {
    if rawLines == [] then []
    else
      var rest := TokensFrom(rawLines[1..], lineNumber + 1);
      if IsIgnored(rawLines[0]) then rest
      else [ParsedLine(LeadingBlanks(rawLines[0]), Trim(rawLines[0]), lineNumber)] + rest
  }

  function Tokenize(raw: string): seq<ParsedLine> {
    TokensFrom(SplitLines(raw), 1)
  }

  // ----- scalars and key/value lines ----------------------------------------

  /** `raw.slice(1, -1)` */
  function Inner(raw: string): string {
    if |raw| < 2 then [] else raw[1..|raw| - 1]
  }

  predicate Delimited(raw: string, open: char, close: char) {
    raw != [] && raw[0] == open && raw[|raw| - 1] == close
  }

  /** The trimmed parts of a list between brackets, cut at the commas; none when it is blank. */
  function FlowParts(inner: string): (parts: seq<string>)
    ensures forall i :: 0 <= i < |parts| ==> |parts[i]| <= |inner|
  {
    TrimResult(inner);
    if Trim(inner) == [] then []
    else
      SplitParts(Trim(inner), ',');
      TrimEach(Split(Trim(inner), ','))
  }

  function TrimEach(parts: seq<string>): (r: seq<string>)
    ensures |r| == |parts| && forall i :: 0 <= i < |parts| ==> r[i] == Trim(parts[i]) && |r[i]| <= |parts[i]|
  {
    if parts == [] then []
    else
      TrimResult(parts[0]);
      [Trim(parts[0])] + TrimEach(parts[1..])
  }

  function ParseScalar(raw: string): Value
    decreases |raw|
  {
    if !Delimited(raw, '[', ']') then ParseSimple(raw)
    else
      var parts := FlowParts(Inner(raw));
      Arr(seq(|parts|, i requires 0 <= i < |parts| => ParseScalar(parts[i])))
  }

  /** A scalar that is no list. */
  function ParseSimple(raw: string): Value {
    if raw == "true" then Bool(true)
    else if raw == "false" then Bool(false)
    else if raw == "null" then Null
    else if IsIntText(raw) then Num(IntValue(raw))
    else if Delimited(raw, '"', '"') || Delimited(raw, '\'', '\'') then Str(Inner(raw))
    else Str(raw)
  }

  datatype KeyValue = KeyValue(key: string, inline: string) | Malformed

  function SplitKeyValue(text: string): KeyValue {
    var separator := IndexOf(text, ':');
    if separator <= 0 then Malformed
    else
      var key := Trim(text[..separator]);
      if key == [] then Malformed else KeyValue(key, Trim(text[separator + 1..]))
  }

  predicate IsArrayItem(text: string) {
    text == "-" || "- " <= text
  }

  function ItemText(text: string): string
    requires IsArrayItem(text)
  {
    if text == "-" then [] else Trim(text[2..])
  }

  predicate LooksLikeKeyValue(text: string) {
    ':' in text
  }

  // ----- objects as insertion-ordered property lists ------------------------

  predicate HasKey(fields: seq<Field>, key: string) {
    exists i :: 0 <= i < |fields| && fields[i].key == key
  }

  /** `result[key] = value`: a repeated key keeps its place and takes the new value. */
  function Put(fields: seq<Field>, key: string, value: Value): seq<Field> {
    if fields == [] then [Field(key, value)]
    else if fields[0].key == key then [Field(key, value)] + fields[1..]
    else [fields[0]] + Put(fields[1..], key, value)
  }

  /** `Object.assign(target, source)` */
  function Assign(target: seq<Field>, source: seq<Field>): seq<Field>
    decreases |source|
  {
    if source == [] then target
    else Assign(Put(target, source[0].key, source[0].value), source[1..])
  }

  // ----- block readers ------------------------------------------------------

  function Remaining(lines: seq<ParsedLine>, index: nat): nat {
    if index < |lines| then |lines| - index else 0
  }

  /** A reader that starts at `index` stays in bounds and never moves back. */
  predicate InBounds<T>(lines: seq<ParsedLine>, index: nat, r: Outcome<T>) {
    r.Done? ==> index <= r.next && (index <= |lines| ==> r.next <= |lines|)
  }

  predicate Deeper(lines: seq<ParsedLine>, index: nat, indent: nat) {
    index < |lines| && lines[index].indent > indent
  }

  function Block(lines: seq<ParsedLine>, index: nat, indent: nat): (r: Outcome<Value>)
    ensures InBounds(lines, index, r)
    decreases Remaining(lines, index), 1
  {
    if index >= |lines| || lines[index].indent < indent then Done(Obj([]), index)
    else if lines[index].indent != indent then Fail(InvalidIndent, lines[index].lineNumber)
    else if IsArrayItem(lines[index].text) then
      match ArrayFrom(lines, index, indent, [])
      case Done(items, next) => Done(Arr(items), next)
      case Fail(code, n) => Fail(code, n)
    else
      match ObjectFrom(lines, index, indent, [])
      case Done(fields, next) => Done(Obj(fields), next)
      case Fail(code, n) => Fail(code, n)
  }

  /** What the object loop returns when it stands at `index` having collected `acc`. */
  function ObjectFrom(lines: seq<ParsedLine>, index: nat, indent: nat, acc: seq<Field>): (r: Outcome<seq<Field>>)
    ensures InBounds(lines, index, r)
    decreases Remaining(lines, index), 0
  {
    if index >= |lines| || lines[index].indent < indent then Done(acc, index)
    else
      var line := lines[index];
      if line.indent > indent then Fail(InvalidIndent, line.lineNumber)
      else if "- " <= line.text then Done(acc, index)
      else
        match Entry(lines, index, indent)
        case Fail(code, n) => Fail(code, n)
        case Done(field, next) => ObjectFrom(lines, next, indent, Put(acc, field.key, field.value))
  }

  /** One pass through the object loop: the property that starts at `index`. */
  function Entry(lines: seq<ParsedLine>, index: nat, indent: nat): (r: Outcome<Field>)
    requires index < |lines|
    ensures InBounds(lines, index + 1, r)
    decreases Remaining(lines, index + 1), 2
  {
    match SplitKeyValue(lines[index].text)
    case Malformed => Fail(InvalidMapping, lines[index].lineNumber)
    case KeyValue(key, inline) =>
      if inline == [] && Deeper(lines, index + 1, indent) then
        match Block(lines, index + 1, indent + 2)
        case Fail(code, n) => Fail(code, n)
        case Done(nested, next) => Done(Field(key, nested), next)
      else Done(Field(key, InlineOrNull(inline)), index + 1)
  }

  function ArrayFrom(lines: seq<ParsedLine>, index: nat, indent: nat, acc: seq<Value>): (r: Outcome<seq<Value>>)
    ensures InBounds(lines, index, r)
    decreases Remaining(lines, index), 0
  {
    if index >= |lines| || lines[index].indent < indent then Done(acc, index)
    else
      var line := lines[index];
      if line.indent > indent then Fail(InvalidIndent, line.lineNumber)
      else if !IsArrayItem(line.text) then Done(acc, index)
      else
        match Item(lines, index, indent)
        case Fail(code, n) => Fail(code, n)
        case Done(item, next) => ArrayFrom(lines, next, indent, acc + [item])
  }

  /** One pass through the array loop: the item that starts at `index`. */
  function Item(lines: seq<ParsedLine>, index: nat, indent: nat): (r: Outcome<Value>)
    requires index < |lines| && IsArrayItem(lines[index].text)
    ensures InBounds(lines, index + 1, r)
    decreases Remaining(lines, index + 1), 2
  {
    var itemText := ItemText(lines[index].text);
    if itemText == [] then
      if Deeper(lines, index + 1, indent) then Block(lines, index + 1, indent + 2) else Done(Null, index + 1)
    else if LooksLikeKeyValue(itemText) then
      match SplitKeyValue(itemText)
      case Malformed => Fail(InvalidMapping, lines[index].lineNumber)
      case KeyValue(key, inline) =>
        var first := [Field(key, InlineOrNull(inline))];
        if Deeper(lines, index + 1, indent) then
          match ObjectFrom(lines, index + 1, indent + 2, [])
          case Fail(code, n) => Fail(code, n)
          case Done(nested, next) => Done(Obj(Assign(first, nested)), next)
        else Done(Obj(first), index + 1)
    else Done(ParseScalar(itemText), index + 1)
  }

  function InlineOrNull(inline: string): Value {
    if inline != [] then ParseScalar(inline) else Null
  }

  /** The result of reading a whole document; `next` counts the token lines read. */
  function Document(lines: seq<ParsedLine>): Outcome<Value> {
    if lines == [] then Done(Obj([]), 0)
    else
      match Block(lines, 0, lines[0].indent)
      case Fail(code, n) => Fail(code, n)
      case Done(value, next) =>
        if next != |lines| then Fail(TrailingContent, lines[next].lineNumber) else Done(value, next)
  }

  // ----- the readers as written: loops over an index ------------------------

  method ParseLimitedYaml(raw: string) returns (r: Outcome<Value>)
    ensures r == Document(Tokenize(raw))
  {
    var lines := Tokenize(raw);
    if |lines| == 0 {
      return Done(Obj([]), 0);
    }
    r := ParseBlock(lines, 0, lines[0].indent);
    if r.Done? && r.next != |lines| {
      r := Fail(TrailingContent, lines[r.next].lineNumber);
    }
  }

  method ParseBlock(lines: seq<ParsedLine>, startIndex: nat, indent: nat) returns (r: Outcome<Value>)
    ensures r == Block(lines, startIndex, indent)
    decreases Remaining(lines, startIndex), 1
  {
    if startIndex >= |lines| || lines[startIndex].indent < indent {
      return Done(Obj([]), startIndex);
    }
    if lines[startIndex].indent != indent {
      return Fail(InvalidIndent, lines[startIndex].lineNumber);
    }
    if IsArrayItem(lines[startIndex].text) {
      var items := ParseArray(lines, startIndex, indent);
      match items
      case Done(value, next) => r := Done(Arr(value), next);
      case Fail(code, n) => r := Fail(code, n);
    } else {
      var fields := ParseObject(lines, startIndex, indent);
      match fields
      case Done(value, next) => r := Done(Obj(value), next);
      case Fail(code, n) => r := Fail(code, n);
    }
  }

  method ParseObject(lines: seq<ParsedLine>, startIndex: nat, indent: nat) returns (r: Outcome<seq<Field>>)
    ensures r == ObjectFrom(lines, startIndex, indent, [])
    decreases Remaining(lines, startIndex), 0
  {
    var result: seq<Field> := [];
    var index := startIndex;
    while index < |lines|
      invariant startIndex <= index
      invariant ObjectFrom(lines, index, indent, result) == ObjectFrom(lines, startIndex, indent, [])
      decreases Remaining(lines, index)
    {
      var line := lines[index];
      if line.indent < indent { break; }
      if line.indent > indent {
        return Fail(InvalidIndent, line.lineNumber);
      }
      if "- " <= line.text { break; }
      var pair := SplitKeyValue(line.text);
      if pair.Malformed? {
        return Fail(InvalidMapping, line.lineNumber);
      }
      if pair.inline != [] {
        assert Entry(lines, index, indent) == Done(Field(pair.key, ParseScalar(pair.inline)), index + 1);
        result := Put(result, pair.key, ParseScalar(pair.inline));
        index := index + 1;
      } else if index + 1 < |lines| && lines[index + 1].indent > indent {
        var nested := ParseBlock(lines, index + 1, indent + 2);
        if nested.Fail? {
          return Fail(nested.code, nested.lineNumber);
        }
        result := Put(result, pair.key, nested.value);
        index := nested.next;
      } else {
        result := Put(result, pair.key, Null);
        index := index + 1;
      }
    }
    r := Done(result, index);
  }

  method ParseArray(lines: seq<ParsedLine>, startIndex: nat, indent: nat) returns (r: Outcome<seq<Value>>)
    ensures r == ArrayFrom(lines, startIndex, indent, [])
    decreases Remaining(lines, startIndex), 0
  {
    hide IndexOf, TrimStart, TrimEnd, ParseScalar;
    var result: seq<Value> := [];
    var index := startIndex;
    while index < |lines|
      invariant startIndex <= index
      invariant ArrayFrom(lines, index, indent, result) == ArrayFrom(lines, startIndex, indent, [])
      decreases Remaining(lines, index)
    {
      var line := lines[index];
      if line.indent < indent { break; }
      if line.indent > indent {
        return Fail(InvalidIndent, line.lineNumber);
      }
      if !IsArrayItem(line.text) { break; }
      var itemText := ItemText(line.text);
      var item: Value, next := Null, index + 1;
      if itemText == [] {
        if index + 1 < |lines| && lines[index + 1].indent > indent {
          var nested := ParseBlock(lines, index + 1, indent + 2);
          if nested.Fail? {
            return Fail(nested.code, nested.lineNumber);
          }
          item, next := nested.value, nested.next;
        }
      } else if LooksLikeKeyValue(itemText) {
        var pair := SplitKeyValue(itemText);
        if pair.Malformed? {
          return Fail(InvalidMapping, line.lineNumber);
        }
        var entry := [Field(pair.key, InlineOrNull(pair.inline))];
        if index + 1 < |lines| && lines[index + 1].indent > indent {
          var nested := ParseObject(lines, index + 1, indent + 2);
          if nested.Fail? {
            return Fail(nested.code, nested.lineNumber);
          }
          entry, next := Assign(entry, nested.value), nested.next;
        }
        item := Obj(entry);
      } else {
        item := ParseScalar(itemText);
      }
      assert Item(lines, index, indent) == Done(item, next);
      result, index := result + [item], next;
    }
    r := Done(result, index);
  }
}
