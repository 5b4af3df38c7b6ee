/** A canonical printer for the values the reader can spell, and the proof that reading what it
    prints gives the same value back. */
module YamlRoundTrip {
  import opened Text
  import opened YamlParser
  import opened YamlScalars
  import opened YamlStructure

  // ----- the printable fragment ---------------------------------------------

  const MAX_SAFE_INTEGER := 0x1F_FFFF_FFFF_FFFF

  predicate PlainKey(key: string) {
    && key != [] && IsTrimmed(key)
    && ':' !in key && '\n' !in key
    && key[0] != '#' && !("- " <= key)
  }

  /** Everything that may stand below the top of a document. */
  predicate Printable(v: Value)
    decreases v, 0
  {
    match v
    case Null => true
    case Bool(_) => true
    case Num(n) => -MAX_SAFE_INTEGER <= n <= MAX_SAFE_INTEGER
    case Str(s) => '\n' !in s
    case Arr(items) => forall x :: x in items ==> PrintableItem(x)
    case Obj(fields) => fields != [] && DistinctKeys(fields) && forall f :: f in fields ==> PrintableField(f)
  }

  predicate PrintableItem(x: Value)
    decreases x, 1
  {
    Printable(x) && (x.Str? ==> ':' !in x.text)
  }

  predicate PrintableField(f: Field)
    decreases f, 1
  {
    PlainKey(f.key) && Printable(f.value)
  }

  predicate PrintableDocument(v: Value) {
    match v
    case Obj(fields) => fields == [] || Printable(v)
    case Arr(items) => items != [] && Printable(v)
    case _ => false
  }

  // ----- the printer --------------------------------------------------------

  datatype Written = Written(indent: nat, text: string)

  /** Values that share a line with their key or dash. */
  predicate IsInline(v: Value) {
    !v.Obj? && (v.Arr? ==> v.items == [])
  }

  function ScalarText(v: Value): string
    requires IsInline(v)
  {
    match v
    case Null => "null"
    case Bool(b) => if b then "true" else "false"
    case Num(n) => IntText(n)
    case Str(s) => "\"" + s + "\""
    case Arr(_) => "[]"
  }

  function BlockLines(v: Value, indent: nat): seq<Written>
    requires !IsInline(v)
    decreases v, 0
  {
    match v
    case Obj(fields) => FieldLines(fields, indent)
    case Arr(items) => ItemLines(items, indent)
  }

  function FieldLines(fields: seq<Field>, indent: nat): seq<Written>
    decreases fields, 2
  {
    if fields == [] then [] else FieldHead(fields[0], indent) + FieldLines(fields[1..], indent)
  }

  function FieldHead(f: Field, indent: nat): seq<Written>
    decreases f, 1
  {
    if IsInline(f.value) then [Written(indent, f.key + ": " + ScalarText(f.value))]
    else [Written(indent, f.key + ":")] + BlockLines(f.value, indent + 2)
  }

  function ItemLines(items: seq<Value>, indent: nat): seq<Written>
    decreases items, 2
  {
    if items == [] then [] else ItemHead(items[0], indent) + ItemLines(items[1..], indent)
  }

  function ItemHead(x: Value, indent: nat): seq<Written>
    decreases x, 1
  {
    if IsInline(x) then [Written(indent, "- " + ScalarText(x))]
    else [Written(indent, "-")] + BlockLines(x, indent + 2)
  }

  function Blanks(n: nat): (s: string)
    ensures |s| == n && forall i :: 0 <= i < n ==> s[i] == ' '
  {
    seq(n, _ => ' ')
  }

  function RawLines(written: seq<Written>): seq<string> {
    seq(|written|, i requires 0 <= i < |written| => Blanks(written[i].indent) + written[i].text)
  }

  function PrintYaml(v: Value): string
    requires PrintableDocument(v)
  {
    var written := BlockLines(v, 0);
    if written == [] then "" else Join(RawLines(written), '\n')
  }

  // ----- scalars ------------------------------------------------------------

  lemma {:induction false} ScalarReads(v: Value)
    requires IsInline(v)
    ensures ParseScalar(ScalarText(v)) == v
  {
    hide ParseScalar, IntText, IntValue, ListParts;
    match v
    case Null => LiteralReads();
    case Bool(_) => LiteralReads();
    case Num(n) =>
      IntRoundTrip(n);
      NumeralReads(IntText(n));
    case Str(s) => QuotedReads("\"" + s + "\"", s);
    case Arr(_) => EmptyListReads();
  }

  lemma {:induction false} ScalarChars(v: Value)
    requires IsInline(v)
    ensures ScalarText(v) != [] && IsTrimmed(ScalarText(v))
    ensures Printable(v) ==> '\n' !in ScalarText(v)
    ensures (v.Str? ==> ':' !in v.text) ==> ':' !in ScalarText(v)
  {
    match v
    case Num(n) => NumberChars(n);
    case _ =>
  }

  lemma {:induction false} NumberChars(n: int)
    ensures forall i :: 0 <= i < |IntText(n)| ==> IsDigit(IntText(n)[i]) || IntText(n)[i] == '-'
    ensures IntText(n) != []
  {
  }

  /** A line the tokenizer keeps, with the indentation and text it was written with. */
  predicate CleanText(text: string) {
    text != [] && IsTrimmed(text) && '\n' !in text && text[0] != '#'
  }

  /** A key, a colon and whatever follows splits into exactly that key and the trimmed rest. */
  lemma {:induction false} KeyText(key: string, rest: string)
    requires PlainKey(key)
    ensures var text := key + ":" + rest;
            SplitKeyValue(text) == KeyValue(key, Trim(rest)) && !IsArrayItem(text)
  {
    hide TrimStart, TrimEnd;
    var text := key + ":" + rest;
    IndexOfPrefix(key, rest, ':');
    assert Trim(key) == key by { TrimIdentity(key); }
    assert text[..|key|] == key && text[|key| + 1..] == rest;
  }

  lemma {:induction false} OpenText(key: string)
    requires PlainKey(key)
    ensures CleanText(key + ":") && SplitKeyValue(key + ":") == KeyValue(key, []) && !IsArrayItem(key + ":")
  {
    KeyText(key, []);
    assert key + ":" + [] == key + ":";
  }

  lemma {:induction false} InlineText(key: string, v: Value)
    requires PlainKey(key) && IsInline(v)
    ensures var text := key + ": " + ScalarText(v);
            && SplitKeyValue(text) == KeyValue(key, ScalarText(v)) && !IsArrayItem(text)
            && (Printable(v) ==> CleanText(text))
    ensures ScalarText(v) != []
  {
    hide IndexOf, TrimStart, TrimEnd, SplitKeyValue;
    var scalar := ScalarText(v);
    ScalarChars(v);
    TrimPad(" ", scalar);
    KeyText(key, " " + scalar);
    assert key + ":" + (" " + scalar) == key + ": " + scalar;
  }

  lemma {:induction false} ItemLineText(v: Value)
    requires IsInline(v)
    ensures var text := "- " + ScalarText(v);
            && IsArrayItem(text) && ItemText(text) == ScalarText(v)
            && (Printable(v) ==> CleanText(text))
  {
    ScalarChars(v);
    var text := "- " + ScalarText(v);
    assert text[2..] == ScalarText(v);
    TrimIdentity(ScalarText(v));
  }

  // ----- reading printed lines ----------------------------------------------

  /** The written lines stand in the token sequence from `index` on. */
  predicate At(lines: seq<ParsedLine>, index: nat, written: seq<Written>) {
    && index + |written| <= |lines|
    && forall k :: 0 <= k < |written| ==>
         lines[index + k].indent == written[k].indent && lines[index + k].text == written[k].text
  }

  predicate EndsBelow(lines: seq<ParsedLine>, index: nat, indent: nat) {
    index >= |lines| || lines[index].indent < indent
  }

  lemma {:induction false} AtSplit(lines: seq<ParsedLine>, index: nat, a: seq<Written>, b: seq<Written>)
    requires At(lines, index, a + b)
    ensures At(lines, index, a) && At(lines, index + |a|, b)
  {
    assert forall k :: 0 <= k < |a| ==> (a + b)[k] == a[k];
    assert forall k :: 0 <= k < |b| ==> (a + b)[|a| + k] == b[k];
    forall k | 0 <= k < |b|
      ensures lines[index + |a| + k].indent == b[k].indent && lines[index + |a| + k].text == b[k].text
    {
      assert lines[index + (|a| + k)].indent == (a + b)[|a| + k].indent;
    }
  }

  lemma {:induction false} PutNew(fields: seq<Field>, key: string, value: Value)
    requires !HasKey(fields, key)
    ensures Put(fields, key, value) == fields + [Field(key, value)]
  {
    if fields == [] {
    } else {
      assert fields == [fields[0]] + fields[1..];
      HasKeyCons(fields[0], fields[1..], key);
      PutNew(fields[1..], key, value);
    }
  }

  lemma {:induction false} BlockReads(v: Value, lines: seq<ParsedLine>, index: nat, indent: nat)
    requires !IsInline(v) && Printable(v)
    requires At(lines, index, BlockLines(v, indent))
    requires EndsBelow(lines, index + |BlockLines(v, indent)|, indent)
    ensures Block(lines, index, indent) == Done(v, index + |BlockLines(v, indent)|)
    decreases v, 0
  {
    hide IndexOf, TrimStart, TrimEnd, ParseScalar, ObjectFrom, ArrayFrom, SplitKeyValue;
    BlockStarts(v, indent);
    assert lines[index + 0].text == BlockLines(v, indent)[0].text;
    match v
    case Obj(fields) =>
      FieldsRead(fields, lines, index, indent, []);
      assert [] + fields == fields;
    case Arr(items) =>
      ItemsRead(items, lines, index, indent, []);
      assert [] + items == items;
  }

  /** The first line of a printed block sits at the block's depth and shows its kind. */
  lemma {:induction false} BlockStarts(v: Value, indent: nat)
    requires !IsInline(v) && Printable(v)
    ensures BlockLines(v, indent) != [] && BlockLines(v, indent)[0].indent == indent
    ensures IsArrayItem(BlockLines(v, indent)[0].text) == v.Arr?
  {
    hide IndexOf, TrimStart, TrimEnd, SplitKeyValue;
    match v
    case Obj(fields) =>
      assert fields[0] in fields;
      LinesStart(fields, [], indent);
      OpenText(fields[0].key);
      if IsInline(fields[0].value) {
        InlineText(fields[0].key, fields[0].value);
      }
    case Arr(items) => LinesStart([], items, indent);
  }

  lemma {:induction false} HeadIndents(f: Field, x: Value, indent: nat)
    ensures FieldHead(f, indent) != [] && FieldHead(f, indent)[0].indent == indent
    ensures ItemHead(x, indent) != [] && ItemHead(x, indent)[0].indent == indent
  {
  }

  /** Printed properties and items start with the line of the first one, at the block's depth. */
  lemma {:induction false} LinesStart(fields: seq<Field>, items: seq<Value>, indent: nat)
    ensures fields != [] ==> FieldLines(fields, indent) != [] && FieldLines(fields, indent)[0] == FieldHead(fields[0], indent)[0]
    ensures items != [] ==> ItemLines(items, indent) != [] && ItemLines(items, indent)[0] == ItemHead(items[0], indent)[0]
    ensures FieldLines(fields, indent) != [] ==> FieldLines(fields, indent)[0].indent == indent
    ensures ItemLines(items, indent) != [] ==> ItemLines(items, indent)[0].indent == indent
  {
  }

  lemma {:induction false} FieldReads(f: Field, lines: seq<ParsedLine>, index: nat, indent: nat)
    requires PrintableField(f)
    requires At(lines, index, FieldHead(f, indent))
    requires EndsBelow(lines, index + |FieldHead(f, indent)|, indent + 1)
    ensures Entry(lines, index, indent) == Done(f, index + |FieldHead(f, indent)|)
    ensures !IsArrayItem(lines[index].text)
    decreases f, 0
  {
    hide IndexOf, TrimStart, TrimEnd, ParseScalar, SplitKeyValue, Block;
    var head := FieldHead(f, indent);
    assert lines[index + 0].text == head[0].text;
    if IsInline(f.value) {
      ScalarReads(f.value);
      InlineText(f.key, f.value);
    } else {
      OpenText(f.key);
      BlockStarts(f.value, indent + 2);
      AtSplit(lines, index, [head[0]], BlockLines(f.value, indent + 2));
      BlockReads(f.value, lines, index + 1, indent + 2);
      assert lines[index + 1 + 0].indent == BlockLines(f.value, indent + 2)[0].indent;
    }
  }

  lemma {:induction false} FieldsRead(fields: seq<Field>, lines: seq<ParsedLine>, index: nat, indent: nat, acc: seq<Field>)
    requires forall f :: f in fields ==> PrintableField(f)
    requires DistinctKeys(acc + fields)
    requires At(lines, index, FieldLines(fields, indent))
    requires EndsBelow(lines, index + |FieldLines(fields, indent)|, indent)
    ensures ObjectFrom(lines, index, indent, acc) == Done(acc + fields, index + |FieldLines(fields, indent)|)
    decreases fields, 1
  {
    hide IndexOf, TrimStart, TrimEnd, ParseScalar, SplitKeyValue, Block, PrintableField, Entry, FieldHead;
    if fields == [] {
      assert acc + fields == acc;
    } else {
      var f, rest := fields[0], fields[1..];
      var head, tail := FieldHead(f, indent), FieldLines(rest, indent);
      assert FieldLines(fields, indent) == head + tail;
      AtSplit(lines, index, head, tail);
      var mid := index + |head|;
      assert f in fields;
      assert tail != [] ==> lines[mid + 0].indent == tail[0].indent;
      LinesStart(rest, [], indent);
      FieldReads(f, lines, index, indent);
      assert lines[index].indent == indent by { HeadIndents(f, Null, indent); assert lines[index + 0].indent == head[0].indent; }
      assert !HasKey(acc, f.key) by {
        assert forall i :: 0 <= i < |acc| ==> (acc + fields)[i] == acc[i];
        assert (acc + fields)[|acc|] == f;
      }
      PutNew(acc, f.key, f.value);
      assert acc + [f] + rest == acc + fields;
      FieldsRead(rest, lines, mid, indent, acc + [f]);
    }
  }

  lemma {:induction false} ItemReads(x: Value, lines: seq<ParsedLine>, index: nat, indent: nat)
    requires PrintableItem(x)
    requires At(lines, index, ItemHead(x, indent))
    requires EndsBelow(lines, index + |ItemHead(x, indent)|, indent + 1)
    ensures IsArrayItem(lines[index].text)
    ensures Item(lines, index, indent) == Done(x, index + |ItemHead(x, indent)|)
    decreases x, 1
  {
    hide IndexOf, TrimStart, TrimEnd, ParseScalar, SplitKeyValue, Block;
    var head := ItemHead(x, indent);
    assert lines[index + 0].text == head[0].text;
    if IsInline(x) {
      ScalarReads(x);
      ScalarChars(x);
      ItemLineText(x);
    } else {
      BlockStarts(x, indent + 2);
      AtSplit(lines, index, [head[0]], BlockLines(x, indent + 2));
      BlockReads(x, lines, index + 1, indent + 2);
      assert lines[index + 1 + 0].indent == BlockLines(x, indent + 2)[0].indent;
    }
  }

  lemma {:induction false} ItemsRead(items: seq<Value>, lines: seq<ParsedLine>, index: nat, indent: nat, acc: seq<Value>)
    requires forall x :: x in items ==> PrintableItem(x)
    requires At(lines, index, ItemLines(items, indent))
    requires EndsBelow(lines, index + |ItemLines(items, indent)|, indent)
    ensures ArrayFrom(lines, index, indent, acc) == Done(acc + items, index + |ItemLines(items, indent)|)
    decreases items, 2
  {
    hide IndexOf, TrimStart, TrimEnd, ParseScalar, SplitKeyValue, Block, PrintableItem, Item, ItemText, ItemHead;
    if items == [] {
      assert acc + items == acc;
    } else {
      var x, rest := items[0], items[1..];
      var head, tail := ItemHead(x, indent), ItemLines(rest, indent);
      assert ItemLines(items, indent) == head + tail;
      AtSplit(lines, index, head, tail);
      var mid := index + |head|;
      assert x in items;
      assert tail != [] ==> lines[mid + 0].indent == tail[0].indent;
      LinesStart([], rest, indent);
      ItemReads(x, lines, index, indent);
      assert lines[index].indent == indent by { HeadIndents(Field([], Null), x, indent); assert lines[index + 0].indent == head[0].indent; }
      assert acc + [x] + rest == acc + items;
      ItemsRead(rest, lines, mid, indent, acc + [x]);
    }
  }

  // ----- tokenizing printed text --------------------------------------------

  predicate CleanLines(written: seq<Written>) {
    forall k :: 0 <= k < |written| ==> CleanText(written[k].text)
  }

  lemma {:induction false} BlockClean(v: Value, indent: nat)
    requires !IsInline(v) && Printable(v)
    ensures CleanLines(BlockLines(v, indent))
    decreases v, 0
  {
    match v
    case Obj(fields) => FieldsClean(fields, indent);
    case Arr(items) => ItemsClean(items, indent);
  }

  lemma {:induction false} FieldsClean(fields: seq<Field>, indent: nat)
    requires forall f :: f in fields ==> PrintableField(f)
    ensures CleanLines(FieldLines(fields, indent))
    decreases fields, 1
  {
    hide IndexOf, TrimStart, TrimEnd, SplitKeyValue, Printable;
    if fields == [] {
    } else {
      var f := fields[0];
      assert f in fields;
      if IsInline(f.value) {
        InlineText(f.key, f.value);
      } else {
        OpenText(f.key);
        BlockClean(f.value, indent + 2);
      }
      FieldsClean(fields[1..], indent);
    }
  }

  lemma {:induction false} ItemsClean(items: seq<Value>, indent: nat)
    requires forall x :: x in items ==> PrintableItem(x)
    ensures CleanLines(ItemLines(items, indent))
    decreases items, 1
  {
    hide IndexOf, TrimStart, TrimEnd, ItemText, Printable;
    if items == [] {
    } else {
      assert items[0] in items;
      if IsInline(items[0]) {
        ItemLineText(items[0]);
      } else {
        BlockClean(items[0], indent + 2);
      }
      ItemsClean(items[1..], indent);
    }
  }

  lemma {:induction false} BlanksCounted(n: nat, text: string)
    requires text != [] && text[0] != ' '
    ensures LeadingBlanks(Blanks(n) + text) == n
  {
    if n > 0 {
      assert (Blanks(n) + text)[1..] == Blanks(n - 1) + text;
      BlanksCounted(n - 1, text);
    } else {
      assert Blanks(0) + text == text;
    }
  }

  lemma {:induction false} RawLineTokens(w: Written)
    requires CleanText(w.text)
    ensures var raw := Blanks(w.indent) + w.text;
            !IsIgnored(raw) && LeadingBlanks(raw) == w.indent && Trim(raw) == w.text && '\n' !in raw
            && DropCarriageReturn(raw) == raw
  {
    var pad := Blanks(w.indent);
    TrimPad(pad, w.text);
    TrimStartPad(pad, w.text);
    BlanksCounted(w.indent, w.text);
  }

  lemma {:induction false} TokensRead(written: seq<Written>, lineNumber: nat)
    requires CleanLines(written)
    ensures var lines := TokensFrom(RawLines(written), lineNumber);
            |lines| == |written| && At(lines, 0, written)
  {
    if written == [] {
    } else {
      RawLineTokens(written[0]);
      assert RawLines(written)[1..] == RawLines(written[1..]);
      TokensRead(written[1..], lineNumber + 1);
      var rest := TokensFrom(RawLines(written[1..]), lineNumber + 1);
      var lines := TokensFrom(RawLines(written), lineNumber);
      assert lines == [ParsedLine(written[0].indent, written[0].text, lineNumber)] + rest;
      forall k | 0 <= k < |written|
        ensures lines[0 + k].indent == written[k].indent && lines[0 + k].text == written[k].text
      {
        if k > 0 {
          assert lines[k] == rest[0 + (k - 1)];
        }
      }
    }
  }

  lemma {:induction false} SplitPrinted(written: seq<Written>)
    requires written != [] && CleanLines(written)
    ensures SplitLines(Join(RawLines(written), '\n')) == RawLines(written)
  {
    var raw := RawLines(written);
    forall i | 0 <= i < |raw|
      ensures '\n' !in raw[i] && DropCarriageReturn(raw[i]) == raw[i]
    {
      RawLineTokens(written[i]);
    }
    SplitJoin(raw, '\n');
  }

  /** Reading what the printer wrote gives back the value, for every printable document. */
  lemma {:induction false} RoundTrip(v: Value)
    requires PrintableDocument(v)
    ensures var r := Document(Tokenize(PrintYaml(v)));
            r.Done? && r.value == v
  {
    hide IndexOf, TrimStart, TrimEnd, ParseScalar, SplitKeyValue, Block, Printable, TokensFrom, Split, Join;
    if v == Obj([]) {
      EmptyTokens();
    } else {
      var written := BlockLines(v, 0);
      BlockClean(v, 0);
      BlockStarts(v, 0);
      SplitPrinted(written);
      TokensRead(written, 1);
      var lines := Tokenize(PrintYaml(v));
      BlockReads(v, lines, 0, 0);
      assert lines[0 + 0].indent == written[0].indent;
    }
  }

  /** The colon restriction on array strings is needed: a quoted array string that holds a colon
      is always read as an object, never as that string. */
  lemma {:induction false} ColonItemReadsAsObject(s: string, lines: seq<ParsedLine>, index: nat, indent: nat)
    requires ':' in s
    requires At(lines, index, [Written(indent, "- " + ScalarText(Str(s)))])
    requires EndsBelow(lines, index + 1, indent + 1)
    ensures IsArrayItem(lines[index].text)
    ensures Item(lines, index, indent).Done? && Item(lines, index, indent).value.Obj?
  {
    hide IndexOf, TrimStart, TrimEnd, ParseScalar, SplitKeyValue, Block, ObjectFrom;
    var text := ScalarText(Str(s));
    assert lines[index + 0].text == [Written(indent, "- " + text)][0].text;
    ItemLineText(Str(s));
    assert text == "\"" + s + "\"";
    var k :| 0 <= k < |s| && s[k] == ':';
    assert text[1 + k] == ':';
    QuoteIsAKey(text);
  }

  /** A text that starts with a quote and holds a colon shows a key. */
  lemma {:induction false} QuoteIsAKey(text: string)
    requires ':' in text && text[0] == '"'
    ensures SplitKeyValue(text).KeyValue?
  {
    hide TrimStart, TrimEnd;
    var separator := IndexOf(text, ':');
    var key := text[..separator];
    TrimStartStays(key);
    TrimEndKeepsFirst(key);
  }

  lemma {:induction false} TrimStartStays(s: string)
    requires s != [] && !IsSpace(s[0])
    ensures TrimStart(s) == s
  {
  }

  /** A printed array string reads back as itself exactly when it holds no colon. */
  lemma {:induction false} StringItemReadsBackExactlyWhen(s: string, lines: seq<ParsedLine>, index: nat, indent: nat)
    requires '\n' !in s
    requires At(lines, index, [Written(indent, "- " + ScalarText(Str(s)))])
    requires EndsBelow(lines, index + 1, indent + 1)
    ensures IsArrayItem(lines[index].text) && Item(lines, index, indent).Done?
    ensures Item(lines, index, indent).value == Str(s) <==> ':' !in s
  {
    hide Item, ScalarText, At, EndsBelow;
    if ':' in s {
      ColonItemReadsAsObject(s, lines, index, indent);
    } else {
      ItemReads(Str(s), lines, index, indent);
    }
  }

  lemma {:induction false} EmptyTokens()
    ensures Tokenize("") == []
  {
    assert SplitLines("") == [""];
  }
}
