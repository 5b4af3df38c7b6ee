/** What a successful read says about the lines it consumed: where each reader stops, how the
    lines must be indented, and that nothing is lost unless an object repeats a key. */
module YamlStructure {
  import opened Text
  import opened YamlParser

  // ----- where the readers stop, and indentation ----------------------------

  /** The lines from `lo` up to `hi` sit at `indent` or an even number of blanks deeper. */
  predicate Laid(lines: seq<ParsedLine>, lo: nat, hi: nat, indent: nat) {
    forall k :: lo <= k < hi && k < |lines| ==>
      lines[k].indent >= indent && (lines[k].indent - indent) % 2 == 0
  }

  /** All lines at exactly `indent` are array items, or none is. */
  predicate Uniform(lines: seq<ParsedLine>, lo: nat, hi: nat, indent: nat, items: bool) {
    forall k :: lo <= k < hi && k < |lines| && lines[k].indent == indent ==> IsArrayItem(lines[k].text) == items
  }

  /** End of input, a dedent, or a line of the other kind at the same indentation. */
  predicate Stop(lines: seq<ParsedLine>, next: nat, indent: nat, items: bool) {
    || next >= |lines|
    || lines[next].indent < indent
    || (lines[next].indent == indent && IsArrayItem(lines[next].text) != items)
  }

  lemma {:induction false} BlockLayout(lines: seq<ParsedLine>, index: nat, indent: nat)
    requires Block(lines, index, indent).Done?
    ensures Laid(lines, index, Block(lines, index, indent).next, indent)
    ensures index < |lines| && lines[index].indent == indent ==>
              Stop(lines, Block(lines, index, indent).next, indent, IsArrayItem(lines[index].text))
    decreases Remaining(lines, index), 1
  {
    if index < |lines| && lines[index].indent == indent {
      if IsArrayItem(lines[index].text) {
        ArrayLayout(lines, index, indent, []);
      } else {
        ObjectLayout(lines, index, indent, []);
      }
    }
  }

  lemma {:induction false} ObjectLayout(lines: seq<ParsedLine>, index: nat, indent: nat, acc: seq<Field>)
    requires ObjectFrom(lines, index, indent, acc).Done?
    ensures Laid(lines, index, ObjectFrom(lines, index, indent, acc).next, indent)
    ensures Uniform(lines, index, ObjectFrom(lines, index, indent, acc).next, indent, false)
    ensures Stop(lines, ObjectFrom(lines, index, indent, acc).next, indent, false)
    decreases Remaining(lines, index), 0
  {
    hide IndexOf, TrimStart, TrimEnd, ParseScalar;
    if index < |lines| && lines[index].indent == indent && !("- " <= lines[index].text) {
      var Done(field, next) := Entry(lines, index, indent);
      if next > index + 1 {
        BlockLayout(lines, index + 1, indent + 2);
      }
      ObjectLayout(lines, next, indent, Put(acc, field.key, field.value));
    }
  }

  lemma {:induction false} ArrayLayout(lines: seq<ParsedLine>, index: nat, indent: nat, acc: seq<Value>)
    requires ArrayFrom(lines, index, indent, acc).Done?
    ensures Laid(lines, index, ArrayFrom(lines, index, indent, acc).next, indent)
    ensures Uniform(lines, index, ArrayFrom(lines, index, indent, acc).next, indent, true)
    ensures Stop(lines, ArrayFrom(lines, index, indent, acc).next, indent, true)
    decreases Remaining(lines, index), 0
  {
    hide IndexOf, TrimStart, TrimEnd, ParseScalar;
    if index < |lines| && lines[index].indent == indent && IsArrayItem(lines[index].text) {
      var Done(item, next) := Item(lines, index, indent);
      ItemLayout(lines, index, indent);
      ArrayLayout(lines, next, indent, acc + [item]);
    }
  }

  lemma {:induction false} EntryLayout(lines: seq<ParsedLine>, index: nat, indent: nat)
    requires index < |lines| && Entry(lines, index, indent).Done?
    ensures Laid(lines, index + 1, Entry(lines, index, indent).next, indent + 2)
  {
    if Entry(lines, index, indent).next > index + 1 {
      BlockLayout(lines, index + 1, indent + 2);
    }
  }

  lemma {:induction false} ItemLayout(lines: seq<ParsedLine>, index: nat, indent: nat)
    requires index < |lines| && IsArrayItem(lines[index].text)
    requires Item(lines, index, indent).Done?
    ensures Laid(lines, index + 1, Item(lines, index, indent).next, indent + 2)
    decreases Remaining(lines, index + 1), 2
  {
    var next := Item(lines, index, indent).next;
    if next > index + 1 {
      if ItemText(lines[index].text) == [] {
        BlockLayout(lines, index + 1, indent + 2);
      } else {
        ObjectLayout(lines, index + 1, indent + 2, []);
      }
    }
  }

  /** A document that reads normally has had every token line read, and every line is indented
      like the first one or an even number of blanks deeper. */
  lemma {:induction false} DocumentLayout(lines: seq<ParsedLine>)
    requires Document(lines).Done?
    ensures Document(lines).next == |lines|
    ensures lines != [] ==> Laid(lines, 0, |lines|, lines[0].indent)
  {
    if lines != [] {
      BlockLayout(lines, 0, lines[0].indent);
    }
  }

  // ----- shape of every result ----------------------------------------------

  predicate DistinctKeys(fields: seq<Field>) {
    forall i, j :: 0 <= i < j < |fields| ==> fields[i].key != fields[j].key
  }

  /** Objects have distinct keys and no object below the top is empty. */
  predicate NestedShape(v: Value)
    decreases v
  {
    match v
    case Arr(items) => forall x :: x in items ==> NestedShape(x)
    case Obj(fields) => fields != [] && FieldsShape(fields)
    case _ => true
  }

  predicate FieldsShape(fields: seq<Field>)
    decreases fields, 0
  {
    DistinctKeys(fields) && forall f :: f in fields ==> NestedShape(f.value)
  }

  predicate TopShape(v: Value) {
    match v
    case Obj(fields) => FieldsShape(fields)
    case _ => NestedShape(v)
  }

  lemma {:induction false} PutKeys(fields: seq<Field>, key: string, value: Value)
    ensures forall k :: HasKey(Put(fields, key, value), k) <==> HasKey(fields, k) || k == key
    ensures DistinctKeys(fields) ==> DistinctKeys(Put(fields, key, value))
    ensures forall f :: f in Put(fields, key, value) ==> f in fields || f == Field(key, value)
    ensures Put(fields, key, value) != []
  {
    if fields == [] {
      assert Put(fields, key, value)[0].key == key;
    } else if fields[0].key == key {
      var result := Put(fields, key, value);
      assert forall i :: 0 <= i < |fields| ==> result[i].key == fields[i].key;
      assert result[0].key == key;
    } else {
      var rest := Put(fields[1..], key, value);
      PutKeys(fields[1..], key, value);
      var result := Put(fields, key, value);
      assert result == [fields[0]] + rest;
      forall k
        ensures HasKey(result, k) <==> HasKey(fields, k) || k == key
      {
        HasKeyCons(fields[0], fields[1..], k);
        HasKeyCons(fields[0], rest, k);
        assert fields == [fields[0]] + fields[1..];
      }
      if DistinctKeys(fields) {
        forall j | 0 <= j < |rest|
          ensures rest[j].key != fields[0].key
        {
          assert HasKey(rest, rest[j].key);
        }
      }
    }
  }

  lemma {:induction false} HasKeyCons(f: Field, fields: seq<Field>, k: string)
    ensures HasKey([f] + fields, k) <==> f.key == k || HasKey(fields, k)
  {
    var all := [f] + fields;
    assert all[0] == f;
    if HasKey(fields, k) {
      var i :| 0 <= i < |fields| && fields[i].key == k;
      assert all[i + 1].key == k;
    }
  }

  lemma {:induction false} ScalarShape(raw: string)
    ensures NestedShape(ParseScalar(raw))
    decreases |raw|
  {
    if Delimited(raw, '[', ']') {
      TrimResult(Inner(raw));
      var parts := Split(Trim(Inner(raw)), ',');
      SplitParts(Trim(Inner(raw)), ',');
      forall i | 0 <= i < |parts|
        ensures |Trim(parts[i])| < |raw| && NestedShape(ParseScalar(Trim(parts[i])))
      {
        TrimResult(parts[i]);
        assert parts[i] in parts;
        ScalarShape(Trim(parts[i]));
      }
    }
  }

  lemma {:induction false} BlockShape(lines: seq<ParsedLine>, index: nat, indent: nat)
    requires Block(lines, index, indent).Done?
    ensures TopShape(Block(lines, index, indent).value)
    ensures index < Block(lines, index, indent).next ==> NestedShape(Block(lines, index, indent).value)
    decreases Remaining(lines, index), 1
  {
    if index < |lines| && lines[index].indent == indent {
      if IsArrayItem(lines[index].text) {
        ArrayShape(lines, index, indent, []);
      } else {
        ObjectShape(lines, index, indent, []);
      }
    }
  }

  lemma {:induction false} ObjectShape(lines: seq<ParsedLine>, index: nat, indent: nat, acc: seq<Field>)
    requires ObjectFrom(lines, index, indent, acc).Done?
    requires FieldsShape(acc)
    ensures FieldsShape(ObjectFrom(lines, index, indent, acc).value)
    ensures acc != [] || index < ObjectFrom(lines, index, indent, acc).next
            ==> ObjectFrom(lines, index, indent, acc).value != []
    decreases Remaining(lines, index), 0
  {
    hide IndexOf, TrimStart, TrimEnd, ParseScalar;
    if index < |lines| && lines[index].indent == indent && !("- " <= lines[index].text) {
      var Done(field, next) := Entry(lines, index, indent);
      var inline := SplitKeyValue(lines[index].text).inline;
      if inline == [] && Deeper(lines, index + 1, indent) {
        BlockShape(lines, index + 1, indent + 2);
        assert next != index + 1;  // otherwise the next line would be too deep for this object
      } else if inline != [] {
        ScalarShape(inline);
      }
      PutKeys(acc, field.key, field.value);
      ObjectShape(lines, next, indent, Put(acc, field.key, field.value));
    }
  }

  lemma {:induction false} ArrayShape(lines: seq<ParsedLine>, index: nat, indent: nat, acc: seq<Value>)
    requires ArrayFrom(lines, index, indent, acc).Done?
    requires NestedShape(Arr(acc))
    ensures NestedShape(Arr(ArrayFrom(lines, index, indent, acc).value))
    decreases Remaining(lines, index), 0
  {
    if index < |lines| && lines[index].indent == indent && IsArrayItem(lines[index].text) {
      var Done(item, next) := Item(lines, index, indent);
      ItemShape(lines, index, indent);
      ArrayShape(lines, next, indent, acc + [item]);
    }
  }

  lemma {:induction false} ItemShape(lines: seq<ParsedLine>, index: nat, indent: nat)
    requires index < |lines| && IsArrayItem(lines[index].text)
    requires Item(lines, index, indent).Done?
    requires Deeper(lines, index + 1, indent) ==> index + 1 < Item(lines, index, indent).next
    ensures NestedShape(Item(lines, index, indent).value)
    decreases Remaining(lines, index + 1), 2
  {
    var itemText := ItemText(lines[index].text);
    if itemText == [] {
      if Deeper(lines, index + 1, indent) {
        BlockShape(lines, index + 1, indent + 2);
      }
    } else if LooksLikeKeyValue(itemText) {
      var KeyValue(key, inline) := SplitKeyValue(itemText);
      if inline != [] {
        ScalarShape(inline);
      }
      var first := [Field(key, InlineOrNull(inline))];
      if Deeper(lines, index + 1, indent) {
        ObjectShape(lines, index + 1, indent + 2, []);
        AssignShape(first, ObjectFrom(lines, index + 1, indent + 2, []).value);
      }
    } else {
      ScalarShape(itemText);
    }
  }

  lemma {:induction false} AssignShape(target: seq<Field>, source: seq<Field>)
    requires FieldsShape(target) && target != []
    requires forall f :: f in source ==> NestedShape(f.value)
    ensures FieldsShape(Assign(target, source)) && Assign(target, source) != []
    decreases |source|
  {
    if source == [] {
    } else {
      PutKeys(target, source[0].key, source[0].value);
      AssignShape(Put(target, source[0].key, source[0].value), source[1..]);
    }
  }

  /** Every value the reader can return has distinct keys and no empty object below the top. */
  lemma {:induction false} DocumentShape(lines: seq<ParsedLine>)
    requires Document(lines).Done?
    ensures TopShape(Document(lines).value)
  {
    if lines != [] {
      BlockShape(lines, 0, lines[0].indent);
    }
  }
}
