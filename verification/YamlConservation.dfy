/** No line is silently lost: the entries of the value read are exactly the entries the lines
    spell, if and only if no object of the document repeats a key. */
module YamlConservation {
  import opened Text
  import opened YamlParser
  import opened YamlStructure

  // ----- entries of a value -------------------------------------------------

  /** The number of array elements and object properties anywhere in a value. */
  function Entries(v: Value): nat
    decreases v, 0
  {
    match v
    case Arr(items) => ItemEntries(items)
    case Obj(fields) => FieldEntries(fields)
    case _ => 0
  }

  function ItemEntries(items: seq<Value>): nat
    decreases items, 1
  {
    if items == [] then 0 else 1 + Entries(items[0]) + ItemEntries(items[1..])
  }

  function FieldEntries(fields: seq<Field>): nat
    decreases fields, 1
  {
    if fields == [] then 0 else 1 + Entries(fields[0].value) + FieldEntries(fields[1..])
  }

  lemma {:induction false} ItemEntriesAppend(items: seq<Value>, item: Value)
    ensures ItemEntries(items + [item]) == ItemEntries(items) + 1 + Entries(item)
  {
    if items == [] {
    } else {
      ItemEntriesAppend(items[1..], item);
      assert (items + [item])[1..] == items[1..] + [item];
    }
  }

  lemma {:induction false} PutEntries(fields: seq<Field>, key: string, value: Value)
    ensures FieldEntries(Put(fields, key, value)) <= FieldEntries(fields) + 1 + Entries(value)
    ensures FieldEntries(Put(fields, key, value)) == FieldEntries(fields) + 1 + Entries(value)
            <==> !HasKey(fields, key)
  {
    if fields == [] {
    } else {
      assert fields == [fields[0]] + fields[1..];
      HasKeyCons(fields[0], fields[1..], key);
      PutEntries(fields[1..], key, value);
    }
  }

  ghost predicate Disjoint(target: seq<Field>, source: seq<Field>) {
    forall k :: HasKey(source, k) ==> !HasKey(target, k)
  }

  lemma {:induction false} AssignEntries(target: seq<Field>, source: seq<Field>)
    requires DistinctKeys(source)
    ensures FieldEntries(Assign(target, source)) <= FieldEntries(target) + FieldEntries(source)
    ensures FieldEntries(Assign(target, source)) == FieldEntries(target) + FieldEntries(source)
            <==> Disjoint(target, source)
    decreases |source|
  {
    if source == [] {
    } else {
      var f, rest := source[0], source[1..];
      var target' := Put(target, f.key, f.value);
      PutEntries(target, f.key, f.value);
      PutKeys(target, f.key, f.value);
      AssignEntries(target', rest);
      assert source == [f] + rest;
      assert !HasKey(rest, f.key) by {
        assert forall i :: 0 <= i < |rest| ==> rest[i] == source[i + 1];
      }
      forall k
        ensures HasKey(source, k) <==> f.key == k || HasKey(rest, k)
      {
        HasKeyCons(f, rest, k);
      }
    }
  }

  // ----- entries and keys spelled by a line ---------------------------------

  /** The key/value pair a line spells, whether a property or the head of an array item. */
  function LineKey(line: ParsedLine): KeyValue {
    if !IsArrayItem(line.text) then SplitKeyValue(line.text)
    else if LooksLikeKeyValue(ItemText(line.text)) then SplitKeyValue(ItemText(line.text))
    else Malformed
  }

  /** The number of entries a line spells on its own. */
  function LineYield(line: ParsedLine): nat {
    match LineKey(line)
    case KeyValue(_, inline) => (if IsArrayItem(line.text) then 2 else 1) + Entries(InlineOrNull(inline))
    case Malformed =>
      if IsArrayItem(line.text) && ItemText(line.text) != [] then 1 + Entries(ParseScalar(ItemText(line.text)))
      else 1
  }

  /** What matters about a line for its object: its depth, its kind and the key it spells. */
  datatype Head = Head(indent: nat, item: bool, key: KeyValue)

  function Heads(lines: seq<ParsedLine>): (heads: seq<Head>)
    ensures |heads| == |lines|
  {
    seq(|lines|, i requires 0 <= i < |lines| =>
      Head(lines[i].indent, IsArrayItem(lines[i].text), LineKey(lines[i])))
  }

  function Weights(lines: seq<ParsedLine>): (weights: seq<nat>)
    ensures |weights| == |lines|
  {
    seq(|lines|, i requires 0 <= i < |lines| => LineYield(lines[i]))
  }

  function Sum(weights: seq<nat>, lo: nat, hi: nat): nat
    requires hi <= |weights|
    decreases hi - lo
  {
    if lo >= hi then 0 else weights[lo] + Sum(weights, lo + 1, hi)
  }

  lemma {:induction false} SumSplit(weights: seq<nat>, lo: nat, mid: nat, hi: nat)
    requires lo <= mid <= hi <= |weights|
    ensures Sum(weights, lo, hi) == Sum(weights, lo, mid) + Sum(weights, mid, hi)
    decreases mid - lo
  {
    if lo < mid {
      SumSplit(weights, lo + 1, mid, hi);
    }
  }

  /** The number of entries the lines from `lo` up to `hi` spell. */
  function Yield(lines: seq<ParsedLine>, lo: nat, hi: nat): nat
    requires hi <= |lines|
  {
    Sum(Weights(lines), lo, hi)
  }

  /** The line puts `key` into an object whose properties sit at `indent`. */
  predicate Keyed(head: Head, indent: nat, key: string) {
    && head.key.KeyValue?
    && head.key.key == key
    && indent == head.indent + (if head.item then 2 else 0)
  }

  predicate KeyIn(heads: seq<Head>, lo: nat, hi: nat, indent: nat, key: string)
    requires hi <= |heads|
  {
    exists k :: lo <= k < hi && Keyed(heads[k], indent, key)
  }

  /** Line `j` repeats the key of line `i`: same key, same depth, no shallower line between. */
  predicate Repeats(heads: seq<Head>, i: nat, j: nat)
    requires i < j < |heads|
  {
    && !heads[j].item
    && heads[j].key.KeyValue?
    && Keyed(heads[i], heads[j].indent, heads[j].key.key)
    && forall m :: i < m <= j ==> heads[m].indent >= heads[j].indent
  }

  predicate NoRepeats(heads: seq<Head>, lo: nat, hi: nat)
    requires hi <= |heads|
  {
    forall i: nat, j: nat :: lo <= i < j < hi ==> !Repeats(heads, i, j)
  }

  // ----- conservation -------------------------------------------------------

  /** `got` entries were made from lines that spell `spelled`; equal exactly when `lossless`. */
  predicate Conserves(got: nat, spelled: nat, lossless: bool) {
    got <= spelled && (got == spelled <==> lossless)
  }

  lemma {:induction false} BlockConserves(lines: seq<ParsedLine>, index: nat, indent: nat)
    requires index <= |lines|
    requires Block(lines, index, indent).Done?
    ensures var r := Block(lines, index, indent);
            Conserves(Entries(r.value), Yield(lines, index, r.next), NoRepeats(Heads(lines), index, r.next))
    decreases Remaining(lines, index), 1
  {
    hide IndexOf, TrimStart, TrimEnd, ParseScalar, Repeats;
    if index < |lines| && lines[index].indent == indent {
      if IsArrayItem(lines[index].text) {
        ArrayConserves(lines, index, indent, []);
      } else {
        ObjectConserves(lines, index, indent, []);
      }
    }
  }

  /** The keys collected so far meet none of the lines still to be read. */
  ghost predicate Fresh(acc: seq<Field>, heads: seq<Head>, lo: nat, hi: nat, indent: nat)
    requires hi <= |heads|
  {
    forall k :: HasKey(acc, k) ==> !KeyIn(heads, lo, hi, indent, k)
  }

  lemma {:induction false} ObjectConserves(lines: seq<ParsedLine>, index: nat, indent: nat, acc: seq<Field>)
    requires index <= |lines|
    requires ObjectFrom(lines, index, indent, acc).Done?
    ensures var r := ObjectFrom(lines, index, indent, acc);
            Conserves(FieldEntries(r.value), FieldEntries(acc) + Yield(lines, index, r.next),
                      NoRepeats(Heads(lines), index, r.next) && Fresh(acc, Heads(lines), index, r.next, indent))
    decreases Remaining(lines, index), 0
  {
    if index < |lines| && lines[index].indent == indent && !("- " <= lines[index].text) {
      var Done(field, mid) := Entry(lines, index, indent);
      var acc' := Put(acc, field.key, field.value);
      var next := ObjectFrom(lines, index, indent, acc).next;
      EntryConserves(lines, index, indent);
      PutEntries(acc, field.key, field.value);
      ObjectConserves(lines, mid, indent, acc');
      SumSplit(Weights(lines), index, mid, next);
      LosslessStep(lines, index, indent, acc);
    }
  }

  /** A property line loses nothing exactly when its key is new and the rest loses nothing. */
  lemma {:induction false} LosslessStep(lines: seq<ParsedLine>, index: nat, indent: nat, acc: seq<Field>)
    requires index < |lines| && lines[index].indent == indent && !("- " <= lines[index].text)
    requires ObjectFrom(lines, index, indent, acc).Done?
    ensures var next := ObjectFrom(lines, index, indent, acc).next;
            var Done(field, mid) := Entry(lines, index, indent);
            NoRepeats(Heads(lines), index, next) && Fresh(acc, Heads(lines), index, next, indent)
            <==> && NoRepeats(Heads(lines), index + 1, mid) && !HasKey(acc, field.key)
                 && NoRepeats(Heads(lines), mid, next)
                 && Fresh(Put(acc, field.key, field.value), Heads(lines), mid, next, indent)
  {
    var next := ObjectFrom(lines, index, indent, acc).next;
    var Done(field, mid) := Entry(lines, index, indent);
    ObjectLayout(lines, index, indent, acc);
    EntryLayout(lines, index, indent);
    ObjectKeys(Heads(lines), index, mid, next, indent, field.key);
    PutKeys(acc, field.key, field.value);
    FreshStep(acc, Put(acc, field.key, field.value), Heads(lines), index, mid, next, indent, field.key);
  }

  /** Collecting `key` at `index`: what is fresh before, in terms of what is fresh after. */
  lemma {:induction false} FreshStep(acc: seq<Field>, acc': seq<Field>, heads: seq<Head>,
                  index: nat, mid: nat, next: nat, indent: nat, key: string)
    requires index < mid <= next <= |heads|
    requires forall k :: HasKey(acc', k) <==> HasKey(acc, k) || k == key
    requires forall k :: KeyIn(heads, index, next, indent, k) <==> k == key || KeyIn(heads, mid, next, indent, k)
    ensures Fresh(acc, heads, index, next, indent) && !KeyIn(heads, mid, next, indent, key)
            <==> !HasKey(acc, key) && Fresh(acc', heads, mid, next, indent)
  {
    assert HasKey(acc', key) && KeyIn(heads, index, next, indent, key);
  }

  /** The keys an object ends up with are those its lines spell at its own depth. */
  lemma {:induction false} ObjectKeySet(lines: seq<ParsedLine>, index: nat, indent: nat, acc: seq<Field>)
    requires index <= |lines|
    requires ObjectFrom(lines, index, indent, acc).Done?
    ensures var r := ObjectFrom(lines, index, indent, acc);
            forall k :: HasKey(r.value, k) <==> HasKey(acc, k) || KeyIn(Heads(lines), index, r.next, indent, k)
    decreases Remaining(lines, index)
  {
    hide IndexOf, TrimStart, TrimEnd, ParseScalar, Repeats, Block;
    if index < |lines| && lines[index].indent == indent && !("- " <= lines[index].text) {
      var Done(field, mid) := Entry(lines, index, indent);
      var next := ObjectFrom(lines, index, indent, acc).next;
      PutKeys(acc, field.key, field.value);
      ObjectKeySet(lines, mid, indent, Put(acc, field.key, field.value));
      ObjectLayout(lines, index, indent, acc);
      EntryLayout(lines, index, indent);
      ObjectKeys(Heads(lines), index, mid, next, indent, field.key);
    }
  }

  predicate DeepFrom(heads: seq<Head>, lo: nat, hi: nat, indent: nat)
    requires hi <= |heads|
  {
    forall k :: lo <= k < hi ==> heads[k].indent >= indent
  }

  /** How the key of the property line at `index` meets the lines after it. */
  lemma {:induction false} ObjectKeys(heads: seq<Head>, index: nat, mid: nat, next: nat, indent: nat, key: string)
    requires index < mid <= next <= |heads|
    requires heads[index].indent == indent && !heads[index].item && Keyed(heads[index], indent, key)
    requires DeepFrom(heads, index + 1, mid, indent + 2) && DeepFrom(heads, mid, next, indent)
    requires forall k :: mid <= k < next && heads[k].indent == indent ==> !heads[k].item
    requires mid < next ==> heads[mid].indent == indent
    ensures forall k :: KeyIn(heads, index, next, indent, k) <==> k == key || KeyIn(heads, mid, next, indent, k)
    ensures NoRepeats(heads, index, next) <==>
            NoRepeats(heads, index + 1, mid) && NoRepeats(heads, mid, next) && !KeyIn(heads, mid, next, indent, key)
  {
    forall k
      ensures KeyIn(heads, index, next, indent, k) <==> k == key || KeyIn(heads, mid, next, indent, k)
    {
      assert forall m :: index < m < mid ==> !Keyed(heads[m], indent, k);
    }
    forall j: nat | mid <= j < next
      ensures Repeats(heads, index, j) <==> Keyed(heads[j], indent, key)
    {
    }
    assert forall i: nat, j: nat :: index < i < mid <= j < next ==> !Repeats(heads, i, j);
    assert forall j: nat :: index < j < mid ==> !Repeats(heads, index, j);
  }

  lemma {:induction false} EntryConserves(lines: seq<ParsedLine>, index: nat, indent: nat)
    requires index < |lines| && !IsArrayItem(lines[index].text)
    requires Entry(lines, index, indent).Done?
    ensures var r := Entry(lines, index, indent);
            && Conserves(1 + Entries(r.value.value), Yield(lines, index, r.next), NoRepeats(Heads(lines), index + 1, r.next))
            && LineKey(lines[index]).KeyValue? && r.value.key == LineKey(lines[index]).key
    decreases Remaining(lines, index + 1), 2
  {
    var KeyValue(key, inline) := SplitKeyValue(lines[index].text);
    var Done(field, next) := Entry(lines, index, indent);
    assert Yield(lines, index, next) == LineYield(lines[index]) + Yield(lines, index + 1, next);
    if inline == [] && Deeper(lines, index + 1, indent) {
      BlockConserves(lines, index + 1, indent + 2);
      assert LineYield(lines[index]) == 1;
    } else {
      assert next == index + 1;
      assert LineYield(lines[index]) == 1 + Entries(field.value);
    }
  }

  lemma {:induction false} ArrayConserves(lines: seq<ParsedLine>, index: nat, indent: nat, acc: seq<Value>)
    requires index <= |lines|
    requires ArrayFrom(lines, index, indent, acc).Done?
    ensures var r := ArrayFrom(lines, index, indent, acc);
            Conserves(ItemEntries(r.value), ItemEntries(acc) + Yield(lines, index, r.next), NoRepeats(Heads(lines), index, r.next))
    decreases Remaining(lines, index), 0
  {
    hide IndexOf, TrimStart, TrimEnd, ParseScalar, NoRepeats, Item, Entries;
    NothingRepeats(Heads(lines), index);
    if index < |lines| && lines[index].indent == indent && IsArrayItem(lines[index].text) {
      var Done(item, mid) := Item(lines, index, indent);
      var next := ArrayFrom(lines, index, indent, acc).next;
      ItemConserves(lines, index, indent);
      ItemEntriesAppend(acc, item);
      ArrayConserves(lines, mid, indent, acc + [item]);
      SumSplit(Weights(lines), index, mid, next);
      LosslessItem(lines, index, indent, acc);
    }
  }

  lemma {:induction false} NothingRepeats(heads: seq<Head>, index: nat)
    requires index <= |heads|
    ensures NoRepeats(heads, index, index)
  {
  }

  /** An item loses nothing together with the items after it exactly when neither part does. */
  lemma {:induction false} LosslessItem(lines: seq<ParsedLine>, index: nat, indent: nat, acc: seq<Value>)
    requires index < |lines| && lines[index].indent == indent && IsArrayItem(lines[index].text)
    requires ArrayFrom(lines, index, indent, acc).Done?
    ensures var mid, next := Item(lines, index, indent).next, ArrayFrom(lines, index, indent, acc).next;
            NoRepeats(Heads(lines), index, next) <==> NoRepeats(Heads(lines), index, mid) && NoRepeats(Heads(lines), mid, next)
  {
    hide IndexOf, TrimStart, TrimEnd, ParseScalar, Repeats, Item;
    var mid, next := Item(lines, index, indent).next, ArrayFrom(lines, index, indent, acc).next;
    ArrayLayout(lines, index, indent, acc);
    ItemsApart(Heads(lines), index, mid, next, indent);
  }

  predicate ItemConserved(lines: seq<ParsedLine>, index: nat, indent: nat)
    requires index < |lines| && IsArrayItem(lines[index].text)
    requires Item(lines, index, indent).Done?
  {
    var r := Item(lines, index, indent);
    Conserves(1 + Entries(r.value), Yield(lines, index, r.next), NoRepeats(Heads(lines), index, r.next))
  }

  lemma {:induction false} ItemConserves(lines: seq<ParsedLine>, index: nat, indent: nat)
    requires index < |lines| && IsArrayItem(lines[index].text) && lines[index].indent == indent
    requires Item(lines, index, indent).Done?
    ensures ItemConserved(lines, index, indent)
    decreases Remaining(lines, index + 1), 2
  {
    var itemText := ItemText(lines[index].text);
    if itemText == [] {
      if Deeper(lines, index + 1, indent) {
        BlockConserves(lines, index + 1, indent + 2);
      }
      BareItemConserves(lines, index, indent);
    } else if LooksLikeKeyValue(itemText) && Deeper(lines, index + 1, indent) {
      ObjectConserves(lines, index + 1, indent + 2, []);
      KeyedItemConserves(lines, index, indent);
    } else {
      LineItemConserves(lines, index, indent);
    }
  }

  lemma {:induction false} YieldFirst(lines: seq<ParsedLine>, lo: nat, hi: nat)
    requires lo < hi <= |lines|
    ensures Yield(lines, lo, hi) == LineYield(lines[lo]) + Yield(lines, lo + 1, hi)
    ensures Yield(lines, hi, hi) == 0
  {
  }

  /** The bare `-` item, given that the block below it is accounted for. */
  lemma {:induction false} BareItemConserves(lines: seq<ParsedLine>, index: nat, indent: nat)
    requires index < |lines| && IsArrayItem(lines[index].text) && ItemText(lines[index].text) == []
    requires Item(lines, index, indent).Done?
    requires Deeper(lines, index + 1, indent) ==>
               var r := Block(lines, index + 1, indent + 2);
               Conserves(Entries(r.value), Yield(lines, index + 1, r.next), NoRepeats(Heads(lines), index + 1, r.next))
    ensures ItemConserved(lines, index, indent)
  {
    hide IndexOf, TrimStart, TrimEnd, ParseScalar, Block;
    var next := Item(lines, index, indent).next;
    YieldFirst(lines, index, next);
    assert forall j: nat :: index < j < next ==> !Repeats(Heads(lines), index, j);
  }

  /** What a key/value item line spells. */
  lemma {:induction false} KeyedYield(line: ParsedLine, first: seq<Field>)
    requires IsArrayItem(line.text) && LineKey(line).KeyValue?
    requires first == [Field(LineKey(line).key, InlineOrNull(LineKey(line).inline))]
    ensures LineYield(line) == 1 + FieldEntries(first)
  {
    assert first[1..] == [];
  }

  /** The array item that opens with a key and has properties below it. */
  lemma {:induction false} KeyedItemConserves(lines: seq<ParsedLine>, index: nat, indent: nat)
    requires index < |lines| && IsArrayItem(lines[index].text) && lines[index].indent == indent
    requires LineKey(lines[index]).KeyValue? && Deeper(lines, index + 1, indent)
    requires ObjectFrom(lines, index + 1, indent + 2, []).Done?
    requires var r := ObjectFrom(lines, index + 1, indent + 2, []);
             Conserves(FieldEntries(r.value), Yield(lines, index + 1, r.next), NoRepeats(Heads(lines), index + 1, r.next))
    ensures ItemConserved(lines, index, indent)
  {
    hide IndexOf, TrimStart, TrimEnd, ParseScalar, ObjectFrom, Repeats, Keyed;
    var first := [Field(LineKey(lines[index]).key, InlineOrNull(LineKey(lines[index]).inline))];
    var Done(nested, next) := ObjectFrom(lines, index + 1, indent + 2, []);
    YieldFirst(lines, index, next);
    KeyedYield(lines[index], first);
    LosslessHead(lines, index, indent, first);
    assert Item(lines, index, indent) == Done(Obj(Assign(first, nested)), next);
  }

  /** The array item that is a single line spelling a value. */
  lemma {:induction false} LineItemConserves(lines: seq<ParsedLine>, index: nat, indent: nat)
    requires index < |lines| && IsArrayItem(lines[index].text) && ItemText(lines[index].text) != []
    requires Item(lines, index, indent).Done?
    requires LooksLikeKeyValue(ItemText(lines[index].text)) ==> !Deeper(lines, index + 1, indent)
    ensures ItemConserved(lines, index, indent)
  {
    hide IndexOf, TrimStart, TrimEnd, ParseScalar, Repeats;
    YieldFirst(lines, index, index + 1);
    if LineKey(lines[index]).KeyValue? {
      KeyedYield(lines[index], [Field(LineKey(lines[index]).key, InlineOrNull(LineKey(lines[index]).inline))]);
    }
  }

  /** The head of an item loses nothing exactly when the properties below do not repeat its key. */
  lemma {:induction false} LosslessHead(lines: seq<ParsedLine>, index: nat, indent: nat, first: seq<Field>)
    requires index < |lines| && IsArrayItem(lines[index].text) && lines[index].indent == indent
    requires LineKey(lines[index]).KeyValue?
    requires |first| == 1 && first[0].key == LineKey(lines[index]).key
    requires ObjectFrom(lines, index + 1, indent + 2, []).Done?
    ensures var r := ObjectFrom(lines, index + 1, indent + 2, []);
            Conserves(FieldEntries(Assign(first, r.value)), FieldEntries(first) + FieldEntries(r.value), Disjoint(first, r.value))
            && (NoRepeats(Heads(lines), index, r.next) <==>
                NoRepeats(Heads(lines), index + 1, r.next) && Disjoint(first, r.value))
  {
    hide IndexOf, TrimStart, TrimEnd, ParseScalar, ObjectFrom, Repeats;
    var key := first[0].key;
    ObjectShape(lines, index + 1, indent + 2, []);
    AssignEntries(first, ObjectFrom(lines, index + 1, indent + 2, []).value);
    ObjectKeySet(lines, index + 1, indent + 2, []);
    ObjectLayout(lines, index + 1, indent + 2, []);
    HeadKeys(Heads(lines), index, ObjectFrom(lines, index + 1, indent + 2, []).next, indent, key);
    SingleKey(first);
  }

  lemma {:induction false} SingleKey(first: seq<Field>)
    requires |first| == 1
    ensures forall k :: HasKey(first, k) <==> first[0].key == k
  {
    forall k
      ensures HasKey(first, k) <==> first[0].key == k
    {
      HasKeyCons(first[0], [], k);
      assert first == [first[0]] + [];
    }
  }

  /** How the key at the head of an array item meets the properties below it. */
  lemma {:induction false} HeadKeys(heads: seq<Head>, index: nat, next: nat, indent: nat, key: string)
    requires index < next <= |heads|
    requires heads[index].item && Keyed(heads[index], indent + 2, key)
    requires DeepFrom(heads, index + 1, next, indent + 2)
    requires forall k :: index < k < next && heads[k].indent == indent + 2 ==> !heads[k].item
    ensures NoRepeats(heads, index, next) <==>
            NoRepeats(heads, index + 1, next) && !KeyIn(heads, index + 1, next, indent + 2, key)
  {
    forall j: nat | index < j < next
      ensures Repeats(heads, index, j) <==> Keyed(heads[j], indent + 2, key)
    {
    }
  }

  /** A line at the array's own depth separates any two items, so no key repeats across them. */
  lemma {:induction false} ItemsApart(heads: seq<Head>, index: nat, mid: nat, next: nat, indent: nat)
    requires index < mid <= next <= |heads|
    requires mid < next ==> heads[mid].indent == indent
    requires DeepFrom(heads, index, next, indent)
    requires forall k :: index <= k < next && heads[k].indent == indent ==> heads[k].item
    ensures NoRepeats(heads, index, next) <==> NoRepeats(heads, index, mid) && NoRepeats(heads, mid, next)
  {
    assert forall i: nat, j: nat :: index <= i < mid <= j < next ==> !Repeats(heads, i, j);
  }

  /** The value holds every entry its lines spell, exactly when no object repeats a key. */
  lemma {:induction false} DocumentConserves(lines: seq<ParsedLine>)
    requires Document(lines).Done?
    ensures Entries(Document(lines).value) <= Yield(lines, 0, |lines|)
    ensures Entries(Document(lines).value) == Yield(lines, 0, |lines|) <==> NoRepeats(Heads(lines), 0, |lines|)
  {
    if lines != [] {
      BlockConserves(lines, 0, lines[0].indent);
    }
  }
}
