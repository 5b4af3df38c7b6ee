/** Exactly which token lines the reader accepts, as a condition on each line and its anchor - the last
    earlier line that is not deeper. */
module YamlAcceptance {
  import opened Text
  import opened YamlParser
  import opened YamlStructure

  // ----- the condition ------------------------------------------------------

  predicate IsItem(line: ParsedLine) {
    IsArrayItem(line.text)
  }

  /** The line spells something: a key with a value or none, or an item whose key, if it shows one, is
      well formed. */
  predicate WellSpelled(line: ParsedLine) {
    if !IsItem(line) then SplitKeyValue(line.text).KeyValue?
    else
      var itemText := ItemText(line.text);
      itemText == [] || (LooksLikeKeyValue(itemText) ==> SplitKeyValue(itemText).KeyValue?)
  }

  /** The line may have lines below it: a key without a value or a bare dash any block, an item that
      opens with a key only further properties. */
  predicate Opens(line: ParsedLine, below: ParsedLine) {
    if !IsItem(line) then SplitKeyValue(line.text).KeyValue? && SplitKeyValue(line.text).inline == []
    else ItemText(line.text) == [] || (LooksLikeKeyValue(ItemText(line.text)) && !IsItem(below))
  }

  /** Line `j` is the last one before line `i` that is not deeper. */
  predicate IsAnchor(lines: seq<ParsedLine>, i: nat, j: nat)
    requires i < |lines|
  {
    && j < i && lines[j].indent <= lines[i].indent
    && forall k :: j < k < i ==> lines[k].indent > lines[i].indent
  }

  /** Line `i` continues the block of its anchor, or is the first line of a block two deeper that its
      anchor, the line right before it, opens. */
  predicate Follows(lines: seq<ParsedLine>, i: nat, j: nat)
    requires j < i < |lines|
  {
    if lines[j].indent == lines[i].indent then IsItem(lines[j]) == IsItem(lines[i])
    else i == j + 1 && lines[i].indent == lines[j].indent + 2 && Opens(lines[j], lines[i])
  }

  predicate Fits(lines: seq<ParsedLine>, i: nat)
    requires i < |lines|
  {
    exists j: nat :: j < i && IsAnchor(lines, i, j) && Follows(lines, i, j)
  }

  predicate Acceptable(lines: seq<ParsedLine>) {
    forall i :: 0 <= i < |lines| ==> WellSpelled(lines[i]) && (i > 0 ==> Fits(lines, i))
  }

  // ----- segments -----------------------------------------------------------

  /** The first line from `lo` on that is shallower than `indent`, or the end. */
  function End(lines: seq<ParsedLine>, lo: nat, indent: nat): (hi: nat)
    requires lo <= |lines|
    ensures lo <= hi <= |lines|
    ensures forall k :: lo <= k < hi ==> lines[k].indent >= indent
    ensures hi < |lines| ==> lines[hi].indent < indent
    decreases |lines| - lo
  {
    if lo == |lines| || lines[lo].indent < indent then lo else End(lines, lo + 1, indent)
  }

  /** The lines from `lo` up to `hi` make one block at `indent`, of items or of properties. */
  predicate Good(lines: seq<ParsedLine>, lo: nat, hi: nat, indent: nat, items: bool)
    requires hi <= |lines|
  {
    && (lo < hi ==> lines[lo].indent == indent && IsItem(lines[lo]) == items)
    && forall i :: lo <= i < hi ==> WellSpelled(lines[i]) && (i > lo ==> Fits(lines, i))
  }

  /** What stands below line `lo`, up to `mid`, is a block it opens. */
  predicate Nested(lines: seq<ParsedLine>, lo: nat, mid: nat, indent: nat)
    requires lo < mid <= |lines|
  {
    lo + 1 < mid ==>
      && lines[lo + 1].indent == indent + 2 && Opens(lines[lo], lines[lo + 1])
      && Good(lines, lo + 1, mid, indent + 2, IsItem(lines[lo + 1]))
  }

  lemma {:induction false} AnchorUnique(lines: seq<ParsedLine>, i: nat, j: nat, k: nat)
    requires i < |lines| && IsAnchor(lines, i, j) && IsAnchor(lines, i, k)
    ensures j == k
  {
  }

  lemma {:induction false} FitsBy(lines: seq<ParsedLine>, i: nat, j: nat)
    requires i < |lines| && IsAnchor(lines, i, j)
    ensures Fits(lines, i) <==> Follows(lines, i, j)
  {
    if Fits(lines, i) {
      var k: nat :| k < i && IsAnchor(lines, i, k) && Follows(lines, i, k);
      AnchorUnique(lines, i, j, k);
    }
  }

  /** A block splits at the next line of its own depth. */
  lemma {:induction false} GoodSplits(lines: seq<ParsedLine>, lo: nat, mid: nat, hi: nat, indent: nat, items: bool)
    requires lo < mid <= hi <= |lines| && mid == End(lines, lo + 1, indent + 1)
    requires mid < hi ==> lines[mid].indent == indent
    requires lines[lo].indent == indent && IsItem(lines[lo]) == items
    ensures Good(lines, lo, hi, indent, items) <==>
            WellSpelled(lines[lo]) && Nested(lines, lo, mid, indent) && Good(lines, mid, hi, indent, items)
  {
    hide WellSpelled, Opens, IsItem, Fits;
    if lo + 1 < mid {
      assert IsAnchor(lines, lo + 1, lo);
      FitsBy(lines, lo + 1, lo);
    }
    if mid < hi {
      assert IsAnchor(lines, mid, lo);
      FitsBy(lines, mid, lo);
    }
  }

  lemma {:induction false} EndIs(lines: seq<ParsedLine>, lo: nat, indent: nat, hi: nat)
    requires lo <= hi <= |lines|
    requires forall k :: lo <= k < hi ==> lines[k].indent >= indent
    requires hi < |lines| ==> lines[hi].indent < indent
    ensures End(lines, lo, indent) == hi
  {
  }

  // ----- the readers accept exactly the good segments -----------------------

  /** The reader consumed everything up to `hi`. */
  predicate Reads<T>(r: Outcome<T>, hi: nat) {
    r.Done? && r.next == hi
  }

  /** A line between two depths does not fit, so a good block below a line has no such line. */
  lemma {:induction false} NothingBetween(lines: seq<ParsedLine>, lo: nat, mid: nat, indent: nat, items: bool)
    requires lo + 1 < mid <= |lines| && mid == End(lines, lo + 1, indent + 1)
    requires lines[lo].indent == indent && Good(lines, lo + 1, mid, indent + 2, items)
    ensures End(lines, lo + 1, indent + 2) == mid
  {
    hide WellSpelled, Opens, IsItem, Fits;
    var e := End(lines, lo + 1, indent + 2);
    if e < mid {
      assert lines[e].indent == indent + 1;
      assert IsAnchor(lines, e, lo);
      FitsBy(lines, e, lo);
    }
  }

  /** A reader started below a line reads up to the next line that is not deeper exactly when it reads
      its own block whole and nothing stands between the two depths. */
  lemma {:induction false} BelowExact<T>(lines: seq<ParsedLine>, lo: nat, mid: nat, indent: nat, items: bool, r: Outcome<T>)
    requires lo + 1 < mid <= |lines| && mid == End(lines, lo + 1, indent + 1) && lines[lo].indent == indent
    requires r.Done? ==> Laid(lines, lo + 1, r.next, indent + 2)
    requires var e := End(lines, lo + 1, indent + 2); Reads(r, e) <==> Good(lines, lo + 1, e, indent + 2, items)
    ensures Reads(r, mid) <==> Good(lines, lo + 1, mid, indent + 2, items)
  {
    hide Good, End;
    if Reads(r, mid) {
      EndIs(lines, lo + 1, indent + 2, mid);
    }
    if Good(lines, lo + 1, mid, indent + 2, items) {
      NothingBetween(lines, lo, mid, indent, items);
    }
  }

  lemma {:induction false} BlockExact(lines: seq<ParsedLine>, index: nat, indent: nat)
    requires index < |lines| && lines[index].indent == indent
    ensures var hi := End(lines, index, indent);
            Reads(Block(lines, index, indent), hi) <==> Good(lines, index, hi, indent, IsItem(lines[index]))
    decreases Remaining(lines, index), 1
  {
    hide Good, End;
    if IsItem(lines[index]) {
      ArrayExact(lines, index, indent, []);
    } else {
      ObjectExact(lines, index, indent, []);
    }
  }

  lemma {:induction false} NotGood(lines: seq<ParsedLine>, lo: nat, hi: nat, indent: nat, items: bool)
    requires lo < hi <= |lines| && (lines[lo].indent != indent || IsItem(lines[lo]) != items)
    ensures !Good(lines, lo, hi, indent, items)
  {
  }

  lemma {:induction false} DashIsNoProperty()
    ensures SplitKeyValue("-") == Malformed
  {
  }

  lemma {:induction false} ObjectExact(lines: seq<ParsedLine>, index: nat, indent: nat, acc: seq<Field>)
    requires index <= |lines|
    ensures var hi := End(lines, index, indent);
            Reads(ObjectFrom(lines, index, indent, acc), hi) <==> Good(lines, index, hi, indent, false)
    decreases Remaining(lines, index), 0
  {
    hide IndexOf, TrimStart, TrimEnd, ParseScalar, Put, WellSpelled, Fits;
    var hi := End(lines, index, indent);
    if index == hi {
    } else if lines[index].indent > indent || IsItem(lines[index]) {
      NotGood(lines, index, hi, indent, false);
      DashIsNoProperty();
    } else {
      var mid := End(lines, index + 1, indent + 1);
      hide Good, Nested, End;
      EndIs(lines, mid, indent, hi);
      GoodSplits(lines, index, mid, hi, indent, false);
      EntryExact(lines, index, indent);
      if Entry(lines, index, indent).Done? {
        var Done(field, next) := Entry(lines, index, indent);
        EntryLayout(lines, index, indent);
        if next == mid {
          ObjectExact(lines, mid, indent, Put(acc, field.key, field.value));
        }
      }
    }
  }

  lemma {:induction false} EntryExact(lines: seq<ParsedLine>, index: nat, indent: nat)
    requires index < |lines| && lines[index].indent == indent && !IsItem(lines[index])
    ensures var mid := End(lines, index + 1, indent + 1);
            Reads(Entry(lines, index, indent), mid) <==> WellSpelled(lines[index]) && Nested(lines, index, mid, indent)
    decreases Remaining(lines, index + 1), 2
  {
    hide IndexOf, TrimStart, TrimEnd, ParseScalar, SplitKeyValue, Good, End;
    var mid := End(lines, index + 1, indent + 1);
    if index + 1 < mid && lines[index + 1].indent == indent + 2 {
      BlockExact(lines, index + 1, indent + 2);
      var r := Block(lines, index + 1, indent + 2);
      if r.Done? {
        BlockLayout(lines, index + 1, indent + 2);
      }
      BelowExact(lines, index, mid, indent, IsItem(lines[index + 1]), r);
    }
  }

  lemma {:induction false} ArrayExact(lines: seq<ParsedLine>, index: nat, indent: nat, acc: seq<Value>)
    requires index <= |lines|
    ensures var hi := End(lines, index, indent);
            Reads(ArrayFrom(lines, index, indent, acc), hi) <==> Good(lines, index, hi, indent, true)
    decreases Remaining(lines, index), 0
  {
    hide IndexOf, TrimStart, TrimEnd, ParseScalar, WellSpelled, Fits;
    var hi := End(lines, index, indent);
    if index == hi {
    } else if lines[index].indent > indent || !IsItem(lines[index]) {
      NotGood(lines, index, hi, indent, true);
    } else {
      var mid := End(lines, index + 1, indent + 1);
      hide Good, Nested, End;
      EndIs(lines, mid, indent, hi);
      GoodSplits(lines, index, mid, hi, indent, true);
      ItemExact(lines, index, indent);
      if Item(lines, index, indent).Done? {
        var Done(item, next) := Item(lines, index, indent);
        ItemLayout(lines, index, indent);
        if next == mid {
          ArrayExact(lines, mid, indent, acc + [item]);
        }
      }
    }
  }

  lemma {:induction false} ItemExact(lines: seq<ParsedLine>, index: nat, indent: nat)
    requires index < |lines| && lines[index].indent == indent && IsItem(lines[index])
    ensures var mid := End(lines, index + 1, indent + 1);
            Reads(Item(lines, index, indent), mid) <==> WellSpelled(lines[index]) && Nested(lines, index, mid, indent)
    decreases Remaining(lines, index + 1), 2
  {
    hide IndexOf, TrimStart, TrimEnd, ParseScalar, SplitKeyValue, Assign, Good, End;
    var mid := End(lines, index + 1, indent + 1);
    if index + 1 < mid && lines[index + 1].indent == indent + 2 {
      if ItemText(lines[index].text) == [] {
        BlockExact(lines, index + 1, indent + 2);
        BareItemExact(lines, index, mid, indent);
      } else {
        ObjectExact(lines, index + 1, indent + 2, []);
        KeyedItemExact(lines, index, mid, indent);
      }
    } else {
      FlatItemExact(lines, index, mid, indent);
    }
  }

  /** Nothing below the item, or something at a depth where no block of its can be. */
  lemma {:induction false} FlatItemExact(lines: seq<ParsedLine>, index: nat, mid: nat, indent: nat)
    requires index < |lines| && lines[index].indent == indent && IsItem(lines[index])
    requires mid == End(lines, index + 1, indent + 1) && (index + 1 < mid ==> lines[index + 1].indent != indent + 2)
    ensures Reads(Item(lines, index, indent), mid) <==> WellSpelled(lines[index]) && Nested(lines, index, mid, indent)
  {
    hide IndexOf, TrimStart, TrimEnd, ParseScalar, SplitKeyValue, Assign, Good, End, ItemText;
  }

  lemma {:induction false} BareItemExact(lines: seq<ParsedLine>, index: nat, mid: nat, indent: nat)
    requires index < |lines| && lines[index].indent == indent && IsItem(lines[index]) && ItemText(lines[index].text) == []
    requires mid == End(lines, index + 1, indent + 1) && index + 1 < mid && lines[index + 1].indent == indent + 2
    requires var e := End(lines, index + 1, indent + 2);
             Reads(Block(lines, index + 1, indent + 2), e) <==> Good(lines, index + 1, e, indent + 2, IsItem(lines[index + 1]))
    ensures Reads(Item(lines, index, indent), mid) <==> WellSpelled(lines[index]) && Nested(lines, index, mid, indent)
  {
    hide IndexOf, TrimStart, TrimEnd, ParseScalar, SplitKeyValue, Good, End, ItemText;
    var r := Block(lines, index + 1, indent + 2);
    if r.Done? {
      BlockLayout(lines, index + 1, indent + 2);
    }
    BelowExact(lines, index, mid, indent, IsItem(lines[index + 1]), r);
  }

  lemma {:induction false} KeyedItemExact(lines: seq<ParsedLine>, index: nat, mid: nat, indent: nat)
    requires index < |lines| && lines[index].indent == indent && IsItem(lines[index]) && ItemText(lines[index].text) != []
    requires mid == End(lines, index + 1, indent + 1) && index + 1 < mid && lines[index + 1].indent == indent + 2
    requires var e := End(lines, index + 1, indent + 2);
             Reads(ObjectFrom(lines, index + 1, indent + 2, []), e) <==> Good(lines, index + 1, e, indent + 2, false)
    ensures Reads(Item(lines, index, indent), mid) <==> WellSpelled(lines[index]) && Nested(lines, index, mid, indent)
  {
    hide IndexOf, TrimStart, TrimEnd, ParseScalar, SplitKeyValue, Assign, Good, End, ItemText;
    var r := ObjectFrom(lines, index + 1, indent + 2, []);
    if r.Done? {
      ObjectLayout(lines, index + 1, indent + 2, []);
    }
    BelowExact(lines, index, mid, indent, false, r);
    if IsItem(lines[index + 1]) {
      NotGood(lines, index + 1, mid, indent + 2, false);
    }
  }

  /** The reader accepts a document exactly when every line is well spelled and fits its anchor. */
  lemma {:induction false} AcceptsExactlyWhen(lines: seq<ParsedLine>)
    ensures Document(lines).Done? <==> Acceptable(lines)
  {
    hide WellSpelled, Fits;
    if lines == [] {
    } else {
      var indent := lines[0].indent;
      var hi := End(lines, 0, indent);
      BlockExact(lines, 0, indent);
      if Block(lines, 0, indent).Done? {
        BlockLayout(lines, 0, indent);
      }
      if hi < |lines| {
        NoAnchor(lines, hi);
      }
    }
  }

  /** A line shallower than every line before it does not fit. */
  lemma {:induction false} NoAnchor(lines: seq<ParsedLine>, i: nat)
    requires i < |lines| && forall k :: 0 <= k < i ==> lines[k].indent > lines[i].indent
    ensures !Fits(lines, i)
  {
  }
}
