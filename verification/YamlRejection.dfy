/** Which line a rejection names: the first one that spoils the document, with the code that says how. */
module YamlRejection {
  import opened YamlParser
  import opened YamlStructure
  import opened YamlAcceptance

  // ----- a reader that stops early does not see what follows ----------------

  lemma {:induction false} BlockStable(lines: seq<ParsedLine>, i: nat, index: nat, indent: nat)
    requires index <= i <= |lines| && Block(lines, index, indent).Done? && Block(lines, index, indent).next <= i
    ensures Reads(Block(lines[..i], index, indent), Block(lines, index, indent).next)
    decreases Remaining(lines, index), 1
  {
    hide SplitKeyValue, ParseScalar, ItemText;
    if index >= |lines| || lines[index].indent < indent {
    } else if IsArrayItem(lines[index].text) {
      ArrayStable(lines, i, index, indent, [], []);
    } else {
      ObjectStable(lines, i, index, indent, [], []);
    }
  }

  lemma {:induction false} ObjectStable(lines: seq<ParsedLine>, i: nat, index: nat, indent: nat, acc: seq<Field>, acc': seq<Field>)
    requires index <= i <= |lines|
    requires ObjectFrom(lines, index, indent, acc).Done? && ObjectFrom(lines, index, indent, acc).next <= i
    ensures Reads(ObjectFrom(lines[..i], index, indent, acc'), ObjectFrom(lines, index, indent, acc).next)
    decreases Remaining(lines, index), 0
  {
    hide Entry, Put;
    if index >= |lines| || lines[index].indent < indent || "- " <= lines[index].text {
    } else {
      var Done(field, mid) := Entry(lines, index, indent);
      EntryStable(lines, i, index, indent);
      var Done(field', _) := Entry(lines[..i], index, indent);
      ObjectStable(lines, i, mid, indent, Put(acc, field.key, field.value), Put(acc', field'.key, field'.value));
    }
  }

  lemma {:induction false} EntryStable(lines: seq<ParsedLine>, i: nat, index: nat, indent: nat)
    requires index < i <= |lines| && Entry(lines, index, indent).Done? && Entry(lines, index, indent).next <= i
    ensures Reads(Entry(lines[..i], index, indent), Entry(lines, index, indent).next)
    decreases Remaining(lines, index + 1), 2
  {
    hide SplitKeyValue, ParseScalar, Block;
    if Deeper(lines, index + 1, indent) && Block(lines, index + 1, indent + 2).Done? && Block(lines, index + 1, indent + 2).next <= i {
      BlockStable(lines, i, index + 1, indent + 2);
    }
  }

  lemma {:induction false} ArrayStable(lines: seq<ParsedLine>, i: nat, index: nat, indent: nat, acc: seq<Value>, acc': seq<Value>)
    requires index <= i <= |lines|
    requires ArrayFrom(lines, index, indent, acc).Done? && ArrayFrom(lines, index, indent, acc).next <= i
    ensures Reads(ArrayFrom(lines[..i], index, indent, acc'), ArrayFrom(lines, index, indent, acc).next)
    decreases Remaining(lines, index), 0
  {
    hide Item;
    if index >= |lines| || lines[index].indent < indent || !IsArrayItem(lines[index].text) {
    } else {
      var Done(item, mid) := Item(lines, index, indent);
      ItemStable(lines, i, index, indent);
      var Done(item', _) := Item(lines[..i], index, indent);
      ArrayStable(lines, i, mid, indent, acc + [item], acc' + [item']);
    }
  }

  lemma {:induction false} ItemStable(lines: seq<ParsedLine>, i: nat, index: nat, indent: nat)
    requires index < i <= |lines| && IsArrayItem(lines[index].text)
    requires Item(lines, index, indent).Done? && Item(lines, index, indent).next <= i
    ensures Reads(Item(lines[..i], index, indent), Item(lines, index, indent).next)
    decreases Remaining(lines, index + 1), 2
  {
    hide SplitKeyValue, ParseScalar, ItemText, Assign, Block, ObjectFrom;
    if Deeper(lines, index + 1, indent) {
      if ItemText(lines[index].text) == [] {
        BlockStable(lines, i, index + 1, indent + 2);
      } else if ObjectFrom(lines, index + 1, indent + 2, []).Done? && ObjectFrom(lines, index + 1, indent + 2, []).next <= i {
        ObjectStable(lines, i, index + 1, indent + 2, [], []);
      }
    }
  }

  // ----- where a reader fails -----------------------------------------------

  /** The code and number of a failure at line `i`, met by a reader at `indent`. */
  predicate FailsAt<T>(lines: seq<ParsedLine>, i: nat, indent: nat, r: Outcome<T>) {
    && i < |lines| && r.Fail? && r.lineNumber == lines[i].lineNumber
    && (r.code == InvalidIndent ==> lines[i].indent > indent)
    && (r.code == InvalidMapping ==> !WellSpelled(lines[i]) || lines[i].text == "-")
    && r.code != TrailingContent
  }

  lemma {:induction false} ObjectFailsAlike(lines: seq<ParsedLine>, index: nat, indent: nat, acc: seq<Field>, acc': seq<Field>)
    requires index <= |lines| && ObjectFrom(lines, index, indent, acc).Fail?
    ensures ObjectFrom(lines, index, indent, acc').Fail?
  {
    if ObjectFrom(lines, index, indent, acc').Done? {
      assert lines[..|lines|] == lines;
      ObjectStable(lines, |lines|, index, indent, acc', acc);
    }
  }

  lemma {:induction false} ArrayFailsAlike(lines: seq<ParsedLine>, index: nat, indent: nat, acc: seq<Value>, acc': seq<Value>)
    requires index <= |lines| && ArrayFrom(lines, index, indent, acc).Fail?
    ensures ArrayFrom(lines, index, indent, acc').Fail?
  {
    if ArrayFrom(lines, index, indent, acc').Done? {
      assert lines[..|lines|] == lines;
      ArrayStable(lines, |lines|, index, indent, acc', acc);
    }
  }

  /** A failing reader names a line up to which it reads everything. */
  lemma {:induction false} BlockFails(lines: seq<ParsedLine>, index: nat, indent: nat) returns (i: nat)
    requires index <= |lines| && Block(lines, index, indent).Fail?
    ensures index <= i && FailsAt(lines, i, indent, Block(lines, index, indent))
    ensures Reads(Block(lines[..i], index, indent), i) && Block(lines[..i + 1], index, indent).Fail?
    decreases Remaining(lines, index), 1
  {
    hide SplitKeyValue, ParseScalar, ItemText, WellSpelled;
    if lines[index].indent != indent {
      i := index;
    } else if IsArrayItem(lines[index].text) {
      i := ArrayFails(lines, index, indent, [], []);
    } else {
      i := ObjectFails(lines, index, indent, [], []);
    }
  }

  lemma {:induction false} ObjectFails(lines: seq<ParsedLine>, index: nat, indent: nat, acc: seq<Field>, acc': seq<Field>) returns (i: nat)
    requires index <= |lines| && ObjectFrom(lines, index, indent, acc).Fail?
    ensures index <= i && FailsAt(lines, i, indent, ObjectFrom(lines, index, indent, acc))
    ensures Reads(ObjectFrom(lines[..i], index, indent, acc'), i) && ObjectFrom(lines[..i + 1], index, indent, acc').Fail?
    decreases Remaining(lines, index), 0
  {
    hide Entry, Put, WellSpelled;
    if lines[index].indent > indent {
      i := index;
    } else if Entry(lines, index, indent).Fail? {
      i := EntryFails(lines, index, indent);
      if i > index {
        var Done(field', _) := Entry(lines[..i], index, indent);
        assert ObjectFrom(lines[..i], i, indent, Put(acc', field'.key, field'.value)).next == i;
      }
    } else {
      var Done(field, mid) := Entry(lines, index, indent);
      i := ObjectFails(lines, mid, indent, Put(acc, field.key, field.value), []);
      EntryStable(lines, i, index, indent);
      var Done(field', _) := Entry(lines[..i], index, indent);
      assert lines[..i][..i] == lines[..i];
      ObjectStable(lines[..i], i, mid, indent, [], Put(acc', field'.key, field'.value));
      EntryStable(lines, i + 1, index, indent);
      var Done(field'', _) := Entry(lines[..i + 1], index, indent);
      ObjectFailsAlike(lines[..i + 1], mid, indent, [], Put(acc', field''.key, field''.value));
    }
  }

  lemma {:induction false} EntryFails(lines: seq<ParsedLine>, index: nat, indent: nat) returns (i: nat)
    requires index < |lines| && lines[index].indent == indent && !("- " <= lines[index].text) && Entry(lines, index, indent).Fail?
    ensures index <= i && FailsAt(lines, i, indent, Entry(lines, index, indent))
    ensures i > index ==> Reads(Entry(lines[..i], index, indent), i)
    ensures Entry(lines[..i + 1], index, indent).Fail?
    decreases Remaining(lines, index + 1), 2
  {
    hide SplitKeyValue, ParseScalar, Block;
    if SplitKeyValue(lines[index].text).Malformed? {
      i := index;
    } else {
      i := BlockFails(lines, index + 1, indent + 2);
    }
  }

  lemma {:induction false} ArrayFails(lines: seq<ParsedLine>, index: nat, indent: nat, acc: seq<Value>, acc': seq<Value>) returns (i: nat)
    requires index <= |lines| && ArrayFrom(lines, index, indent, acc).Fail?
    ensures index <= i && FailsAt(lines, i, indent, ArrayFrom(lines, index, indent, acc))
    ensures Reads(ArrayFrom(lines[..i], index, indent, acc'), i) && ArrayFrom(lines[..i + 1], index, indent, acc').Fail?
    decreases Remaining(lines, index), 0
  {
    hide Item, WellSpelled;
    if lines[index].indent > indent {
      i := index;
    } else if Item(lines, index, indent).Fail? {
      i := ItemFails(lines, index, indent);
      if i > index {
        var Done(item', _) := Item(lines[..i], index, indent);
        assert ArrayFrom(lines[..i], i, indent, acc' + [item']).next == i;
      }
    } else {
      var Done(item, mid) := Item(lines, index, indent);
      i := ArrayFails(lines, mid, indent, acc + [item], []);
      ItemStable(lines, i, index, indent);
      var Done(item', _) := Item(lines[..i], index, indent);
      assert lines[..i][..i] == lines[..i];
      ArrayStable(lines[..i], i, mid, indent, [], acc' + [item']);
      ItemStable(lines, i + 1, index, indent);
      var Done(item'', _) := Item(lines[..i + 1], index, indent);
      ArrayFailsAlike(lines[..i + 1], mid, indent, [], acc' + [item'']);
    }
  }

  lemma {:induction false} ItemFails(lines: seq<ParsedLine>, index: nat, indent: nat) returns (i: nat)
    requires index < |lines| && lines[index].indent == indent && IsArrayItem(lines[index].text) && Item(lines, index, indent).Fail?
    ensures index <= i && FailsAt(lines, i, indent, Item(lines, index, indent))
    ensures i > index ==> Reads(Item(lines[..i], index, indent), i)
    ensures Item(lines[..i + 1], index, indent).Fail?
    decreases Remaining(lines, index + 1), 2
  {
    hide SplitKeyValue, ParseScalar, ItemText, Assign, Block, ObjectFrom;
    var itemText := ItemText(lines[index].text);
    if itemText == [] {
      i := BlockFails(lines, index + 1, indent + 2);
    } else if SplitKeyValue(itemText).Malformed? {
      i := index;
    } else {
      i := ObjectFails(lines, index + 1, indent + 2, [], []);
    }
  }

  // ----- the whole document -------------------------------------------------

  lemma {:induction false} AcceptablePrefix(lines: seq<ParsedLine>, i: nat, k: nat)
    requires k < i <= |lines|
    ensures Fits(lines[..i], k) <==> Fits(lines, k)
  {
    var p := lines[..i];
    if j: nat :| j < k && IsAnchor(p, k, j) && Follows(p, k, j) {
      assert IsAnchor(lines, k, j) && Follows(lines, k, j);
    }
    if j: nat :| j < k && IsAnchor(lines, k, j) && Follows(lines, k, j) {
      assert IsAnchor(p, k, j) && Follows(p, k, j);
    }
  }

  /** Line `i` is the first one that is ill spelled or does not fit. */
  predicate FirstBad(lines: seq<ParsedLine>, i: nat) {
    && i < |lines| && Acceptable(lines[..i])
    && (!WellSpelled(lines[i]) || (i > 0 && !Fits(lines, i)))
  }

  lemma {:induction false} PrefixDecides(lines: seq<ParsedLine>, i: nat)
    requires i < |lines| && Acceptable(lines[..i]) && !Acceptable(lines[..i + 1])
    ensures FirstBad(lines, i)
  {
    hide WellSpelled, Fits;
    forall k: nat | k <= i
      ensures Fits(lines[..i + 1], k) <==> Fits(lines, k)
      ensures k < i ==> (Fits(lines[..i], k) <==> Fits(lines, k))
    {
      AcceptablePrefix(lines, i + 1, k);
      if k < i {
        AcceptablePrefix(lines, i, k);
      }
    }
  }

  /** A rejection names the first line that is ill spelled or does not fit its anchor. An indentation
      error is deeper than the first line of the document, trailing content is not; a mapping error is an
      ill-spelled line, or a bare dash where a property is read. */
  lemma {:induction false} RejectionNamesFirstBad(lines: seq<ParsedLine>) returns (i: nat)
    requires Document(lines).Fail?
    ensures FirstBad(lines, i) && Document(lines).lineNumber == lines[i].lineNumber
    ensures Document(lines).code == InvalidIndent ==> lines[i].indent > lines[0].indent
    ensures Document(lines).code == TrailingContent ==> i > 0 && lines[i].indent <= lines[0].indent
    ensures Document(lines).code == InvalidMapping ==> !WellSpelled(lines[i]) || lines[i].text == "-"
  {
    hide Block, WellSpelled, FirstBad, Acceptable;
    var indent := lines[0].indent;
    var r := Block(lines, 0, indent);
    if r.Fail? {
      i := BlockFails(lines, 0, indent);
    } else {
      i := r.next;
      BlockStops(lines);
      BlockStable(lines, i, 0, indent);
      BlockStable(lines, i + 1, 0, indent);
    }
    if i > 0 {
      assert lines[..i][0] == lines[0];
    }
    assert lines[..i + 1][0] == lines[0];
    AcceptsExactlyWhen(lines[..i]);
    AcceptsExactlyWhen(lines[..i + 1]);
    PrefixDecides(lines, i);
  }

  lemma {:induction false} BlockStops(lines: seq<ParsedLine>)
    requires lines != [] && Block(lines, 0, lines[0].indent).Done? && Block(lines, 0, lines[0].indent).next < |lines|
    ensures var next := Block(lines, 0, lines[0].indent).next; next > 0 && lines[next].indent <= lines[0].indent
  {
    hide SplitKeyValue, ParseScalar, ItemText, Item, Entry;
    BlockLayout(lines, 0, lines[0].indent);
  }
}
