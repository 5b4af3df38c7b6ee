/** What the lines of a document mean: which lines are tokens, what a property or an item reads as from
    its text, and what an object or an array makes of the properties or items it reads. */
module YamlMeaning {
  import opened Basics
  import opened Text
  import opened YamlParser
  import opened YamlStructure

  // ----- tokens -------------------------------------------------------------

  /** The line shows something: a first character that is neither space nor the start of a comment. */
  ghost predicate Shows(raw: string) {
    exists k :: 0 <= k < |raw| && AllSpace(raw[..k]) && !IsSpace(raw[k]) && raw[k] != '#'
  }

  lemma {:induction false} FirstVisible(raw: string) returns (k: nat)
    ensures k <= |raw| && AllSpace(raw[..k]) && TrimStart(raw) == raw[k..]
    ensures k < |raw| ==> !IsSpace(raw[k])
  {
    if raw == [] || !IsSpace(raw[0]) {
      k := 0;
    } else {
      k := FirstVisible(raw[1..]);
      assert raw[1..][..k] == raw[1..k + 1] && raw[1..][k..] == raw[k + 1..];
      k := k + 1;
    }
  }

  /** Blank lines and comments are skipped, and no other line is. */
  lemma {:induction false} IgnoredExactlyWhen(raw: string)
    ensures IsIgnored(raw) <==> !Shows(raw)
  {
    var k := FirstVisible(raw);
    var rest := TrimStart(raw);
    TrimEndPrefix(rest);
    if k < |raw| {
      TrimEndKeepsFirst(rest);
      assert "#" <= rest <==> rest[0] == '#';
    } else {
      assert rest == [];
    }
  }

  function TokenOf(raw: string, lineNumber: nat): ParsedLine {
    ParsedLine(LeadingBlanks(raw), Trim(raw), lineNumber)
  }

  predicate Ascending(lines: seq<ParsedLine>) {
    forall i, j :: 0 <= i < j < |lines| ==> lines[i].lineNumber < lines[j].lineNumber
  }

  /** Line `i`, counted from `first`, shows something and is token `t`. */
  ghost predicate IsTokenOf(rawLines: seq<string>, first: nat, t: ParsedLine, i: int) {
    0 <= i < |rawLines| && Shows(rawLines[i]) && t == TokenOf(rawLines[i], first + i)
  }

  ghost predicate HasToken(rawLines: seq<string>, first: nat, t: ParsedLine) {
    exists i :: IsTokenOf(rawLines, first, t, i)
  }

  lemma {:induction false} HasTokenStep(rawLines: seq<string>, first: nat, t: ParsedLine)
    requires rawLines != []
    ensures HasToken(rawLines, first, t) <==>
            (Shows(rawLines[0]) && t == TokenOf(rawLines[0], first)) || HasToken(rawLines[1..], first + 1, t)
  {
    hide Shows, TokenOf;
    var rest, next := rawLines[1..], first + 1;
    if i :| IsTokenOf(rest, next, t, i) {
      assert IsTokenOf(rawLines, first, t, i + 1);
    }
    if i :| IsTokenOf(rawLines, first, t, i) {
      assert i == 0 || IsTokenOf(rest, next, t, i - 1);
    }
    if Shows(rawLines[0]) && t == TokenOf(rawLines[0], first) {
      assert IsTokenOf(rawLines, first, t, 0);
    }
  }

  /** The tokens are the lines that show something, in order, each with its own number. */
  lemma {:induction false} TokensAreVisibleLines(rawLines: seq<string>, first: nat)
    ensures Ascending(TokensFrom(rawLines, first))
    ensures forall t :: t in TokensFrom(rawLines, first) <==> HasToken(rawLines, first, t)
  {
    hide Shows, TokenOf, HasToken, Trim, LeadingBlanks, IsIgnored;
    if rawLines == [] {
      NoToken(first);
    } else {
      TokensStep(rawLines, first);
      TokensAreVisibleLines(rawLines[1..], first + 1);
      NumbersFrom(rawLines[1..], first + 1);
      TokenNumber(rawLines[0], first);
      hide TokensFrom;
      forall t
        ensures t in TokensFrom(rawLines, first) <==> HasToken(rawLines, first, t)
      {
        HasTokenStep(rawLines, first, t);
      }
    }
  }

  lemma {:induction false} NoToken(first: nat)
    ensures forall t :: !HasToken([], first, t)
  {
  }

  lemma {:induction false} TokenNumber(raw: string, lineNumber: nat)
    ensures TokenOf(raw, lineNumber).lineNumber == lineNumber
  {
  }

  lemma {:induction false} TokensStep(rawLines: seq<string>, first: nat)
    requires rawLines != []
    ensures TokensFrom(rawLines, first) ==
            (if Shows(rawLines[0]) then [TokenOf(rawLines[0], first)] else []) + TokensFrom(rawLines[1..], first + 1)
  {
    hide Shows, IsIgnored, Trim, LeadingBlanks;
    IgnoredExactlyWhen(rawLines[0]);
  }

  lemma {:induction false} NumbersFrom(rawLines: seq<string>, first: nat)
    ensures forall t :: t in TokensFrom(rawLines, first) ==> t.lineNumber >= first
  {
    hide IsIgnored, Trim, LeadingBlanks;
    if rawLines == [] {
    } else {
      NumbersFrom(rawLines[1..], first + 1);
    }
  }

  lemma {:induction false} IndentIsBlanks(raw: string)
    ensures var n := LeadingBlanks(raw);
            n <= |raw| && (forall i :: 0 <= i < n ==> raw[i] == ' ') && (n < |raw| ==> raw[n] != ' ')
  {
    if raw == [] || raw[0] != ' ' {
    } else {
      IndentIsBlanks(raw[1..]);
    }
  }

  lemma {:induction false} TrimStartTail(s: string, c: char)
    requires IsSpace(c)
    ensures TrimStart(s + [c]) == if TrimStart(s) == [] then [] else TrimStart(s) + [c]
  {
    if s == [] {
      assert s + [c] == [c] && [c][1..] == [];
    } else if IsSpace(s[0]) {
      assert (s + [c])[1..] == s[1..] + [c];
      TrimStartTail(s[1..], c);
    }
  }

  lemma {:induction false} BlanksTail(s: string)
    ensures LeadingBlanks(s + ['\r']) == LeadingBlanks(s)
  {
    if s == [] {
      assert s + ['\r'] == ['\r'];
    } else {
      assert (s + ['\r'])[1..] == s[1..] + ['\r'];
      BlanksTail(s[1..]);
    }
  }

  /** A carriage return at the end of a line makes no difference to its token. */
  lemma {:induction false} CarriageReturnInvisible(s: string)
    ensures IsIgnored(s + ['\r']) == IsIgnored(s) && Trim(s + ['\r']) == Trim(s) && LeadingBlanks(s + ['\r']) == LeadingBlanks(s)
  {
    TrimStartTail(s, '\r');
    BlanksTail(s);
    var x := TrimStart(s);
    assert (x + ['\r'])[..|x|] == x;
  }

  /** The two lists differ only in carriage returns at the ends of lines. */
  predicate SameButReturns(a: seq<string>, b: seq<string>) {
    |a| == |b| && forall i :: 0 <= i < |a| ==> a[i] == b[i] || a[i] + ['\r'] == b[i]
  }

  lemma {:induction false} SameTokens(a: seq<string>, b: seq<string>, first: nat)
    requires SameButReturns(a, b)
    ensures TokensFrom(a, first) == TokensFrom(b, first)
  {
    hide IsIgnored, Trim, LeadingBlanks;
    if a == [] {
    } else {
      CarriageReturnInvisible(a[0]);
      SameTokens(a[1..], b[1..], first + 1);
    }
  }

  /** Windows and Unix line ends read alike: the tokens are those of the text cut at its line feeds. */
  lemma {:induction false} LineEndsReadAlike(raw: string)
    ensures Tokenize(raw) == TokensFrom(Split(raw, '\n'), 1)
  {
    hide Split, TokensFrom;
    var a, b := SplitLines(raw), Split(raw, '\n');
    forall i | 0 <= i < |b|
      ensures a[i] == b[i] || a[i] + ['\r'] == b[i]
    {
      if b[i] != [] && b[i][|b[i]| - 1] == '\r' {
        assert b[i] == b[i][..|b[i]| - 1] + ['\r'];
      }
    }
    SameTokens(a, b, 1);
  }

  // ----- properties and items, from their text ------------------------------

  /** A text splits at its first colon into a key and the rest, both trimmed. */
  lemma {:induction false} SplitsAtColon(key: string, rest: string)
    requires ':' !in key && Trim(key) != []
    ensures SplitKeyValue(key + ":" + rest) == KeyValue(Trim(key), Trim(rest))
  {
    hide TrimStart, TrimEnd;
    var text := key + ":" + rest;
    IndexOfPrefix(key, rest, ':');
    assert text == key + [':'] + rest;
    assert text[..|key|] == key && text[|key| + 1..] == rest;
    if key == [] {
      TrimIdentity([]);
    }
  }

  /** What stands for the value of a key or a bare dash: the block below, or nothing. */
  ghost predicate BelowOrNull(lines: seq<ParsedLine>, index: nat, indent: nat, value: Value, next: nat) {
    if Deeper(lines, index + 1, indent) then Block(lines, index + 1, indent + 2) == Done(value, next)
    else value == Null && next == index + 1
  }

  /** A line `key: rest` among properties: the key is trimmed; a rest that is not blank is the scalar it
      spells; otherwise the value is the block below, or null when there is none. */
  lemma {:induction false} PropertyMeans(lines: seq<ParsedLine>, index: nat, indent: nat, key: string, rest: string)
    requires index < |lines| && lines[index].text == key + ":" + rest && ':' !in key && Trim(key) != []
    requires Entry(lines, index, indent).Done?
    ensures var Done(field, next) := Entry(lines, index, indent);
            && field.key == Trim(key)
            && (Trim(rest) != "" ==> field.value == ParseScalar(Trim(rest)) && next == index + 1)
            && (Trim(rest) == "" ==> BelowOrNull(lines, index, indent, field.value, next))
  {
    hide Trim, ParseScalar, Block;
    SplitsAtColon(key, rest);
  }

  /** A bare dash: the block below, or null. */
  lemma {:induction false} BareItemMeans(lines: seq<ParsedLine>, index: nat, indent: nat)
    requires index < |lines| && lines[index].text == "-" && Item(lines, index, indent).Done?
    ensures BelowOrNull(lines, index, indent, Item(lines, index, indent).value, Item(lines, index, indent).next)
  {
    hide Block;
  }

  /** A dash with text that shows no colon: the scalar it spells, whatever stands below. */
  lemma {:induction false} ScalarItemMeans(lines: seq<ParsedLine>, index: nat, indent: nat, text: string)
    requires index < |lines| && lines[index].text == "- " + text && ':' !in text && Trim(text) != ""
    ensures Item(lines, index, indent) == Done(ParseScalar(Trim(text)), index + 1)
  {
    hide TrimStart, TrimEnd, ParseScalar, Block, ObjectFrom;
    assert ("- " + text)[2..] == text;
    TrimResult(text);
  }

  // ----- objects ------------------------------------------------------------

  function Lookup(fields: seq<Field>, key: string): Option<Value> {
    if fields == [] then None else if fields[0].key == key then Some(fields[0].value) else Lookup(fields[1..], key)
  }

  /** The value of the last property with this key, if any. */
  function LastOf(fields: seq<Field>, key: string): Option<Value> {
    if fields == [] then None
    else if fields[|fields| - 1].key == key then Some(fields[|fields| - 1].value)
    else LastOf(fields[..|fields| - 1], key)
  }

  function KeysOf(fields: seq<Field>): (keys: seq<string>)
    ensures |keys| == |fields| && forall i :: 0 <= i < |fields| ==> keys[i] == fields[i].key
  {
    seq(|fields|, i requires 0 <= i < |fields| => fields[i].key)
  }

  /** The object shows the listed properties: each key once, in the order of first appearance, with the
      value it was given last. */
  ghost predicate ShowsLast(fields: seq<Field>, listed: seq<Field>) {
    && KeysOf(fields) == Unique(KeysOf(listed))
    && forall key :: Lookup(fields, key) == LastOf(listed, key)
  }

  lemma {:induction false} PutShows(fields: seq<Field>, key: string, value: Value, k: string)
    ensures Lookup(Put(fields, key, value), k) == if k == key then Some(value) else Lookup(fields, k)
    ensures KeysOf(Put(fields, key, value)) == if key in KeysOf(fields) then KeysOf(fields) else KeysOf(fields) + [key]
  {
    hide KeysOf;
    if fields == [] {
      assert KeysOf([Field(key, value)]) == [key] && KeysOf([]) == [];
      assert [Field(key, value)][1..] == [];
    } else {
      var f, rest := fields[0], fields[1..];
      PutShows(rest, key, value, k);
      KeysCons(f, rest);
      assert fields == [f] + rest;
      if f.key == key {
        KeysCons(Field(key, value), rest);
        assert ([Field(key, value)] + rest)[1..] == rest;
      } else {
        KeysCons(f, Put(rest, key, value));
        assert ([f] + Put(rest, key, value))[1..] == Put(rest, key, value);
      }
    }
  }

  lemma {:induction false} KeysCons(f: Field, rest: seq<Field>)
    ensures KeysOf([f] + rest) == [f.key] + KeysOf(rest)
  {
  }

  lemma {:induction false} PutShowsLast(fields: seq<Field>, listed: seq<Field>, f: Field)
    requires ShowsLast(fields, listed)
    ensures ShowsLast(Put(fields, f.key, f.value), listed + [f])
  {
    hide Put, Lookup, KeysOf, Unique;
    var longer := listed + [f];
    assert longer[..|longer| - 1] == listed;
    assert KeysOf(longer) == KeysOf(listed) + [f.key];
    UniqueSnoc(KeysOf(listed), f.key);
    forall key
      ensures Lookup(Put(fields, f.key, f.value), key) == LastOf(longer, key)
    {
      PutShows(fields, f.key, f.value, key);
    }
    PutShows(fields, f.key, f.value, f.key);
  }

  /** The properties an object reads, one after another. */
  function Properties(lines: seq<ParsedLine>, index: nat, indent: nat): seq<Field>
    decreases Remaining(lines, index)
  {
    if index >= |lines| || lines[index].indent != indent || "- " <= lines[index].text then []
    else
      match Entry(lines, index, indent)
      case Done(field, next) => [field] + Properties(lines, next, indent)
      case Fail(_, _) => []
  }

  /** An object holds each key it reads once, in the order of first appearance, and the value it was
      given last wins. */
  lemma {:induction false} ObjectShowsLast(lines: seq<ParsedLine>, index: nat, indent: nat, acc: seq<Field>, listed: seq<Field>)
    requires ShowsLast(acc, listed) && ObjectFrom(lines, index, indent, acc).Done?
    ensures ShowsLast(ObjectFrom(lines, index, indent, acc).value, listed + Properties(lines, index, indent))
    decreases Remaining(lines, index)
  {
    hide ShowsLast, Entry, Put;
    if index >= |lines| || lines[index].indent < indent || "- " <= lines[index].text {
      assert listed + [] == listed;
    } else {
      var Done(field, next) := Entry(lines, index, indent);
      PutShowsLast(acc, listed, field);
      ObjectShowsLast(lines, next, indent, Put(acc, field.key, field.value), listed + [field]);
      assert listed + [field] + Properties(lines, next, indent) == listed + ([field] + Properties(lines, next, indent));
    }
  }

  lemma {:induction false} NothingShown()
    ensures ShowsLast([], [])
  {
  }

  /** What `parseObject` returns, for every start. */
  lemma {:induction false} ObjectMeans(lines: seq<ParsedLine>, index: nat, indent: nat)
    requires ObjectFrom(lines, index, indent, []).Done?
    ensures ShowsLast(ObjectFrom(lines, index, indent, []).value, Properties(lines, index, indent))
  {
    hide ShowsLast;
    NothingShown();
    ObjectShowsLast(lines, index, indent, [], []);
    assert [] + Properties(lines, index, indent) == Properties(lines, index, indent);
  }

  // ----- items that open with a key -----------------------------------------

  lemma {:induction false} AssignShowsLast(target: seq<Field>, source: seq<Field>, listed: seq<Field>)
    requires ShowsLast(target, listed)
    ensures ShowsLast(Assign(target, source), listed + source)
    decreases |source|
  {
    hide ShowsLast, Put;
    if source == [] {
      assert listed + source == listed;
    } else {
      var f := source[0];
      PutShowsLast(target, listed, f);
      AssignShowsLast(Put(target, f.key, f.value), source[1..], listed + [f]);
      assert listed + [f] + source[1..] == listed + source;
    }
  }

  /** A dash followed by `key: rest`: an object whose first property is that key with the scalar the rest
      spells, or null; the properties two deeper below follow it, and one with the same key wins. */
  lemma {:induction false} KeyedItemMeans(lines: seq<ParsedLine>, index: nat, indent: nat, key: string, rest: string)
    requires index < |lines| && lines[index].text == "- " + key + ":" + rest && ':' !in key
    requires IsTrimmed(key + ":" + rest) && Trim(key) != [] && Item(lines, index, indent).Done?
    ensures var head := Field(Trim(key), if Trim(rest) == "" then Null else ParseScalar(Trim(rest)));
            var below := if Deeper(lines, index + 1, indent) then ObjectFrom(lines, index + 1, indent + 2, []) else Done([], index + 1);
            && below.Done? && Item(lines, index, indent).value.Obj? && Item(lines, index, indent).next == below.next
            && ShowsLast(Item(lines, index, indent).value.fields, [head] + below.value)
  {
    hide Trim, IsTrimmed, ParseScalar, Block, ObjectFrom, ShowsLast, Assign, SplitKeyValue, ItemText, LooksLikeKeyValue;
    KeyedItemSplits(lines[index].text, key, rest);
    var head := Field(Trim(key), if Trim(rest) == "" then Null else ParseScalar(Trim(rest)));
    OneShown(head);
    assert [head] + [] == [head];
    if Deeper(lines, index + 1, indent) {
      AssignShowsLast([head], ObjectFrom(lines, index + 1, indent + 2, []).value, [head]);
    }
  }

  lemma {:induction false} KeyedItemSplits(text: string, key: string, rest: string)
    requires text == "- " + key + ":" + rest && ':' !in key && IsTrimmed(key + ":" + rest) && Trim(key) != []
    ensures IsArrayItem(text) && ItemText(text) != [] && LooksLikeKeyValue(ItemText(text))
    ensures SplitKeyValue(ItemText(text)) == KeyValue(Trim(key), Trim(rest))
  {
    hide TrimStart, TrimEnd, SplitKeyValue;
    var shown := key + ":" + rest;
    assert text == "- " + shown && ("- " + shown)[2..] == shown;
    TrimIdentity(shown);
    SplitsAtColon(key, rest);
    assert shown[|key|] == ':';
  }

  lemma {:induction false} OneShown(f: Field)
    ensures ShowsLast([f], [f])
  {
    NothingShown();
    PutShowsLast([], [], f);
    assert [] + [f] == [f];
  }

  // ----- arrays -------------------------------------------------------------

  /** The items an array reads, one after another. */
  function Items(lines: seq<ParsedLine>, index: nat, indent: nat): seq<Value>
    decreases Remaining(lines, index)
  {
    if index >= |lines| || lines[index].indent != indent || !IsArrayItem(lines[index].text) then []
    else
      match Item(lines, index, indent)
      case Done(item, next) => [item] + Items(lines, next, indent)
      case Fail(_, _) => []
  }

  /** An array holds exactly the items it reads, in order. */
  lemma {:induction false} ArrayMeans(lines: seq<ParsedLine>, index: nat, indent: nat, acc: seq<Value>)
    requires ArrayFrom(lines, index, indent, acc).Done?
    ensures ArrayFrom(lines, index, indent, acc).value == acc + Items(lines, index, indent)
    decreases Remaining(lines, index)
  {
    hide Item;
    if index >= |lines| || lines[index].indent < indent || !IsArrayItem(lines[index].text) {
    } else {
      var Done(item, next) := Item(lines, index, indent);
      ArrayMeans(lines, next, indent, acc + [item]);
    }
  }
}
