/** What every scalar text reads as, said without the reader: literals, numerals, quoted text, lists in
    brackets, and everything else as it stands. */
module YamlScalars {
  import opened Text
  import opened YamlParser

  const LITERALS := ["true", "false", "null"]

  /** `text` between two quotes of the same kind. */
  predicate IsQuoted(raw: string, text: string) {
    raw == "\"" + text + "\"" || raw == "'" + text + "'"
  }

  /** `raw` is none of the special forms. */
  predicate IsPlain(raw: string) {
    && raw !in LITERALS && !IsIntText(raw)
    && !(raw != "" && raw[0] == '[' && raw[|raw| - 1] == ']')
    && !(raw != "" && raw[0] == '"' && raw[|raw| - 1] == '"')
    && !(raw != "" && raw[0] == '\'' && raw[|raw| - 1] == '\'')
  }

  lemma {:induction false} LiteralReads()
    ensures ParseScalar("true") == Bool(true) && ParseScalar("false") == Bool(false) && ParseScalar("null") == Null
  {
  }

  lemma {:induction false} NumeralReads(raw: string)
    requires IsIntText(raw)
    ensures ParseScalar(raw) == Num(IntValue(raw))
  {
    hide IntValue;
    assert raw[0] == '-' || IsDigit(raw[0]);
  }

  lemma {:induction false} QuotedReads(raw: string, text: string)
    requires IsQuoted(raw, text)
    ensures ParseScalar(raw) == Str(text)
  {
    assert raw[0] in {'"', '\''} && raw[|raw| - 1] == raw[0];
    assert raw[1..|raw| - 1] == text;
    assert !IsIntText(raw) by {
      assert !IsDigit(raw[0]);
    }
  }

  /** A lone quote opens and closes itself. */
  lemma {:induction false} LoneQuoteReads()
    ensures ParseScalar("\"") == Str("") && ParseScalar("'") == Str("")
  {
    assert !IsIntText("\"") && !IsIntText("'") by {
      assert !IsDigit("\""[0]) && !IsDigit("'"[0]);
    }
  }

  /** The parts of a list in brackets, each trimmed; none when there is nothing between the brackets. */
  function ListParts(inner: string): seq<string> {
    if Trim(inner) == [] then []
    else
      var parts := Split(Trim(inner), ',');
      seq(|parts|, i requires 0 <= i < |parts| => Trim(parts[i]))
  }

  lemma {:induction false} ListReads(inner: string)
    ensures var v := ParseScalar("[" + inner + "]");
            && v.Arr? && |v.items| == |ListParts(inner)|
            && forall i :: 0 <= i < |v.items| ==> v.items[i] == ParseScalar(ListParts(inner)[i])
  {
    hide Split, TrimStart, TrimEnd, IndexOf, IsIntText;
    var raw := "[" + inner + "]";
    assert raw[0] == '[' && raw[|raw| - 1] == ']' && raw[1..|raw| - 1] == inner;
    assert raw !in LITERALS;
    assert FlowParts(inner) == ListParts(inner);
  }

  lemma {:induction false} EmptyListReads()
    ensures ParseScalar("[]") == Arr([])
  {
    hide ParseScalar;
    assert "[" + "" + "]" == "[]";
    ListReads("");
    assert ListParts("") == [];
  }

  lemma {:induction false} PlainReads(raw: string)
    requires IsPlain(raw)
    ensures ParseScalar(raw) == Str(raw)
  {
  }

  /** The forms exclude one another and leave nothing out: each text reads as exactly what its form says. */
  lemma {:induction false} EveryScalarReads(raw: string)
    ensures raw == "true" ==> ParseScalar(raw) == Bool(true)
    ensures raw == "false" ==> ParseScalar(raw) == Bool(false)
    ensures raw == "null" ==> ParseScalar(raw) == Null
    ensures IsIntText(raw) ==> ParseScalar(raw) == Num(IntValue(raw))
    ensures forall text :: IsQuoted(raw, text) ==> ParseScalar(raw) == Str(text)
    ensures |raw| == 1 && raw[0] in {'"', '\''} ==> ParseScalar(raw) == Str("")
    ensures |raw| >= 2 && raw[0] == '[' && raw[|raw| - 1] == ']' ==>
              var v, parts := ParseScalar(raw), ListParts(raw[1..|raw| - 1]);
              v.Arr? && |v.items| == |parts| && forall i :: 0 <= i < |parts| ==> v.items[i] == ParseScalar(parts[i])
    ensures IsPlain(raw) ==> ParseScalar(raw) == Str(raw)
  {
    hide ParseScalar, IntValue, ListParts;
    LiteralReads();
    if IsIntText(raw) {
      NumeralReads(raw);
    }
    forall text | IsQuoted(raw, text)
      ensures ParseScalar(raw) == Str(text)
    {
      QuotedReads(raw, text);
    }
    if |raw| == 1 && raw[0] in {'"', '\''} {
      LoneQuoteReads();
      assert raw == "\"" || raw == "'";
    }
    if |raw| >= 2 && raw[0] == '[' && raw[|raw| - 1] == ']' {
      assert raw == "[" + raw[1..|raw| - 1] + "]";
      ListReads(raw[1..|raw| - 1]);
    }
    if IsPlain(raw) {
      PlainReads(raw);
    }
  }

  // ----- a list written in brackets reads back ------------------------------

  /** Texts that can stand in a list: trimmed and without a comma. */
  predicate ListTexts(texts: seq<string>) {
    forall i :: 0 <= i < |texts| ==> IsTrimmed(texts[i]) && ',' !in texts[i]
  }

  /** Writing texts between brackets with commas and reading gives the scalars they spell, in order. */
  lemma {:induction false} WrittenListReads(texts: seq<string>)
    requires texts != [] && ListTexts(texts) && IsTrimmed(Join(texts, ',')) && Join(texts, ',') != []
    ensures var v := ParseScalar("[" + Join(texts, ',') + "]");
            && v.Arr? && |v.items| == |texts|
            && forall i :: 0 <= i < |texts| ==> v.items[i] == ParseScalar(texts[i])
  {
    hide ParseScalar, Split, TrimStart, TrimEnd, Join;
    var inner := Join(texts, ',');
    TrimIdentity(inner);
    SplitJoin(texts, ',');
    forall i | 0 <= i < |texts|
      ensures Trim(texts[i]) == texts[i]
    {
      TrimIdentity(texts[i]);
    }
    assert ListParts(inner) == texts;
    ListReads(inner);
  }
}
