/** Redaction of secrets and personal data in a fixture. */
module FixtureRedactor {
  import opened Basics
  import opened CorrelationHash
  import Text

  datatype Json =
    | Null
    | Undefined
    | Bool(bool)
    | Num(real)
    | Str(text: string)
    | Arr(items: seq<Json>)
    | Obj(fields: seq<Field>)

  /** An own property; the keys of one object are distinct, in enumeration order. */
  datatype Field = Field(key: string, value: Json)

  datatype Pattern = Pattern(name: string, test: string -> bool)

  /** `lower` is `toLowerCase`, `units` the code units of a string; `alwaysFields` are lower-cased. */
  datatype Options = Options(
    secrets: seq<Pattern>, pii: seq<Pattern>, alwaysFields: set<string>,
    lower: string -> string, units: string -> seq<Unit>, replaceWith: string, hashRedacted: bool)

  function Always(o: Options, key: string): bool {
    o.lower(key) in o.alwaysFields
  }

  function FirstMatch(patterns: seq<Pattern>, text: string): (r: Option<string>)
    ensures r.None? <==> forall i :: 0 <= i < |patterns| ==> !patterns[i].test(text)
  {
    if patterns == [] then None
    else if patterns[0].test(text) then Some(patterns[0].name)
    else FirstMatch(patterns[1..], text)
  }

  predicate Sensitive(o: Options, text: string) {
    FirstMatch(o.secrets, text).Some? || FirstMatch(o.pii, text).Some?
  }

  // ----- the redacted tree --------------------------------------------------

  function Redacted(o: Options, v: Json): Json {
    match v
    case Str(text) => if Sensitive(o, text) then Str(o.replaceWith) else v
    case Arr(items) => Arr(seq(|items|, i requires 0 <= i < |items| => Redacted(o, items[i])))
    case Obj(fields) => Obj(seq(|fields|, i requires 0 <= i < |fields| =>
        Field(fields[i].key, if Always(o, fields[i].key) then Str(o.replaceWith) else Redacted(o, fields[i].value))))
    case _ => v
  }

  /** Nothing is left to redact: each always-redacted field and each sensitive string already is the
      replacement. */
  predicate Clean(o: Options, v: Json) {
    match v
    case Str(text) => Sensitive(o, text) ==> text == o.replaceWith
    case Arr(items) => forall i :: 0 <= i < |items| ==> Clean(o, items[i])
    case Obj(fields) => forall i :: 0 <= i < |fields| ==>
        if Always(o, fields[i].key) then fields[i].value == Str(o.replaceWith) else Clean(o, fields[i].value)
    case _ => true
  }

  /** The result never holds anything left to redact. */
  lemma {:induction false} RedactedIsClean(o: Options, v: Json)
    ensures Clean(o, Redacted(o, v))
  {
    match v
    case Arr(items) =>
      forall i | 0 <= i < |items|
        ensures Clean(o, Redacted(o, items[i]))
      {
        RedactedIsClean(o, items[i]);
      }
    case Obj(fields) =>
      forall i | 0 <= i < |fields|
        ensures Clean(o, Redacted(o, fields[i].value))
      {
        RedactedIsClean(o, fields[i].value);
      }
    case _ =>
  }

  /** Redaction leaves a tree alone exactly when it is clean. */
  lemma {:induction false} UnchangedExactlyWhenClean(o: Options, v: Json)
    ensures Redacted(o, v) == v <==> Clean(o, v)
  {
    match v
    case Arr(items) =>
      forall i | 0 <= i < |items|
        ensures Redacted(o, items[i]) == items[i] <==> Clean(o, items[i])
      {
        UnchangedExactlyWhenClean(o, items[i]);
      }
      if Redacted(o, v) == v {
        assert forall i :: 0 <= i < |items| ==> Redacted(o, v).items[i] == items[i];
      } else {
        assert exists i :: 0 <= i < |items| && Redacted(o, v).items[i] != items[i];
      }
    case Obj(fields) =>
      forall i | 0 <= i < |fields|
        ensures Redacted(o, fields[i].value) == fields[i].value <==> Clean(o, fields[i].value)
      {
        UnchangedExactlyWhenClean(o, fields[i].value);
      }
      if Redacted(o, v) == v {
        assert forall i :: 0 <= i < |fields| ==> Redacted(o, v).fields[i] == fields[i];
      } else {
        assert exists i :: 0 <= i < |fields| && Redacted(o, v).fields[i] != fields[i];
      }
    case _ =>
  }

  lemma {:induction false} RedactionIsIdempotent(o: Options, v: Json)
    ensures Redacted(o, Redacted(o, v)) == Redacted(o, v)
  {
    RedactedIsClean(o, v);
    UnchangedExactlyWhenClean(o, Redacted(o, v));
  }

  predicate HoldsSensitive(o: Options, v: Json) {
    match v
    case Str(text) => Sensitive(o, text)
    case Arr(items) => exists i :: 0 <= i < |items| && HoldsSensitive(o, items[i])
    case Obj(fields) => exists i :: 0 <= i < |fields| && HoldsSensitive(o, fields[i].value)
    case _ => false
  }

  /** A place that is redacted at all: a sensitive string or an always-redacted field. */
  predicate Touched(o: Options, v: Json) {
    match v
    case Str(text) => Sensitive(o, text)
    case Arr(items) => exists i :: 0 <= i < |items| && Touched(o, items[i])
    case Obj(fields) => exists i :: 0 <= i < |fields| && (Always(o, fields[i].key) || Touched(o, fields[i].value))
    case _ => false
  }

  /** The result holds a sensitive string exactly when something was redacted and the replacement text
      itself is sensitive; with a harmless replacement, never. */
  lemma {:induction false} SensitiveLeftExactlyWhen(o: Options, v: Json)
    ensures HoldsSensitive(o, Redacted(o, v)) <==> Touched(o, v) && Sensitive(o, o.replaceWith)
  {
    match v
    case Arr(items) =>
      var r := Redacted(o, v);
      forall i | 0 <= i < |items|
        ensures HoldsSensitive(o, r.items[i]) <==> Touched(o, items[i]) && Sensitive(o, o.replaceWith)
      {
        SensitiveLeftExactlyWhen(o, items[i]);
      }
      hide Redacted, Sensitive;
    case Obj(fields) =>
      var r := Redacted(o, v);
      forall i | 0 <= i < |fields|
        ensures HoldsSensitive(o, r.fields[i].value) <==>
                (Always(o, fields[i].key) || Touched(o, fields[i].value)) && Sensitive(o, o.replaceWith)
      {
        SensitiveLeftExactlyWhen(o, fields[i].value);
      }
      hide Redacted, Sensitive;
    case _ =>
  }

  // ----- what happens at each place -----------------------------------------

  function Children(v: Json): seq<Json> {
    match v
    case Arr(items) => items
    case Obj(fields) => seq(|fields|, i requires 0 <= i < |fields| => fields[i].value)
    case _ => []
  }

  function Keys(v: Json): seq<string> {
    if v.Obj? then seq(|v.fields|, i requires 0 <= i < |v.fields| => v.fields[i].key) else []
  }

  /** The value found by following child positions. */
  function At(v: Json, path: seq<nat>): Option<Json>
    decreases |path|
  {
    if path == [] then Some(v)
    else if path[0] < |Children(v)| then At(Children(v)[path[0]], path[1..])
    else None
  }

  /** The path enters an always-redacted field. */
  predicate Enters(o: Options, v: Json, path: seq<nat>)
    decreases |path|
  {
    && path != [] && path[0] < |Children(v)|
    && ((v.Obj? && Always(o, v.fields[path[0]].key)) || Enters(o, Children(v)[path[0]], path[1..]))
  }

  lemma {:induction false} ChildRedacted(o: Options, v: Json, i: nat)
    ensures |Children(Redacted(o, v))| == |Children(v)|
    ensures Keys(Redacted(o, v)) == Keys(v)
    ensures i < |Children(v)| ==>
              Children(Redacted(o, v))[i] ==
                (if v.Obj? && Always(o, v.fields[i].key) then Str(o.replaceWith) else Redacted(o, Children(v)[i]))
  {
  }

  /** Outside always-redacted fields the result has a value exactly where the input has one: the same
      container with the same keys, the replacement for a sensitive string, the same leaf otherwise. */
  lemma {:induction false} PlaceByPlace(o: Options, v: Json, path: seq<nat>)
    requires !Enters(o, v, path)
    ensures At(Redacted(o, v), path).Some? <==> At(v, path).Some?
    ensures At(v, path).Some? ==>
              var before, after := At(v, path).value, At(Redacted(o, v), path).value;
              && |Children(after)| == |Children(before)| && Keys(after) == Keys(before)
              && (before.Arr? <==> after.Arr?) && (before.Obj? <==> after.Obj?)
              && (before.Str? && Sensitive(o, before.text) ==> after == Str(o.replaceWith))
              && (!before.Arr? && !before.Obj? && !(before.Str? && Sensitive(o, before.text)) ==> after == before)
    decreases |path|
  {
    if path == [] {
      ChildRedacted(o, v, 0);
    } else {
      ChildRedacted(o, v, path[0]);
      hide Redacted, Keys, Sensitive;
      if path[0] < |Children(v)| {
        PlaceByPlace(o, Children(v)[path[0]], path[1..]);
      }
    }
  }

  /** An always-redacted field becomes the replacement whatever it held. */
  lemma {:induction false} AlwaysFieldReplaced(o: Options, v: Json, path: seq<nat>, i: nat)
    requires !Enters(o, v, path) && At(v, path).Some? && At(v, path).value.Obj?
    requires i < |At(v, path).value.fields| && Always(o, At(v, path).value.fields[i].key)
    ensures At(Redacted(o, v), path + [i]) == Some(Str(o.replaceWith))
    decreases |path|
  {
    if path == [] {
      ChildRedacted(o, v, i);
      assert (path + [i])[1..] == [];
    } else {
      ChildRedacted(o, v, path[0]);
      assert (path + [i])[1..] == path[1..] + [i];
      hide Redacted, Keys;
      AlwaysFieldReplaced(o, Children(v)[path[0]], path[1..], i);
    }
  }

  // ----- what is recorded ---------------------------------------------------

  datatype Note = Note(path: string, entry: string, hash: Option<string>)

  datatype Log = Log(redactedFields: map<string, string>, correlationHashes: map<string, string>)

  function Hash(o: Options, text: string): Option<string> {
    if o.hashRedacted then Some(Correlation(o.units(o.lower(text)))) else None
  }

  function StringNotes(o: Options, text: string, prefix: string): seq<Note> {
    var secret, pii := FirstMatch(o.secrets, text), FirstMatch(o.pii, text);
    if secret.Some? then [Note(prefix, secret.value + ":" + o.replaceWith, Hash(o, text))]
    else if pii.Some? then [Note(prefix, pii.value + ":" + o.replaceWith, Hash(o, text))]
    else []
  }

  function ItemPath(prefix: string, i: nat): string {
    prefix + "[" + Text.NatText(i) + "]"
  }

  function FieldPath(prefix: string, key: string): string {
    if prefix != "" then prefix + "." + key else key
  }

  /** The records made while redacting a value, in order. */
  function Notes(o: Options, v: Json, prefix: string): seq<Note>
    decreases v, |Children(v)| + 1
  {
    match v
    case Str(text) => StringNotes(o, text, prefix)
    case Arr(items) => ChildNotes(o, v, prefix, |items|)
    case Obj(fields) => ChildNotes(o, v, prefix, |fields|)
    case _ => []
  }

  /** The records made for the first `n` children. */
  function ChildNotes(o: Options, v: Json, prefix: string, n: nat): seq<Note>
    requires n <= |Children(v)|
    decreases v, n
  {
    if n == 0 then []
    else
      var last :=
        match v
        case Arr(items) => Notes(o, items[n - 1], ItemPath(prefix, n - 1))
        case Obj(fields) => FieldNotes(o, v, prefix, n - 1)
        case _ => [];
      ChildNotes(o, v, prefix, n - 1) + last
  }

  function FieldNotes(o: Options, v: Json, prefix: string, i: nat): seq<Note>
    requires v.Obj? && i < |v.fields|
    decreases v, i
  {
    var field := v.fields[i];
    var path := FieldPath(prefix, field.key);
    if Always(o, field.key)
    then [Note(path, o.replaceWith, if field.value.Str? then Hash(o, field.value.text) else None)]
    else Notes(o, field.value, path)
  }

  function Write(log: Log, note: Note): Log {
    Log(log.redactedFields[note.path := note.entry],
        if note.hash.Some? then log.correlationHashes[note.path := note.hash.value] else log.correlationHashes)
  }

  function WriteAll(log: Log, notes: seq<Note>): Log {
    if notes == [] then log else Write(WriteAll(log, notes[..|notes| - 1]), notes[|notes| - 1])
  }

  lemma {:induction false} WriteAllAppends(log: Log, a: seq<Note>, b: seq<Note>)
    ensures WriteAll(log, a + b) == WriteAll(WriteAll(log, a), b)
  {
    if b == [] {
      assert a + b == a;
    } else {
      assert (a + b)[..|a + b| - 1] == a + b[..|b| - 1];
      WriteAllAppends(log, a, b[..|b| - 1]);
    }
  }

  /** Child `i` is redacted or holds a place that is. */
  predicate Hit(o: Options, v: Json, i: nat)
    requires i < |Children(v)|
  {
    Touched(o, Children(v)[i]) || (v.Obj? && Always(o, v.fields[i].key))
  }

  lemma {:induction false} TouchedByChild(o: Options, v: Json)
    requires v.Arr? || v.Obj?
    ensures Touched(o, v) <==> exists i: nat :: i < |Children(v)| && Hit(o, v, i)
  {
    hide Sensitive;
    if Touched(o, v) {
      if v.Arr? {
        var i :| 0 <= i < |v.items| && Touched(o, v.items[i]);
        assert Hit(o, v, i);
      } else {
        var i :| 0 <= i < |v.fields| && (Always(o, v.fields[i].key) || Touched(o, v.fields[i].value));
        assert Hit(o, v, i);
      }
    }
  }

  /** Something is recorded exactly when some place is redacted. */
  lemma {:induction false} RecordsExactlyWhenTouched(o: Options, v: Json, prefix: string)
    ensures Notes(o, v, prefix) != [] <==> Touched(o, v)
    decreases v, |Children(v)| + 1
  {
    hide Hit;
    if v.Arr? || v.Obj? {
      ChildrenRecorded(o, v, prefix, |Children(v)|);
      TouchedByChild(o, v);
      hide Touched;
    }
  }

  lemma {:induction false} UntouchedIsUnchanged(o: Options, v: Json)
    requires !Touched(o, v)
    ensures Redacted(o, v) == v
  {
    UntouchedIsClean(o, v);
    UnchangedExactlyWhenClean(o, v);
  }

  lemma {:induction false} UntouchedIsClean(o: Options, v: Json)
    requires !Touched(o, v)
    ensures Clean(o, v)
  {
    match v
    case Arr(items) =>
      forall i | 0 <= i < |items|
        ensures Clean(o, items[i])
      {
        UntouchedIsClean(o, items[i]);
      }
    case Obj(fields) =>
      forall i | 0 <= i < |fields|
        ensures !Always(o, fields[i].key) && Clean(o, fields[i].value)
      {
        UntouchedIsClean(o, fields[i].value);
      }
    case _ =>
  }

  lemma {:induction false} ChildrenRecorded(o: Options, v: Json, prefix: string, n: nat)
    requires n <= |Children(v)|
    ensures ChildNotes(o, v, prefix, n) != [] <==> exists i: nat :: i < n && Hit(o, v, i)
    decreases v, n
  {
    hide Hit, Touched, Notes;
    if n > 0 {
      ChildrenRecorded(o, v, prefix, n - 1);
      LastRecorded(o, v, prefix, n);
    }
  }

  lemma {:induction false} LastRecorded(o: Options, v: Json, prefix: string, n: nat)
    requires 0 < n <= |Children(v)|
    ensures ChildNotes(o, v, prefix, n) != [] <==> ChildNotes(o, v, prefix, n - 1) != [] || Hit(o, v, n - 1)
    decreases v, n, 0
  {
    hide Touched, Notes, ChildNotes;
    LastChildNotes(o, v, prefix, n);
    if v.Arr? {
      RecordsExactlyWhenTouched(o, v.items[n - 1], ItemPath(prefix, n - 1));
    } else {
      RecordsExactlyWhenTouched(o, v.fields[n - 1].value, FieldPath(prefix, v.fields[n - 1].key));
    }
  }

  lemma {:induction false} LastChildNotes(o: Options, v: Json, prefix: string, n: nat)
    requires 0 < n <= |Children(v)|
    ensures v.Arr? || v.Obj?
    ensures ChildNotes(o, v, prefix, n) == ChildNotes(o, v, prefix, n - 1)
              + if v.Arr? then Notes(o, v.items[n - 1], ItemPath(prefix, n - 1)) else FieldNotes(o, v, prefix, n - 1)
  {
    hide Notes, FieldNotes;
  }

  /** Hashes appear only when asked for, and all have thirteen characters. */
  predicate HashesFit(o: Options, notes: seq<Note>) {
    forall note :: note in notes && note.hash.Some? ==> o.hashRedacted && |note.hash.value| == 13
  }

  lemma {:induction false} StringHashesFit(o: Options, text: string)
    ensures Hash(o, text).Some? ==> o.hashRedacted && |Hash(o, text).value| == 13
  {
    PrintedReads(Signed32(Polynomial(o.units(o.lower(text)))));
  }

  lemma {:induction false} NoteHashesFit(o: Options, v: Json, prefix: string)
    ensures HashesFit(o, Notes(o, v, prefix))
    decreases v, |Children(v)| + 1
  {
    hide Hash;
    match v
    case Str(text) => StringHashesFit(o, text);
    case Arr(items) => ChildHashesFit(o, v, prefix, |items|);
    case Obj(fields) => ChildHashesFit(o, v, prefix, |fields|);
    case _ =>
  }

  lemma {:induction false} ChildHashesFit(o: Options, v: Json, prefix: string, n: nat)
    requires n <= |Children(v)|
    ensures HashesFit(o, ChildNotes(o, v, prefix, n))
    decreases v, n
  {
    hide Hash;
    if n > 0 {
      ChildHashesFit(o, v, prefix, n - 1);
      match v
      case Arr(items) =>
        NoteHashesFit(o, items[n - 1], ItemPath(prefix, n - 1));
      case Obj(fields) =>
        var field := fields[n - 1];
        NoteHashesFit(o, field.value, FieldPath(prefix, field.key));
        if field.value.Str? {
          StringHashesFit(o, field.value.text);
        }
      case _ =>
    }
  }

  lemma {:induction false} WrittenLog(o: Options, notes: seq<Note>)
    requires HashesFit(o, notes)
    ensures var log := WriteAll(Log(map[], map[]), notes);
            && log.redactedFields.Keys == (set note | note in notes :: note.path)
            && log.correlationHashes.Keys <= log.redactedFields.Keys
            && (!o.hashRedacted ==> log.correlationHashes == map[])
            && (forall path :: path in log.correlationHashes ==> |log.correlationHashes[path]| == 13)
  {
    if notes == [] {
    } else {
      var init, last := notes[..|notes| - 1], notes[|notes| - 1];
      assert notes == init + [last];
      WrittenLog(o, init);
      assert (set note | note in notes :: note.path) == (set note | note in init :: note.path) + {last.path};
    }
  }

  /** What `redact` reports: no entry exactly when nothing was redacted, hashes only for reported paths,
      only when asked for, each of thirteen characters. */
  lemma {:induction false} ReportIsSound(o: Options, v: Json, prefix: string)
    ensures var log := WriteAll(Log(map[], map[]), Notes(o, v, prefix));
            && (log.redactedFields == map[] <==> !Touched(o, v))
            && (log.redactedFields == map[] ==> Redacted(o, v) == v)
            && log.correlationHashes.Keys <= log.redactedFields.Keys
            && (!o.hashRedacted ==> log.correlationHashes == map[])
            && (forall path :: path in log.correlationHashes ==> |log.correlationHashes[path]| == 13)
  {
    hide WriteAll, Touched, Notes, HashesFit, Redacted;
    var notes := Notes(o, v, prefix);
    NoteHashesFit(o, v, prefix);
    WrittenLog(o, notes);
    RecordsExactlyWhenTouched(o, v, prefix);
    if notes != [] {
      assert notes[0].path in WriteAll(Log(map[], map[]), notes).redactedFields.Keys;
    } else {
      UntouchedIsUnchanged(o, v);
    }
  }

  // ----- the redactor as it runs --------------------------------------------

  /** The two maps that one redaction fills. */
  class Report {
    var redactedFields: map<string, string>
    var correlationHashes: map<string, string>

    constructor ()
      ensures View() == Log(map[], map[])
    {
      redactedFields, correlationHashes := map[], map[];
    }

    function View(): Log
      reads this
    {
      Log(redactedFields, correlationHashes)
    }
  }

  method LooksLike(patterns: seq<Pattern>, text: string) returns (r: Option<string>)
    ensures r == FirstMatch(patterns, text)
  {
    for i := 0 to |patterns|
      invariant FirstMatch(patterns, text) == FirstMatch(patterns[i..], text)
    {
      assert patterns[i..][1..] == patterns[i + 1..];
      if patterns[i].test(text) {
        return Some(patterns[i].name);
      }
    }
    return None;
  }

  method Record(o: Options, text: string, path: string, entry: string, report: Report)
    modifies report
    ensures report.View() == Write(old(report.View()), Note(path, entry, Hash(o, text)))
  {
    report.redactedFields := report.redactedFields[path := entry];
    if o.hashRedacted {
      var hash := ComputeCorrelationHash(o.units(o.lower(text)));
      report.correlationHashes := report.correlationHashes[path := hash];
    }
  }

  method RedactString(o: Options, text: string, prefix: string, report: Report) returns (r: string)
    modifies report
    ensures Str(r) == Redacted(o, Str(text))
    ensures report.View() == WriteAll(old(report.View()), StringNotes(o, text, prefix))
  {
    hide Hash;
    var secret := LooksLike(o.secrets, text);
    if secret.Some? {
      Record(o, text, prefix, secret.value + ":" + o.replaceWith, report);
      OneNote(old(report.View()), Note(prefix, secret.value + ":" + o.replaceWith, Hash(o, text)));
      return o.replaceWith;
    }
    var pii := LooksLike(o.pii, text);
    if pii.Some? {
      Record(o, text, prefix, pii.value + ":" + o.replaceWith, report);
      OneNote(old(report.View()), Note(prefix, pii.value + ":" + o.replaceWith, Hash(o, text)));
      return o.replaceWith;
    }
    return text;
  }

  lemma {:induction false} OneNote(log: Log, note: Note)
    ensures WriteAll(log, [note]) == Write(log, note)
  {
    assert [note][..0] == [];
  }

  method RedactValue(o: Options, v: Json, prefix: string, report: Report) returns (r: Json)
    modifies report
    ensures r == Redacted(o, v)
    ensures report.View() == WriteAll(old(report.View()), Notes(o, v, prefix))
    decreases v, 1
  {
    match v
    case Str(text) =>
      var s := RedactString(o, text, prefix, report);
      return Str(s);
    case Arr(items) =>
      r := RedactItems(o, v, prefix, report);
    case Obj(fields) =>
      r := RedactFields(o, v, prefix, report);
    case _ =>
      return v;
  }

  method RedactItems(o: Options, v: Json, prefix: string, report: Report) returns (r: Json)
    requires v.Arr?
    modifies report
    ensures r == Redacted(o, v)
    ensures report.View() == WriteAll(old(report.View()), Notes(o, v, prefix))
    decreases v, 0
  {
    hide Write, WriteAll, Sensitive, Notes, ChildNotes, Redacted;
    ghost var start := report.View();
    WriteNone(start);
    ItemNotes(o, v, prefix, 0);
    var result := [];
    for i := 0 to |v.items|
      invariant |result| == i && forall j :: 0 <= j < i ==> result[j] == Redacted(o, v.items[j])
      invariant report.View() == WriteAll(start, ChildNotes(o, v, prefix, i))
    {
      ItemNotes(o, v, prefix, i);
      WriteAllAppends(start, ChildNotes(o, v, prefix, i), Notes(o, v.items[i], ItemPath(prefix, i)));
      var item := RedactValue(o, v.items[i], prefix + "[" + Text.NatText(i) + "]", report);
      result := result + [item];
    }
    ItemNotes(o, v, prefix, |v.items|);
    ItemsRedacted(o, v, result);
    return Arr(result);
  }

  lemma {:induction false} ItemNotes(o: Options, v: Json, prefix: string, i: nat)
    requires v.Arr? && i <= |v.items|
    ensures ChildNotes(o, v, prefix, 0) == []
    ensures i < |v.items| ==>
              ChildNotes(o, v, prefix, i + 1) == ChildNotes(o, v, prefix, i) + Notes(o, v.items[i], ItemPath(prefix, i))
    ensures Notes(o, v, prefix) == ChildNotes(o, v, prefix, |v.items|)
  {
  }

  lemma {:induction false} ItemsRedacted(o: Options, v: Json, result: seq<Json>)
    requires v.Arr? && |result| == |v.items| && forall j :: 0 <= j < |result| ==> result[j] == Redacted(o, v.items[j])
    ensures Redacted(o, v) == Arr(result)
  {
    hide Sensitive;
    assert Redacted(o, v).items == result;
  }

  method RedactFields(o: Options, v: Json, prefix: string, report: Report) returns (r: Json)
    requires v.Obj?
    modifies report
    ensures r == Redacted(o, v)
    ensures report.View() == WriteAll(old(report.View()), Notes(o, v, prefix))
    decreases v, 0, 1
  {
    hide Write, WriteAll, Sensitive, Notes;
    ghost var start := report.View();
    WriteNone(start);
    var result := [];
    for i := 0 to |v.fields|
      invariant |result| == i && forall j :: 0 <= j < i ==> result[j] == Redacted(o, v).fields[j]
      invariant report.View() == WriteAll(start, ChildNotes(o, v, prefix, i))
    {
      WriteAllAppends(start, ChildNotes(o, v, prefix, i), FieldNotes(o, v, prefix, i));
      var field := RedactField(o, v, i, prefix, report);
      result := result + [field];
    }
    ObjectNotes(o, v, prefix);
    return Obj(result);
  }

  lemma {:induction false} ObjectNotes(o: Options, v: Json, prefix: string)
    requires v.Obj?
    ensures Notes(o, v, prefix) == ChildNotes(o, v, prefix, |v.fields|)
  {
  }

  lemma {:induction false} WriteNone(log: Log)
    ensures WriteAll(log, []) == log
  {
  }

  /** One turn of the loop over an object's entries. */
  method RedactField(o: Options, v: Json, i: nat, prefix: string, report: Report) returns (r: Field)
    requires v.Obj? && i < |v.fields|
    modifies report
    ensures r == Redacted(o, v).fields[i]
    ensures report.View() == WriteAll(old(report.View()), FieldNotes(o, v, prefix, i))
    decreases v, 0, 0
  {
    hide WriteAll, Hash, Sensitive;
    var key, value := v.fields[i].key, v.fields[i].value;
    var path := if prefix != "" then prefix + "." + key else key;
    if Always(o, key) {
      OneNote(report.View(), Note(path, o.replaceWith, if value.Str? then Hash(o, value.text) else None));
      if value.Str? {
        Record(o, value.text, path, o.replaceWith, report);
      } else {
        report.redactedFields := report.redactedFields[path := o.replaceWith];
      }
      return Field(key, Str(o.replaceWith));
    }
    var redacted := RedactValue(o, value, path, report);
    return Field(key, redacted);
  }

  method Redact(o: Options, fixture: Json, prefix: string) returns (value: Json, report: Report)
    ensures value == Redacted(o, fixture) && Clean(o, value)
    ensures fresh(report) && report.View() == WriteAll(Log(map[], map[]), Notes(o, fixture, prefix))
  {
    report := new Report();
    value := RedactValue(o, fixture, prefix, report);
    RedactedIsClean(o, fixture);
  }
}
