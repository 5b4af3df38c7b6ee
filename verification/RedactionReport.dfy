/** What the report of a redaction says about the places that were redacted: which entries it has, and
    when two places share one. */
module RedactionReport {
  import opened Basics
  import opened Text
  import opened CorrelationHash
  import opened FixtureRedactor

  // ----- places and their paths ---------------------------------------------

  /** The place that the child positions lead to is redacted: an always-redacted field, or a sensitive
      string outside such fields. */
  predicate RedactedPlace(o: Options, v: Json, path: seq<nat>)
    decreases |path|
  {
    if path == [] then v.Str? && Sensitive(o, v.text)
    else
      && path[0] < |Children(v)|
      && if v.Obj? && Always(o, v.fields[path[0]].key) then |path| == 1 else RedactedPlace(o, Children(v)[path[0]], path[1..])
  }

  function ChildPath(v: Json, prefix: string, i: nat): string
    requires i < |Children(v)|
  {
    if v.Obj? then FieldPath(prefix, v.fields[i].key) else ItemPath(prefix, i)
  }

  /** The text under which a place is reported. */
  function PathText(v: Json, prefix: string, path: seq<nat>): string
    decreases |path|
  {
    if path == [] || path[0] >= |Children(v)| then prefix
    else PathText(Children(v)[path[0]], ChildPath(v, prefix, path[0]), path[1..])
  }

  /** The record made for a redacted place. */
  function PlaceNote(o: Options, v: Json, prefix: string, path: seq<nat>): Note
    requires RedactedPlace(o, v, path)
    decreases |path|
  {
    if path == [] then StringNotes(o, v.text, prefix)[0]
    else if v.Obj? && Always(o, v.fields[path[0]].key) then FieldNotes(o, v, prefix, path[0])[0]
    else PlaceNote(o, Children(v)[path[0]], ChildPath(v, prefix, path[0]), path[1..])
  }

  lemma {:induction false} NotedUnderPath(o: Options, v: Json, prefix: string, path: seq<nat>)
    requires RedactedPlace(o, v, path)
    ensures PlaceNote(o, v, prefix, path).path == PathText(v, prefix, path)
    decreases |path|
  {
    hide Hash;
    if path == [] {
    } else if v.Obj? && Always(o, v.fields[path[0]].key) {
      assert path[1..] == [];
    } else {
      NotedUnderPath(o, Children(v)[path[0]], ChildPath(v, prefix, path[0]), path[1..]);
    }
  }

  /** The record is that of some redacted place. */
  ghost predicate HasPlace(o: Options, v: Json, prefix: string, note: Note) {
    exists path :: RedactedPlace(o, v, path) && PlaceNote(o, v, prefix, path) == note
  }

  /** The records of child `i`. */
  function NotesAt(o: Options, v: Json, prefix: string, i: nat): seq<Note>
    requires i < |Children(v)|
  {
    if v.Obj? then FieldNotes(o, v, prefix, i) else Notes(o, Children(v)[i], ItemPath(prefix, i))
  }

  lemma {:induction false} NotedByChild(o: Options, v: Json, prefix: string, n: nat, note: Note)
    requires n <= |Children(v)|
    ensures note in ChildNotes(o, v, prefix, n) <==> exists i: nat :: i < n && note in NotesAt(o, v, prefix, i)
  {
    hide Notes, FieldNotes;
    if n == 0 {
    } else {
      NotedByChild(o, v, prefix, n - 1, note);
      assert ChildNotes(o, v, prefix, n) == ChildNotes(o, v, prefix, n - 1) + NotesAt(o, v, prefix, n - 1);
    }
  }

  /** A record is made exactly when it is that of a redacted place. */
  lemma {:induction false} NotedExactlyWhen(o: Options, v: Json, prefix: string, note: Note)
    ensures note in Notes(o, v, prefix) <==> HasPlace(o, v, prefix, note)
    decreases v
  {
    if v.Arr? || v.Obj? {
      NotedByChild(o, v, prefix, |Children(v)|, note);
      assert Notes(o, v, prefix) == ChildNotes(o, v, prefix, |Children(v)|);
      forall i: nat | i < |Children(v)|
        ensures note in NotesAt(o, v, prefix, i) <==> PlaceBelow(o, v, prefix, note, i)
      {
        ChildNoted(o, v, prefix, note, i);
      }
      PlacesBelow(o, v, prefix, note);
    } else {
      LeafNoted(o, v, prefix, note);
    }
  }

  lemma {:induction false} LeafNoted(o: Options, v: Json, prefix: string, note: Note)
    requires !v.Arr? && !v.Obj?
    ensures note in Notes(o, v, prefix) <==> HasPlace(o, v, prefix, note)
  {
    hide Hash;
    if v.Str? && Sensitive(o, v.text) {
      assert RedactedPlace(o, v, []) && |Notes(o, v, prefix)| == 1;
      assert PlaceNote(o, v, prefix, []) == Notes(o, v, prefix)[0];
    }
  }

  /** The record is that of some redacted place at or below child `i`. */
  ghost predicate PlaceBelow(o: Options, v: Json, prefix: string, note: Note, i: nat)
    requires i < |Children(v)|
  {
    exists path :: RedactedPlace(o, v, [i] + path) && PlaceNote(o, v, prefix, [i] + path) == note
  }

  lemma {:induction false} PlacesBelow(o: Options, v: Json, prefix: string, note: Note)
    requires v.Arr? || v.Obj?
    ensures HasPlace(o, v, prefix, note) <==> exists i: nat :: i < |Children(v)| && PlaceBelow(o, v, prefix, note, i)
  {
    hide PlaceNote;
    if HasPlace(o, v, prefix, note) {
      var path :| RedactedPlace(o, v, path) && PlaceNote(o, v, prefix, path) == note;
      assert path == [path[0]] + path[1..];
      assert PlaceBelow(o, v, prefix, note, path[0]);
    }
  }

  lemma {:induction false} ChildNoted(o: Options, v: Json, prefix: string, note: Note, i: nat)
    requires (v.Arr? || v.Obj?) && i < |Children(v)|
    ensures note in NotesAt(o, v, prefix, i) <==> PlaceBelow(o, v, prefix, note, i)
    decreases v, 0
  {
    var child := Children(v)[i];
    if v.Obj? && Always(o, v.fields[i].key) {
      AlwaysNoted(o, v, prefix, note, i);
    } else {
      NotedExactlyWhen(o, child, ChildPath(v, prefix, i), note);
      forall path: seq<nat>
        ensures RedactedPlace(o, v, [i] + path) <==> RedactedPlace(o, child, path)
        ensures RedactedPlace(o, child, path) ==> PlaceNote(o, v, prefix, [i] + path) == PlaceNote(o, child, ChildPath(v, prefix, i), path)
      {
        assert ([i] + path)[1..] == path;
      }
    }
  }

  lemma {:induction false} AlwaysNoted(o: Options, v: Json, prefix: string, note: Note, i: nat)
    requires v.Obj? && i < |v.fields| && Always(o, v.fields[i].key)
    ensures note in NotesAt(o, v, prefix, i) <==> PlaceBelow(o, v, prefix, note, i)
  {
    hide Hash;
    assert |NotesAt(o, v, prefix, i)| == 1;
    forall path: seq<nat>
      ensures RedactedPlace(o, v, [i] + path) <==> path == []
    {
      assert |[i] + path| == 1 <==> path == [];
    }
    assert RedactedPlace(o, v, [i] + []);
    assert PlaceNote(o, v, prefix, [i] + []) == NotesAt(o, v, prefix, i)[0];
  }

  /** The entries of the report are exactly the paths of the redacted places. */
  lemma {:induction false} EntriesArePlaces(o: Options, v: Json, prefix: string, key: string)
    ensures key in WriteAll(Log(map[], map[]), Notes(o, v, prefix)).redactedFields <==>
            exists path :: RedactedPlace(o, v, path) && PathText(v, prefix, path) == key
  {
    hide WriteAll, Notes, HashesFit, PlaceNote, RedactedPlace, PathText;
    NoteHashesFit(o, v, prefix);
    WrittenLog(o, Notes(o, v, prefix));
    var log := WriteAll(Log(map[], map[]), Notes(o, v, prefix));
    assert key in log.redactedFields <==> key in log.redactedFields.Keys;
    if note :| note in Notes(o, v, prefix) && note.path == key {
      NotedExactlyWhen(o, v, prefix, note);
      var path :| RedactedPlace(o, v, path) && PlaceNote(o, v, prefix, path) == note;
      NotedUnderPath(o, v, prefix, path);
    }
    if path :| RedactedPlace(o, v, path) && PathText(v, prefix, path) == key {
      NotedUnderPath(o, v, prefix, path);
      NotedExactlyWhen(o, v, prefix, PlaceNote(o, v, prefix, path));
    }
  }

  // ----- when two places share an entry -------------------------------------

  /** A key that cannot be mistaken for a step of a path. */
  predicate PlainKey(key: string) {
    key != "" && '.' !in key && '[' !in key
  }

  /** Every object has distinct keys, all of them plain. */
  predicate PlainKeys(v: Json) {
    match v
    case Arr(items) => forall i :: 0 <= i < |items| ==> PlainKeys(items[i])
    case Obj(fields) =>
      && (forall i :: 0 <= i < |fields| ==> PlainKey(fields[i].key) && PlainKeys(fields[i].value))
      && (forall i, j :: 0 <= i < j < |fields| ==> fields[i].key != fields[j].key)
    case _ => true
  }

  /** The text of one step below a path, the empty path or not. */
  function StepText(v: Json, top: bool, i: nat): string
    requires i < |Children(v)|
  {
    if v.Obj? then (if top then v.fields[i].key else "." + v.fields[i].key) else "[" + NatText(i) + "]"
  }

  function Tail(v: Json, top: bool, path: seq<nat>): string
    decreases |path|
  {
    if path == [] || path[0] >= |Children(v)| then ""
    else StepText(v, top, path[0]) + Tail(Children(v)[path[0]], false, path[1..])
  }

  lemma {:induction false} PlainChild(v: Json, i: nat)
    requires PlainKeys(v) && i < |Children(v)|
    ensures PlainKeys(Children(v)[i]) && (v.Obj? ==> PlainKey(v.fields[i].key))
  {
  }

  lemma {:induction false} OneStep(v: Json, prefix: string, i: nat)
    requires i < |Children(v)| && (v.Obj? ==> PlainKey(v.fields[i].key))
    ensures ChildPath(v, prefix, i) == prefix + StepText(v, prefix == "", i) && ChildPath(v, prefix, i) != ""
  {
    hide NatText;
    if v.Obj? {
      var key := v.fields[i].key;
      assert prefix + ("." + key) == prefix + "." + key;
    } else {
      assert prefix + ("[" + NatText(i) + "]") == prefix + "[" + NatText(i) + "]";
    }
  }

  lemma {:induction false} Unfolds(v: Json, prefix: string, top: bool, path: seq<nat>)
    requires path != [] && path[0] < |Children(v)|
    ensures PathText(v, prefix, path) == PathText(Children(v)[path[0]], ChildPath(v, prefix, path[0]), path[1..])
    ensures Tail(v, top, path) == StepText(v, top, path[0]) + Tail(Children(v)[path[0]], false, path[1..])
  {
    hide ChildPath, StepText;
  }

  lemma {:induction false} Associates(a: string, b: string, c: string)
    ensures a + b + c == a + (b + c)
  {
  }

  lemma {:induction false} PathIsPrefixAndTail(v: Json, prefix: string, path: seq<nat>)
    requires PlainKeys(v)
    ensures PathText(v, prefix, path) == prefix + Tail(v, prefix == "", path)
    decreases |path|
  {
    if path == [] || path[0] >= |Children(v)| {
    } else {
      hide Children, ChildPath, StepText, PathText, Tail, PlainKeys, NatText;
      var child, i, rest := Children(v)[path[0]], path[0], path[1..];
      PlainChild(v, i);
      OneStep(v, prefix, i);
      Unfolds(v, prefix, prefix == "", path);
      PathIsPrefixAndTail(child, ChildPath(v, prefix, i), rest);
      Associates(prefix, StepText(v, prefix == "", i), Tail(child, false, rest));
    }
  }

  /** Nothing, or a step that is not at the top. */
  predicate Continues(s: string) {
    s == "" || s[0] == '.' || s[0] == '['
  }

  lemma {:induction false} TailContinues(v: Json, path: seq<nat>)
    ensures Continues(Tail(v, false, path))
  {
  }

  lemma {:induction false} KeyNotShorter(a: string, b: string, x: string, y: string)
    requires PlainKey(b) && Continues(x) && a + x == b + y
    ensures |a| >= |b|
  {
    assert x == (b + y)[|a|..];
  }

  lemma {:induction false} KeysDecide(a: string, b: string, x: string, y: string)
    requires PlainKey(a) && PlainKey(b) && Continues(x) && Continues(y) && a + x == b + y
    ensures a == b
  {
    KeyNotShorter(a, b, x, y);
    KeyNotShorter(b, a, y, x);
    assert (a + x)[..|a|] == a && (b + y)[..|b|] == b;
  }

  lemma {:induction false} IndicesDecide(i: nat, j: nat, x: string, y: string)
    requires "[" + NatText(i) + "]" + x == "[" + NatText(j) + "]" + y
    ensures i == j
  {
    hide NatText, NatValue, IndexOf;
    var a, b := NatText(i) + [']'] + x, NatText(j) + [']'] + y;
    assert "[" + NatText(i) + "]" + x == "[" + a && "[" + NatText(j) + "]" + y == "[" + b;
    assert ("[" + a)[1..] == a && ("[" + b)[1..] == b;
    IndexOfPrefix(NatText(i), x, ']');
    IndexOfPrefix(NatText(j), y, ']');
    assert a[..|NatText(i)|] == NatText(i) && b[..|NatText(j)|] == NatText(j);
    NatRoundTrip(i);
    NatRoundTrip(j);
  }

  lemma {:induction false} StepsDecide(v: Json, top: bool, i: nat, j: nat, x: string, y: string)
    requires PlainKeys(v) && i < |Children(v)| && j < |Children(v)| && Continues(x) && Continues(y)
    requires StepText(v, top, i) + x == StepText(v, top, j) + y
    ensures i == j
  {
    hide NatText, PlainKey, PlainKeys, Continues;
    if v.Obj? {
      PlainChild(v, i);
      PlainChild(v, j);
      if !top {
        DotCut(v.fields[i].key, v.fields[j].key, x, y);
      }
      KeysDecide(v.fields[i].key, v.fields[j].key, x, y);
      FieldsApart(v, i, j);
    } else {
      IndicesDecide(i, j, x, y);
    }
  }

  lemma {:induction false} DotCut(a: string, b: string, x: string, y: string)
    requires "." + a + x == "." + b + y
    ensures a + x == b + y
  {
    assert ("." + a + x)[1..] == a + x;
    assert ("." + b + y)[1..] == b + y;
  }

  lemma {:induction false} FieldsApart(v: Json, i: nat, j: nat)
    requires v.Obj? && PlainKeys(v) && i < |v.fields| && j < |v.fields| && v.fields[i].key == v.fields[j].key
    ensures i == j
  {
    hide PlainKey;
  }

  lemma {:induction false} TailsDiffer(o: Options, v: Json, top: bool, p: seq<nat>, q: seq<nat>)
    requires PlainKeys(v) && RedactedPlace(o, v, p) && RedactedPlace(o, v, q) && Tail(v, top, p) == Tail(v, top, q)
    ensures p == q
    decreases |p|
  {
    hide PlainKeys, StepText, Continues;
    if p == [] || q == [] {
    } else {
      var x, y := Tail(Children(v)[p[0]], false, p[1..]), Tail(Children(v)[q[0]], false, q[1..]);
      TailContinues(Children(v)[p[0]], p[1..]);
      TailContinues(Children(v)[q[0]], q[1..]);
      StepsDecide(v, top, p[0], q[0], x, y);
      var s := StepText(v, top, p[0]);
      assert (s + x)[|s|..] == x && (s + y)[|s|..] == y;
      if v.Obj? && Always(o, v.fields[p[0]].key) {
        assert p == [p[0]] && q == [q[0]];
      } else {
        PlainChild(v, p[0]);
        TailsDiffer(o, Children(v)[p[0]], false, p[1..], q[1..]);
        assert p == [p[0]] + p[1..] && q == [q[0]] + q[1..];
      }
    }
  }

  /** With plain, distinct keys no two redacted places share an entry: every one is reported apart. */
  lemma {:induction false} PlainPlacesApart(o: Options, v: Json, prefix: string, p: seq<nat>, q: seq<nat>)
    requires PlainKeys(v) && RedactedPlace(o, v, p) && RedactedPlace(o, v, q)
    ensures PathText(v, prefix, p) == PathText(v, prefix, q) <==> p == q
  {
    hide PlainKeys, RedactedPlace, Tail, PathText;
    PathIsPrefixAndTail(v, prefix, p);
    PathIsPrefixAndTail(v, prefix, q);
    var x, y := Tail(v, prefix == "", p), Tail(v, prefix == "", q);
    if prefix + x == prefix + y {
      assert (prefix + x)[|prefix|..] == x && (prefix + y)[|prefix|..] == y;
      TailsDiffer(o, v, prefix == "", p, q);
    }
  }

  /** Without plain keys two places can share one: a key that holds a dot reads like a nested field. */
  lemma {:induction false} DottedKeyCollides(o: Options, text: string)
    requires Sensitive(o, text) && !Always(o, "a.b") && !Always(o, "a") && !Always(o, "b")
    ensures var v := Obj([Field("a.b", Str(text)), Field("a", Obj([Field("b", Str(text))]))]);
            && RedactedPlace(o, v, [0]) && RedactedPlace(o, v, [1, 0])
            && PathText(v, "", [0]) == PathText(v, "", [1, 0])
  {
    hide Sensitive;
    var inner := Obj([Field("b", Str(text))]);
    var v := Obj([Field("a.b", Str(text)), Field("a", inner)]);
    assert Children(v)[0] == Str(text) && Children(v)[1] == inner && Children(inner)[0] == Str(text);
    assert [0][1..] == [] && [1, 0][1..] == [0];
    assert RedactedPlace(o, Str(text), []) && RedactedPlace(o, inner, [0]);
    assert PathText(v, "", [0]) == PathText(Str(text), "a.b", []);
    assert PathText(v, "", [1, 0]) == PathText(inner, "a", [0]) == PathText(Str(text), "a.b", []);
  }

  // ----- what the entry of a place says -------------------------------------

  /** `name` is that of the first pattern the text matches. */
  ghost predicate FirstNamed(patterns: seq<Pattern>, text: string, name: string) {
    exists k :: && 0 <= k < |patterns| && patterns[k].test(text) && patterns[k].name == name
                && forall j :: 0 <= j < k ==> !patterns[j].test(text)
  }

  lemma {:induction false} MatchIsFirst(patterns: seq<Pattern>, text: string)
    ensures FirstMatch(patterns, text).Some? ==> FirstNamed(patterns, text, FirstMatch(patterns, text).value)
  {
    if patterns == [] {
    } else if patterns[0].test(text) {
      assert patterns[0].name == FirstMatch(patterns, text).value;
    } else {
      MatchIsFirst(patterns[1..], text);
      if FirstMatch(patterns, text).Some? {
        var name := FirstMatch(patterns, text).value;
        var k :| && 0 <= k < |patterns[1..]| && patterns[1..][k].test(text) && patterns[1..][k].name == name
                 && forall j :: 0 <= j < k ==> !patterns[1..][j].test(text);
        assert patterns[k + 1].test(text) && patterns[k + 1].name == name;
        forall j | 0 <= j < k + 1
          ensures !patterns[j].test(text)
        {
          assert j == 0 || patterns[j] == patterns[1..][j - 1];
        }
      }
    }
  }

  /** The last step of the path enters an always-redacted field. */
  predicate EntersLast(o: Options, v: Json, path: seq<nat>)
    decreases |path|
  {
    && path != [] && path[0] < |Children(v)|
    && if v.Obj? && Always(o, v.fields[path[0]].key) then |path| == 1 else EntersLast(o, Children(v)[path[0]], path[1..])
  }

  ghost predicate HashIs(o: Options, text: string, hash: Option<string>) {
    hash == if o.hashRedacted then Some(Correlation(o.units(o.lower(text)))) else None
  }

  /** The record says what stood at the place: for an always-redacted field the replacement, with the hash
      of a string; for a matching string the first secret pattern it matches, or if there is none the
      first pattern of personal data, with the string's hash. */
  ghost predicate Describes(o: Options, note: Note, found: Json, always: bool) {
    if always then
      note.entry == o.replaceWith && (if found.Str? then HashIs(o, found.text, note.hash) else note.hash == None)
    else
      && found.Str? && HashIs(o, found.text, note.hash)
      && exists name :: && note.entry == name + ":" + o.replaceWith
                        && (|| FirstNamed(o.secrets, found.text, name)
                            || (FirstNamed(o.pii, found.text, name) && forall k :: 0 <= k < |o.secrets| ==> !o.secrets[k].test(found.text)))
  }

  lemma {:induction false} StringDescribed(o: Options, text: string, prefix: string)
    requires Sensitive(o, text)
    ensures |StringNotes(o, text, prefix)| == 1 && Describes(o, StringNotes(o, text, prefix)[0], Str(text), false)
  {
    hide FirstNamed;
    MatchIsFirst(o.secrets, text);
    MatchIsFirst(o.pii, text);
  }

  lemma {:induction false} PlaceDescribed(o: Options, v: Json, prefix: string, path: seq<nat>)
    requires RedactedPlace(o, v, path)
    ensures At(v, path).Some? && Describes(o, PlaceNote(o, v, prefix, path), At(v, path).value, EntersLast(o, v, path))
    decreases |path|
  {
    hide FirstNamed, StringNotes, Sensitive;
    if path == [] {
      StringDescribed(o, v.text, prefix);
    } else if v.Obj? && Always(o, v.fields[path[0]].key) {
      assert path[1..] == [];
      assert At(v, path) == Some(Children(v)[path[0]]);
    } else {
      hide Describes;
      PlaceDescribed(o, Children(v)[path[0]], ChildPath(v, prefix, path[0]), path[1..]);
    }
  }

  lemma {:induction false} WrittenOnce(log: Log, notes: seq<Note>, note: Note)
    requires note in notes && (forall n :: n in notes && n.path == note.path ==> n == note) && note.path !in log.correlationHashes
    ensures var written := WriteAll(log, notes);
            && note.path in written.redactedFields && written.redactedFields[note.path] == note.entry
            && (note.hash == None ==> note.path !in written.correlationHashes)
            && (note.hash.Some? ==> note.path in written.correlationHashes && written.correlationHashes[note.path] == note.hash.value)
  {
    var init, last := notes[..|notes| - 1], notes[|notes| - 1];
    assert notes == init + [last];
    if note in init {
      WrittenOnce(log, init, note);
    } else {
      NotWritten(log, init, note.path);
    }
  }

  lemma {:induction false} NotWritten(log: Log, notes: seq<Note>, key: string)
    requires forall n :: n in notes ==> n.path != key
    ensures var written := WriteAll(log, notes);
            && (key in written.correlationHashes <==> key in log.correlationHashes)
            && (key in written.redactedFields <==> key in log.redactedFields)
  {
    if notes == [] {
    } else {
      NotWritten(log, notes[..|notes| - 1], key);
    }
  }

  /** In a tree with plain keys the report files under the path of each redacted place an entry and a hash
      that describe what stood there. */
  lemma {:induction false} ReportDescribesPlaces(o: Options, v: Json, prefix: string, path: seq<nat>) returns (note: Note)
    requires PlainKeys(v) && RedactedPlace(o, v, path)
    ensures var log, key := WriteAll(Log(map[], map[]), Notes(o, v, prefix)), PathText(v, prefix, path);
            && key in log.redactedFields && log.redactedFields[key] == note.entry
            && (key in log.correlationHashes <==> note.hash.Some?)
            && (note.hash.Some? ==> log.correlationHashes[key] == note.hash.value)
    ensures At(v, path).Some? && Describes(o, note, At(v, path).value, EntersLast(o, v, path))
  {
    hide Notes, WriteAll, PlaceNote, RedactedPlace, PathText, Describes, At, EntersLast, PlainKeys;
    note := PlaceNote(o, v, prefix, path);
    PlaceDescribed(o, v, prefix, path);
    NotedUnderPath(o, v, prefix, path);
    NotedExactlyWhen(o, v, prefix, note);
    var notes := Notes(o, v, prefix);
    forall n | n in notes && n.path == note.path
      ensures n == note
    {
      NotedExactlyWhen(o, v, prefix, n);
      var other :| RedactedPlace(o, v, other) && PlaceNote(o, v, prefix, other) == n;
      NotedUnderPath(o, v, prefix, other);
      PlainPlacesApart(o, v, prefix, path, other);
    }
    WrittenOnce(Log(map[], map[]), notes, note);
  }
}
