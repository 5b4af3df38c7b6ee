/** What the operations of the evaluation store do inside the lists they change: which entry goes where,
    which case comes or goes, and in what order the datasets stand. */
module EvalFrameworkLists {
  import opened Basics
  import opened EvalFramework

  // ----- what a registration does to the list it goes into ------------------

  /** The list with the new entry: in the place of the first entry of that id, or at the end. */
  ghost predicate Replaces(before: seq<Entry>, e: Entry, after: seq<Entry>) {
    var i := FirstIndex(before, (x: Entry) => x.entryId == e.entryId);
    after == if i < 0 then before + [e] else before[i := e]
  }

  /** `list` is what is left of `full` when it is cut to its newest `max` entries. */
  predicate NewestOf(list: seq<Entry>, full: seq<Entry>, max: int) {
    |list| == (if |full| <= max then |full| else max) && list == full[|full| - |list|..]
  }

  lemma {:induction false} UpsertReplaces(entries: seq<Entry>, e: Entry)
    ensures Replaces(entries, e, Upsert(entries, e))
  {
    if entries == [] {
    } else {
      UpsertReplaces(entries[1..], e);
      var p := (x: Entry) => x.entryId == e.entryId;
      FirstIndexCons(entries, p);
      hide FirstIndex;
      assert entries == [entries[0]] + entries[1..];
    }
  }

  lemma {:induction false} FirstIndexCons(s: seq<Entry>, p: Entry -> bool)
    requires s != []
    ensures FirstIndex(s, p) ==
            if p(s[0]) then 0 else if FirstIndex(s[1..], p) == -1 then -1 else FirstIndex(s[1..], p) + 1
  {
  }

  lemma {:induction false} SettledLists(s: Service, d: string, m: Limits, x: string)
    requires Clamped(m)
    ensures var h, h' := s.shelf, Settle(s, d, m).shelf;
            && (x in h'.axes ==> x in h.axes && h'.axes[x] == h.axes[x])
            && (x in h'.checks ==> x in h.checks && h'.checks[x] == h.checks[x])
            && (x in h'.rubrics ==> x in h.rubrics && h'.rubrics[x] == h.rubrics[x])
  {
    hide KeepDatasets, Touch;
  }

  lemma {:induction false} CutIsNewest(full: seq<Entry>, max: int)
    requires max >= 1
    ensures NewestOf(TakeLast(full, max), full, max)
  {
  }

  /** Registering an axis replaces the first one of that id where it stands, or appends, and cuts the list
      to its newest. */
  lemma {:induction false} AxisList(s: Service, d: string, e: Entry, m: Limits) returns (full: seq<Entry>)
    requires Clamped(m) && Consistent(s, m)
    ensures Replaces(Get(s.shelf.axes, d), e, full)
    ensures var axes := Step(s, RegisterAxis(d, e), m).shelf.axes;
            d in axes && NewestOf(axes[d], full, m.axes)
  {
    hide Upsert, Replaces, EvictDomains, Touch, Consistent, NewestOf, TakeLast;
    full := Upsert(Get(s.shelf.axes, d), e);
    UpsertReplaces(Get(s.shelf.axes, d), e);
    CutIsNewest(full, m.axes);
    RegistrationSurvives(s, RegisterAxis(d, e), m);
    SettledLists(s.(shelf := s.shelf.(axes := s.shelf.axes[d := TakeLast(full, m.axes)])), d, m, d);
  }

  /** The same for an automated check. */
  lemma {:induction false} CheckList(s: Service, d: string, e: Entry, m: Limits) returns (full: seq<Entry>)
    requires Clamped(m) && Consistent(s, m)
    ensures Replaces(Get(s.shelf.checks, d), e, full)
    ensures var checks := Step(s, RegisterCheck(d, e), m).shelf.checks;
            d in checks && NewestOf(checks[d], full, m.checks)
  {
    hide Upsert, Replaces, EvictDomains, Touch, Consistent, NewestOf, TakeLast;
    full := Upsert(Get(s.shelf.checks, d), e);
    UpsertReplaces(Get(s.shelf.checks, d), e);
    CutIsNewest(full, m.checks);
    RegistrationSurvives(s, RegisterCheck(d, e), m);
    SettledLists(s.(shelf := s.shelf.(checks := s.shelf.checks[d := TakeLast(full, m.checks)])), d, m, d);
  }

  /** A rubric is always appended. */
  lemma {:induction false} RubricList(s: Service, d: string, e: Entry, m: Limits) returns (full: seq<Entry>)
    requires Clamped(m) && Consistent(s, m)
    ensures full == Get(s.shelf.rubrics, d) + [e]
    ensures var rubrics := Step(s, RegisterRubric(d, e), m).shelf.rubrics;
            d in rubrics && NewestOf(rubrics[d], full, m.rubrics)
  {
    hide Upsert, Replaces, EvictDomains, Touch, Consistent, NewestOf, TakeLast;
    full := Get(s.shelf.rubrics, d) + [e];
    CutIsNewest(full, m.rubrics);
    RegistrationSurvives(s, RegisterRubric(d, e), m);
    SettledLists(s.(shelf := s.shelf.(rubrics := s.shelf.rubrics[d := TakeLast(full, m.rubrics)])), d, m, d);
  }

  // ----- over a run: each id once, with its last registration ----------------

  /** The axes, or the checks, registered for a domain, in order. */
  function Registered(ops: seq<Op>, d: string, axes: bool): seq<Entry> {
    if ops == [] then []
    else
      var op := ops[|ops| - 1];
      Registered(ops[..|ops| - 1], d, axes)
        + if (if axes then op.RegisterAxis? else op.RegisterCheck?) && op.domainId == d then [op.entry] else []
  }

  /** The entry of this id that was registered last. */
  function Latest(entries: seq<Entry>, id: string): Option<Entry> {
    if entries == [] then None
    else if entries[|entries| - 1].entryId == id then Some(entries[|entries| - 1])
    else Latest(entries[..|entries| - 1], id)
  }

  predicate ShowsLatest(list: seq<Entry>, registered: seq<Entry>) {
    && (forall i, j :: 0 <= i < j < |list| ==> list[i].entryId != list[j].entryId)
    && (forall i :: 0 <= i < |list| ==> Latest(registered, list[i].entryId) == Some(list[i]))
  }

  lemma {:induction false} ReplacingShowsLatest(before: seq<Entry>, e: Entry, full: seq<Entry>, list: seq<Entry>, max: int, registered: seq<Entry>)
    requires ShowsLatest(before, registered) && Replaces(before, e, full) && NewestOf(list, full, max) && max >= 1
    ensures ShowsLatest(list, registered + [e])
  {
    hide Latest;
    forall id
      ensures Latest(registered + [e], id) == if id == e.entryId then Some(e) else Latest(registered, id)
    {
      LatestSnoc(registered, e, id);
    }
    assert ShowsLatest(full, registered + [e]) by {
      var i := FirstIndex(before, (x: Entry) => x.entryId == e.entryId);
      assert i < 0 ==> forall j :: 0 <= j < |before| ==> before[j].entryId != e.entryId;
    }
    var cut := |full| - |list|;
    assert forall i :: 0 <= i < |list| ==> list[i] == full[cut + i];
  }

  lemma {:induction false} LatestSnoc(entries: seq<Entry>, e: Entry, id: string)
    ensures Latest(entries + [e], id) == if id == e.entryId then Some(e) else Latest(entries, id)
  {
    assert (entries + [e])[..|entries|] == entries;
  }

  lemma {:induction false} OtherAxesStay(s: Service, op: Op, m: Limits, d: string)
    requires Clamped(m)
    ensures var h, h' := s.shelf, Step(s, op, m).shelf;
            && (!(op.RegisterAxis? && op.domainId == d) && d in h'.axes ==> d in h.axes && h'.axes[d] == h.axes[d])
            && (!(op.RegisterCheck? && op.domainId == d) && d in h'.checks ==> d in h.checks && h'.checks[d] == h.checks[d])
  {
    hide Upsert, EvictDomains, Touch, DropDataset, TakeLast, FindCase, FindDataset;
    var h := s.shelf;
    match op
    case Register(f) => SettledLists(s.(shelf := h.(frameworks := h.frameworks[f.domainId := f])), f.domainId, m, d);
    case RegisterAxis(x, e) =>
      SettledLists(s.(shelf := h.(axes := h.axes[x := TakeLast(Upsert(Get(h.axes, x), e), m.axes)])), x, m, d);
    case RegisterCheck(x, e) =>
      SettledLists(s.(shelf := h.(checks := h.checks[x := TakeLast(Upsert(Get(h.checks, x), e), m.checks)])), x, m, d);
    case RegisterRubric(x, e) =>
      SettledLists(s.(shelf := h.(rubrics := h.rubrics[x := TakeLast(Get(h.rubrics, x) + [e], m.rubrics)])), x, m, d);
    case RegisterDataset(x) =>
      SettledLists(s.(datasets := TakeLast(DropDataset(s.datasets, x.datasetId) + [x], m.datasets)), x.domainId, m, d);
    case _ =>
  }

  /** In every run each axis and each check of a resident domain has an id of its own and is the one
      registered last under that id. */
  lemma {:induction false} ListsShowLatest(ops: seq<Op>, m: Limits, d: string)
    requires Clamped(m)
    ensures var h := Run(ops, m).0.shelf;
            ShowsLatest(Get(h.axes, d), Registered(ops, d, true)) && ShowsLatest(Get(h.checks, d), Registered(ops, d, false))
  {
    hide Step, ShowsLatest, Consistent;
    if ops == [] {
      NothingListed();
    } else {
      var init, op := ops[..|ops| - 1], ops[|ops| - 1];
      var s := Run(init, m).0;
      ListsShowLatest(init, m, d);
      RunIsLru(init, m);
      OtherAxesStay(s, op, m, d);
      NothingShownIsFine(Registered(ops, d, true));
      NothingShownIsFine(Registered(ops, d, false));
      if (op.RegisterAxis? || op.RegisterCheck?) && op.domainId == d {
        hide Run, Replaces, NewestOf;
        var h := Step(s, op, m).shelf;
        if op.RegisterAxis? {
          var full := AxisList(s, d, op.entry, m);
          ReplacingShowsLatest(Get(s.shelf.axes, d), op.entry, full, h.axes[d], m.axes, Registered(init, d, true));
        } else {
          var full := CheckList(s, d, op.entry, m);
          ReplacingShowsLatest(Get(s.shelf.checks, d), op.entry, full, h.checks[d], m.checks, Registered(init, d, false));
        }
      }
      assert Registered(init, d, true) + [] == Registered(init, d, true) && Registered(init, d, false) + [] == Registered(init, d, false);
    }
  }

  lemma {:induction false} NothingListed()
    ensures ShowsLatest([], [])
  {
  }

  lemma {:induction false} NothingShownIsFine(registered: seq<Entry>)
    ensures ShowsLatest([], registered)
  {
  }

  // ----- cases of a dataset -------------------------------------------------

  /** Only dataset `i` differs, and only in its cases. */
  predicate OnlyCases(before: seq<Dataset>, after: seq<Dataset>, i: nat, cases: seq<Case>) {
    && i < |before| == |after|
    && after[i] == Dataset(before[i].datasetId, before[i].domainId, cases)
    && forall j :: 0 <= j < |before| && j != i ==> after[j] == before[j]
  }

  /** Without the dataset nothing at all changes, and the shelf never does. */
  lemma {:induction false} NoSuchDataset(s: Service, op: Op, m: Limits)
    requires Clamped(m) && (op.AddCase? || op.RemoveCase?)
    ensures (forall i :: 0 <= i < |s.datasets| ==> s.datasets[i].datasetId != op.datasetId) ==> Step(s, op, m) == s
    ensures Step(s, op, m).shelf == s.shelf
  {
    hide Touch, FindCase;
  }

  lemma {:induction false} DatasetFound(datasets: seq<Dataset>, i: nat)
    requires DistinctIds(datasets) && i < |datasets|
    ensures FindDataset(datasets, datasets[i].datasetId) == i
  {
  }

  /** Adding a case puts it last in the dataset of that id. */
  lemma {:induction false} CaseAdded(s: Service, id: string, c: Case, m: Limits, i: nat)
    requires Clamped(m) && DistinctIds(s.datasets) && i < |s.datasets| && s.datasets[i].datasetId == id
    ensures OnlyCases(s.datasets, Step(s, AddCase(id, c), m).datasets, i, s.datasets[i].cases + [c])
  {
    hide Touch, FindDataset;
    DatasetFound(s.datasets, i);
  }

  /** Removing a case takes out the first of that id and keeps the others in order; without such a case
      nothing at all changes. */
  lemma {:induction false} CaseRemoved(s: Service, id: string, caseId: string, m: Limits, i: nat)
    requires Clamped(m) && DistinctIds(s.datasets) && i < |s.datasets| && s.datasets[i].datasetId == id
    ensures var s', cases := Step(s, RemoveCase(id, caseId), m), s.datasets[i].cases;
            && ((forall c :: c in cases ==> c.caseId != caseId) ==> s' == s)
            && (forall k: nat :: IsFirstCase(cases, k, caseId) ==> OnlyCases(s.datasets, s'.datasets, i, cases[..k] + cases[k + 1..]))
  {
    hide Touch, FindDataset;
    DatasetFound(s.datasets, i);
    var cases := s.datasets[i].cases;
    var at := FindCase(cases, caseId);
    forall k: nat | IsFirstCase(cases, k, caseId)
      ensures k == at
    {
    }
  }

  predicate IsFirstCase(cases: seq<Case>, k: nat, caseId: string) {
    k < |cases| && cases[k].caseId == caseId && forall j :: 0 <= j < k ==> cases[j].caseId != caseId
  }

  // ----- which domain an operation touches ----------------------------------

  /** The domain named by the operation, or owning the dataset it names, becomes the most recent. */
  lemma {:induction false} TouchesItsDomain(s: Service, op: Op, m: Limits)
    requires Clamped(m) && Consistent(s, m)
    ensures var order := Step(s, op, m).order;
            var recent := if order == [] then None else Some(order[|order| - 1]);
            && (op.Register? ==> recent == Some(op.framework.domainId))
            && (op.RegisterAxis? || op.RegisterCheck? || op.RegisterRubric? ==> recent == Some(op.domainId))
            && (op.RegisterDataset? ==> recent == Some(op.dataset.domainId))
            && (op.AddCase? ==> forall i :: 0 <= i < |s.datasets| && s.datasets[i].datasetId == op.datasetId ==> recent == Some(s.datasets[i].domainId))
  {
    hide Step;
    RegistrationSurvives(s, op, m);
  }

  // ----- the order of the datasets ------------------------------------------

  /** `a` is `b` with some elements left out. */
  predicate LeftOf(a: seq<Dataset>, b: seq<Dataset>) {
    a == [] || (b != [] && ((a[0] == b[0] && LeftOf(a[1..], b[1..])) || LeftOf(a, b[1..])))
  }

  lemma {:induction false} AllLeft(a: seq<Dataset>)
    ensures LeftOf(a, a)
  {
    if a == [] {
    } else {
      AllLeft(a[1..]);
    }
  }

  lemma {:induction false} LeftTransitive(a: seq<Dataset>, b: seq<Dataset>, c: seq<Dataset>)
    requires LeftOf(a, b) && LeftOf(b, c)
    ensures LeftOf(a, c)
    decreases |b| + |c|
  {
    if a == [] {
    } else if b[0] == c[0] && LeftOf(b[1..], c[1..]) {
      if a[0] == b[0] && LeftOf(a[1..], b[1..]) {
        LeftTransitive(a[1..], b[1..], c[1..]);
      } else {
        LeftTransitive(a, b[1..], c[1..]);
      }
    } else {
      LeftTransitive(a, b, c[1..]);
    }
  }

  lemma {:induction false} SuffixLeft(a: seq<Dataset>, k: nat)
    requires k <= |a|
    ensures LeftOf(a[k..], a)
  {
    if k == 0 {
      assert a[k..] == a;
      AllLeft(a);
    } else {
      SuffixLeft(a[1..], k - 1);
      assert a[1..][k - 1..] == a[k..];
    }
  }

  lemma {:induction false} KeptLeft(datasets: seq<Dataset>, gone: set<string>)
    ensures LeftOf(KeepDatasets(datasets, gone), datasets)
  {
    if datasets == [] {
    } else {
      KeptLeft(datasets[1..], gone);
      var rest := KeepDatasets(datasets[1..], gone);
      if datasets[0].domainId in gone {
        assert KeepDatasets(datasets, gone) == rest;
      } else {
        assert KeepDatasets(datasets, gone)[1..] == rest;
      }
    }
  }

  lemma {:induction false} DroppedLeft(datasets: seq<Dataset>, id: string)
    ensures LeftOf(DropDataset(datasets, id), datasets)
  {
    if datasets == [] {
    } else {
      DroppedLeft(datasets[1..], id);
      var rest := DropDataset(datasets[1..], id);
      if datasets[0].datasetId == id {
        assert DropDataset(datasets, id) == rest;
      } else {
        assert DropDataset(datasets, id)[1..] == rest;
      }
    }
  }

  lemma {:induction false} KeepSnoc(datasets: seq<Dataset>, y: Dataset, gone: set<string>)
    requires y.domainId !in gone
    ensures KeepDatasets(datasets + [y], gone) == KeepDatasets(datasets, gone) + [y]
  {
    if datasets == [] {
      assert datasets + [y] == [y] && [y][1..] == [];
    } else {
      assert (datasets + [y])[1..] == datasets[1..] + [y];
      KeepSnoc(datasets[1..], y, gone);
    }
  }

  lemma {:induction false} SettledLeft(s: Service, d: string, m: Limits)
    requires Clamped(m)
    ensures LeftOf(Settle(s, d, m).datasets, s.datasets)
  {
    hide KeepDatasets, Touch, LeftOf, Clear;
    var order := Touch(s.order, d);
    AllLeft(s.datasets);
    if |order| > m.domains {
      KeptLeft(s.datasets, Members(order[..|order| - m.domains]));
    }
  }

  /** No registration but that of a dataset changes the order of the datasets or adds one. */
  lemma {:induction false} OthersOnlyLoseDatasets(s: Service, op: Op, m: Limits)
    requires Clamped(m) && (op.Register? || op.RegisterAxis? || op.RegisterCheck? || op.RegisterRubric?)
    ensures LeftOf(Step(s, op, m).datasets, s.datasets)
  {
    hide LeftOf, Upsert, EvictDomains, TakeLast;
    var h := s.shelf;
    match op
    case Register(f) => SettledLeft(s.(shelf := h.(frameworks := h.frameworks[f.domainId := f])), f.domainId, m);
    case RegisterAxis(d, e) =>
      SettledLeft(s.(shelf := h.(axes := h.axes[d := TakeLast(Upsert(Get(h.axes, d), e), m.axes)])), d, m);
    case RegisterCheck(d, e) =>
      SettledLeft(s.(shelf := h.(checks := h.checks[d := TakeLast(Upsert(Get(h.checks, d), e), m.checks)])), d, m);
    case RegisterRubric(d, e) =>
      SettledLeft(s.(shelf := h.(rubrics := h.rubrics[d := TakeLast(Get(h.rubrics, d) + [e], m.rubrics)])), d, m);
  }

  /** Registering a dataset puts it last; the others that stay keep their order. */
  lemma {:induction false} NewestDatasetLast(s: Service, y: Dataset, m: Limits) returns (kept: seq<Dataset>)
    requires Clamped(m) && Consistent(s, m)
    ensures Step(s, RegisterDataset(y), m).datasets == kept + [y] && LeftOf(kept, s.datasets)
  {
    hide KeepDatasets, DropDataset, LeftOf, Clear, Without, Distinct;
    var dropped := DropDataset(s.datasets, y.datasetId);
    var cut := TakeLast(dropped + [y], m.datasets);
    var older := dropped[|dropped| + 1 - |cut|..];
    assert cut == older + [y];
    DroppedLeft(s.datasets, y.datasetId);
    SuffixLeft(dropped, |dropped| + 1 - |cut|);
    LeftTransitive(older, dropped, s.datasets);
    var order := Touch(s.order, y.domainId);
    if |order| <= m.domains {
      kept := older;
    } else {
      var gone := Members(order[..|order| - m.domains]);
      DistinctOrder(s, m);
      TouchDistinct(s.order, y.domainId);
      LastIsNotGone(order, |order| - m.domains);
      KeepSnoc(older, y, gone);
      KeptLeft(older, gone);
      kept := KeepDatasets(older, gone);
      LeftTransitive(kept, older, s.datasets);
    }
  }

  lemma {:induction false} LastIsNotGone(order: seq<string>, excess: nat)
    requires Distinct(order) && excess < |order|
    ensures order[|order| - 1] !in Members(order[..excess])
  {
  }
}
