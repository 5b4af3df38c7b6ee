/** The bounded evaluation store: five collections keyed by domain that must agree with one recency
    order of domains, the least recently touched domain being evicted with all that belongs to it. */
module EvalFramework {
  import opened Basics

  datatype Framework = Framework(domainId: string, body: int)

  /** A quality axis, an automated check or a rubric. */
  datatype Entry = Entry(entryId: string, body: int)

  datatype Case = Case(caseId: string, body: int)

  datatype Dataset = Dataset(datasetId: string, domainId: string, cases: seq<Case>)

  datatype Limits = Limits(domains: int, datasets: int, axes: int, checks: int, rubrics: int)

  /** The constructor clamps every limit to at least one. */
  predicate Clamped(m: Limits) {
    m.domains >= 1 && m.datasets >= 1 && m.axes >= 1 && m.checks >= 1 && m.rubrics >= 1
  }

  /** Insertion-ordered collections are sequences: `order` lists the domains from the least to the most
      recently touched, `datasets` the datasets from the oldest to the newest. */
  datatype Shelf = Shelf(
    frameworks: map<string, Framework>, axes: map<string, seq<Entry>>,
    checks: map<string, seq<Entry>>, rubrics: map<string, seq<Entry>>)

  datatype Service = Service(order: seq<string>, shelf: Shelf, datasets: seq<Dataset>)

  const EMPTY := Service([], Shelf(map[], map[], map[], map[]), [])

  datatype Op =
    | Register(framework: Framework)
    | RegisterAxis(domainId: string, entry: Entry)
    | RegisterCheck(domainId: string, entry: Entry)
    | RegisterRubric(domainId: string, entry: Entry)
    | RegisterDataset(dataset: Dataset)
    | AddCase(datasetId: string, case_: Case)
    | RemoveCase(datasetId: string, caseId: string)

  // ----- building blocks ----------------------------------------------------

  function TakeLast<T>(s: seq<T>, n: int): (r: seq<T>)
    requires n >= 0
    ensures |r| <= n && |r| <= |s|
  {
    if |s| <= n then s else s[|s| - n..]
  }

  function Touch(order: seq<string>, d: string): seq<string> {
    Without(order, d) + [d]
  }

  function Get(m: map<string, seq<Entry>>, d: string): seq<Entry> {
    if d in m then m[d] else []
  }

  /** Replaces the entry with the same id where it stands, or appends. */
  function Upsert(entries: seq<Entry>, e: Entry): (r: seq<Entry>)
    ensures e in r && (|r| == |entries| || (|r| == |entries| + 1 && r[|r| - 1] == e))
  {
    if entries == [] then [e]
    else if entries[0].entryId == e.entryId then [e] + entries[1..]
    else [entries[0]] + Upsert(entries[1..], e)
  }

  function FindDataset(datasets: seq<Dataset>, id: string): (i: int)
    ensures -1 <= i < |datasets|
    ensures i >= 0 ==> datasets[i].datasetId == id
    ensures i == -1 ==> forall j :: 0 <= j < |datasets| ==> datasets[j].datasetId != id
  {
    FirstIndex(datasets, (x: Dataset) => x.datasetId == id)
  }

  function FindCase(cases: seq<Case>, id: string): (i: int)
    ensures -1 <= i < |cases|
    ensures i >= 0 ==> cases[i].caseId == id && forall j :: 0 <= j < i ==> cases[j].caseId != id
    ensures i == -1 ==> forall j :: 0 <= j < |cases| ==> cases[j].caseId != id
  {
    FirstIndex(cases, (c: Case) => c.caseId == id)
  }

  function DropDataset(datasets: seq<Dataset>, id: string): (r: seq<Dataset>)
    ensures |r| <= |datasets|
  {
    if datasets == [] then []
    else (if datasets[0].datasetId == id then [] else [datasets[0]]) + DropDataset(datasets[1..], id)
  }

  function KeepDatasets(datasets: seq<Dataset>, gone: set<string>): (r: seq<Dataset>)
    ensures |r| <= |datasets|
  {
    if datasets == [] then []
    else (if datasets[0].domainId in gone then [] else [datasets[0]]) + KeepDatasets(datasets[1..], gone)
  }

  lemma {:induction false} KeptMembers(datasets: seq<Dataset>, gone: set<string>)
    ensures forall x :: x in KeepDatasets(datasets, gone) <==> x in datasets && x.domainId !in gone
  {
    if datasets == [] {
    } else {
      KeptMembers(datasets[1..], gone);
    }
  }

  lemma {:induction false} DroppedMembers(datasets: seq<Dataset>, id: string)
    ensures forall x :: x in DropDataset(datasets, id) <==> x in datasets && x.datasetId != id
  {
    if datasets == [] {
    } else {
      DroppedMembers(datasets[1..], id);
    }
  }

  function Clear(h: Shelf, gone: set<string>): Shelf {
    Shelf(h.frameworks - gone, h.axes - gone, h.checks - gone, h.rubrics - gone)
  }

  function Members(order: seq<string>): set<string> {
    set d | d in order
  }

  /** Evicting domains, oldest first, until at most `max` remain. */
  function EvictDomains(s: Service, max: int): Service
    requires max >= 0
  {
    if |s.order| <= max then s
    else
      var excess := |s.order| - max;
      var gone := Members(s.order[..excess]);
      Service(s.order[excess..], Clear(s.shelf, gone), KeepDatasets(s.datasets, gone))
  }

  // ----- operations ---------------------------------------------------------

  function Settle(s: Service, d: string, m: Limits): Service
    requires Clamped(m)
  {
    EvictDomains(s.(order := Touch(s.order, d)), m.domains)
  }

  function WithCases(s: Service, i: nat, cases: seq<Case>): Service
    requires i < |s.datasets|
  {
    s.(datasets := s.datasets[i := s.datasets[i].(cases := cases)], order := Touch(s.order, s.datasets[i].domainId))
  }

  function Step(s: Service, op: Op, m: Limits): Service
    requires Clamped(m)
  {
    var h := s.shelf;
    match op
    case Register(f) => Settle(s.(shelf := h.(frameworks := h.frameworks[f.domainId := f])), f.domainId, m)
    case RegisterAxis(d, e) =>
      Settle(s.(shelf := h.(axes := h.axes[d := TakeLast(Upsert(Get(h.axes, d), e), m.axes)])), d, m)
    case RegisterCheck(d, e) =>
      Settle(s.(shelf := h.(checks := h.checks[d := TakeLast(Upsert(Get(h.checks, d), e), m.checks)])), d, m)
    case RegisterRubric(d, e) =>
      Settle(s.(shelf := h.(rubrics := h.rubrics[d := TakeLast(Get(h.rubrics, d) + [e], m.rubrics)])), d, m)
    case RegisterDataset(x) =>
      Settle(s.(datasets := TakeLast(DropDataset(s.datasets, x.datasetId) + [x], m.datasets)), x.domainId, m)
    case AddCase(id, c) =>
      var i := FindDataset(s.datasets, id);
      if i < 0 then s else WithCases(s, i, s.datasets[i].cases + [c])
    case RemoveCase(id, caseId) =>
      var i := FindDataset(s.datasets, id);
      if i < 0 then s
      else
        var cases := s.datasets[i].cases;
        var at := FindCase(cases, caseId);
        if at < 0 then s else WithCases(s, i, cases[..at] + cases[at + 1..])
  }

  /** The domain an operation touches, if any. */
  function Touched(s: Service, op: Op): Option<string> {
    match op
    case Register(f) => Some(f.domainId)
    case RegisterAxis(d, _) => Some(d)
    case RegisterCheck(d, _) => Some(d)
    case RegisterRubric(d, _) => Some(d)
    case RegisterDataset(x) => Some(x.domainId)
    case AddCase(id, _) =>
      var i := FindDataset(s.datasets, id);
      if i < 0 then None else Some(s.datasets[i].domainId)
    case RemoveCase(id, caseId) =>
      var i := FindDataset(s.datasets, id);
      if i < 0 || FindCase(s.datasets[i].cases, caseId) < 0 then None else Some(s.datasets[i].domainId)
  }

  /** The final state of a run, and the domains touched on the way, in order. */
  function Run(ops: seq<Op>, m: Limits): (Service, seq<string>)
    requires Clamped(m)
  {
    if ops == [] then (EMPTY, [])
    else
      var (s, trace) := Run(ops[..|ops| - 1], m);
      var op := ops[|ops| - 1];
      (Step(s, op, m), trace + match Touched(s, op) { case Some(d) => [d] case None => [] })
  }

  // ----- the recency specification ------------------------------------------

  function LastIndex(trace: seq<string>, d: string): (i: int)
    ensures -1 <= i < |trace|
    ensures i == -1 <==> d !in trace
    ensures i >= 0 ==> trace[i] == d
    ensures forall j :: i < j < |trace| ==> trace[j] != d
  {
    if trace == [] then -1
    else if trace[|trace| - 1] == d then |trace| - 1
    else
      assert trace == trace[..|trace| - 1] + [trace[|trace| - 1]];
      LastIndex(trace[..|trace| - 1], d)
  }

  /** Domains by their last occurrence in the trace, all of them occurring. */
  ghost predicate Ascending(order: seq<string>, trace: seq<string>) {
    && (forall x :: x in order ==> x in trace)
    && (forall i, j :: 0 <= i < j < |order| ==> LastIndex(trace, order[i]) < LastIndex(trace, order[j]))
  }

  /** A domain of the trace outside the order means the order is full and was touched later. */
  ghost predicate Covers(order: seq<string>, trace: seq<string>, n: int)
    requires n >= 1
  {
    forall x :: x in trace && x !in order ==> |order| == n && LastIndex(trace, x) < LastIndex(trace, order[0])
  }

  /** `order` is the last `n` distinct domains of the trace, by last occurrence. */
  ghost predicate LastDistinct(order: seq<string>, trace: seq<string>, n: int)
    requires n >= 1
  {
    |order| <= n && Ascending(order, trace) && Covers(order, trace, n)
  }

  lemma {:induction false} WithoutAt(order: seq<string>, p: nat)
    requires Distinct(order) && p < |order|
    ensures Without(order, order[p]) == order[..p] + order[p + 1..]
  {
    if p == 0 {
      WithoutAbsent(order[1..], order[0]);
    } else {
      WithoutAt(order[1..], p - 1);
      assert order[1..][..p - 1] == order[1..p] && order[1..][p..] == order[p + 1..];
    }
  }

  lemma {:induction false} LastIndexSnoc(trace: seq<string>, d: string, x: string)
    ensures LastIndex(trace + [d], x) == if x == d then |trace| else LastIndex(trace, x)
  {
    assert (trace + [d])[..|trace|] == trace;
  }

  lemma {:induction false} AscendingDistinct(order: seq<string>, trace: seq<string>)
    requires Ascending(order, trace)
    ensures Distinct(order)
  {
    hide LastIndex;
  }

  lemma {:induction false} AscendingWithout(order: seq<string>, trace: seq<string>, d: string)
    requires Ascending(order, trace)
    ensures Ascending(Without(order, d), trace)
  {
    hide LastIndex, Without;
    if d in order {
      var p :| 0 <= p < |order| && order[p] == d;
      AscendingDistinct(order, trace);
      WithoutAt(order, p);
    } else {
      WithoutAbsent(order, d);
    }
  }

  lemma {:induction false} AscendingSnoc(order: seq<string>, trace: seq<string>, d: string)
    requires Ascending(order, trace) && d !in order
    ensures Ascending(order + [d], trace + [d])
  {
    hide LastIndex;
    forall i, j | 0 <= i < j < |order + [d]|
      ensures LastIndex(trace + [d], (order + [d])[i]) < LastIndex(trace + [d], (order + [d])[j])
    {
      LastIndexSnoc(trace, d, (order + [d])[i]);
      LastIndexSnoc(trace, d, (order + [d])[j]);
    }
  }

  lemma {:induction false} AscendingTouch(order: seq<string>, trace: seq<string>, d: string)
    requires Ascending(order, trace)
    ensures Distinct(order) && Ascending(Touch(order, d), trace + [d])
  {
    hide Ascending, Without;
    AscendingDistinct(order, trace);
    AscendingWithout(order, trace, d);
    AscendingSnoc(Without(order, d), trace, d);
  }

  /** What was first in the order is still last touched no later than what is first afterwards. */
  lemma {:induction false} FirstAdvances(order: seq<string>, trace: seq<string>, n: int, d: string)
    requires n >= 1 && |order| == n && Ascending(order, trace)
    ensures |TakeLast(Touch(order, d), n)| == n
    ensures var first := TakeLast(Touch(order, d), n)[0];
            first == d || (first == order[0] && d in order) || (n > 1 && first == order[1])
    ensures d in TakeLast(Touch(order, d), n)
    ensures forall x :: x in order && x !in TakeLast(Touch(order, d), n) ==> x == order[0] && d !in order
  {
    hide LastIndex, Without, Ascending;
    AscendingDistinct(order, trace);
    FirstAfterTouch(order, n, d);
  }

  lemma {:induction false} FirstAfterTouch(order: seq<string>, n: int, d: string)
    requires n >= 1 && |order| == n && Distinct(order)
    ensures var r := TakeLast(Touch(order, d), n);
            && |r| == n && d in r
            && (r[0] == d || (r[0] == order[0] && d in order) || (n > 1 && r[0] == order[1]))
            && forall x :: x in order && x !in r ==> x == order[0] && d !in order
  {
    hide Without;
    if d in order {
      var p :| 0 <= p < |order| && order[p] == d;
      WithoutAt(order, p);
      MovedToEnd(order, p);
    } else {
      WithoutAbsent(order, d);
      assert TakeLast(Touch(order, d), n) == order[1..] + [d];
      assert order == [order[0]] + order[1..];
      assert (order[1..] + [d])[n - 1] == d;
    }
  }

  lemma {:induction false} MovedToEnd(order: seq<string>, p: nat)
    requires p < |order|
    ensures var r := order[..p] + order[p + 1..] + [order[p]];
            && |r| == |order| && r[|r| - 1] == order[p]
            && (r[0] == order[p] || r[0] == order[0] || (|order| > 1 && r[0] == order[1]))
            && forall x :: x in order ==> x in r
  {
    var r := order[..p] + order[p + 1..] + [order[p]];
    forall x | x in order
      ensures x in r
    {
      var j :| 0 <= j < |order| && order[j] == x;
      assert x == r[if j < p then j else if j == p then |r| - 1 else j - 1];
    }
  }

  lemma {:induction false} CoversTouch(order: seq<string>, trace: seq<string>, n: int, d: string)
    requires n >= 1 && |order| <= n && Ascending(order, trace) && Covers(order, trace, n)
    ensures Covers(TakeLast(Touch(order, d), n), trace + [d], n)
  {
    hide LastIndex, Without;
    var longer, result := trace + [d], TakeLast(Touch(order, d), n);
    if |order| < n {
      assert result == Touch(order, d) && forall x :: x in trace ==> x in order;
    } else {
      FirstAdvances(order, trace, n, d);
      LastIndexSnoc(trace, d, result[0]);
      forall x | x in longer && x !in result
        ensures LastIndex(longer, x) < LastIndex(longer, result[0])
      {
        LastIndexSnoc(trace, d, x);
        assert n > 1 ==> LastIndex(trace, order[0]) < LastIndex(trace, order[1]);
        assert x in trace && x != d;
        if x !in order {
          assert LastIndex(trace, x) < LastIndex(trace, order[0]);
        }
      }
    }
  }

  /** Touching a domain and keeping the last `n` extends the specification by one trace entry. */
  lemma {:induction false} TouchIsRecent(order: seq<string>, trace: seq<string>, n: int, d: string)
    requires n >= 1 && LastDistinct(order, trace, n)
    ensures LastDistinct(TakeLast(Touch(order, d), n), trace + [d], n)
    ensures d in order ==> |Touch(order, d)| <= n
  {
    hide Ascending, Covers, Without, Distinct;
    AscendingTouch(order, trace, d);
    CoversTouch(order, trace, n, d);
    TouchDistinct(order, d);
    AscendingSuffix(Touch(order, d), trace + [d], n);
  }

  lemma {:induction false} AscendingSuffix(order: seq<string>, trace: seq<string>, n: int)
    requires n >= 1 && Ascending(order, trace)
    ensures Ascending(TakeLast(order, n), trace)
  {
    hide LastIndex;
  }

  // ----- what every operation keeps -----------------------------------------

  predicate Bounded(lists: map<string, seq<Entry>>, max: int) {
    forall d :: d in lists ==> |lists[d]| <= max
  }

  predicate DistinctIds(datasets: seq<Dataset>) {
    forall i, j :: 0 <= i < j < |datasets| ==> datasets[i].datasetId != datasets[j].datasetId
  }

  /** Everything on the shelf belongs to one of the given domains and is within its limit. */
  predicate ShelfFits(h: Shelf, domains: set<string>, m: Limits) {
    && h.frameworks.Keys <= domains && h.axes.Keys <= domains && h.checks.Keys <= domains && h.rubrics.Keys <= domains
    && (forall d :: d in h.frameworks ==> h.frameworks[d].domainId == d)
    && Bounded(h.axes, m.axes) && Bounded(h.checks, m.checks) && Bounded(h.rubrics, m.rubrics)
  }

  predicate DatasetsFit(datasets: seq<Dataset>, domains: set<string>, m: Limits) {
    && |datasets| <= m.datasets && DistinctIds(datasets)
    && (forall x :: x in datasets ==> x.domainId in domains)
  }

  /** What holds between a registration and the eviction that follows. */
  predicate Fits(s: Service, m: Limits) {
    Distinct(s.order) && ShelfFits(s.shelf, Members(s.order), m) && DatasetsFit(s.datasets, Members(s.order), m)
  }

  /** What holds after every operation: everything stored belongs to a resident domain, and every
      limit is respected. */
  predicate Consistent(s: Service, m: Limits) {
    Fits(s, m) && |s.order| <= m.domains
  }

  lemma {:induction false} TouchDistinct(order: seq<string>, d: string)
    requires Distinct(order)
    ensures Distinct(Touch(order, d)) && Members(Touch(order, d)) == Members(order) + {d}
    ensures d in order ==> |Touch(order, d)| == |order|
  {
    if d in order {
      var p :| 0 <= p < |order| && order[p] == d;
      WithoutAt(order, p);
    } else {
      WithoutAbsent(order, d);
    }
  }

  lemma {:induction false} KeptDistinct(datasets: seq<Dataset>, gone: set<string>)
    requires DistinctIds(datasets)
    ensures DistinctIds(KeepDatasets(datasets, gone))
  {
    if datasets == [] {
    } else {
      var rest := KeepDatasets(datasets[1..], gone);
      KeptDistinct(datasets[1..], gone);
      KeptMembers(datasets[1..], gone);
      assert forall y :: y in rest ==> y.datasetId != datasets[0].datasetId;
    }
  }

  lemma {:induction false} DroppedDistinct(datasets: seq<Dataset>, id: string)
    requires DistinctIds(datasets)
    ensures DistinctIds(DropDataset(datasets, id))
  {
    if datasets == [] {
    } else {
      var rest := DropDataset(datasets[1..], id);
      DroppedDistinct(datasets[1..], id);
      DroppedMembers(datasets[1..], id);
      assert forall y :: y in rest ==> y.datasetId != datasets[0].datasetId;
    }
  }

  lemma {:induction false} ClearFits(h: Shelf, domains: set<string>, gone: set<string>, m: Limits)
    requires ShelfFits(h, domains, m)
    ensures ShelfFits(Clear(h, gone), domains - gone, m)
  {
  }

  lemma {:induction false} EvictionCompletes(s: Service, m: Limits)
    requires Clamped(m) && Fits(s, m)
    ensures Consistent(EvictDomains(s, m.domains), m)
    ensures EvictDomains(s, m.domains).order == TakeLast(s.order, m.domains)
  {
    if |s.order| > m.domains {
      var excess := |s.order| - m.domains;
      var gone := Members(s.order[..excess]);
      hide ShelfFits, Clear, KeepDatasets, DropDataset;
      KeptDistinct(s.datasets, gone);
      KeptMembers(s.datasets, gone);
      ClearFits(s.shelf, Members(s.order), gone, m);
      assert Members(s.order) - gone == Members(s.order[excess..]) by {
        assert s.order == s.order[..excess] + s.order[excess..];
      }
    }
  }

  /** Registering something for `d` and touching `d` leaves everything in place for the eviction. */
  lemma {:induction false} RegistrationFits(s: Service, h: Shelf, datasets: seq<Dataset>, d: string, m: Limits)
    requires Distinct(s.order)
    requires ShelfFits(h, Members(s.order) + {d}, m) && DatasetsFit(datasets, Members(s.order) + {d}, m)
    ensures Fits(Service(Touch(s.order, d), h, datasets), m)
  {
    hide ShelfFits, DatasetsFit, Without;
    TouchDistinct(s.order, d);
  }

  lemma {:induction false} ShelfWider(h: Shelf, domains: set<string>, d: string, m: Limits)
    requires ShelfFits(h, domains, m)
    ensures ShelfFits(h, domains + {d}, m)
  {
  }

  lemma {:induction false} ShelfGrows(h: Shelf, domains: set<string>, op: Op, m: Limits)
    requires Clamped(m) && ShelfFits(h, domains, m)
    ensures op.Register? ==>
              ShelfFits(h.(frameworks := h.frameworks[op.framework.domainId := op.framework]), domains + {op.framework.domainId}, m)
    ensures op.RegisterAxis? ==>
              ShelfFits(h.(axes := h.axes[op.domainId := TakeLast(Upsert(Get(h.axes, op.domainId), op.entry), m.axes)]),
                        domains + {op.domainId}, m)
    ensures op.RegisterCheck? ==>
              ShelfFits(h.(checks := h.checks[op.domainId := TakeLast(Upsert(Get(h.checks, op.domainId), op.entry), m.checks)]),
                        domains + {op.domainId}, m)
    ensures op.RegisterRubric? ==>
              ShelfFits(h.(rubrics := h.rubrics[op.domainId := TakeLast(Get(h.rubrics, op.domainId) + [op.entry], m.rubrics)]),
                        domains + {op.domainId}, m)
  {
    hide Upsert, Get;
  }

  lemma {:induction false} DatasetsGrow(datasets: seq<Dataset>, domains: set<string>, x: Dataset, m: Limits)
    requires Clamped(m) && DatasetsFit(datasets, domains, m)
    ensures DatasetsFit(TakeLast(DropDataset(datasets, x.datasetId) + [x], m.datasets), domains + {x.domainId}, m)
    ensures DatasetsFit(datasets, domains + {x.domainId}, m)
  {
    hide DropDataset;
    DroppedDistinct(datasets, x.datasetId);
    DroppedMembers(datasets, x.datasetId);
    assert forall y :: y in DropDataset(datasets, x.datasetId) ==> y.datasetId != x.datasetId;
    assert DistinctIds(DropDataset(datasets, x.datasetId) + [x]);
  }

  lemma {:induction false} CasesFit(s: Service, i: nat, cases: seq<Case>, m: Limits)
    requires Consistent(s, m) && i < |s.datasets|
    ensures Consistent(WithCases(s, i, cases), m)
    ensures WithCases(s, i, cases).order == TakeLast(Touch(s.order, s.datasets[i].domainId), m.domains)
  {
    hide ShelfFits, Without;
    var d := s.datasets[i].domainId;
    assert s.datasets[i] in s.datasets;
    TouchDistinct(s.order, d);
    assert Members(s.order) + {d} == Members(s.order);
    var s' := WithCases(s, i, cases);
    assert forall j :: 0 <= j < |s.datasets| ==> s'.datasets[j].domainId == s.datasets[j].domainId && s'.datasets[j].datasetId == s.datasets[j].datasetId;
    assert forall x :: x in s'.datasets ==> x.domainId in Members(s.order);
  }

  /** Every operation keeps the store consistent and moves the touched domain to the recent end. */
  lemma {:induction false} StepKeeps(s: Service, op: Op, m: Limits)
    requires Clamped(m) && Consistent(s, m)
    ensures Consistent(Step(s, op, m), m)
    ensures Step(s, op, m).order ==
            match Touched(s, op) { case Some(d) => TakeLast(Touch(s.order, d), m.domains) case None => s.order }
  {
    hide ShelfFits, DatasetsFit, Without, Upsert, DropDataset, EvictDomains, WithCases;
    var h, members := s.shelf, Members(s.order);
    ShelfGrows(h, members, op, m);
    match op
    case AddCase(id, c) =>
      var i := FindDataset(s.datasets, id);
      if i >= 0 {
        CasesFit(s, i, s.datasets[i].cases + [c], m);
      }
    case RemoveCase(id, caseId) =>
      var i := FindDataset(s.datasets, id);
      if i >= 0 {
        var cases := s.datasets[i].cases;
        var at := FindCase(cases, caseId);
        if at >= 0 {
          CasesFit(s, i, cases[..at] + cases[at + 1..], m);
        }
      }
    case RegisterDataset(x) =>
      var datasets := TakeLast(DropDataset(s.datasets, x.datasetId) + [x], m.datasets);
      DatasetsGrow(s.datasets, members, x, m);
      ShelfWider(h, members, x.domainId, m);
      RegistrationFits(s, h, datasets, x.domainId, m);
      EvictionCompletes(Service(Touch(s.order, x.domainId), h, datasets), m);
    case Register(f) => ShelfChange(s, h.(frameworks := h.frameworks[f.domainId := f]), f.domainId, m);
    case RegisterAxis(d, e) =>
      ShelfChange(s, h.(axes := h.axes[d := TakeLast(Upsert(Get(h.axes, d), e), m.axes)]), d, m);
    case RegisterCheck(d, e) =>
      ShelfChange(s, h.(checks := h.checks[d := TakeLast(Upsert(Get(h.checks, d), e), m.checks)]), d, m);
    case RegisterRubric(d, e) =>
      ShelfChange(s, h.(rubrics := h.rubrics[d := TakeLast(Get(h.rubrics, d) + [e], m.rubrics)]), d, m);
  }

  lemma {:induction false} ShelfChange(s: Service, h: Shelf, d: string, m: Limits)
    requires Clamped(m) && Consistent(s, m) && ShelfFits(h, Members(s.order) + {d}, m)
    ensures Consistent(Settle(s.(shelf := h), d, m), m)
    ensures Settle(s.(shelf := h), d, m).order == TakeLast(Touch(s.order, d), m.domains)
  {
    hide ShelfFits, Without, EvictDomains, DropDataset;
    DatasetsGrow(s.datasets, Members(s.order), Dataset("", d, []), m);
    RegistrationFits(s, h, s.datasets, d, m);
    EvictionCompletes(Service(Touch(s.order, d), h, s.datasets), m);
  }

  /** After any sequence of operations the recency order is the last `maxDomains` distinct domains of
      the touch trace, everything stored belongs to one of them, and every limit holds. */
  lemma {:induction false} RunIsLru(ops: seq<Op>, m: Limits)
    requires Clamped(m)
    ensures Consistent(Run(ops, m).0, m)
    ensures LastDistinct(Run(ops, m).0.order, Run(ops, m).1, m.domains)
  {
    hide Step, Touched, LastDistinct;
    if ops == [] {
      EmptyIsLru(m);
    } else {
      var (s, trace) := Run(ops[..|ops| - 1], m);
      var op := ops[|ops| - 1];
      RunIsLru(ops[..|ops| - 1], m);
      StepKeeps(s, op, m);
      match Touched(s, op) {
        case Some(d) => TouchIsRecent(s.order, trace, m.domains, d);
        case None => assert trace + [] == trace;
      }
    }
  }

  lemma {:induction false} EmptyIsLru(m: Limits)
    requires Clamped(m)
    ensures Consistent(EMPTY, m) && LastDistinct([], [], m.domains)
  {
  }

  // ----- what a caller sees -------------------------------------------------

  lemma {:induction false} EvictedApart(order: seq<string>, excess: nat, x: string)
    requires Distinct(order) && excess <= |order| && x in order[excess..]
    ensures x !in Members(order[..excess])
  {
    var j :| 0 <= j < |order[excess..]| && order[excess..][j] == x;
    assert order[excess + j] == x;
  }

  lemma {:induction false} SettledShelf(s: Service, d: string, m: Limits, x: string)
    requires Clamped(m) && Distinct(s.order)
    ensures var s' := Settle(s, d, m);
            && (x in s'.order ==> SameShelf(s.shelf, s'.shelf, x))
            && d in s'.order
            && (forall y :: y in s.datasets && y.domainId in s'.order ==> y in s'.datasets)
  {
    hide Without, SameShelf, Clear, KeepDatasets, Distinct, Members;
    TouchDistinct(s.order, d);
    var order := Touch(s.order, d);
    ClearedShelf(s.shelf, {}, x);
    if |order| > m.domains {
      var excess := |order| - m.domains;
      var gone := Members(order[..excess]);
      assert order[excess..][m.domains - 1] == d;
      KeptMembers(s.datasets, gone);
      forall y | y in order[excess..]
        ensures y !in gone
      {
        EvictedApart(order, excess, y);
      }
      if x in order[excess..] {
        ClearedShelf(s.shelf, gone, x);
      }
    }
  }

  lemma {:induction false} ClearedShelf(h: Shelf, gone: set<string>, x: string)
    requires x !in gone
    ensures SameShelf(h, Clear(h, gone), x) && SameShelf(h, h, x)
  {
  }

  /** The two shelves hold the same for domain `x`. */
  predicate SameShelf(h: Shelf, h': Shelf, x: string) {
    && (x in h.frameworks <==> x in h'.frameworks) && (x in h.frameworks ==> h.frameworks[x] == h'.frameworks[x])
    && (x in h.axes <==> x in h'.axes) && (x in h.axes ==> h.axes[x] == h'.axes[x])
    && (x in h.checks <==> x in h'.checks) && (x in h.checks ==> h.checks[x] == h'.checks[x])
    && (x in h.rubrics <==> x in h'.rubrics) && (x in h.rubrics ==> h.rubrics[x] == h'.rubrics[x])
  }

  /** A registration survives its own evictions: its domain is resident, most recent, and what was
      registered can be read back. */
  lemma {:induction false} RegistrationSurvives(s: Service, op: Op, m: Limits)
    requires Clamped(m) && Consistent(s, m)
    ensures var s' := Step(s, op, m);
            && (Touched(s, op).Some? ==> s'.order != [] && s'.order[|s'.order| - 1] == Touched(s, op).value)
            && (op.Register? ==> op.framework.domainId in s'.shelf.frameworks
                                 && s'.shelf.frameworks[op.framework.domainId] == op.framework)
            && (op.RegisterAxis? ==> op.domainId in s'.shelf.axes && op.entry in s'.shelf.axes[op.domainId])
            && (op.RegisterCheck? ==> op.domainId in s'.shelf.checks && op.entry in s'.shelf.checks[op.domainId])
            && (op.RegisterRubric? ==> op.domainId in s'.shelf.rubrics && op.entry in s'.shelf.rubrics[op.domainId])
            && (op.RegisterDataset? ==> op.dataset in s'.datasets)
  {
    hide Without, Upsert, DropDataset, EvictDomains, Fits;
    StepKeeps(s, op, m);
    if Touched(s, op).Some? {
      assert Touch(s.order, Touched(s, op).value)[|Touch(s.order, Touched(s, op).value)| - 1] == Touched(s, op).value;
    }
    match op
    case Register(f) =>
      DistinctOrder(s, m);
      SettledShelf(s.(shelf := s.shelf.(frameworks := s.shelf.frameworks[f.domainId := f])), f.domainId, m, f.domainId);
    case RegisterAxis(d, e) =>
      DistinctOrder(s, m);
      var axes := TakeLast(Upsert(Get(s.shelf.axes, d), e), m.axes);
      EntryKept(s, d, e, m);
      SettledShelf(s.(shelf := s.shelf.(axes := s.shelf.axes[d := axes])), d, m, d);
    case RegisterCheck(d, e) =>
      DistinctOrder(s, m);
      var checks := TakeLast(Upsert(Get(s.shelf.checks, d), e), m.checks);
      EntryKept(s, d, e, m);
      SettledShelf(s.(shelf := s.shelf.(checks := s.shelf.checks[d := checks])), d, m, d);
    case RegisterRubric(d, e) =>
      DistinctOrder(s, m);
      var rubrics := TakeLast(Get(s.shelf.rubrics, d) + [e], m.rubrics);
      EntryKept(s, d, e, m);
      SettledShelf(s.(shelf := s.shelf.(rubrics := s.shelf.rubrics[d := rubrics])), d, m, d);
    case RegisterDataset(x) =>
      DistinctOrder(s, m);
      var datasets := TakeLast(DropDataset(s.datasets, x.datasetId) + [x], m.datasets);
      assert datasets[|datasets| - 1] == x;
      SettledShelf(s.(datasets := datasets), x.domainId, m, x.domainId);
    case _ =>
  }

  /** Cutting a list back to its limit never cuts off the entry just put in. */
  lemma {:induction false} EntryKept(s: Service, d: string, e: Entry, m: Limits)
    requires Clamped(m) && Fits(s, m)
    ensures e in TakeLast(Upsert(Get(s.shelf.axes, d), e), m.axes)
    ensures e in TakeLast(Upsert(Get(s.shelf.checks, d), e), m.checks)
    ensures e in TakeLast(Get(s.shelf.rubrics, d) + [e], m.rubrics)
  {
    hide Upsert, DatasetsFit;
    LastKept(Upsert(Get(s.shelf.axes, d), e), m.axes);
    LastKept(Upsert(Get(s.shelf.checks, d), e), m.checks);
    LastKept(Get(s.shelf.rubrics, d) + [e], m.rubrics);
  }

  lemma {:induction false} LastKept(entries: seq<Entry>, n: int)
    requires n >= 1 && entries != []
    ensures entries[|entries| - 1] in TakeLast(entries, n)
  {
    var r := TakeLast(entries, n);
    assert r[|r| - 1] == entries[|entries| - 1];
  }

  lemma {:induction false} DistinctOrder(s: Service, m: Limits)
    requires Fits(s, m)
    ensures Distinct(s.order)
  {
  }

  /** An operation leaves the framework, axes, checks and rubrics of every other domain that stays
      resident as they were. */
  lemma {:induction false} OthersUntouched(s: Service, op: Op, m: Limits, x: string)
    requires Clamped(m) && Consistent(s, m)
    requires x in Step(s, op, m).order && Touched(s, op) != Some(x)
    ensures SameShelf(s.shelf, Step(s, op, m).shelf, x)
  {
    hide Without, Upsert, DropDataset, EvictDomains, Fits, Touch;
    DistinctOrder(s, m);
    var h := s.shelf;
    match op
    case Register(f) => SettledShelf(s.(shelf := h.(frameworks := h.frameworks[f.domainId := f])), f.domainId, m, x);
    case RegisterAxis(d, e) =>
      SettledShelf(s.(shelf := h.(axes := h.axes[d := TakeLast(Upsert(Get(h.axes, d), e), m.axes)])), d, m, x);
    case RegisterCheck(d, e) =>
      SettledShelf(s.(shelf := h.(checks := h.checks[d := TakeLast(Upsert(Get(h.checks, d), e), m.checks)])), d, m, x);
    case RegisterRubric(d, e) =>
      SettledShelf(s.(shelf := h.(rubrics := h.rubrics[d := TakeLast(Get(h.rubrics, d) + [e], m.rubrics)])), d, m, x);
    case RegisterDataset(y) =>
      SettledShelf(s.(datasets := TakeLast(DropDataset(s.datasets, y.datasetId) + [y], m.datasets)), y.domainId, m, x);
    case _ =>
  }

  // ----- which datasets stay ------------------------------------------------

  /** The operation loses dataset `i` of a resident domain: it registers another one under the same id,
      or one more than fits with those newer than `i`, or it rewrites the dataset's cases. */
  predicate Displaces(s: Service, op: Op, m: Limits, i: nat)
    requires i < |s.datasets|
  {
    var x := s.datasets[i];
    match op
    case RegisterDataset(y) =>
      if x.datasetId == y.datasetId then x != y else |DropDataset(s.datasets[i + 1..], y.datasetId)| + 2 > m.datasets
    case AddCase(id, _) => x.datasetId == id
    case RemoveCase(id, caseId) => x.datasetId == id && FindCase(x.cases, caseId) >= 0
    case _ => false
  }

  lemma {:induction false} SettledDatasets(s: Service, d: string, m: Limits, y: Dataset)
    requires Clamped(m) && Distinct(s.order) && y.domainId in Settle(s, d, m).order
    ensures y in Settle(s, d, m).datasets <==> y in s.datasets
  {
    hide Without, SameShelf, Clear, KeepDatasets;
    SettledShelf(s, d, m, d);
    var order := Touch(s.order, d);
    if |order| > m.domains {
      KeptMembers(s.datasets, Members(order[..|order| - m.domains]));
    }
  }

  lemma {:induction false} DropAppends(a: seq<Dataset>, b: seq<Dataset>, id: string)
    ensures DropDataset(a + b, id) == DropDataset(a, id) + DropDataset(b, id)
  {
    if a == [] {
      assert a + b == b;
    } else {
      assert (a + b)[1..] == a[1..] + b;
      DropAppends(a[1..], b, id);
    }
  }

  lemma {:induction false} InTakeLast(a: seq<Dataset>, x: Dataset, b: seq<Dataset>, n: int)
    requires n >= 0 && x !in b
    ensures x in TakeLast(a + [x] + b, n) <==> |b| + 1 <= n
  {
    var s, r := a + [x] + b, TakeLast(a + [x] + b, n);
    if |b| + 1 <= n {
      assert r[|r| - 1 - |b|] == x;
    } else {
      assert r == b[|b| - n..];
    }
  }

  lemma {:induction false} CutExactlyWhen(datasets: seq<Dataset>, i: nat, y: Dataset, m: Limits)
    requires Clamped(m) && DistinctIds(datasets) && i < |datasets|
    ensures var x := datasets[i];
            x in TakeLast(DropDataset(datasets, y.datasetId) + [y], m.datasets) <==>
            if x.datasetId == y.datasetId then x == y else |DropDataset(datasets[i + 1..], y.datasetId)| + 2 <= m.datasets
  {
    hide DropDataset;
    var x, id := datasets[i], y.datasetId;
    var kept := DropDataset(datasets, id);
    DroppedMembers(datasets, id);
    if x.datasetId == id {
      var r := TakeLast(kept + [y], m.datasets);
      assert r[|r| - 1] == y;
      assert x !in kept;
    } else {
      assert datasets == datasets[..i] + ([x] + datasets[i + 1..]);
      DropAppends(datasets[..i], [x] + datasets[i + 1..], id);
      DropAppends([x], datasets[i + 1..], id);
      DropOne(x, id);
      DroppedMembers(datasets[i + 1..], id);
      var a, b := DropDataset(datasets[..i], id), DropDataset(datasets[i + 1..], id) + [y];
      assert kept + [y] == a + [x] + b;
      InTakeLast(a, x, b, m.datasets);
    }
  }

  lemma {:induction false} DropOne(x: Dataset, id: string)
    requires x.datasetId != id
    ensures DropDataset([x], id) == [x]
  {
    assert [x][1..] == [];
  }

  /** A dataset of a domain that stays resident stays exactly when the operation does not displace it. */
  lemma {:induction false} DatasetStaysExactlyWhen(s: Service, op: Op, m: Limits, i: nat)
    requires Clamped(m) && Consistent(s, m) && i < |s.datasets|
    requires s.datasets[i].domainId in Step(s, op, m).order
    ensures s.datasets[i] in Step(s, op, m).datasets <==> !Displaces(s, op, m, i)
  {
    hide Without, Upsert, DropDataset, EvictDomains, ShelfFits, Touch, FindCase, FindDataset, TakeLast;
    var h, x := s.shelf, s.datasets[i];
    match op
    case Register(f) => SettledDatasets(s.(shelf := h.(frameworks := h.frameworks[f.domainId := f])), f.domainId, m, x);
    case RegisterAxis(d, e) =>
      SettledDatasets(s.(shelf := h.(axes := h.axes[d := TakeLast(Upsert(Get(h.axes, d), e), m.axes)])), d, m, x);
    case RegisterCheck(d, e) =>
      SettledDatasets(s.(shelf := h.(checks := h.checks[d := TakeLast(Upsert(Get(h.checks, d), e), m.checks)])), d, m, x);
    case RegisterRubric(d, e) =>
      SettledDatasets(s.(shelf := h.(rubrics := h.rubrics[d := TakeLast(Get(h.rubrics, d) + [e], m.rubrics)])), d, m, x);
    case RegisterDataset(y) =>
      SettledDatasets(s.(datasets := TakeLast(DropDataset(s.datasets, y.datasetId) + [y], m.datasets)), y.domainId, m, x);
      CutExactlyWhen(s.datasets, i, y, m);
    case AddCase(id, c) =>
      var j := FindDataset(s.datasets, id);
      if j >= 0 {
        ReplacedDataset(s.datasets, i, j, s.datasets[j].cases + [c]);
      }
    case RemoveCase(id, caseId) =>
      var j := FindDataset(s.datasets, id);
      if j >= 0 {
        var cases := s.datasets[j].cases;
        var at := FindCase(cases, caseId);
        if at >= 0 {
          ReplacedDataset(s.datasets, i, j, cases[..at] + cases[at + 1..]);
        }
      }
  }

  /** No operation adds a dataset to a domain it does not touch. */
  lemma {:induction false} NoForeignDataset(s: Service, op: Op, m: Limits, y: Dataset)
    requires Clamped(m) && Consistent(s, m)
    requires y in Step(s, op, m).datasets && Touched(s, op) != Some(y.domainId)
    ensures y in s.datasets
  {
    hide Without, Upsert, DropDataset, EvictDomains, ShelfFits, Touch, FindCase, FindDataset;
    var h := s.shelf;
    match op
    case Register(f) => SettledOnlyLoses(s.(shelf := h.(frameworks := h.frameworks[f.domainId := f])), f.domainId, m, y);
    case RegisterAxis(d, e) =>
      SettledOnlyLoses(s.(shelf := h.(axes := h.axes[d := TakeLast(Upsert(Get(h.axes, d), e), m.axes)])), d, m, y);
    case RegisterCheck(d, e) =>
      SettledOnlyLoses(s.(shelf := h.(checks := h.checks[d := TakeLast(Upsert(Get(h.checks, d), e), m.checks)])), d, m, y);
    case RegisterRubric(d, e) =>
      SettledOnlyLoses(s.(shelf := h.(rubrics := h.rubrics[d := TakeLast(Get(h.rubrics, d) + [e], m.rubrics)])), d, m, y);
    case RegisterDataset(x) =>
      DroppedMembers(s.datasets, x.datasetId);
      SettledOnlyLoses(s.(datasets := TakeLast(DropDataset(s.datasets, x.datasetId) + [x], m.datasets)), x.domainId, m, y);
    case _ =>
  }

  lemma {:induction false} SettledOnlyLoses(s: Service, d: string, m: Limits, y: Dataset)
    requires Clamped(m) && y in Settle(s, d, m).datasets
    ensures y in s.datasets
  {
    hide KeepDatasets, Clear, Touch;
    var order := Touch(s.order, d);
    if |order| > m.domains {
      KeptMembers(s.datasets, Members(order[..|order| - m.domains]));
    }
  }

  lemma {:induction false} ReplacedDataset(datasets: seq<Dataset>, i: nat, j: nat, cases: seq<Case>)
    requires DistinctIds(datasets) && i < |datasets| && j < |datasets| && |cases| != |datasets[j].cases|
    ensures datasets[i] in datasets[j := datasets[j].(cases := cases)] <==> i != j
  {
    var r := datasets[j := datasets[j].(cases := cases)];
    if i != j {
      assert r[i] == datasets[i];
    }
  }

  /** It happens: with room for one dataset, registering one for domain B loses that of domain A, which
      stays resident. */
  lemma {:induction false} DatasetOfResidentLost() returns (s: Service, op: Op, m: Limits)
    ensures Clamped(m) && Consistent(s, m) && |s.datasets| == 1
    ensures Touched(s, op) != Some(s.datasets[0].domainId)
    ensures s.datasets[0].domainId in Step(s, op, m).order && s.datasets[0] !in Step(s, op, m).datasets
  {
    m := Limits(2, 1, 1, 1, 1);
    s := Service(["A"], EMPTY.shelf, [Dataset("x", "A", [])]);
    op := RegisterDataset(Dataset("y", "B", []));
    WithoutAbsent(["A"], "B");
    assert Touch(["A"], "B") == ["A", "B"];
    assert Step(s, op, m).order == ["A", "B"];
    assert s.datasets[1..] == [];
    DatasetStaysExactlyWhen(s, op, m, 0);
  }
}
