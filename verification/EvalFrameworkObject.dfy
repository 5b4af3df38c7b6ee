/** The evaluation store as the object it is, with the eviction loops as written. */
module EvalFrameworkObject {
  import opened Basics
  import opened EvalFramework

  class DomainEvalFrameworkService {
    const limits: Limits

    var frameworks: map<string, Framework>
    var qualityAxes: map<string, seq<Entry>>
    var automatedChecks: map<string, seq<Entry>>
    var rubrics: map<string, seq<Entry>>
    var regressionDatasets: seq<Dataset>
    var domainAccessOrder: seq<string>

    function View(): Service
      reads this
    {
      Service(domainAccessOrder, Shelf(frameworks, qualityAxes, automatedChecks, rubrics), regressionDatasets)
    }

    constructor (maxDomains: int, maxDatasets: int, maxAxes: int, maxChecks: int, maxRubrics: int)
      ensures Clamped(limits) && View() == EMPTY
      ensures maxDomains >= 1 ==> limits.domains == maxDomains
      ensures maxDatasets >= 1 ==> limits.datasets == maxDatasets
    {
      limits := Limits(AtLeastOne(maxDomains), AtLeastOne(maxDatasets), AtLeastOne(maxAxes),
                       AtLeastOne(maxChecks), AtLeastOne(maxRubrics));
      frameworks, qualityAxes, automatedChecks, rubrics := map[], map[], map[], map[];
      regressionDatasets, domainAccessOrder := [], [];
    }

    method TouchDomain(domainId: string)
      modifies this`domainAccessOrder
      ensures domainAccessOrder == Touch(old(domainAccessOrder), domainId)
    {
      domainAccessOrder := Without(domainAccessOrder, domainId);
      domainAccessOrder := domainAccessOrder + [domainId];
    }

    /** Evicts the oldest domain, with all that belongs to it, while there are too many. */
    method EvictOldestDomainIfNeeded()
      requires Clamped(limits)
      modifies this
      ensures View() == EvictDomains(old(View()), limits.domains)
    {
      ghost var k := 0;
      ghost var before := View();
      assert before.order[0..] == before.order;
      NothingCleared(before.shelf, before.datasets);
      assert Members(before.order[..0]) == {};
      while |domainAccessOrder| > limits.domains
        invariant k <= |before.order| && domainAccessOrder == before.order[k..]
        invariant k > 0 ==> |before.order| - k >= limits.domains
        invariant View().shelf == Clear(before.shelf, Members(before.order[..k]))
        invariant regressionDatasets == KeepDatasets(before.datasets, Members(before.order[..k]))
        decreases |domainAccessOrder|
      {
        hide KeepDatasets, Clear;
        var oldest := domainAccessOrder[0];
        domainAccessOrder := domainAccessOrder[1..];
        frameworks := frameworks - {oldest};
        qualityAxes := qualityAxes - {oldest};
        automatedChecks := automatedChecks - {oldest};
        rubrics := rubrics - {oldest};
        regressionDatasets := KeepDatasets(regressionDatasets, {oldest});
        assert Members(before.order[..k + 1]) == Members(before.order[..k]) + {oldest} by {
          assert before.order[..k + 1] == before.order[..k] + [oldest];
        }
        KeepTwice(before.datasets, Members(before.order[..k]), {oldest});
        ClearOneMore(before.shelf, Members(before.order[..k]), oldest);
        k := k + 1;
      }
    }

    /** Evicts the oldest datasets while there are too many. */
    method EvictOldestRegressionDatasetIfNeeded()
      requires Clamped(limits)
      modifies this`regressionDatasets
      ensures regressionDatasets == TakeLast(old(regressionDatasets), limits.datasets)
    {
      ghost var k := 0;
      while |regressionDatasets| > limits.datasets
        invariant k <= |old(regressionDatasets)| && regressionDatasets == old(regressionDatasets)[k..]
        invariant k > 0 ==> |regressionDatasets| >= limits.datasets
        decreases |regressionDatasets|
      {
        regressionDatasets := regressionDatasets[1..];
        k := k + 1;
      }
    }

    method RegisterFramework(framework: Framework)
      requires Clamped(limits)
      modifies this
      ensures View() == Step(old(View()), Register(framework), limits)
    {
      hide Without, EvictDomains;
      frameworks := frameworks[framework.domainId := framework];
      TouchDomain(framework.domainId);
      EvictOldestDomainIfNeeded();
    }

    method RegisterQualityAxis(domainId: string, axis: Entry)
      requires Clamped(limits)
      modifies this
      ensures View() == Step(old(View()), RegisterAxis(domainId, axis), limits)
    {
      hide Without, EvictDomains;
      var axes := Upsert(Get(qualityAxes, domainId), axis);
      qualityAxes := qualityAxes[domainId := TakeLast(axes, limits.axes)];
      TouchDomain(domainId);
      EvictOldestDomainIfNeeded();
    }

    method RegisterAutomatedCheck(domainId: string, check: Entry)
      requires Clamped(limits)
      modifies this
      ensures View() == Step(old(View()), RegisterCheck(domainId, check), limits)
    {
      hide Without, EvictDomains;
      var checks := Upsert(Get(automatedChecks, domainId), check);
      automatedChecks := automatedChecks[domainId := TakeLast(checks, limits.checks)];
      TouchDomain(domainId);
      EvictOldestDomainIfNeeded();
    }

    method RegisterHumanRubric(domainId: string, rubric: Entry)
      requires Clamped(limits)
      modifies this
      ensures View() == Step(old(View()), RegisterRubric(domainId, rubric), limits)
    {
      hide Without, EvictDomains;
      rubrics := rubrics[domainId := TakeLast(Get(rubrics, domainId) + [rubric], limits.rubrics)];
      TouchDomain(domainId);
      EvictOldestDomainIfNeeded();
    }

    method RegisterRegressionDataset(dataset: Dataset)
      requires Clamped(limits)
      modifies this
      ensures View() == Step(old(View()), RegisterDataset(dataset), limits)
    {
      hide Without, EvictDomains, DropDataset;
      regressionDatasets := DropDataset(regressionDatasets, dataset.datasetId);
      regressionDatasets := regressionDatasets + [dataset];
      TouchDomain(dataset.domainId);
      EvictOldestRegressionDatasetIfNeeded();
      EvictOldestDomainIfNeeded();
    }

    method AddRegressionCase(datasetId: string, case_: Case) returns (found: bool)
      requires Clamped(limits)
      modifies this
      ensures View() == Step(old(View()), AddCase(datasetId, case_), limits)
      ensures found <==> exists x :: x in old(regressionDatasets) && x.datasetId == datasetId
    {
      hide Without;
      var i := FindDataset(regressionDatasets, datasetId);
      if i < 0 {
        return false;
      }
      var dataset := regressionDatasets[i];
      regressionDatasets := regressionDatasets[i := dataset.(cases := dataset.cases + [case_])];
      TouchDomain(dataset.domainId);
      return true;
    }

    method RemoveRegressionCase(datasetId: string, caseId: string) returns (found: bool)
      requires Clamped(limits)
      modifies this
      ensures View() == Step(old(View()), RemoveCase(datasetId, caseId), limits)
      ensures found <==> Touched(old(View()), RemoveCase(datasetId, caseId)).Some?
    {
      hide Without;
      var i := FindDataset(regressionDatasets, datasetId);
      if i < 0 {
        return false;
      }
      var dataset := regressionDatasets[i];
      var at := FindCase(dataset.cases, caseId);
      if at < 0 {
        return false;
      }
      regressionDatasets := regressionDatasets[i := dataset.(cases := dataset.cases[..at] + dataset.cases[at + 1..])];
      TouchDomain(dataset.domainId);
      return true;
    }
  }

  function AtLeastOne(n: int): int {
    if n < 1 then 1 else n
  }

  lemma {:induction false} KeepTwice(datasets: seq<Dataset>, a: set<string>, b: set<string>)
    ensures KeepDatasets(KeepDatasets(datasets, a), b) == KeepDatasets(datasets, a + b)
  {
    if datasets == [] {
    } else {
      KeepTwice(datasets[1..], a, b);
      var rest := KeepDatasets(datasets[1..], a);
      assert ([datasets[0]] + rest)[1..] == rest && [] + rest == rest;
    }
  }

  lemma {:induction false} ClearOneMore(h: Shelf, gone: set<string>, d: string)
    ensures var c := Clear(h, gone);
            Clear(h, gone + {d}) == Shelf(c.frameworks - {d}, c.axes - {d}, c.checks - {d}, c.rubrics - {d})
  {
  }

  lemma {:induction false} NothingCleared(h: Shelf, datasets: seq<Dataset>)
    ensures Clear(h, {}) == h && KeepDatasets(datasets, {}) == datasets
  {
    if datasets == [] {
    } else {
      NothingCleared(h, datasets[1..]);
    }
  }
}
