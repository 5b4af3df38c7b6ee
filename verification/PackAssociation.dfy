/** The index between packs and domains: a pack's domain, a domain's packs in the order they joined,
    and each domain's primary pack. */
module PackAssociation {
  import opened Basics

  datatype Index = Index(packToDomain: map<string, string>, domainToPacks: map<string, seq<string>>, primaryPacks: map<string, string>)

  const EMPTY := Index(map[], map[], map[])

  /** `compatible` is the verdict of the resolvers and of the manifest comparison. */
  datatype Op =
    | Associate(pack: string, domain: string, isPrimary: bool, compatible: bool)
    | Dissociate(pack: string)
    | SetPrimary(domain: string, pack: string)

  function Packs(ix: Index, domain: string): seq<string> {
    if domain in ix.domainToPacks then ix.domainToPacks[domain] else []
  }

  function With(packs: seq<string>, pack: string): (r: seq<string>)
    ensures forall p :: p in r <==> p in packs || p == pack
  {
    if pack in packs then packs else packs + [pack]
  }

  function Dissociated(ix: Index, pack: string): Index {
    if pack !in ix.packToDomain || ix.packToDomain[pack] == "" then ix
    else
      var domain := ix.packToDomain[pack];
      var rest := Without(Packs(ix, domain), pack);
      var primary := ix.primaryPacks;
      Index(ix.packToDomain - {pack},
            if rest == [] then ix.domainToPacks - {domain} else ix.domainToPacks[domain := rest],
            if domain !in primary || primary[domain] != pack then primary
            else if rest == [] then primary - {domain}
            else primary[domain := rest[0]])
  }

  function Linked(ix: Index, pack: string, domain: string, isPrimary: bool): Index {
    Index(ix.packToDomain[pack := domain],
          ix.domainToPacks[domain := With(Packs(ix, domain), pack)],
          if isPrimary || domain !in ix.primaryPacks then ix.primaryPacks[domain := pack] else ix.primaryPacks)
  }

  predicate Accepts(ix: Index, op: Op) {
    match op
    case Associate(_, _, _, compatible) => compatible
    case Dissociate(_) => true
    case SetPrimary(domain, pack) => pack in Packs(ix, domain)
  }

  function Step(ix: Index, op: Op): Index {
    if !Accepts(ix, op) then ix
    else
      match op
      case Associate(pack, domain, isPrimary, _) =>
        var moved := pack in ix.packToDomain && ix.packToDomain[pack] != domain;
        Linked(if moved then Dissociated(ix, pack) else ix, pack, domain, isPrimary)
      case Dissociate(pack) => Dissociated(ix, pack)
      case SetPrimary(domain, pack) => ix.(primaryPacks := ix.primaryPacks[domain := pack])
  }

  function Run(ops: seq<Op>): Index {
    if ops == [] then EMPTY else Step(Run(ops[..|ops| - 1]), ops[|ops| - 1])
  }

  // ----- the invariant ------------------------------------------------------

  /** Both maps tell the same links, in both directions. */
  ghost predicate Inverse(ix: Index) {
    forall domain, pack :: pack in Packs(ix, domain) <==> pack in ix.packToDomain && ix.packToDomain[pack] == domain
  }

  ghost predicate Lists(ix: Index) {
    forall domain :: domain in ix.domainToPacks ==> ix.domainToPacks[domain] != [] && Distinct(ix.domainToPacks[domain])
  }

  /** One primary for each listed domain and for no other, drawn from its own packs. */
  ghost predicate Primaries(ix: Index) {
    && ix.primaryPacks.Keys == ix.domainToPacks.Keys
    && (forall domain :: domain in ix.primaryPacks ==> ix.primaryPacks[domain] in ix.domainToPacks[domain])
  }

  /** Inverse maps, no empty or repeating pack list, and exactly one primary where there are packs. */
  ghost predicate Consistent(ix: Index) {
    Inverse(ix) && Lists(ix) && Primaries(ix)
  }

  lemma {:induction false} DissociatedPacks(ix: Index, pack: string, domain: string)
    requires pack in ix.packToDomain && ix.packToDomain[pack] != ""
    ensures Packs(Dissociated(ix, pack), domain) ==
            if domain == ix.packToDomain[pack] then Without(Packs(ix, domain), pack) else Packs(ix, domain)
  {
    hide Without;
  }

  lemma {:induction false} DissociatedInverse(ix: Index, pack: string)
    requires Inverse(ix) && pack in ix.packToDomain && ix.packToDomain[pack] != ""
    ensures Inverse(Dissociated(ix, pack))
  {
    hide Without;
    var ix' := Dissociated(ix, pack);
    assert ix'.packToDomain == ix.packToDomain - {pack};
    forall domain, p
      ensures p in Packs(ix', domain) <==> p in ix'.packToDomain && ix'.packToDomain[p] == domain
    {
      DissociatedPacks(ix, pack, domain);
      hide Dissociated, Packs;
      assert p in Packs(ix, domain) <==> p in ix.packToDomain && ix.packToDomain[p] == domain;
    }
  }

  lemma {:induction false} DissociatedLists(ix: Index, pack: string)
    requires Lists(ix)
    ensures Lists(Dissociated(ix, pack))
  {
    hide Without, Distinct;
    if pack in ix.packToDomain && ix.packToDomain[pack] in ix.domainToPacks {
      WithoutDistinct(Packs(ix, ix.packToDomain[pack]), pack);
    } else {
      WithoutAbsent([], pack);
    }
  }

  lemma {:induction false} DissociatedPrimaries(ix: Index, pack: string)
    requires Primaries(ix) && Inverse(ix) && pack in ix.packToDomain && ix.packToDomain[pack] != ""
    ensures Primaries(Dissociated(ix, pack))
  {
    hide Without, Inverse;
    var domain := ix.packToDomain[pack];
    assert pack in Packs(ix, domain) by {
      InverseAt(ix, pack);
    }
  }

  lemma {:induction false} InverseAt(ix: Index, pack: string)
    requires Inverse(ix) && pack in ix.packToDomain
    ensures pack in Packs(ix, ix.packToDomain[pack])
  {
  }

  lemma {:induction false} DissociatedKeeps(ix: Index, pack: string)
    requires Consistent(ix)
    ensures Consistent(Dissociated(ix, pack))
  {
    if pack in ix.packToDomain && ix.packToDomain[pack] != "" {
      hide Inverse, Lists, Primaries, Dissociated;
      DissociatedInverse(ix, pack);
      DissociatedLists(ix, pack);
      DissociatedPrimaries(ix, pack);
    }
  }

  lemma {:induction false} LinkedInverse(ix: Index, pack: string, domain: string, isPrimary: bool)
    requires Inverse(ix)
    requires pack in ix.packToDomain ==> ix.packToDomain[pack] == domain
    ensures Inverse(Linked(ix, pack, domain, isPrimary))
  {
    var ix' := Linked(ix, pack, domain, isPrimary);
    forall d, p
      ensures p in Packs(ix', d) <==> p in ix'.packToDomain && ix'.packToDomain[p] == d
    {
      assert Packs(ix', d) == if d == domain then With(Packs(ix, d), pack) else Packs(ix, d);
      assert ix'.packToDomain == ix.packToDomain[pack := domain];
      hide Linked, Packs, With;
      assert p in Packs(ix, d) <==> p in ix.packToDomain && ix.packToDomain[p] == d;
    }
  }

  lemma {:induction false} LinkedLists(ix: Index, pack: string, domain: string, isPrimary: bool)
    requires Lists(ix)
    ensures Lists(Linked(ix, pack, domain, isPrimary))
  {
    assert Distinct(With(Packs(ix, domain), pack));
    hide Distinct, With;
  }

  lemma {:induction false} LinkedPrimaries(ix: Index, pack: string, domain: string, isPrimary: bool)
    requires Primaries(ix)
    ensures Primaries(Linked(ix, pack, domain, isPrimary))
  {
    hide With;
  }

  lemma {:induction false} LinkedKeeps(ix: Index, pack: string, domain: string, isPrimary: bool)
    requires Consistent(ix)
    requires pack in ix.packToDomain ==> ix.packToDomain[pack] == domain
    ensures Consistent(Linked(ix, pack, domain, isPrimary))
  {
    hide Inverse, Lists, Primaries, Linked;
    LinkedInverse(ix, pack, domain, isPrimary);
    LinkedLists(ix, pack, domain, isPrimary);
    LinkedPrimaries(ix, pack, domain, isPrimary);
  }

  /** The operation tries to move a pack out of the domain with the empty name, which the code takes
      for no domain at all. */
  predicate LeavesUnnamed(ix: Index, op: Op) {
    op.Associate? && op.compatible && op.pack in ix.packToDomain && ix.packToDomain[op.pack] == "" && op.domain != ""
  }

  lemma {:induction false} LeavingBreaks(ix: Index, op: Op)
    requires Inverse(ix) && LeavesUnnamed(ix, op)
    ensures !Inverse(Step(ix, op)) && op.pack in Packs(Step(ix, op), "")
  {
    hide Without, With, Inverse;
    InverseAt(ix, op.pack);
    var ix' := Step(ix, op);
    assert Packs(ix', "") == Packs(ix, "") && ix'.packToDomain[op.pack] != "";
    if Inverse(ix') {
      OnlyIn(ix', op.pack, "");
    }
  }

  lemma {:induction false} OnlyIn(ix: Index, pack: string, domain: string)
    requires Inverse(ix) && pack in Packs(ix, domain)
    ensures pack in ix.packToDomain && ix.packToDomain[pack] == domain
  {
  }

  lemma {:induction false} AssociateKeeps(ix: Index, pack: string, domain: string, isPrimary: bool)
    requires Consistent(ix) && !LeavesUnnamed(ix, Associate(pack, domain, isPrimary, true))
    ensures Consistent(Step(ix, Associate(pack, domain, isPrimary, true)))
  {
    hide Linked, Consistent, Without;
    if pack in ix.packToDomain && ix.packToDomain[pack] != domain {
      DissociatedKeeps(ix, pack);
      LinkedKeeps(Dissociated(ix, pack), pack, domain, isPrimary);
    } else {
      LinkedKeeps(ix, pack, domain, isPrimary);
    }
  }

  lemma {:induction false} SetPrimaryKeeps(ix: Index, domain: string, pack: string)
    requires Consistent(ix)
    ensures Consistent(Step(ix, SetPrimary(domain, pack)))
  {
    hide Without, With, Distinct;
    var ix' := Step(ix, SetPrimary(domain, pack));
    assert Inverse(ix') by {
      assert forall d :: Packs(ix', d) == Packs(ix, d);
    }
  }

  /** An operation keeps the index consistent exactly when it does not leave the empty name. */
  lemma {:induction false} StepConsistentExactlyWhen(ix: Index, op: Op)
    requires Consistent(ix)
    ensures Consistent(Step(ix, op)) <==> !LeavesUnnamed(ix, op)
  {
    hide Without, With, Linked, Dissociated, Inverse, Lists, Primaries;
    match op
    case Associate(pack, domain, isPrimary, compatible) =>
      if LeavesUnnamed(ix, op) {
        LeavingBreaks(ix, op);
      } else if compatible {
        AssociateKeeps(ix, pack, domain, isPrimary);
      }
    case Dissociate(pack) => DissociatedKeeps(ix, pack);
    case SetPrimary(domain, pack) => SetPrimaryKeeps(ix, domain, pack);
  }

  /** No call associates a pack with the empty domain name. */
  predicate Named(ops: seq<Op>) {
    forall i :: 0 <= i < |ops| && ops[i].Associate? ==> ops[i].domain != ""
  }

  lemma {:induction false} StepStaysNamed(ix: Index, op: Op)
    requires forall p :: p in ix.packToDomain ==> ix.packToDomain[p] != ""
    requires op.Associate? ==> op.domain != ""
    ensures forall p :: p in Step(ix, op).packToDomain ==> Step(ix, op).packToDomain[p] != ""
  {
    hide Without, With;
  }

  /** In every run that uses no empty domain name. */
  lemma {:induction false} RunConsistent(ops: seq<Op>)
    requires Named(ops)
    ensures Consistent(Run(ops))
    ensures forall p :: p in Run(ops).packToDomain ==> Run(ops).packToDomain[p] != ""
  {
    hide Step, Consistent;
    if ops == [] {
      EmptyConsistent();
    } else {
      var init, op := ops[..|ops| - 1], ops[|ops| - 1];
      assert op == ops[|ops| - 1];
      RunConsistent(init);
      StepStaysNamed(Run(init), op);
      StepConsistentExactlyWhen(Run(init), op);
    }
  }

  lemma {:induction false} EmptyConsistent()
    ensures Consistent(EMPTY)
  {
  }

  /** The exact condition is needed: two calls leave a pack listed in a domain that is not its own. */
  lemma {:induction false} UnnamedDomainBreaksIndex(pack: string)
    ensures var ix := Run([Associate(pack, "", false, true), Associate(pack, "sales", false, true)]);
            && !Consistent(ix) && pack in Packs(ix, "") && ix.packToDomain == map[pack := "sales"]
  {
    hide Consistent, Without;
    var first, second := Associate(pack, "", false, true), Associate(pack, "sales", false, true);
    RunOfTwo(first, second);
    EmptyConsistent();
    StepConsistentExactlyWhen(EMPTY, first);
    StepConsistentExactlyWhen(Step(EMPTY, first), second);
    assert Packs(Step(EMPTY, first), "") == [pack];
  }

  lemma {:induction false} RunOfTwo(first: Op, second: Op)
    ensures Run([first, second]) == Step(Step(EMPTY, first), second)
  {
    hide Step;
    assert [first, second][..1] == [first];
    assert [first][..0] == [];
    assert Run([first]) == Step(Run([]), first);
  }

  // ----- a simple form: one list of links -----------------------------------

  datatype Link = Link(pack: string, domain: string)

  /** All links in the order in which packs joined their domains. */
  function Unlink(links: seq<Link>, pack: string): (r: seq<Link>)
    ensures forall l :: l in r <==> l in links && l.pack != pack
  {
    if links == [] then []
    else if links[0].pack == pack then Unlink(links[1..], pack)
    else [links[0]] + Unlink(links[1..], pack)
  }

  function LinkStep(links: seq<Link>, op: Op): seq<Link> {
    match op
    case Associate(pack, domain, _, compatible) =>
      if !compatible || Link(pack, domain) in links then links else Unlink(links, pack) + [Link(pack, domain)]
    case Dissociate(pack) => Unlink(links, pack)
    case SetPrimary(_, _) => links
  }

  function LinkRun(ops: seq<Op>): seq<Link> {
    if ops == [] then [] else LinkStep(LinkRun(ops[..|ops| - 1]), ops[|ops| - 1])
  }

  function Listing(links: seq<Link>, domain: string): (r: seq<string>)
    ensures forall p :: p in r <==> Link(p, domain) in links
  {
    if links == [] then []
    else if links[0].domain == domain then [links[0].pack] + Listing(links[1..], domain)
    else Listing(links[1..], domain)
  }

  lemma {:induction false} ListingUnlinks(links: seq<Link>, pack: string, domain: string)
    ensures Listing(Unlink(links, pack), domain) == Without(Listing(links, domain), pack)
  {
    if links == [] {
    } else {
      ListingUnlinks(links[1..], pack, domain);
    }
  }

  lemma {:induction false} ListingAppends(links: seq<Link>, link: Link, domain: string)
    ensures Listing(links + [link], domain) == Listing(links, domain) + if link.domain == domain then [link.pack] else []
  {
    if links == [] {
      assert links + [link] == [link];
    } else {
      assert (links + [link])[1..] == links[1..] + [link];
      ListingAppends(links[1..], link, domain);
    }
  }

  /** The index shows exactly the links: each pack's domain, and each domain's packs in joining order. */
  ghost predicate Shows(ix: Index, links: seq<Link>) {
    && (forall pack, domain :: Link(pack, domain) in links <==> pack in ix.packToDomain && ix.packToDomain[pack] == domain)
    && (forall domain :: Packs(ix, domain) == Listing(links, domain))
  }

  lemma {:induction false} DissociatedShows(ix: Index, links: seq<Link>, pack: string)
    requires Shows(ix, links)
    requires pack in ix.packToDomain ==> ix.packToDomain[pack] != ""
    ensures Shows(Dissociated(ix, pack), Unlink(links, pack))
  {
    hide Without, Unlink, Listing;
    var ix', links' := Dissociated(ix, pack), Unlink(links, pack);
    forall p, domain
      ensures Link(p, domain) in links' <==> p in ix'.packToDomain && ix'.packToDomain[p] == domain
    {
      assert Link(p, domain) in links <==> p in ix.packToDomain && ix.packToDomain[p] == domain;
    }
    hide Dissociated, Packs;
    forall domain
      ensures Packs(ix', domain) == Listing(links', domain)
    {
      ListingUnlinks(links, pack, domain);
      if pack in ix.packToDomain {
        DissociatedPacks(ix, pack, domain);
        if ix.packToDomain[pack] != domain {
          assert Link(pack, domain) !in links;
          WithoutAbsent(Listing(links, domain), pack);
        }
      } else {
        assert Link(pack, domain) !in links;
        WithoutAbsent(Listing(links, domain), pack);
        assert ix' == ix by {
          DissociateUnknown(ix, pack);
        }
      }
    }
  }

  lemma {:induction false} DissociateUnknown(ix: Index, pack: string)
    requires pack !in ix.packToDomain
    ensures Dissociated(ix, pack) == ix
  {
  }

  lemma {:induction false} LinkedShows(ix: Index, links: seq<Link>, pack: string, domain: string, isPrimary: bool)
    requires Shows(ix, links)
    requires pack !in ix.packToDomain
    ensures Shows(Linked(ix, pack, domain, isPrimary), links + [Link(pack, domain)])
  {
    hide Listing;
    var ix', links' := Linked(ix, pack, domain, isPrimary), links + [Link(pack, domain)];
    forall p, d
      ensures Link(p, d) in links' <==> p in ix'.packToDomain && ix'.packToDomain[p] == d
    {
      assert Link(p, d) in links <==> p in ix.packToDomain && ix.packToDomain[p] == d;
    }
    forall d
      ensures Packs(ix', d) == Listing(links', d)
    {
      ListingAppends(links, Link(pack, domain), d);
      assert Link(pack, d) !in links;
    }
  }

  lemma {:induction false} RelinkedShows(ix: Index, links: seq<Link>, pack: string, domain: string, isPrimary: bool)
    requires Shows(ix, links) && Link(pack, domain) in links
    ensures Shows(Linked(ix, pack, domain, isPrimary), links)
  {
    hide Listing;
    var ix' := Linked(ix, pack, domain, isPrimary);
    assert pack in ix.packToDomain && ix.packToDomain[pack] == domain;
    assert pack in Packs(ix, domain);
    assert ix'.packToDomain == ix.packToDomain;
    assert forall d :: Packs(ix', d) == Packs(ix, d);
  }

  lemma {:induction false} StepShows(ix: Index, links: seq<Link>, op: Op)
    requires Shows(ix, links)
    requires forall p :: p in ix.packToDomain ==> ix.packToDomain[p] != ""
    ensures Shows(Step(ix, op), LinkStep(links, op))
  {
    match op
    case Associate(pack, domain, isPrimary, compatible) =>
      if compatible {
        var present := Link(pack, domain) in links;
        assert present <==> pack in ix.packToDomain && ix.packToDomain[pack] == domain;
        hide Linked, Shows, Unlink, Without, With;
        if present {
          RelinkedShows(ix, links, pack, domain, isPrimary);
        } else {
          DissociatedShows(ix, links, pack);
          LinkedShows(Dissociated(ix, pack), Unlink(links, pack), pack, domain, isPrimary);
        }
      }
    case Dissociate(pack) => DissociatedShows(ix, links, pack);
    case SetPrimary(domain, pack) =>
      assert forall d :: Packs(Step(ix, op), d) == Packs(ix, d);
  }

  /** In every run without an empty domain name the three maps show one list of links. */
  lemma {:induction false} RunShowsLinks(ops: seq<Op>)
    requires Named(ops)
    ensures Shows(Run(ops), LinkRun(ops))
  {
    hide Step, LinkStep, Consistent, Shows;
    if ops == [] {
      EmptyShows();
    } else {
      var init := ops[..|ops| - 1];
      RunShowsLinks(init);
      RunConsistent(init);
      StepShows(Run(init), LinkRun(init), ops[|ops| - 1]);
    }
  }

  lemma {:induction false} EmptyShows()
    ensures Shows(EMPTY, [])
  {
  }

  // ----- who is primary -----------------------------------------------------

  /** The pack that the call asks to be primary of `domain`, if it does and may. */
  function Asked(links: seq<Link>, op: Op, domain: string): Option<string> {
    match op
    case Associate(pack, d, isPrimary, compatible) => if d == domain && isPrimary && compatible then Some(pack) else None
    case SetPrimary(d, pack) => if d == domain && Link(pack, domain) in links then Some(pack) else None
    case _ => None
  }

  /** Who is primary, by the link list: whom the call asks for; else the one before while still listed;
      else the first in joining order. */
  function PrimaryAfter(links: seq<Link>, op: Op, domain: string, before: Option<string>): Option<string> {
    var listed := Listing(LinkStep(links, op), domain);
    if Asked(links, op, domain).Some? then Asked(links, op, domain)
    else if before.Some? && before.value in listed then before
    else if listed != [] then Some(listed[0])
    else None
  }

  function PrimaryRun(ops: seq<Op>, domain: string): Option<string> {
    if ops == [] then None
    else
      var init := ops[..|ops| - 1];
      PrimaryAfter(LinkRun(init), ops[|ops| - 1], domain, PrimaryRun(init, domain))
  }

  function PrimaryOf(ix: Index, domain: string): Option<string> {
    if domain in ix.primaryPacks then Some(ix.primaryPacks[domain]) else None
  }

  /** The primary map is what remains of the one before, with the first listed pack where it was lost. */
  lemma {:induction false} DissociatedPrimary(ix: Index, pack: string, domain: string)
    requires Consistent(ix)
    ensures var listed := Packs(Dissociated(ix, pack), domain);
            PrimaryOf(Dissociated(ix, pack), domain) ==
            if PrimaryOf(ix, domain).Some? && PrimaryOf(ix, domain).value in listed then PrimaryOf(ix, domain)
            else if listed != [] then Some(listed[0]) else None
  {
    hide Without, Lists, Distinct, Inverse;
    PrimaryListed(ix, domain);
    if pack in ix.packToDomain && ix.packToDomain[pack] != "" {
      InverseAt(ix, pack);
      DissociatedPacks(ix, pack, domain);
    }
  }

  lemma {:induction false} PrimaryListed(ix: Index, domain: string)
    requires Consistent(ix)
    ensures PrimaryOf(ix, domain).Some? <==> Packs(ix, domain) != []
    ensures PrimaryOf(ix, domain).Some? ==> PrimaryOf(ix, domain).value in Packs(ix, domain)
  {
    hide Inverse, Distinct;
  }

  lemma {:induction false} LinkedPrimary(ix: Index, pack: string, d: string, isPrimary: bool, domain: string)
    requires Consistent(ix)
    ensures var ix' := Linked(ix, pack, d, isPrimary);
            PrimaryOf(ix', domain) ==
            if d == domain && (isPrimary || Packs(ix, domain) == []) then Some(pack) else PrimaryOf(ix, domain)
    ensures Packs(Linked(ix, pack, d, isPrimary), domain) == if d == domain then With(Packs(ix, domain), pack) else Packs(ix, domain)
  {
    hide Inverse, Distinct;
    PrimaryListed(ix, domain);
  }

  lemma {:induction false} StepPrimary(ix: Index, links: seq<Link>, op: Op, domain: string)
    requires Consistent(ix) && Shows(ix, links) && (forall p :: p in ix.packToDomain ==> ix.packToDomain[p] != "")
    ensures PrimaryOf(Step(ix, op), domain) == PrimaryAfter(links, op, domain, PrimaryOf(ix, domain))
  {
    hide Listing, LinkStep, Linked, Dissociated, Consistent, Without, Unlink;
    StepShows(ix, links, op);
    PrimaryListed(ix, domain);
    var listed := Packs(Step(ix, op), domain);
    assert listed == Listing(LinkStep(links, op), domain);
    match op
    case Dissociate(pack) => DissociatedPrimary(ix, pack, domain);
    case SetPrimary(d, pack) =>
      assert pack in Packs(ix, d) <==> Link(pack, d) in links;
      assert Packs(Step(ix, op), domain) == Packs(ix, domain);
    case Associate(pack, d, isPrimary, compatible) =>
      if compatible {
        var moved := pack in ix.packToDomain && ix.packToDomain[pack] != d;
        if moved {
          DissociatedPrimary(ix, pack, domain);
          DissociatedKeeps(ix, pack);
          PrimaryListed(Dissociated(ix, pack), domain);
          LinkedPrimary(Dissociated(ix, pack), pack, d, isPrimary, domain);
        } else {
          LinkedPrimary(ix, pack, d, isPrimary, domain);
        }
      }
  }

  /** In every run without an empty domain name the primary of each domain is the one the link list
      names: the last pack asked for or set while it is listed, else the first that joined or remains. */
  lemma {:induction false} RunPrimary(ops: seq<Op>, domain: string)
    requires Named(ops)
    ensures PrimaryOf(Run(ops), domain) == PrimaryRun(ops, domain)
  {
    hide Step, PrimaryAfter, Consistent, Shows;
    if ops == [] {
    } else {
      var init := ops[..|ops| - 1];
      RunPrimary(init, domain);
      RunConsistent(init);
      RunShowsLinks(init);
      StepPrimary(Run(init), LinkRun(init), ops[|ops| - 1], domain);
    }
  }

  // ----- the service object -------------------------------------------------

  class PackDomainAssociationService {
    var packToDomain: map<string, string>
    var domainToPacks: map<string, seq<string>>
    var primaryPacks: map<string, string>

    function View(): Index
      reads this
    {
      Index(packToDomain, domainToPacks, primaryPacks)
    }

    constructor ()
      ensures View() == EMPTY
    {
      packToDomain, domainToPacks, primaryPacks := map[], map[], map[];
    }

    /** Returns false when the call throws. */
    method AssociatePackWithDomain(pack: string, domain: string, isPrimary: bool, compatible: bool) returns (ok: bool)
      modifies this
      ensures View() == Step(old(View()), Associate(pack, domain, isPrimary, compatible))
      ensures ok == compatible
    {
      if !compatible {
        return false;
      }
      if pack in packToDomain && packToDomain[pack] != "" && packToDomain[pack] != domain {
        DissociatePackFromDomain(pack);
      }
      packToDomain := packToDomain[pack := domain];
      var packs := if domain in domainToPacks then domainToPacks[domain] else [];
      if pack !in packs {
        packs := packs + [pack];
      }
      domainToPacks := domainToPacks[domain := packs];
      if isPrimary {
        primaryPacks := primaryPacks[domain := pack];
      } else if domain !in primaryPacks {
        primaryPacks := primaryPacks[domain := pack];
      }
      return true;
    }

    method DissociatePackFromDomain(pack: string)
      modifies this
      ensures View() == Dissociated(old(View()), pack)
    {
      if pack !in packToDomain || packToDomain[pack] == "" {
        return;
      }
      var domain := packToDomain[pack];
      packToDomain := packToDomain - {pack};
      WithoutAbsent([], pack);
      if domain in domainToPacks {
        var packs := Without(domainToPacks[domain], pack);
        domainToPacks := if packs == [] then domainToPacks - {domain} else domainToPacks[domain := packs];
      }
      if domain in primaryPacks && primaryPacks[domain] == pack {
        primaryPacks := primaryPacks - {domain};
        if domain in domainToPacks && |domainToPacks[domain]| > 0 {
          primaryPacks := primaryPacks[domain := domainToPacks[domain][0]];
        }
      }
    }

    method SetPrimaryPack(domain: string, pack: string) returns (ok: bool)
      modifies this
      ensures View() == Step(old(View()), SetPrimary(domain, pack))
      ensures ok <==> Accepts(old(View()), SetPrimary(domain, pack))
    {
      if domain !in domainToPacks || pack !in domainToPacks[domain] {
        return false;
      }
      primaryPacks := primaryPacks[domain := pack];
      return true;
    }
  }
}
