/** `delete_task_definitions`: every task-definition revision that no cluster
    uses and that is not among the two newest of its family is deregistered,
    then deleted for good in batches of 10; a dry run changes nothing. */
module StaleRevisions {
  import opened Wrappers
  import opened Batching
  import opened Sorting
  import opened EcsUsage

  /** `delete_task_definitions` takes at most this many ARNs at a time. */
  const DeleteBatch: nat := 10

  // ---------------------------------------------------------------------------
  // One family
  // ---------------------------------------------------------------------------

  /** The distinct ARNs of `xs`, in order of first occurrence; this stands for
      the iteration order of `set(xs)`, which the sort below makes irrelevant
      except among equal revisions. */
  function Dedup(xs: seq<string>): (r: seq<string>)
    ensures Unique(r)
    ensures forall x :: x in r <==> x in xs
  {
    if |xs| == 0 then []
    else
      var init := xs[..|xs| - 1];
      var x := xs[|xs| - 1];
      assert xs == init + [x];
      var d := Dedup(init);
      if x in d then d else d + [x]
  }

  /** Every ARN has an integer revision after its last `:`. */
  predicate RevisionsParse(xs: seq<string>) {
    forall x | x in xs :: TaskRevision(x).Some?
  }

  /** `all_arns`: the ACTIVE and INACTIVE revisions of a family merged and
      sorted newest first; `None` when `int` raises on some revision. */
  function Ordered(actives: seq<string>, inactives: seq<string>): Option<seq<string>> {
    var merged := Dedup(actives + inactives);
    if RevisionsParse(merged) then
      IntOrders();
      Some(SortBy(merged, RevisionKey, IntGe))
    else None
  }

  /** The ordered list holds each ARN of either list exactly once, newest
      first. */
  lemma OrderedNewestFirst(actives: seq<string>, inactives: seq<string>)
    requires Ordered(actives, inactives).Some?
    ensures Unique(Ordered(actives, inactives).value)
    ensures forall x :: x in Ordered(actives, inactives).value <==> x in actives || x in inactives
    ensures forall i, j | 0 <= i < j < |Ordered(actives, inactives).value| ::
      TaskRevision(Ordered(actives, inactives).value[i]).value >= TaskRevision(Ordered(actives, inactives).value[j]).value
  {
    var merged := Dedup(actives + inactives);
    IntOrders();
    var r := SortBy(merged, RevisionKey, IntGe);
    UniquePermutation(merged, r);
    forall x ensures x in r <==> x in actives || x in inactives {
      assert x in r <==> x in multiset(r);
      assert x in merged <==> x in multiset(merged);
    }
    forall i, j | 0 <= i < j < |r| ensures TaskRevision(r[i]).value >= TaskRevision(r[j]).value {
      assert r[i] in multiset(merged) && r[j] in multiset(merged);
      assert IntGe(RevisionKey(r[i]), RevisionKey(r[j]));
    }
  }

  /** The stale ARNs of an ordered family list: not in use and not among the
      first two. */
  function StaleAmong(arns: seq<string>, active: set<string>): seq<string> {
    if |arns| == 0 then []
    else
      var init := arns[..|arns| - 1];
      var a := arns[|arns| - 1];
      StaleAmong(init, active) + (if |init| >= 2 && a !in active then [a] else [])
  }

  /** Stale exactly when at index 2 or beyond and not in use: an ARN in use
      and the two newest are never stale. */
  lemma {:induction false} StaleAmongIff(arns: seq<string>, active: set<string>, a: string)
    ensures a in StaleAmong(arns, active) <==> a !in active && exists i | 2 <= i < |arns| :: arns[i] == a
    decreases |arns|
  {
    if |arns| > 0 {
      var init := arns[..|arns| - 1];
      StaleAmongIff(init, active, a);
      if exists i | 2 <= i < |arns| - 1 :: arns[i] == a {
        var i :| 2 <= i < |arns| - 1 && arns[i] == a;
        assert init[i] == a;
      }
      if exists i | 2 <= i < |init| :: init[i] == a {
        var i :| 2 <= i < |init| && init[i] == a;
        assert arns[i] == a;
      }
    }
  }

  /** The stale list is a sub-list: at most `n - 2` entries, none twice when
      the family list has none twice. */
  lemma {:induction false} StaleAmongBounded(arns: seq<string>, active: set<string>)
    ensures |StaleAmong(arns, active)| <= if |arns| >= 2 then |arns| - 2 else 0
    ensures forall x | x in StaleAmong(arns, active) :: x in arns
    ensures Unique(arns) ==> Unique(StaleAmong(arns, active))
    decreases |arns|
  {
    if |arns| > 0 {
      var init := arns[..|arns| - 1];
      var a := arns[|arns| - 1];
      assert arns == init + [a];
      StaleAmongBounded(init, active);
      if Unique(arns) {
        assert Unique(init);
        assert a !in init;
      }
    }
  }

  // ---------------------------------------------------------------------------
  // All families
  // ---------------------------------------------------------------------------

  /** The stale ARNs of one family; `None` aborts the run. */
  function FamilyStale(ecs: Ecs, active: set<string>, family: string): Option<seq<string>> {
    match Ordered(ecs.activeDefinitions(family), ecs.inactiveDefinitions(family))
    case None => None
    case Some(arns) => Some(StaleAmong(arns, active))
  }

  /** The stale ARNs of some families, family after family. */
  function FamiliesStale(ecs: Ecs, active: set<string>, families: seq<string>): Option<seq<string>> {
    if |families| == 0 then Some([])
    else
      match FamiliesStale(ecs, active, families[..|families| - 1])
      case None => None
      case Some(done) =>
        match FamilyStale(ecs, active, families[|families| - 1])
        case None => None
        case Some(more) => Some(done + more)
  }

  /** The stale ARNs of the families of some pages, page after page. */
  function PagesStale(ecs: Ecs, active: set<string>, pages: seq<seq<string>>): Option<seq<string>> {
    if |pages| == 0 then Some([])
    else
      match PagesStale(ecs, active, pages[..|pages| - 1])
      case None => None
      case Some(done) =>
        match FamiliesStale(ecs, active, pages[|pages| - 1])
        case None => None
        case Some(more) => Some(done + more)
  }

  /** `stale_candidates`, or `None` when the run aborts while gathering them. */
  function Candidates(ecs: Ecs): Option<seq<string>> {
    PagesStale(ecs, ActiveSet(ecs), ecs.familyPages)
  }

  /** A family that aborts aborts every longer run. */
  lemma {:induction false} FamiliesAbortSticks(ecs: Ecs, active: set<string>, families: seq<string>, k: nat)
    requires k <= |families| && FamiliesStale(ecs, active, families[..k]).None?
    ensures FamiliesStale(ecs, active, families).None?
    decreases |families| - k
  {
    if k < |families| {
      assert families[..k + 1][..k] == families[..k];
      FamiliesAbortSticks(ecs, active, families, k + 1);
    } else {
      assert families[..k] == families;
    }
  }

  lemma {:induction false} PagesAbortSticks(ecs: Ecs, active: set<string>, pages: seq<seq<string>>, k: nat)
    requires k <= |pages| && PagesStale(ecs, active, pages[..k]).None?
    ensures PagesStale(ecs, active, pages).None?
    decreases |pages| - k
  {
    if k < |pages| {
      assert pages[..k + 1][..k] == pages[..k];
      PagesAbortSticks(ecs, active, pages, k + 1);
    } else {
      assert pages[..k] == pages;
    }
  }

  /** `a` is among the stale ARNs of family `f`. */
  predicate StaleIn(ecs: Ecs, active: set<string>, f: string, a: string) {
    FamilyStale(ecs, active, f).Some? && a in FamilyStale(ecs, active, f).value
  }

  /** One more page, in terms of the pages before it. */
  lemma PagesSnoc(ecs: Ecs, active: set<string>, pages: seq<seq<string>>, p: nat)
    requires p < |pages|
    ensures PagesStale(ecs, active, pages[..p + 1]) ==
      if PagesStale(ecs, active, pages[..p]).Some? && FamiliesStale(ecs, active, pages[p]).Some?
      then Some(PagesStale(ecs, active, pages[..p]).value + FamiliesStale(ecs, active, pages[p]).value)
      else None
  {
    assert pages[..p + 1][..p] == pages[..p];
  }

  lemma {:induction false} FamiliesStaleMember(ecs: Ecs, active: set<string>, families: seq<string>, a: string)
    requires FamiliesStale(ecs, active, families).Some? && a in FamiliesStale(ecs, active, families).value
    ensures exists f | f in families :: StaleIn(ecs, active, f, a)
    decreases |families|
  {
    var init := families[..|families| - 1];
    var f := families[|families| - 1];
    assert families == init + [f];
    var done := FamiliesStale(ecs, active, init).value;
    if a in done {
      FamiliesStaleMember(ecs, active, init, a);
      var g :| g in init && StaleIn(ecs, active, g, a);
      assert g in families;
    } else {
      assert StaleIn(ecs, active, f, a);
    }
  }

  lemma {:induction false} PagesStaleMember(ecs: Ecs, active: set<string>, pages: seq<seq<string>>, a: string)
    requires PagesStale(ecs, active, pages).Some? && a in PagesStale(ecs, active, pages).value
    ensures exists p, f | p in pages && f in p :: StaleIn(ecs, active, f, a)
    decreases |pages|
  {
    var n := |pages| - 1;
    var init := pages[..n];
    assert pages[..n + 1] == pages;
    PagesSnoc(ecs, active, pages, n);
    var done := PagesStale(ecs, active, init).value;
    if a in done {
      PagesStaleMember(ecs, active, init, a);
      var q, g :| q in init && g in q && StaleIn(ecs, active, g, a);
      assert q in pages;
    } else {
      FamiliesStaleMember(ecs, active, pages[n], a);
      var g :| g in pages[n] && StaleIn(ecs, active, g, a);
      assert pages[n] in pages;
    }
  }

  /** Conversely, a family whose stale ARNs a completed run gathered has
      them all among the run's. */
  lemma {:induction false} FamiliesStaleComplete(ecs: Ecs, active: set<string>, families: seq<string>, f: string, a: string)
    requires FamiliesStale(ecs, active, families).Some? && f in families
    ensures FamilyStale(ecs, active, f).Some?
    ensures StaleIn(ecs, active, f, a) ==> a in FamiliesStale(ecs, active, families).value
    decreases |families|
  {
    var init := families[..|families| - 1];
    var g := families[|families| - 1];
    assert families == init + [g];
    if f != g {
      assert f in init;
      FamiliesStaleComplete(ecs, active, init, f, a);
    }
  }

  lemma {:induction false} PagesStaleComplete(ecs: Ecs, active: set<string>, pages: seq<seq<string>>, f: string, a: string)
    requires PagesStale(ecs, active, pages).Some?
    requires exists p | p in pages :: f in p
    ensures FamilyStale(ecs, active, f).Some?
    ensures StaleIn(ecs, active, f, a) ==> a in PagesStale(ecs, active, pages).value
    decreases |pages|
  {
    var n := |pages| - 1;
    var init := pages[..n];
    assert pages[..n + 1] == pages;
    PagesSnoc(ecs, active, pages, n);
    if f in pages[n] {
      FamiliesStaleComplete(ecs, active, pages[n], f, a);
    } else {
      var p :| p in pages && f in p;
      var j :| 0 <= j < |pages| && pages[j] == p;
      assert j < n && init[j] == p;
      PagesStaleComplete(ecs, active, init, f, a);
    }
  }

  /** When the run completes, every ARN of a family on a listed page that is
      not in use and sits at index 2 or beyond of the family's ordered list
      is a candidate: with `CandidateIsStale`, the candidates are exactly
      these. */
  lemma StaleIsCandidate(ecs: Ecs, f: string, a: string)
    requires Candidates(ecs).Some?
    requires exists p | p in ecs.familyPages :: f in p
    ensures Ordered(ecs.activeDefinitions(f), ecs.inactiveDefinitions(f)).Some?
    ensures var arns := Ordered(ecs.activeDefinitions(f), ecs.inactiveDefinitions(f)).value;
      a !in ActiveSet(ecs) && (exists i | 2 <= i < |arns| :: arns[i] == a) ==> a in Candidates(ecs).value
  {
    PagesStaleComplete(ecs, ActiveSet(ecs), ecs.familyPages, f, a);
    var arns := Ordered(ecs.activeDefinitions(f), ecs.inactiveDefinitions(f)).value;
    StaleAmongIff(arns, ActiveSet(ecs), a);
  }

  /** Every candidate is unused and sits at index 2 or beyond of its family's
      ordered list (newest revision first, each ARN once), so at least two
      ARNs of no lower revision come before it. */
  lemma CandidateIsStale(ecs: Ecs, a: string)
    requires Candidates(ecs).Some? && a in Candidates(ecs).value
    ensures a !in ActiveSet(ecs)
    ensures exists p, f | p in ecs.familyPages && f in p ::
      var arns := Ordered(ecs.activeDefinitions(f), ecs.inactiveDefinitions(f));
      arns.Some? && exists i | 2 <= i < |arns.value| :: arns.value[i] == a
  {
    PagesStaleMember(ecs, ActiveSet(ecs), ecs.familyPages, a);
    var p, f :| p in ecs.familyPages && f in p && StaleIn(ecs, ActiveSet(ecs), f, a);
    var arns := Ordered(ecs.activeDefinitions(f), ecs.inactiveDefinitions(f));
    StaleAmongIff(arns.value, ActiveSet(ecs), a);
  }

  // ---------------------------------------------------------------------------
  // Deregistration and deletion
  // ---------------------------------------------------------------------------

  /** A request to ECS: `deregister_task_definition` for one ARN, or
      `delete_task_definitions` for a batch. */
  datatype Event = Deregister(arn: string) | DeleteDefinitions(batch: seq<string>)

  function Deregisters(arns: seq<string>): (es: seq<Event>)
    ensures |es| == |arns|
    ensures forall i | 0 <= i < |arns| :: es[i] == Deregister(arns[i])
  {
    if |arns| == 0 then [] else Deregisters(arns[..|arns| - 1]) + [Deregister(arns[|arns| - 1])]
  }

  function Deletes(batches: seq<seq<string>>): (es: seq<Event>)
    ensures |es| == |batches|
    ensures forall i | 0 <= i < |batches| :: es[i] == DeleteDefinitions(batches[i])
  {
    if |batches| == 0 then [] else Deletes(batches[..|batches| - 1]) + [DeleteDefinitions(batches[|batches| - 1])]
  }

  /** The requests for a candidate list: none without candidates or in a dry
      run, otherwise every deregistration, then the deletions in batches. */
  function Plan(candidates: seq<string>, dryRun: bool): seq<Event> {
    if |candidates| == 0 || dryRun then []
    else Deregisters(candidates) + Deletes(Chunks(candidates, DeleteBatch))
  }

  /** Every candidate is deregistered before any deletion, and the deletions
      cover the candidates in order, at most 10 at a time. */
  lemma PlanOrder(candidates: seq<string>, dryRun: bool)
    ensures dryRun || |candidates| == 0 ==> Plan(candidates, dryRun) == []
    ensures !dryRun && |candidates| > 0 ==>
      var es := Plan(candidates, dryRun);
      && (forall i | 0 <= i < |candidates| :: es[i] == Deregister(candidates[i]))
      && (forall i | |candidates| <= i < |es| :: es[i].DeleteDefinitions? && 0 < |es[i].batch| <= DeleteBatch)
      && Flatten(seq(|es| - |candidates|, k requires 0 <= k < |es| - |candidates| => es[|candidates| + k].batch))
         == candidates
  {
    if !dryRun && |candidates| > 0 {
      var es := Plan(candidates, dryRun);
      var batches := Chunks(candidates, DeleteBatch);
      assert seq(|es| - |candidates|, k requires 0 <= k < |es| - |candidates| => es[|candidates| + k].batch)
             == batches;
    }
  }

  /** A deletion never comes before a deregistration. */
  lemma DeregisterFirst(candidates: seq<string>, dryRun: bool, i: nat, j: nat)
    requires i < |Plan(candidates, dryRun)| && j < |Plan(candidates, dryRun)|
    requires Plan(candidates, dryRun)[i].DeleteDefinitions? && Plan(candidates, dryRun)[j].Deregister?
    ensures j < i
  {
  }

  // ---------------------------------------------------------------------------
  // The run
  // ---------------------------------------------------------------------------

  /** The enumeration loop of one family: appends its stale ARNs. */
  method AppendStale(stale: seq<string>, arns: seq<string>, active: set<string>) returns (r: seq<string>)
    ensures r == stale + StaleAmong(arns, active)
  {
    r := stale;
    for i := 0 to |arns|
      invariant r == stale + StaleAmong(arns[..i], active)
    {
      var arn := arns[i];
      assert arns[..i + 1][..i] == arns[..i];
      var isActive := arn in active;
      var isRecent := i < 2;
      SeqAssoc(stale, StaleAmong(arns[..i], active), if !isActive && !isRecent then [arn] else []);
      if !isActive && !isRecent {
        r := r + [arn];
      }
    }
    assert arns[..|arns|] == arns;
  }

  /** The families of one page; `None` when sorting a family raises. */
  method SelectFromPage(ecs: Ecs, active: set<string>, families: seq<string>, stale: seq<string>)
    returns (r: Option<seq<string>>)
    ensures r.None? <==> FamiliesStale(ecs, active, families).None?
    ensures r.Some? ==> r.value == stale + FamiliesStale(ecs, active, families).value
  {
    var acc := stale;
    for k := 0 to |families|
      invariant FamiliesStale(ecs, active, families[..k]).Some?
      invariant acc == stale + FamiliesStale(ecs, active, families[..k]).value
    {
      var family := families[k];
      assert families[..k + 1][..k] == families[..k];
      var allArns := Ordered(ecs.activeDefinitions(family), ecs.inactiveDefinitions(family));
      if allArns.None? {
        FamiliesAbortSticks(ecs, active, families, k + 1);
        return None;
      }
      SeqAssoc(stale, FamiliesStale(ecs, active, families[..k]).value, StaleAmong(allArns.value, active));
      acc := AppendStale(acc, allArns.value, active);
    }
    assert families[..|families|] == families;
    return Some(acc);
  }

  /** Step 2: the candidates of every family of every page. */
  method SelectCandidates(ecs: Ecs, active: set<string>) returns (candidates: Option<seq<string>>)
    ensures candidates == PagesStale(ecs, active, ecs.familyPages)
  {
    var pages := ecs.familyPages;
    var stale: seq<string> := [];
    for p := 0 to |pages|
      invariant PagesStale(ecs, active, pages[..p]) == Some(stale)
    {
      PagesSnoc(ecs, active, pages, p);
      var r := SelectFromPage(ecs, active, pages[p], stale);
      if r.None? {
        PagesAbortSticks(ecs, active, pages, p + 1);
        return None;
      }
      stale := r.value;
    }
    assert pages[..|pages|] == pages;
    return Some(stale);
  }

  /** Step 3: deregister every candidate, then delete them in batches. */
  method Execute(candidates: seq<string>, dryRun: bool) returns (events: seq<Event>)
    ensures events == Plan(candidates, dryRun)
  {
    events := [];
    if |candidates| == 0 {
      return;
    }
    for i := 0 to |candidates|
      invariant events == if dryRun then [] else Deregisters(candidates[..i])
    {
      assert candidates[..i + 1][..i] == candidates[..i];
      if !dryRun {
        events := events + [Deregister(candidates[i])];
      }
    }
    assert candidates[..|candidates|] == candidates;
    if dryRun {
      return;
    }
    var batches := Chunks(candidates, DeleteBatch);
    for k := 0 to |batches|
      invariant events == Deregisters(candidates) + Deletes(batches[..k])
    {
      assert batches[..k + 1][..k] == batches[..k];
      SeqAssoc(Deregisters(candidates), Deletes(batches[..k]), [DeleteDefinitions(batches[k])]);
      events := events + [DeleteDefinitions(batches[k])];
    }
    assert batches[..|batches|] == batches;
  }

  /** `delete_task_definitions`: the candidates, `None` when the run aborts,
      and the requests made, none when it aborts. */
  method DeleteTaskDefinitions(ecs: Ecs, dryRun: bool) returns (candidates: Option<seq<string>>, events: seq<Event>)
    ensures candidates == Candidates(ecs)
    ensures events == if candidates.None? then [] else Plan(candidates.value, dryRun)
  {
    var active := CollectActive(ecs);
    candidates := SelectCandidates(ecs, active);
    events := [];
    if candidates.Some? {
      events := Execute(candidates.value, dryRun);
    }
  }
}
