/** `find_unused_task_definitions`: a read-only report that classifies every
    ACTIVE revision of every task-definition family as in use, a recent
    backup or stale, and summarises the stale ones. */
module UnusedRevisions {
  import opened Wrappers
  import opened Text
  import opened Batching
  import opened EcsUsage
  import StaleRevisions

  /** The summary lists at most this many stale ARNs by name. */
  const ExampleCount: nat := 10

  datatype Status = Active | Keep | Stale

  /** The keep policy for the revision at index `i` of its family's list,
      newest first: in use wins, then the two newest, then stale. */
  function Classify(arn: string, i: nat, active: set<string>): Status {
    if arn in active then Active
    else if i < 2 then Keep
    else Stale
  }

  /** A row of the report table. */
  datatype Row = Row(family: string, revision: nat, status: Status)

  /** Rows printed: every revision in use and the newest one when unused. */
  predicate Shown(status: Status, i: nat) {
    status == Active || (status == Keep && i == 0)
  }

  /** The table rows of one family's revisions. */
  function FamilyRows(family: string, arns: seq<string>, active: set<string>): seq<Row>
    requires StaleRevisions.RevisionsParse(arns)
  {
    if |arns| == 0 then []
    else
      var init := arns[..|arns| - 1];
      var a := arns[|arns| - 1];
      var status := Classify(a, |init|, active);
      FamilyRows(family, init, active)
        + (if Shown(status, |init|) then [Row(family, TaskRevision(a).value, status)] else [])
  }

  /** The stale revisions of one family's list, in its order. */
  function StaleOf(arns: seq<string>, active: set<string>): seq<string> {
    if |arns| == 0 then []
    else
      var init := arns[..|arns| - 1];
      var a := arns[|arns| - 1];
      StaleOf(init, active) + (if Classify(a, |init|, active) == Stale then [a] else [])
  }

  /** This report and `delete_task_definitions` apply the same keep policy to
      a family list. */
  lemma {:induction false} SamePolicyAsDeletion(arns: seq<string>, active: set<string>)
    ensures StaleOf(arns, active) == StaleRevisions.StaleAmong(arns, active)
    decreases |arns|
  {
    if |arns| > 0 {
      SamePolicyAsDeletion(arns[..|arns| - 1], active);
    }
  }

  /** A row is printed for revision `i` exactly when it is in use or is the
      newest one; a stale revision never gets a row. */
  lemma {:induction false} FamilyRowsIff(family: string, arns: seq<string>, active: set<string>, row: Row)
    requires StaleRevisions.RevisionsParse(arns)
    ensures row in FamilyRows(family, arns, active) <==>
      exists i | 0 <= i < |arns| ::
        && row == Row(family, TaskRevision(arns[i]).value, Classify(arns[i], i, active))
        && Shown(row.status, i)
    decreases |arns|
  {
    if |arns| > 0 {
      var init := arns[..|arns| - 1];
      assert StaleRevisions.RevisionsParse(init) by {
        forall x | x in init ensures TaskRevision(x).Some? {
          assert x in arns;
        }
      }
      FamilyRowsIff(family, init, active, row);
      if exists i | 0 <= i < |init| ::
          row == Row(family, TaskRevision(init[i]).value, Classify(init[i], i, active)) && Shown(row.status, i) {
        var i :| 0 <= i < |init| &&
          row == Row(family, TaskRevision(init[i]).value, Classify(init[i], i, active)) && Shown(row.status, i);
        assert arns[i] == init[i];
      }
      if exists i | 0 <= i < |arns| - 1 ::
          row == Row(family, TaskRevision(arns[i]).value, Classify(arns[i], i, active)) && Shown(row.status, i) {
        var i :| 0 <= i < |arns| - 1 &&
          row == Row(family, TaskRevision(arns[i]).value, Classify(arns[i], i, active)) && Shown(row.status, i);
        assert arns[i] == init[i];
      }
    }
  }

  /** No row ever says stale, and the newest revision always has a row. */
  lemma NewestShownStaleHidden(family: string, arns: seq<string>, active: set<string>)
    requires StaleRevisions.RevisionsParse(arns)
    ensures forall row | row in FamilyRows(family, arns, active) :: row.status != Stale
    ensures |arns| > 0 ==>
      Row(family, TaskRevision(arns[0]).value, Classify(arns[0], 0, active)) in FamilyRows(family, arns, active)
  {
    forall row | row in FamilyRows(family, arns, active) ensures row.status != Stale {
      FamilyRowsIff(family, arns, active, row);
    }
    if |arns| > 0 {
      FamilyRowsIff(family, arns, active, Row(family, TaskRevision(arns[0]).value, Classify(arns[0], 0, active)));
    }
  }

  // ---------------------------------------------------------------------------
  // The report over all families
  // ---------------------------------------------------------------------------

  /** The table rows and the stale candidates gathered so far. */
  datatype Report = Report(rows: seq<Row>, stale: seq<string>)

  function Concat(a: Report, b: Report): Report {
    Report(a.rows + b.rows, a.stale + b.stale)
  }

  /** One family: its ACTIVE revisions as ECS lists them, newest first;
      `None` when a revision number is not an integer, which ends the run. */
  function FamilyReport(ecs: Ecs, active: set<string>, family: string): Option<Report> {
    var arns := ecs.activeDefinitions(family);
    if StaleRevisions.RevisionsParse(arns) then Some(Report(FamilyRows(family, arns, active), StaleOf(arns, active)))
    else None
  }

  function FamiliesReport(ecs: Ecs, active: set<string>, families: seq<string>): Option<Report> {
    if |families| == 0 then Some(Report([], []))
    else
      match FamiliesReport(ecs, active, families[..|families| - 1])
      case None => None
      case Some(done) =>
        match FamilyReport(ecs, active, families[|families| - 1])
        case None => None
        case Some(more) => Some(Concat(done, more))
  }

  function PagesReport(ecs: Ecs, active: set<string>, pages: seq<seq<string>>): Option<Report> {
    if |pages| == 0 then Some(Report([], []))
    else
      match PagesReport(ecs, active, pages[..|pages| - 1])
      case None => None
      case Some(done) =>
        match FamiliesReport(ecs, active, pages[|pages| - 1])
        case None => None
        case Some(more) => Some(Concat(done, more))
  }

  /** The whole report; `None` when the run ends with an error. */
  function UnusedReport(ecs: Ecs): Option<Report> {
    PagesReport(ecs, ActiveSet(ecs), ecs.familyPages)
  }

  /** `a` is an unused revision of family `f` behind its two newest. */
  predicate StaleInFamily(ecs: Ecs, active: set<string>, f: string, a: string) {
    a !in active && exists i | 2 <= i < |ecs.activeDefinitions(f)| :: ecs.activeDefinitions(f)[i] == a
  }

  lemma FamilyStaleIff(ecs: Ecs, active: set<string>, f: string, a: string)
    requires FamilyReport(ecs, active, f).Some?
    ensures a in FamilyReport(ecs, active, f).value.stale <==> StaleInFamily(ecs, active, f, a)
  {
    var arns := ecs.activeDefinitions(f);
    SamePolicyAsDeletion(arns, active);
    StaleRevisions.StaleAmongIff(arns, active, a);
  }

  lemma FamiliesAbortSticks(ecs: Ecs, active: set<string>, families: seq<string>, k: nat)
    requires k <= |families| && FamiliesReport(ecs, active, families[..k]).None?
    ensures FamiliesReport(ecs, active, families).None?
    decreases |families| - k
  {
    if k < |families| {
      assert families[..k + 1][..k] == families[..k];
      FamiliesAbortSticks(ecs, active, families, k + 1);
    } else {
      assert families[..k] == families;
    }
  }

  lemma PagesAbortSticks(ecs: Ecs, active: set<string>, pages: seq<seq<string>>, k: nat)
    requires k <= |pages| && PagesReport(ecs, active, pages[..k]).None?
    ensures PagesReport(ecs, active, pages).None?
    decreases |pages| - k
  {
    if k < |pages| {
      assert pages[..k + 1][..k] == pages[..k];
      PagesAbortSticks(ecs, active, pages, k + 1);
    } else {
      assert pages[..k] == pages;
    }
  }

  lemma PagesSnoc(ecs: Ecs, active: set<string>, pages: seq<seq<string>>, p: nat)
    requires p < |pages|
    ensures PagesReport(ecs, active, pages[..p + 1]) ==
      if PagesReport(ecs, active, pages[..p]).Some? && FamiliesReport(ecs, active, pages[p]).Some?
      then Some(Concat(PagesReport(ecs, active, pages[..p]).value, FamiliesReport(ecs, active, pages[p]).value))
      else None
  {
    assert pages[..p + 1][..p] == pages[..p];
  }

  /** A completed run lists exactly the unused revisions that some family
      holds behind its two newest. */
  lemma {:induction false} FamiliesStaleIff(ecs: Ecs, active: set<string>, families: seq<string>, a: string)
    requires FamiliesReport(ecs, active, families).Some?
    ensures a in FamiliesReport(ecs, active, families).value.stale <==>
      exists f | f in families :: StaleInFamily(ecs, active, f, a)
    decreases |families|
  {
    if |families| > 0 {
      var init := families[..|families| - 1];
      var f := families[|families| - 1];
      assert families == init + [f];
      FamiliesStaleIff(ecs, active, init, a);
      FamilyStaleIff(ecs, active, f, a);
      if exists g | g in families :: StaleInFamily(ecs, active, g, a) {
        var g :| g in families && StaleInFamily(ecs, active, g, a);
        if g != f {
          assert g in init;
        }
      }
    }
  }

  lemma {:induction false} PagesStaleIff(ecs: Ecs, active: set<string>, pages: seq<seq<string>>, a: string)
    requires PagesReport(ecs, active, pages).Some?
    ensures a in PagesReport(ecs, active, pages).value.stale <==>
      exists p, f | p in pages && f in p :: StaleInFamily(ecs, active, f, a)
    decreases |pages|
  {
    if |pages| > 0 {
      var n := |pages| - 1;
      var init := pages[..n];
      assert pages[..n + 1] == pages;
      PagesSnoc(ecs, active, pages, n);
      PagesStaleIff(ecs, active, init, a);
      FamiliesStaleIff(ecs, active, pages[n], a);
      if exists p, f | p in pages && f in p :: StaleInFamily(ecs, active, f, a) {
        var p, f :| p in pages && f in p && StaleInFamily(ecs, active, f, a);
        if p != pages[n] {
          assert p in init;
        }
      }
      if exists p, f | p in init && f in p :: StaleInFamily(ecs, active, f, a) {
        var p, f :| p in init && f in p && StaleInFamily(ecs, active, f, a);
        assert p in pages;
      }
    }
  }

  /** The candidates of a completed run are exactly the revisions that no
      cluster uses and that sit behind the two newest of their family. */
  lemma ReportedStaleIff(ecs: Ecs, a: string)
    requires UnusedReport(ecs).Some?
    ensures a in UnusedReport(ecs).value.stale <==>
      exists p, f | p in ecs.familyPages && f in p :: StaleInFamily(ecs, ActiveSet(ecs), f, a)
  {
    PagesStaleIff(ecs, ActiveSet(ecs), ecs.familyPages, a);
  }

  // ---------------------------------------------------------------------------
  // Summary
  // ---------------------------------------------------------------------------

  const Heading := "\nExample Stale Definitions:"
  const BulletPrefix := "  - "
  const MorePrefix := "  ... and "
  const MoreSuffix := " more."

  function CountLine(stale: seq<string>): string {
    "Found " + NatToString(|stale|) + " STALE Task Definitions (older than top 2, not active)."
  }

  function Bullets(arns: seq<string>): (lines: seq<string>)
    ensures |lines| == |arns|
    ensures forall i | 0 <= i < |arns| :: lines[i] == BulletPrefix + arns[i]
  {
    if |arns| == 0 then [] else Bullets(arns[..|arns| - 1]) + [BulletPrefix + arns[|arns| - 1]]
  }

  /** The closing line for `n` candidates left unnamed. */
  function MoreLine(n: nat): string {
    MorePrefix + NatToString(n) + MoreSuffix
  }

  /** The count in the closing line reads back as `n`. */
  lemma MoreLineCount(n: nat)
    ensures |MoreLine(n)| > |MorePrefix| + |MoreSuffix|
    ensures ParseNat(MoreLine(n)[|MorePrefix|..|MoreLine(n)| - |MoreSuffix|]) == Some(n)
  {
    var line := MoreLine(n);
    NatToStringDigits(n);
    ParseNatToString(n);
    assert line[|MorePrefix|..|line| - |MoreSuffix|] == NatToString(n);
  }

  /** The example listing: nothing without candidates, else a heading, the
      first ten by name and a count of the rest. */
  function Examples(stale: seq<string>): seq<string> {
    if |stale| == 0 then []
    else
      [Heading]
        + Bullets(stale[..Min(ExampleCount, |stale|)])
        + (if |stale| > ExampleCount then [MoreLine(|stale| - ExampleCount)] else [])
  }

  /** Every candidate is accounted for: the heading, then the first ten by
      name in order, then a line whose count is the number left unnamed. */
  lemma ExamplesAccount(stale: seq<string>)
    ensures |stale| == 0 <==> Examples(stale) == []
    ensures |stale| > 0 ==> Examples(stale)[0] == Heading
    ensures |stale| <= ExampleCount ==> |Examples(stale)| == if |stale| == 0 then 0 else |stale| + 1
    ensures |stale| > ExampleCount ==> |Examples(stale)| == ExampleCount + 2
    ensures forall i | 0 <= i < ExampleCount && i < |stale| :: Examples(stale)[i + 1] == BulletPrefix + stale[i]
    ensures |stale| > ExampleCount ==>
      exists k: nat :: Examples(stale)[ExampleCount + 1] == MoreLine(k) && ExampleCount + k == |stale|
  {
    if |stale| > 0 {
      var e := Examples(stale);
      var named := Bullets(stale[..Min(ExampleCount, |stale|)]);
      forall i | 0 <= i < ExampleCount && i < |stale| ensures e[i + 1] == BulletPrefix + stale[i] {
        assert e[i + 1] == named[i];
      }
      if |stale| > ExampleCount {
        assert e[ExampleCount + 1] == MoreLine(|stale| - ExampleCount);
      }
    }
  }

  // ---------------------------------------------------------------------------
  // The run
  // ---------------------------------------------------------------------------

  /** The enumeration loop over one family's revisions; `None` at the first
      revision that is not an integer. */
  method ClassifyFamily(family: string, arns: seq<string>, active: set<string>, acc: Report)
    returns (r: Option<Report>)
    ensures r.None? <==> !StaleRevisions.RevisionsParse(arns)
    ensures r.Some? ==> r.value == Concat(acc, Report(FamilyRows(family, arns, active), StaleOf(arns, active)))
  {
    var rows := acc.rows;
    var stale := acc.stale;
    for i := 0 to |arns|
      invariant StaleRevisions.RevisionsParse(arns[..i])
      invariant rows == acc.rows + FamilyRows(family, arns[..i], active)
      invariant stale == acc.stale + StaleOf(arns[..i], active)
    {
      var arn := arns[i];
      var revision := TaskRevision(arn);
      if revision.None? {
        assert arn in arns;
        return None;
      }
      assert arns[..i + 1][..i] == arns[..i];
      assert arns[..i + 1] == arns[..i] + [arn];
      var status := Classify(arn, i, active);
      var row := if Shown(status, i) then [Row(family, revision.value, status)] else [];
      var cand := if status == Stale then [arn] else [];
      SeqAssoc(acc.rows, FamilyRows(family, arns[..i], active), row);
      SeqAssoc(acc.stale, StaleOf(arns[..i], active), cand);
      rows := rows + row;
      stale := stale + cand;
    }
    assert arns[..|arns|] == arns;
    return Some(Report(rows, stale));
  }

  /** The families of one page. */
  method ReportPage(ecs: Ecs, active: set<string>, families: seq<string>, acc: Report)
    returns (r: Option<Report>)
    ensures r.None? <==> FamiliesReport(ecs, active, families).None?
    ensures r.Some? ==> r.value == Concat(acc, FamiliesReport(ecs, active, families).value)
  {
    var sofar := acc;
    for k := 0 to |families|
      invariant FamiliesReport(ecs, active, families[..k]).Some?
      invariant sofar == Concat(acc, FamiliesReport(ecs, active, families[..k]).value)
    {
      var family := families[k];
      assert families[..k + 1][..k] == families[..k];
      var next := ClassifyFamily(family, ecs.activeDefinitions(family), active, sofar);
      if next.None? {
        FamiliesAbortSticks(ecs, active, families, k + 1);
        return None;
      }
      var done := FamiliesReport(ecs, active, families[..k]).value;
      var more := FamilyReport(ecs, active, family).value;
      SeqAssoc(acc.rows, done.rows, more.rows);
      SeqAssoc(acc.stale, done.stale, more.stale);
      sofar := next.value;
    }
    assert families[..|families|] == families;
    return Some(sofar);
  }

  /** The lines printed for the stale candidates after the table. */
  method Summarize(stale: seq<string>) returns (lines: seq<string>)
    ensures lines == [CountLine(stale)] + Examples(stale)
  {
    var examples: seq<string> := [];
    if |stale| > 0 {
      examples := [Heading];
      var named := stale[..Min(ExampleCount, |stale|)];
      for i := 0 to |named|
        invariant examples == [Heading] + Bullets(named[..i])
      {
        assert named[..i + 1][..i] == named[..i];
        examples := examples + [BulletPrefix + named[i]];
      }
      assert named[..|named|] == named;
      if |stale| > ExampleCount {
        examples := examples + [MoreLine(|stale| - ExampleCount)];
      }
    }
    lines := [CountLine(stale)] + examples;
  }

  /** `find_unused_task_definitions`: the report and its summary, or nothing
      when the run ends with an error. */
  method FindUnusedTaskDefinitions(ecs: Ecs) returns (report: Option<Report>, summary: seq<string>)
    ensures report == UnusedReport(ecs)
    ensures summary == if report.None? then [] else [CountLine(report.value.stale)] + Examples(report.value.stale)
  {
    var active := CollectActive(ecs);
    var pages := ecs.familyPages;
    var sofar := Report([], []);
    summary := [];
    for p := 0 to |pages|
      invariant PagesReport(ecs, active, pages[..p]) == Some(sofar)
    {
      PagesSnoc(ecs, active, pages, p);
      var next := ReportPage(ecs, active, pages[p], sofar);
      if next.None? {
        PagesAbortSticks(ecs, active, pages, p + 1);
        return None, [];
      }
      sofar := next.value;
    }
    assert pages[..|pages|] == pages;
    report := Some(sofar);
    summary := Summarize(sofar.stale);
  }
}
