/** What the two ECS task-definition scripts share: the set of task
    definitions in use, gathered from the services, their deployments and the
    running tasks of every cluster, and the revision number at the end of a
    task-definition ARN. The ECS API is a value: the listings and descriptions
    it returns are fields of `Ecs`. */
module EcsUsage {
  import opened Wrappers
  import opened Text
  import opened Batching

  /** `describe_services` takes at most this many services at a time. */
  const ServiceBatch: nat := 10

  /** `describe_tasks` takes at most this many tasks at a time. */
  const TaskBatch: nat := 100

  /** A described service: its `taskDefinition` and the `taskDefinition` of
      each of its deployments. */
  datatype Service = Service(taskDefinition: string, deployments: seq<string>)

  /** The answers of the ECS API:
      - `clusters`: `list_clusters`;
      - `servicePages`, `taskPages`: the pages of `list_services` and
        `list_tasks` for a cluster;
      - `describeServices`, `describeTasks`: the services described, and the
        `taskDefinitionArn` of each task described, for a cluster and a batch;
      - `familyPages`: the pages of `list_task_definition_families` (ACTIVE);
      - `activeDefinitions`, `inactiveDefinitions`: `list_task_definitions`
        for a family with status ACTIVE (the default) and INACTIVE, newest
        first. */
  datatype Ecs = Ecs(
    clusters: seq<string>,
    servicePages: string -> seq<seq<string>>,
    describeServices: (string, seq<string>) -> seq<Service>,
    taskPages: string -> seq<seq<string>>,
    describeTasks: (string, seq<string>) -> seq<string>,
    familyPages: seq<seq<string>>,
    activeDefinitions: string -> seq<string>,
    inactiveDefinitions: string -> seq<string>)

  // ---------------------------------------------------------------------------
  // The definitions in use
  // ---------------------------------------------------------------------------

  /** The definitions named by some described services. */
  function ServicesInUse(services: seq<Service>): set<string> {
    if |services| == 0 then {}
    else
      var s := services[|services| - 1];
      ServicesInUse(services[..|services| - 1]) + {s.taskDefinition} + Elements(s.deployments)
  }

  /** The definitions named by the services described for each batch. */
  function ServiceBatchesInUse(ecs: Ecs, cluster: string, batches: seq<seq<string>>): set<string> {
    if |batches| == 0 then {}
    else
      ServiceBatchesInUse(ecs, cluster, batches[..|batches| - 1]) +
        ServicesInUse(ecs.describeServices(cluster, batches[|batches| - 1]))
  }

  /** The definitions named by the services of some pages, each page
      described in batches of 10. */
  function ServicePagesInUse(ecs: Ecs, cluster: string, pages: seq<seq<string>>): set<string> {
    if |pages| == 0 then {}
    else
      ServicePagesInUse(ecs, cluster, pages[..|pages| - 1]) +
        ServiceBatchesInUse(ecs, cluster, Chunks(pages[|pages| - 1], ServiceBatch))
  }

  /** The strings of a list, as a set. */
  function Elements(xs: seq<string>): set<string> {
    set x | x in xs
  }

  /** The definitions of the tasks described for each batch. */
  function TaskBatchesInUse(ecs: Ecs, cluster: string, batches: seq<seq<string>>): set<string> {
    if |batches| == 0 then {}
    else
      TaskBatchesInUse(ecs, cluster, batches[..|batches| - 1]) +
        Elements(ecs.describeTasks(cluster, batches[|batches| - 1]))
  }

  /** The definitions of the tasks of some pages, each page described in
      batches of 100. */
  function TaskPagesInUse(ecs: Ecs, cluster: string, pages: seq<seq<string>>): set<string> {
    if |pages| == 0 then {}
    else
      TaskPagesInUse(ecs, cluster, pages[..|pages| - 1]) +
        TaskBatchesInUse(ecs, cluster, Chunks(pages[|pages| - 1], TaskBatch))
  }

  /** What one cluster keeps in use: its services and its running tasks. */
  function ClusterInUse(ecs: Ecs, cluster: string): set<string> {
    ServicePagesInUse(ecs, cluster, ecs.servicePages(cluster)) + TaskPagesInUse(ecs, cluster, ecs.taskPages(cluster))
  }

  /** What some clusters keep in use. */
  function ClustersInUse(ecs: Ecs, clusters: seq<string>): set<string> {
    if |clusters| == 0 then {}
    else ClustersInUse(ecs, clusters[..|clusters| - 1]) + ClusterInUse(ecs, clusters[|clusters| - 1])
  }

  /** `active_task_arns`. */
  function ActiveSet(ecs: Ecs): set<string> {
    ClustersInUse(ecs, ecs.clusters)
  }

  lemma {:induction false} ServicesInUseIff(services: seq<Service>, a: string)
    ensures a in ServicesInUse(services) <==>
      exists s | s in services :: a == s.taskDefinition || a in s.deployments
    decreases |services|
  {
    if |services| > 0 {
      var init := services[..|services| - 1];
      assert services == init + [services[|services| - 1]];
      ServicesInUseIff(init, a);
    }
  }

  lemma {:induction false} ServiceBatchesInUseIff(ecs: Ecs, cluster: string, batches: seq<seq<string>>, a: string)
    ensures a in ServiceBatchesInUse(ecs, cluster, batches) <==>
      exists b | b in batches :: a in ServicesInUse(ecs.describeServices(cluster, b))
    decreases |batches|
  {
    if |batches| > 0 {
      var init := batches[..|batches| - 1];
      assert batches == init + [batches[|batches| - 1]];
      ServiceBatchesInUseIff(ecs, cluster, init, a);
    }
  }

  lemma {:induction false} ServicePagesInUseIff(ecs: Ecs, cluster: string, pages: seq<seq<string>>, a: string)
    ensures a in ServicePagesInUse(ecs, cluster, pages) <==>
      exists p | p in pages :: a in ServiceBatchesInUse(ecs, cluster, Chunks(p, ServiceBatch))
    decreases |pages|
  {
    if |pages| > 0 {
      var init := pages[..|pages| - 1];
      var last := pages[|pages| - 1];
      assert pages == init + [last];
      ServicePagesInUseIff(ecs, cluster, init, a);
      if a in ServiceBatchesInUse(ecs, cluster, Chunks(last, ServiceBatch)) {
        assert last in pages;
      }
      if a in ServicePagesInUse(ecs, cluster, init) {
        var p :| p in init && a in ServiceBatchesInUse(ecs, cluster, Chunks(p, ServiceBatch));
        assert p in pages;
      }
    }
  }

  lemma {:induction false} TaskBatchesInUseIff(ecs: Ecs, cluster: string, batches: seq<seq<string>>, a: string)
    ensures a in TaskBatchesInUse(ecs, cluster, batches) <==>
      exists b | b in batches :: a in ecs.describeTasks(cluster, b)
    decreases |batches|
  {
    if |batches| > 0 {
      var init := batches[..|batches| - 1];
      assert batches == init + [batches[|batches| - 1]];
      TaskBatchesInUseIff(ecs, cluster, init, a);
    }
  }

  lemma {:induction false} TaskPagesInUseIff(ecs: Ecs, cluster: string, pages: seq<seq<string>>, a: string)
    ensures a in TaskPagesInUse(ecs, cluster, pages) <==>
      exists p | p in pages :: a in TaskBatchesInUse(ecs, cluster, Chunks(p, TaskBatch))
    decreases |pages|
  {
    if |pages| > 0 {
      var init := pages[..|pages| - 1];
      var last := pages[|pages| - 1];
      assert pages == init + [last];
      TaskPagesInUseIff(ecs, cluster, init, a);
      if a in TaskBatchesInUse(ecs, cluster, Chunks(last, TaskBatch)) {
        assert last in pages;
      }
      if a in TaskPagesInUse(ecs, cluster, init) {
        var p :| p in init && a in TaskBatchesInUse(ecs, cluster, Chunks(p, TaskBatch));
        assert p in pages;
      }
    }
  }

  lemma {:induction false} ClustersInUseIff(ecs: Ecs, clusters: seq<string>, a: string)
    ensures a in ClustersInUse(ecs, clusters) <==> exists c | c in clusters :: a in ClusterInUse(ecs, c)
    decreases |clusters|
  {
    if |clusters| > 0 {
      var init := clusters[..|clusters| - 1];
      assert clusters == init + [clusters[|clusters| - 1]];
      ClustersInUseIff(ecs, init, a);
    }
  }

  lemma ServiceBatchesSnoc(ecs: Ecs, cluster: string, done: seq<seq<string>>, batch: seq<string>)
    ensures ServiceBatchesInUse(ecs, cluster, done + [batch]) ==
            ServiceBatchesInUse(ecs, cluster, done) + ServicesInUse(ecs.describeServices(cluster, batch))
  {
    assert (done + [batch])[..|done|] == done;
  }

  lemma TaskBatchesSnoc(ecs: Ecs, cluster: string, done: seq<seq<string>>, batch: seq<string>)
    ensures TaskBatchesInUse(ecs, cluster, done + [batch]) ==
            TaskBatchesInUse(ecs, cluster, done) + Elements(ecs.describeTasks(cluster, batch))
  {
    assert (done + [batch])[..|done|] == done;
  }

  lemma UnionAssoc(a: set<string>, b: set<string>, c: set<string>)
    ensures a + b + c == a + (b + c)
  {
  }

  /** A definition in use by some service of some cluster. */
  ghost predicate ServiceUses(ecs: Ecs, a: string) {
    exists c, p, b, s | c in ecs.clusters && p in ecs.servicePages(c) && b in Chunks(p, ServiceBatch) &&
                        s in ecs.describeServices(c, b) :: a == s.taskDefinition || a in s.deployments
  }

  /** A definition of some running task of some cluster. */
  ghost predicate TaskUses(ecs: Ecs, a: string) {
    exists c, p, b | c in ecs.clusters && p in ecs.taskPages(c) && b in Chunks(p, TaskBatch) ::
      a in ecs.describeTasks(c, b)
  }

  /** A definition is in use exactly when some cluster has a service (or one
      of its deployments) naming it, or a running task of it. */
  lemma ActiveSetIff(ecs: Ecs, a: string)
    ensures a in ActiveSet(ecs) <==> ServiceUses(ecs, a) || TaskUses(ecs, a)
  {
    if a in ActiveSet(ecs) {
      ClustersInUseIff(ecs, ecs.clusters, a);
      var c :| c in ecs.clusters && a in ClusterInUse(ecs, c);
      ClusterUsesWitness(ecs, c, a);
    }
    if ServiceUses(ecs, a) {
      ServiceUseIsActive(ecs, a);
    }
    if TaskUses(ecs, a) {
      TaskUseIsActive(ecs, a);
    }
  }

  lemma ServiceUseIsActive(ecs: Ecs, a: string)
    requires ServiceUses(ecs, a)
    ensures a in ActiveSet(ecs)
  {
    var c, p, b, s :| c in ecs.clusters && p in ecs.servicePages(c) && b in Chunks(p, ServiceBatch) &&
                      s in ecs.describeServices(c, b) && (a == s.taskDefinition || a in s.deployments);
    ServicesInUseIff(ecs.describeServices(c, b), a);
    ServiceBatchesInUseIff(ecs, c, Chunks(p, ServiceBatch), a);
    ServicePagesInUseIff(ecs, c, ecs.servicePages(c), a);
    assert a in ClusterInUse(ecs, c);
    ClustersInUseIff(ecs, ecs.clusters, a);
  }

  lemma TaskUseIsActive(ecs: Ecs, a: string)
    requires TaskUses(ecs, a)
    ensures a in ActiveSet(ecs)
  {
    var c, p, b :| c in ecs.clusters && p in ecs.taskPages(c) && b in Chunks(p, TaskBatch) &&
                   a in ecs.describeTasks(c, b);
    TaskBatchesInUseIff(ecs, c, Chunks(p, TaskBatch), a);
    TaskPagesInUseIff(ecs, c, ecs.taskPages(c), a);
    assert a in ClusterInUse(ecs, c);
    ClustersInUseIff(ecs, ecs.clusters, a);
  }

  lemma ClusterUsesWitness(ecs: Ecs, c: string, a: string)
    requires c in ecs.clusters && a in ClusterInUse(ecs, c)
    ensures ServiceUses(ecs, a) || TaskUses(ecs, a)
  {
    ServicePagesInUseIff(ecs, c, ecs.servicePages(c), a);
    TaskPagesInUseIff(ecs, c, ecs.taskPages(c), a);
    if a in ServicePagesInUse(ecs, c, ecs.servicePages(c)) {
      var p :| p in ecs.servicePages(c) && a in ServiceBatchesInUse(ecs, c, Chunks(p, ServiceBatch));
      ServiceBatchesInUseIff(ecs, c, Chunks(p, ServiceBatch), a);
      var b :| b in Chunks(p, ServiceBatch) && a in ServicesInUse(ecs.describeServices(c, b));
      ServicesInUseIff(ecs.describeServices(c, b), a);
      var s :| s in ecs.describeServices(c, b) && (a == s.taskDefinition || a in s.deployments);
    } else {
      var p :| p in ecs.taskPages(c) && a in TaskBatchesInUse(ecs, c, Chunks(p, TaskBatch));
      TaskBatchesInUseIff(ecs, c, Chunks(p, TaskBatch), a);
      var b :| b in Chunks(p, TaskBatch) && a in ecs.describeTasks(c, b);
    }
  }

  // ---------------------------------------------------------------------------
  // The scanning loops
  // ---------------------------------------------------------------------------

  /** `active_task_arns.add(x)` for each `x`. */
  method AddAll(s: set<string>, xs: seq<string>) returns (r: set<string>)
    ensures r == s + Elements(xs)
  {
    r := s;
    for k := 0 to |xs|
      invariant r == s + Elements(xs[..k])
    {
      assert xs[..k + 1] == xs[..k] + [xs[k]];
      r := r + {xs[k]};
    }
    assert xs[..|xs|] == xs;
  }

  /** The definitions of some described services and their deployments. */
  method AddServices(s: set<string>, services: seq<Service>) returns (r: set<string>)
    ensures r == s + ServicesInUse(services)
  {
    r := s;
    for k := 0 to |services|
      invariant r == s + ServicesInUse(services[..k])
    {
      var svc := services[k];
      assert services[..k + 1][..k] == services[..k];
      r := r + {svc.taskDefinition};
      r := AddAll(r, svc.deployments);
    }
    assert services[..|services|] == services;
  }

  /** One page of services, described in batches of 10: the slices
      `page[i:i + 10]` for `i` in `range(0, len(page), 10)`. */
  method ScanServicePage(ecs: Ecs, cluster: string, page: seq<string>, s: set<string>) returns (r: set<string>)
    ensures r == s + ServiceBatchesInUse(ecs, cluster, Chunks(page, ServiceBatch))
  {
    r := s;
    var batches := Chunks(page, ServiceBatch);
    for k := 0 to |batches|
      invariant r == s + ServiceBatchesInUse(ecs, cluster, batches[..k])
    {
      var batch := batches[k];
      assert batches[..k + 1] == batches[..k] + [batch];
      ServiceBatchesSnoc(ecs, cluster, batches[..k], batch);
      UnionAssoc(s, ServiceBatchesInUse(ecs, cluster, batches[..k]), ServicesInUse(ecs.describeServices(cluster, batch)));
      r := AddServices(r, ecs.describeServices(cluster, batch));
    }
    assert batches[..|batches|] == batches;
  }

  /** One page of tasks, described in batches of 100. */
  method ScanTaskPage(ecs: Ecs, cluster: string, page: seq<string>, s: set<string>) returns (r: set<string>)
    ensures r == s + TaskBatchesInUse(ecs, cluster, Chunks(page, TaskBatch))
  {
    r := s;
    var batches := Chunks(page, TaskBatch);
    for k := 0 to |batches|
      invariant r == s + TaskBatchesInUse(ecs, cluster, batches[..k])
    {
      var batch := batches[k];
      assert batches[..k + 1] == batches[..k] + [batch];
      TaskBatchesSnoc(ecs, cluster, batches[..k], batch);
      UnionAssoc(s, TaskBatchesInUse(ecs, cluster, batches[..k]), Elements(ecs.describeTasks(cluster, batch)));
      r := AddAll(r, ecs.describeTasks(cluster, batch));
    }
    assert batches[..|batches|] == batches;
  }

  /** The services, then the running tasks, of one cluster; an empty page is
      skipped. */
  method ScanCluster(ecs: Ecs, cluster: string, s: set<string>) returns (r: set<string>)
    ensures r == s + ClusterInUse(ecs, cluster)
  {
    r := s;
    var pages := ecs.servicePages(cluster);
    for p := 0 to |pages|
      invariant r == s + ServicePagesInUse(ecs, cluster, pages[..p])
    {
      assert pages[..p + 1][..p] == pages[..p];
      if |pages[p]| > 0 {
        r := ScanServicePage(ecs, cluster, pages[p], r);
      }
    }
    assert pages[..|pages|] == pages;
    ghost var services := r;
    var taskPages := ecs.taskPages(cluster);
    for p := 0 to |taskPages|
      invariant r == services + TaskPagesInUse(ecs, cluster, taskPages[..p])
    {
      assert taskPages[..p + 1][..p] == taskPages[..p];
      if |taskPages[p]| > 0 {
        r := ScanTaskPage(ecs, cluster, taskPages[p], r);
      }
    }
    assert taskPages[..|taskPages|] == taskPages;
  }

  /** Step 1 of both scripts: every cluster, in order. */
  method CollectActive(ecs: Ecs) returns (active: set<string>)
    ensures active == ActiveSet(ecs)
  {
    active := {};
    var clusters := ecs.clusters;
    for k := 0 to |clusters|
      invariant active == ClustersInUse(ecs, clusters[..k])
    {
      assert clusters[..k + 1][..k] == clusters[..k];
      active := ScanCluster(ecs, clusters[k], active);
    }
    assert clusters[..|clusters|] == clusters;
  }

  // ---------------------------------------------------------------------------
  // Revisions
  // ---------------------------------------------------------------------------

  /** `int(arn.split(':')[-1])`; `None` where `int` raises. */
  function TaskRevision(arn: string): Option<nat> {
    ParseNat(LastSegment(arn, ":"))
  }

  /** The revision of `...:family:n` is `n`. */
  lemma TaskRevisionOf(prefix: string, n: nat)
    ensures TaskRevision(prefix + ":" + NatToString(n)) == Some(n)
  {
    NatToStringDigits(n);
    var digits := NatToString(n);
    assert ':' !in digits by {
      forall i | 0 <= i < |digits| ensures digits[i] != ':' {
        assert IsDigit(digits[i]);
      }
    }
    assert prefix + ":" + digits == prefix + [':'] + digits;
    LastSegmentAfter(prefix, ':', digits);
    ParseNatToString(n);
  }

  /** The sort key of an ARN; only read when every revision parses. */
  function RevisionKey(arn: string): int {
    match TaskRevision(arn)
    case Some(n) => n
    case None => -1
  }
}
