/** The resource-group inspector: it lists the members of a resource group,
    attaches their tags, classifies each one as KEEP or DELETE from usage
    metrics and simple rules, and forwards the DELETE ones to a deletion step
    that a dry run turns off. Remote calls are parameters: the listing, the
    tagging lookup, the metric statistics and the address description. */
module Inspector {
  import opened Wrappers
  import opened Text
  import opened Batching
  import Sorting
  import TaskFamilies

  const NatGatewayType: string := "AWS::EC2::NatGateway"
  const LoadBalancerType: string := "AWS::ElasticLoadBalancingV2::LoadBalancer"
  const TaskDefinitionType: string := "AWS::ECS::TaskDefinition"
  const EipType: string := "AWS::EC2::EIP"
  const DbInstanceType: string := "AWS::RDS::DBInstance"

  /** The justification of a resource no rule speaks about. */
  const DefaultJustification: string := "Core Infrastructure / Active"

  /** A group given by ARN rather than by name contains this. */
  const GroupArnMarker: string := "arn:aws:resource-groups"

  /** `get_resources` is asked about at most this many ARNs at a time. */
  const TaggingBatch: nat := 100

  datatype Relevance = Keep | Delete

  /** The `Relevance` and `Justification` keys set by the classifier. */
  datatype Verdict = Verdict(relevance: Relevance, justification: string)

  /** One entry of `discovered_resources`: `Tags` once enriched, and the
      verdict once assessed. */
  datatype Resource = Resource(arn: string, rtype: string, status: string,
                               tags: Option<map<string, string>>, verdict: Option<Verdict>)

  /** One listed group member: its ARN, its type and its status name if any. */
  datatype Listed = Listed(arn: string, rtype: string, status: Option<string>)

  // ---------------------------------------------------------------------------
  // scan_resource_group
  // ---------------------------------------------------------------------------

  /** The group name: the last `/`-segment of a group ARN, a name as it is. */
  function GroupName(groupArnOrName: string): (name: string)
    ensures Contains(groupArnOrName, GroupArnMarker) ==> '/' !in name
    ensures !Contains(groupArnOrName, GroupArnMarker) ==> name == groupArnOrName
  {
    if Contains(groupArnOrName, GroupArnMarker) then
      LastSegmentLacksSep(groupArnOrName, '/');
      LastSegment(groupArnOrName, "/")
    else groupArnOrName
  }

  /** A group ARN yields the name after its last `/`. */
  lemma GroupNameOfArn(rest: string, name: string)
    requires '/' !in name
    ensures GroupName(GroupArnMarker + rest + "/" + name) == name
  {
    var s := GroupArnMarker + rest + "/" + name;
    ContainsPrefix(GroupArnMarker, rest + "/" + name);
    assert s == GroupArnMarker + (rest + "/" + name);
    assert s == (GroupArnMarker + rest) + ['/'] + name;
    LastSegmentAfter(GroupArnMarker + rest, '/', name);
  }

  /** The entry appended for a listed member; a missing status reads `Unknown`. */
  function Discovered(l: Listed): Resource {
    Resource(l.arn, l.rtype, if l.status.Some? then l.status.value else "Unknown", None, None)
  }

  /** The entries appended for one page of the listing. */
  function PageEntries(page: seq<Listed>): (rs: seq<Resource>)
    ensures |rs| == |page|
    ensures forall i | 0 <= i < |page| :: rs[i] == Discovered(page[i])
  {
    if |page| == 0 then []
    else PageEntries(page[..|page| - 1]) + [Discovered(page[|page| - 1])]
  }

  /** The entries appended for the pages delivered. */
  function Listing(pages: seq<seq<Listed>>): seq<Resource> {
    if |pages| == 0 then []
    else Listing(pages[..|pages| - 1]) + PageEntries(pages[|pages| - 1])
  }

  /** One entry per listed member, in listing order. */
  lemma {:induction false} ListingEntries(pages: seq<seq<Listed>>)
    ensures |Listing(pages)| == |Flatten(pages)|
    ensures forall i | 0 <= i < |Flatten(pages)| :: Listing(pages)[i] == Discovered(Flatten(pages)[i])
    decreases |pages|
  {
    if |pages| > 0 {
      var init := pages[..|pages| - 1];
      var last := pages[|pages| - 1];
      assert pages == init + [last];
      FlattenConcat(init, [last]);
      assert Flatten([last]) == last;
      ListingEntries(init);
    }
  }

  lemma ListingSnoc(pages: seq<seq<Listed>>, page: seq<Listed>)
    ensures Listing(pages + [page]) == Listing(pages) + PageEntries(page)
  {
    assert (pages + [page])[..|pages|] == pages;
  }

  // ---------------------------------------------------------------------------
  // enrich_resource_data
  // ---------------------------------------------------------------------------

  /** One entry of `ResourceTagMappingList`: an ARN and its tags as key/value
      pairs. */
  datatype TagMapping = TagMapping(arn: string, tags: seq<(string, string)>)

  /** No later pair of `tags` has the key of pair `i`. */
  predicate LastOfKey(tags: seq<(string, string)>, i: nat)
    requires i < |tags|
  {
    forall j | i < j < |tags| :: tags[j].0 != tags[i].0
  }

  /** `{t['Key']: t['Value'] for t in tags}`: every key that occurs, with the
      value of its last occurrence. */
  function TagMap(tags: seq<(string, string)>): (m: map<string, string>)
    ensures forall k :: k in m <==> exists i | 0 <= i < |tags| :: tags[i].0 == k
    ensures forall i | 0 <= i < |tags| && LastOfKey(tags, i) :: m[tags[i].0] == tags[i].1
  {
    if |tags| == 0 then map[]
    else
      var init := tags[..|tags| - 1];
      var t := tags[|tags| - 1];
      var m := TagMap(init);
      var m' := m[t.0 := t.1];
      TagMapKeys(tags, m, m');
      TagMapValues(tags, m, m');
      m'
  }

  /** Adding the last pair to the map of the others covers every key. */
  lemma TagMapKeys(tags: seq<(string, string)>, m: map<string, string>, m': map<string, string>)
    requires |tags| > 0 && m' == m[tags[|tags| - 1].0 := tags[|tags| - 1].1]
    requires forall k :: k in m <==> exists i | 0 <= i < |tags| - 1 :: tags[i].0 == k
    ensures forall k :: k in m' <==> exists i | 0 <= i < |tags| :: tags[i].0 == k
  {
    forall k | exists i | 0 <= i < |tags| :: tags[i].0 == k
      ensures k in m'
    {
      var i :| 0 <= i < |tags| && tags[i].0 == k;
      if i < |tags| - 1 {
        assert k in m;
      }
    }
  }

  /** Adding the last pair to the map of the others keeps each last value. */
  lemma TagMapValues(tags: seq<(string, string)>, m: map<string, string>, m': map<string, string>)
    requires |tags| > 0 && m' == m[tags[|tags| - 1].0 := tags[|tags| - 1].1]
    requires var init := tags[..|tags| - 1];
      forall i | 0 <= i < |init| && LastOfKey(init, i) :: init[i].0 in m && m[init[i].0] == init[i].1
    ensures forall i | 0 <= i < |tags| && LastOfKey(tags, i) :: tags[i].0 in m' && m'[tags[i].0] == tags[i].1
  {
    var init := tags[..|tags| - 1];
    forall i | 0 <= i < |tags| && LastOfKey(tags, i)
      ensures tags[i].0 in m' && m'[tags[i].0] == tags[i].1
    {
      if i < |tags| - 1 {
        assert tags[i] == init[i];
        assert tags[|tags| - 1].0 != tags[i].0;
        forall j | i < j < |init| ensures init[j].0 != init[i].0 {
          assert init[j] == tags[j];
        }
        assert LastOfKey(init, i);
      }
    }
  }

  /** `[r['Arn'] for r in discovered_resources]`. */
  function Arns(rs: seq<Resource>): (arns: seq<string>)
    ensures |arns| == |rs|
    ensures forall i | 0 <= i < |rs| :: arns[i] == rs[i].arn
  {
    if |rs| == 0 then [] else Arns(rs[..|rs| - 1]) + [rs[|rs| - 1].arn]
  }

  /** The first entry with ARN `arn` gets `tags`; nothing else changes. */
  function Tagged(rs: seq<Resource>, arn: string, tags: map<string, string>): (r: seq<Resource>)
    ensures |r| == |rs|
    ensures forall j | 0 <= j < |rs| ::
      r[j] == if rs[j].arn == arn && forall k | 0 <= k < j :: rs[k].arn != arn
              then rs[j].(tags := Some(tags)) else rs[j]
  {
    if |rs| == 0 then []
    else if rs[0].arn == arn then [rs[0].(tags := Some(tags))] + rs[1..]
    else [rs[0]] + Tagged(rs[1..], arn, tags)
  }

  /** Every mapping of one response applied in order. */
  function Mapped(rs: seq<Resource>, items: seq<TagMapping>): seq<Resource> {
    if |items| == 0 then rs
    else
      var last := items[|items| - 1];
      Tagged(Mapped(rs, items[..|items| - 1]), last.arn, TagMap(last.tags))
  }

  /** One `get_resources` call: a raised error leaves the entries as they were. */
  function Answered(rs: seq<Resource>, response: Option<seq<TagMapping>>): seq<Resource> {
    match response
    case None => rs
    case Some(items) => Mapped(rs, items)
  }

  /** The entries after the calls for `batches`, in order. */
  function Enriched(rs: seq<Resource>, batches: seq<seq<string>>,
                    getResources: seq<string> -> Option<seq<TagMapping>>): seq<Resource> {
    if |batches| == 0 then rs
    else
      var init := batches[..|batches| - 1];
      Answered(Enriched(rs, init, getResources), getResources(batches[|batches| - 1]))
  }

  lemma EnrichedSnoc(rs: seq<Resource>, batches: seq<seq<string>>, batch: seq<string>,
                     getResources: seq<string> -> Option<seq<TagMapping>>)
    ensures Enriched(rs, batches + [batch], getResources) ==
            Answered(Enriched(rs, batches, getResources), getResources(batch))
  {
    assert (batches + [batch])[..|batches|] == batches;
  }

  /** Only the tags change. */
  ghost predicate SameButTags(rs: seq<Resource>, r: seq<Resource>) {
    |r| == |rs| && forall j | 0 <= j < |rs| :: r[j] == rs[j].(tags := r[j].tags)
  }

  lemma {:induction false} MappedKeepsAllButTags(rs: seq<Resource>, items: seq<TagMapping>)
    ensures SameButTags(rs, Mapped(rs, items))
    decreases |items|
  {
    if |items| > 0 {
      MappedKeepsAllButTags(rs, items[..|items| - 1]);
    }
  }

  /** Enrichment changes nothing but tags: same entries, same order. */
  lemma {:induction false} EnrichedKeepsAllButTags(rs: seq<Resource>, batches: seq<seq<string>>,
                                                   getResources: seq<string> -> Option<seq<TagMapping>>)
    ensures SameButTags(rs, Enriched(rs, batches, getResources))
    decreases |batches|
  {
    if |batches| > 0 {
      var init := batches[..|batches| - 1];
      var before := Enriched(rs, init, getResources);
      EnrichedKeepsAllButTags(rs, init, getResources);
      match getResources(batches[|batches| - 1])
      case None =>
      case Some(items) => MappedKeepsAllButTags(before, items);
    }
  }

  // ---------------------------------------------------------------------------
  // get_cw_metric_sum
  // ---------------------------------------------------------------------------

  /** One `get_metric_statistics` request: namespace, metric, and the single
      dimension's name and value. The 7-day window and the `Sum` statistic
      are the same for every request. */
  datatype Query = Query(namespace: string, metric: string, dimension: string, value: string)

  /** The sum reported for a request: the first datapoint's sum, 0 when there
      are no datapoints, `None` when the call raised (`response` is `None`). */
  function MetricSum(response: Option<seq<nat>>): (sum: Option<nat>)
    ensures sum.None? <==> response.None?
    ensures sum == Some(0) <==> response.Some? && (|response.value| == 0 || response.value[0] == 0)
  {
    match response
    case None => None
    case Some(datapoints) => if |datapoints| > 0 then Some(datapoints[0]) else Some(0)
  }

  function NatQuery(arn: string): Query {
    Query("AWS/NATGateway", "ConnectionEstablishedCount", "NatGatewayId", LastSegment(arn, "/"))
  }

  /** `"/".join(arn.split(':')[-1].split('/')[1:])`. */
  function AlbDimension(arn: string): string {
    Join(SplitOn(LastSegment(arn, ":"), "/")[1..], "/")
  }

  /** For a load balancer ARN the dimension is what follows `loadbalancer/`,
      for instance `app/name/id`. */
  lemma AlbDimensionOf(prefix: string, dimension: string)
    requires ':' !in dimension
    ensures AlbDimension(prefix + ":loadbalancer/" + dimension) == dimension
  {
    var tail := "loadbalancer/" + dimension;
    assert ':' !in tail;
    assert prefix + ":loadbalancer/" + dimension == prefix + [':'] + tail;
    LastSegmentAfter(prefix, ':', tail);
    assert tail == "loadbalancer" + ['/'] + dimension;
    SplitPieceThenSep("loadbalancer", '/', dimension);
    assert SplitOn(tail, "/")[1..] == SplitOn(dimension, "/");
    JoinSplit(dimension, '/');
  }

  function AlbQuery(arn: string): Query {
    Query("AWS/ApplicationELB", "RequestCount", "LoadBalancer", AlbDimension(arn))
  }

  function RdsQuery(arn: string): Query {
    Query("AWS/RDS", "DatabaseConnections", "DBInstanceIdentifier", LastSegment(arn, ":"))
  }

  // ---------------------------------------------------------------------------
  // Unassociated Elastic IPs
  // ---------------------------------------------------------------------------

  /** One entry of `describe_addresses`: its association, if any, and its
      allocation id. */
  datatype Address = Address(associationId: Option<string>, allocationId: string)

  /** `eip_resources`, by ARN. */
  function EipArns(rs: seq<Resource>): (arns: seq<string>)
    ensures forall a :: a in arns <==> exists r | r in rs :: r.rtype == EipType && r.arn == a
  {
    if |rs| == 0 then []
    else
      var init := rs[..|rs| - 1];
      var r := rs[|rs| - 1];
      assert rs == init + [r];
      EipArns(init) + (if r.rtype == EipType then [r.arn] else [])
  }

  /** An address without association whose allocation id occurs in the ARN. */
  predicate Unattached(arn: string, addresses: seq<Address>) {
    exists ad | ad in addresses :: ad.associationId.None? && Contains(arn, ad.allocationId)
  }

  /** `unattached_eips`; `addresses` is `None` when `describe_addresses`
      raised, and it is only asked for when there are EIP resources. */
  function UnattachedEips(rs: seq<Resource>, addresses: Option<seq<Address>>): (u: set<string>)
    ensures forall a :: a in u <==>
      a in EipArns(rs) && addresses.Some? && Unattached(a, addresses.value)
  {
    if |EipArns(rs)| == 0 then {}
    else
      match addresses
      case None => {}
      case Some(ads) => set a | a in EipArns(rs) && Unattached(a, ads)
  }

  // ---------------------------------------------------------------------------
  // assess_relevance
  // ---------------------------------------------------------------------------

  /** `resource.get('Tags', {})`. */
  function TagsOf(r: Resource): map<string, string> {
    if r.tags.Some? then r.tags.value else map[]
  }

  /** A metric rule: 0 means unused, a count means active, no answer leaves
      the default. */
  function MetricVerdict(sum: Option<nat>, unused: string, activePrefix: string, activeSuffix: string): Verdict {
    match sum
    case None => Verdict(Keep, DefaultJustification)
    case Some(n) =>
      if n == 0 then Verdict(Delete, unused) else Verdict(Keep, activePrefix + NatToString(n) + activeSuffix)
  }

  /** The five rules, by type. */
  function Heuristic(r: Resource, stale: set<string>, unattached: set<string>,
                     statistics: Query -> Option<seq<nat>>): Verdict {
    if r.rtype == NatGatewayType then
      MetricVerdict(MetricSum(statistics(NatQuery(r.arn))),
                    "Unused NAT Gateway (0 connections in 7 days)", "Active NAT Gateway (", " connections/7d)")
    else if r.rtype == LoadBalancerType && Contains(r.arn, "/app/") then
      MetricVerdict(MetricSum(statistics(AlbQuery(r.arn))),
                    "Unused ALB (0 requests in 7 days)", "Active ALB (", " requests/7d)")
    else if r.rtype == TaskDefinitionType then
      if r.arn in stale then Verdict(Delete, "Old Task Definition revision (kept last 2)")
      else Verdict(Keep, "Recent Task Definition revision")
    else if r.rtype == EipType then
      if r.arn in unattached then Verdict(Delete, "Unassociated Elastic IP")
      else Verdict(Keep, "EIP is attached to a resource")
    else if r.rtype == DbInstanceType then
      if MetricSum(statistics(RdsQuery(r.arn))) == Some(0) then Verdict(Delete, "Unused RDS (0 connections in 7 days)")
      else Verdict(Keep, DefaultJustification)
    else Verdict(Keep, DefaultJustification)
  }

  /** A non-empty active tag equal to some tag key or value. */
  predicate MatchesActiveTag(tags: map<string, string>, activeTag: Option<string>) {
    activeTag.Some? && |activeTag.value| > 0 && (activeTag.value in tags.Values || activeTag.value in tags.Keys)
  }

  /** The active-tag override, applied after the rules. */
  function Override(v: Verdict, tags: map<string, string>, activeTag: Option<string>): (w: Verdict)
    ensures MatchesActiveTag(tags, activeTag) ==> w.relevance == Keep
    ensures !MatchesActiveTag(tags, activeTag) ==> w == v
  {
    if MatchesActiveTag(tags, activeTag) then Verdict(Keep, "Matched active identifier '" + activeTag.value + "'")
    else v
  }

  /** Applying the override twice is applying it once. */
  lemma OverrideIdempotent(v: Verdict, tags: map<string, string>, activeTag: Option<string>)
    ensures Override(Override(v, tags, activeTag), tags, activeTag) == Override(v, tags, activeTag)
  {
  }

  /** The verdict for one resource: the rule for its type, then the
      active-tag override. */
  function Judge(r: Resource, stale: set<string>, unattached: set<string>,
                 statistics: Query -> Option<seq<nat>>, activeTag: Option<string>): Verdict {
    Override(Heuristic(r, stale, unattached, statistics), TagsOf(r), activeTag)
  }

  /** DELETE exactly when a rule fires and the active tag does not match; a
      matching tag gives its own justification; every other type is KEEP with
      the default justification. */
  lemma JudgeVerdict(r: Resource, stale: set<string>, unattached: set<string>,
                     statistics: Query -> Option<seq<nat>>, activeTag: Option<string>)
    ensures Judge(r, stale, unattached, statistics, activeTag).relevance == Delete <==>
      !MatchesActiveTag(TagsOf(r), activeTag) &&
      ((r.rtype == NatGatewayType && MetricSum(statistics(NatQuery(r.arn))) == Some(0)) ||
       (r.rtype == LoadBalancerType && Contains(r.arn, "/app/") && MetricSum(statistics(AlbQuery(r.arn))) == Some(0)) ||
       (r.rtype == TaskDefinitionType && r.arn in stale) ||
       (r.rtype == EipType && r.arn in unattached) ||
       (r.rtype == DbInstanceType && MetricSum(statistics(RdsQuery(r.arn))) == Some(0)))
    ensures MatchesActiveTag(TagsOf(r), activeTag) ==>
      Judge(r, stale, unattached, statistics, activeTag) == Verdict(Keep, "Matched active identifier '" + activeTag.value + "'")
    ensures (!MatchesActiveTag(TagsOf(r), activeTag) &&
             r.rtype !in {NatGatewayType, LoadBalancerType, TaskDefinitionType, EipType, DbInstanceType}) ==>
      Judge(r, stale, unattached, statistics, activeTag) == Verdict(Keep, DefaultJustification)
  {
  }

  /** Every resource with its verdict, in order. */
  function Judged(rs: seq<Resource>, stale: set<string>, unattached: set<string>,
                  statistics: Query -> Option<seq<nat>>, activeTag: Option<string>): (js: seq<Resource>)
    ensures |js| == |rs|
    ensures forall i | 0 <= i < |rs| ::
      js[i] == rs[i].(verdict := Some(Judge(rs[i], stale, unattached, statistics, activeTag)))
  {
    seq(|rs|, i requires 0 <= i < |rs| =>
      rs[i].(verdict := Some(Judge(rs[i], stale, unattached, statistics, activeTag))))
  }

  /** The task-definition ARNs among the resources, in order. */
  function TaskDefinitionArns(rs: seq<Resource>): (arns: seq<string>)
    ensures forall a :: a in arns <==> exists r | r in rs :: r.rtype == TaskDefinitionType && r.arn == a
  {
    if |rs| == 0 then []
    else
      var init := rs[..|rs| - 1];
      var r := rs[|rs| - 1];
      assert rs == init + [r];
      TaskDefinitionArns(init) + (if r.rtype == TaskDefinitionType then [r.arn] else [])
  }

  /** The outcome of `assess_relevance` on the discovered resources. */
  function Assessed(rs: seq<Resource>, activeTag: Option<string>, statistics: Query -> Option<seq<nat>>,
                    addresses: Option<seq<Address>>): seq<Resource> {
    var stale := TaskFamilies.StaleArns(TaskFamilies.Parsed(TaskDefinitionArns(rs)));
    Judged(rs, stale, UnattachedEips(rs, addresses), statistics, activeTag)
  }

  /** A failed address lookup leaves every EIP at KEEP. */
  lemma FailedLookupKeepsEips(rs: seq<Resource>, activeTag: Option<string>,
                              statistics: Query -> Option<seq<nat>>, i: nat)
    requires i < |rs| && rs[i].rtype == EipType
    ensures Assessed(rs, activeTag, statistics, None)[i].verdict.value.relevance == Keep
  {
  }

  /** A task-definition ARN that does not parse is never DELETE. */
  lemma UnparseableTaskDefinitionKept(rs: seq<Resource>, activeTag: Option<string>,
                                      statistics: Query -> Option<seq<nat>>,
                                      addresses: Option<seq<Address>>, i: nat)
    requires i < |rs| && rs[i].rtype == TaskDefinitionType
    requires TaskFamilies.FamilyRevision(rs[i].arn).None?
    ensures Assessed(rs, activeTag, statistics, addresses)[i].verdict.value.relevance == Keep
  {
    TaskFamilies.UnparseableNeverStale(TaskDefinitionArns(rs), rs[i].arn);
  }

  /** Without an active-tag match, a parseable task definition is DELETE
      exactly when two other revisions of its family are newer (ARNs and
      per-family revisions distinct). */
  lemma TaskDefinitionDeleteIffTwoNewer(rs: seq<Resource>, activeTag: Option<string>,
                                        statistics: Query -> Option<seq<nat>>,
                                        addresses: Option<seq<Address>>, i: nat)
    requires i < |rs| && rs[i].rtype == TaskDefinitionType
    requires TaskFamilies.FamilyRevision(rs[i].arn).Some?
    requires Sorting.Unique(TaskDefinitionArns(rs)) && TaskFamilies.DistinctRevisions(TaskDefinitionArns(rs))
    requires !MatchesActiveTag(TagsOf(rs[i]), activeTag)
    ensures Assessed(rs, activeTag, statistics, addresses)[i].verdict.value.relevance == Delete
            <==> TaskFamilies.TwoNewer(TaskDefinitionArns(rs), rs[i].arn)
  {
    var arns := TaskDefinitionArns(rs);
    var stale := TaskFamilies.StaleArns(TaskFamilies.Parsed(arns));
    var unattached := UnattachedEips(rs, addresses);
    assert rs[i] in rs;
    TaskFamilies.StaleIffTwoNewer(arns, rs[i].arn);
    assert Assessed(rs, activeTag, statistics, addresses)[i].verdict.value
      == Judge(rs[i], stale, unattached, statistics, activeTag);
    JudgeVerdict(rs[i], stale, unattached, statistics, activeTag);
  }

  // ---------------------------------------------------------------------------
  // cleanup and delete_resource
  // ---------------------------------------------------------------------------

  /** The deletion helpers `delete_resource` can call. */
  datatype Handler = EmptyAndDeleteBucket | TerminateInstance | DeregisterTaskDefinition | ReleaseAddress

  /** One remote deletion request, with the argument its helper derives from
      the ARN. */
  datatype Call =
    | DeleteBucket(bucket: string)
    | TerminateInstances(instanceId: string)
    | DeregisterTask(taskDefinition: string)
    | ReleaseAllocation(allocationId: string)

  /** The handler `delete_resource` picks, as written: lower-case substring
      tests on the resource type. */
  function DispatchAsWritten(rtype: string): Option<Handler> {
    if Contains(rtype, "s3") then Some(EmptyAndDeleteBucket)
    else if Contains(rtype, "ec2") && Contains(rtype, "instance") then Some(TerminateInstance)
    else if Contains(rtype, "ecs") && Contains(rtype, "task-definition") then Some(DeregisterTaskDefinition)
    else if Contains(rtype, "ec2") && Contains(rtype, "elastic-ip") then Some(ReleaseAddress)
    else None
  }

  /** No `ec2` in a string whose only `2`s come right after its first part,
      which does not end in `c`. */
  lemma NoEc2Across(x: string, y: string)
    requires |x| > 0 && x[|x| - 1] != 'c' && '2' !in x
    requires forall k | 1 <= k < |y| :: y[k] != '2'
    ensures !Contains(x + y, "ec2")
  {
    var s := x + y;
    forall i: nat | i <= |s| ensures !OccursAt(s, "ec2", i) {
      if i + 3 <= |s| {
        assert s[i..i + 3][1] == s[i + 1] && s[i..i + 3][2] == s[i + 2];
      }
    }
  }

  /** The load balancer type has no `ec2`: its only `2` follows `V`. */
  lemma LoadBalancerTypeLacksEc2()
    ensures !Contains(LoadBalancerType, "ec2")
  {
    NoEc2Across("AWS::ElasticLoadBalancingV", "2::LoadBalancer");
    assert "AWS::ElasticLoadBalancingV" + "2::LoadBalancer" == LoadBalancerType;
  }

  /** Without `3`, `-` and `ec2` no substring test succeeds. */
  lemma NoHandlerWithout(rtype: string)
    requires '3' !in rtype && '-' !in rtype && !Contains(rtype, "ec2")
    ensures DispatchAsWritten(rtype) == None
  {
    MissingCharNotContained(rtype, "s3", '3');
    MissingCharNotContained(rtype, "task-definition", '-');
    MissingCharNotContained(rtype, "elastic-ip", '-');
  }

  lemma NatGatewayNoHandlerAsWritten()
    ensures DispatchAsWritten(NatGatewayType) == None
  {
    MissingCharNotContained(NatGatewayType, "ec2", 'c');
    NoHandlerWithout(NatGatewayType);
  }

  lemma LoadBalancerNoHandlerAsWritten()
    ensures DispatchAsWritten(LoadBalancerType) == None
  {
    LoadBalancerTypeLacksEc2();
    NoHandlerWithout(LoadBalancerType);
  }

  lemma TaskDefinitionNoHandlerAsWritten()
    ensures DispatchAsWritten(TaskDefinitionType) == None
  {
    MissingCharNotContained(TaskDefinitionType, "ec2", '2');
    NoHandlerWithout(TaskDefinitionType);
  }

  lemma EipNoHandlerAsWritten()
    ensures DispatchAsWritten(EipType) == None
  {
    MissingCharNotContained(EipType, "ec2", 'e');
    NoHandlerWithout(EipType);
  }

  lemma DbInstanceNoHandlerAsWritten()
    ensures DispatchAsWritten(DbInstanceType) == None
  {
    MissingCharNotContained(DbInstanceType, "ec2", '2');
    NoHandlerWithout(DbInstanceType);
  }

  /** As written, none of the five types the classifier can mark DELETE has a
      handler: their names are upper-case CloudFormation names. */
  lemma NoHandlerAsWritten(rtype: string)
    requires rtype in {NatGatewayType, LoadBalancerType, TaskDefinitionType, EipType, DbInstanceType}
    ensures DispatchAsWritten(rtype) == None
  {
    if rtype == NatGatewayType {
      NatGatewayNoHandlerAsWritten();
    } else if rtype == LoadBalancerType {
      LoadBalancerNoHandlerAsWritten();
    } else if rtype == TaskDefinitionType {
      TaskDefinitionNoHandlerAsWritten();
    } else if rtype == EipType {
      EipNoHandlerAsWritten();
    } else {
      DbInstanceNoHandlerAsWritten();
    }
  }

  /** As written, a resource the classifier marks DELETE is never deleted. */
  lemma DeleteVerdictHasNoHandlerAsWritten(r: Resource, stale: set<string>, unattached: set<string>,
                                           statistics: Query -> Option<seq<nat>>, activeTag: Option<string>)
    requires Judge(r, stale, unattached, statistics, activeTag).relevance == Delete
    ensures DispatchAsWritten(r.rtype) == None
  {
    JudgeVerdict(r, stale, unattached, statistics, activeTag);
    NoHandlerAsWritten(r.rtype);
  }

  const S3BucketType: string := "AWS::S3::Bucket"
  const Ec2InstanceType: string := "AWS::EC2::Instance"

  /** The handler by exact resource type, as the substring tests in the
      dispatcher evidently intend. */
  function Dispatch(rtype: string): (h: Option<Handler>)
    ensures h.Some? <==> rtype in {S3BucketType, Ec2InstanceType, TaskDefinitionType, EipType}
  {
    if rtype == S3BucketType then Some(EmptyAndDeleteBucket)
    else if rtype == Ec2InstanceType then Some(TerminateInstance)
    else if rtype == TaskDefinitionType then Some(DeregisterTaskDefinition)
    else if rtype == EipType then Some(ReleaseAddress)
    else None
  }

  /** The request a handler makes; `None` when deriving its argument raises
      (a bucket ARN without `:::`). */
  function HandlerCall(h: Handler, arn: string): Option<Call> {
    match h
    case EmptyAndDeleteBucket =>
      var parts := SplitOn(arn, ":::");
      if |parts| >= 2 then Some(DeleteBucket(parts[1])) else None
    case TerminateInstance => Some(TerminateInstances(LastSegment(arn, "/")))
    case DeregisterTaskDefinition => Some(DeregisterTask(arn))
    case ReleaseAddress => Some(ReleaseAllocation(LastSegment(arn, "/")))
  }

  /** What `delete_resource` requests for one resource. */
  function ResourceCall(r: Resource, dryRun: bool): Option<Call> {
    if dryRun then None
    else
      match Dispatch(r.rtype)
      case None => None
      case Some(h) => HandlerCall(h, r.arn)
  }

  predicate Assessed?(rs: seq<Resource>) {
    forall r | r in rs :: r.verdict.Some?
  }

  predicate MarkedDelete(r: Resource) {
    r.verdict.Some? && r.verdict.value.relevance == Delete
  }

  /** The ARNs `cleanup` hands to `delete_resource`, in order. */
  function Forwarded(rs: seq<Resource>): (arns: seq<string>)
    requires Assessed?(rs)
  {
    if |rs| == 0 then []
    else
      var init := rs[..|rs| - 1];
      var r := rs[|rs| - 1];
      Forwarded(init) + (if r.verdict.value.relevance == Delete then [r.arn] else [])
  }

  /** The deletion requests `cleanup` makes, in order. */
  function DeletionCalls(rs: seq<Resource>, dryRun: bool): seq<Call>
    requires Assessed?(rs)
  {
    if |rs| == 0 then []
    else
      var init := rs[..|rs| - 1];
      var r := rs[|rs| - 1];
      var c := ResourceCall(r, dryRun);
      DeletionCalls(init, dryRun) + (if r.verdict.value.relevance == Delete && c.Some? then [c.value] else [])
  }

  /** Exactly the DELETE resources are forwarded. */
  lemma {:induction false} ForwardedAreDeletes(rs: seq<Resource>, a: string)
    requires Assessed?(rs)
    ensures a in Forwarded(rs) <==> exists r | r in rs :: MarkedDelete(r) && r.arn == a
    decreases |rs|
  {
    if |rs| > 0 {
      var init := rs[..|rs| - 1];
      var r := rs[|rs| - 1];
      assert rs == init + [r];
      ForwardedAreDeletes(init, a);
    }
  }

  /** Every request is the handler call of some DELETE resource; a dry run
      makes none. */
  lemma {:induction false} CallsComeFromDeletes(rs: seq<Resource>, dryRun: bool, c: Call)
    requires Assessed?(rs) && c in DeletionCalls(rs, dryRun)
    ensures !dryRun
    ensures exists r | r in rs ::
      MarkedDelete(r) && Dispatch(r.rtype).Some? && HandlerCall(Dispatch(r.rtype).value, r.arn) == Some(c)
    decreases |rs|
  {
    var init := rs[..|rs| - 1];
    var r := rs[|rs| - 1];
    assert rs == init + [r];
    if c in DeletionCalls(init, dryRun) {
      CallsComeFromDeletes(init, dryRun, c);
    } else {
      assert MarkedDelete(r) && ResourceCall(r, dryRun) == Some(c);
    }
  }

  /** Outside a dry run every DELETE task definition is deregistered and
      every DELETE Elastic IP released. */
  lemma {:induction false} DeletesReachTheirHandler(rs: seq<Resource>, i: nat)
    requires Assessed?(rs) && i < |rs| && MarkedDelete(rs[i])
    ensures rs[i].rtype == TaskDefinitionType ==> DeregisterTask(rs[i].arn) in DeletionCalls(rs, false)
    ensures rs[i].rtype == EipType ==>
      ReleaseAllocation(LastSegment(rs[i].arn, "/")) in DeletionCalls(rs, false)
    decreases |rs|
  {
    var init := rs[..|rs| - 1];
    assert rs == init + [rs[|rs| - 1]];
    if i < |rs| - 1 {
      assert rs[i] == init[i];
      DeletesReachTheirHandler(init, i);
    }
  }

  // ---------------------------------------------------------------------------
  // The inspector object
  // ---------------------------------------------------------------------------

  /** The address loop of `assess_relevance`: for each address without an
      association, every EIP resource whose ARN contains its allocation id. */
  method CollectUnattachedEips(rs: seq<Resource>, addresses: Option<seq<Address>>) returns (unattached: set<string>)
    ensures unattached == UnattachedEips(rs, addresses)
  {
    unattached := {};
    var eips := EipArns(rs);
    if |eips| == 0 || addresses.None? {
      return;
    }
    var ads := addresses.value;
    for n := 0 to |ads|
      invariant unattached == set a | a in eips && Unattached(a, ads[..n])
    {
      var ad := ads[n];
      assert ads[..n + 1] == ads[..n] + [ad];
      if ad.associationId.None? {
        ghost var before := unattached;
        for m := 0 to |eips|
          invariant unattached == before + set a | a in eips[..m] && Contains(a, ad.allocationId)
        {
          assert eips[..m + 1] == eips[..m] + [eips[m]];
          if Contains(eips[m], ad.allocationId) {
            unattached := unattached + {eips[m]};
          }
        }
        assert eips[..|eips|] == eips;
      }
    }
    assert ads[..|ads|] == ads;
  }

  /** An inspector for one region; `discovered` is `discovered_resources`. */
  class ResourceInspector {
    const region: string
    const dryRun: bool
    var discovered: seq<Resource>

    constructor(region: string, dryRun: bool)
      ensures this.region == region && this.dryRun == dryRun
      ensures discovered == []
    {
      this.region := region;
      this.dryRun := dryRun;
      discovered := [];
    }

    /** Appends the entries for one page of the listing. */
    method AppendPage(page: seq<Listed>)
      modifies this
      ensures discovered == old(discovered) + PageEntries(page)
    {
      for k := 0 to |page|
        invariant discovered == old(discovered) + PageEntries(page[..k])
      {
        var res := page[k];
        var entry := Resource(res.arn, res.rtype, if res.status.Some? then res.status.value else "Unknown", None, None);
        assert page[..k + 1][..k] == page[..k];
        SeqAssoc(old(discovered), PageEntries(page[..k]), [entry]);
        discovered := discovered + [entry];
      }
      assert page[..|page|] == page;
    }

    /** Appends the entries for every page, in order. */
    method AppendPages(pages: seq<seq<Listed>>)
      modifies this
      ensures discovered == old(discovered) + Listing(pages)
    {
      for p := 0 to |pages|
        invariant discovered == old(discovered) + Listing(pages[..p])
      {
        var page := pages[p];
        AppendPage(page);
        assert pages[..p + 1] == pages[..p] + [page];
        ListingSnoc(pages[..p], page);
        SeqAssoc(old(discovered), Listing(pages[..p]), PageEntries(page));
      }
      assert pages[..|pages|] == pages;
    }

    /** Appends every listed member of the group, in listing order.
        `listGroupResources` gives the pages delivered for a group name before
        the listing ended or failed. */
    method ScanResourceGroup(groupArnOrName: string, listGroupResources: string -> seq<seq<Listed>>)
      modifies this
      ensures discovered == old(discovered) + Listing(listGroupResources(GroupName(groupArnOrName)))
    {
      var groupName := GroupName(groupArnOrName);
      AppendPages(listGroupResources(groupName));
    }

    /** The inner loop of `enrich_resource_data`: the first entry with this
        ARN gets the tags. */
    method TagFirst(arn: string, tags: map<string, string>)
      modifies this
      ensures discovered == Tagged(old(discovered), arn, tags)
    {
      var i := 0;
      while i < |discovered| && discovered[i].arn != arn
        invariant 0 <= i <= |discovered|
        invariant forall k | 0 <= k < i :: discovered[k].arn != arn
      {
        i := i + 1;
      }
      if i < |discovered| {
        discovered := discovered[i := discovered[i].(tags := Some(tags))];
      }
    }

    /** The mappings of one `get_resources` answer, applied in order. */
    method ApplyMappings(items: seq<TagMapping>)
      modifies this
      ensures discovered == Mapped(old(discovered), items)
    {
      for k := 0 to |items|
        invariant discovered == Mapped(old(discovered), items[..k])
      {
        assert items[..k + 1][..k] == items[..k];
        TagFirst(items[k].arn, TagMap(items[k].tags));
      }
      assert items[..|items|] == items;
    }

    /** Asks for the tags of every discovered ARN in batches of 100 and
        applies each answer; returns the batches asked for. */
    method EnrichResourceData(getResources: seq<string> -> Option<seq<TagMapping>>)
      returns (queried: seq<seq<string>>)
      modifies this
      ensures queried == Chunks(Arns(old(discovered)), TaggingBatch)
      ensures discovered == Enriched(old(discovered), queried, getResources)
    {
      queried := [];
      if |discovered| == 0 {
        return;
      }
      ghost var start := discovered;
      var arns := Arns(discovered);
      var i := 0;
      while i < |arns|
        invariant 0 <= i <= |arns|
        invariant queried + ChunksFrom(arns, TaggingBatch, i) == ChunksFrom(arns, TaggingBatch, 0)
        invariant discovered == Enriched(start, queried, getResources)
        decreases |arns| - i
      {
        var j := Min(i + TaggingBatch, |arns|);
        var chunk := arns[i..j];
        SeqAssoc(queried, [chunk], ChunksFrom(arns, TaggingBatch, j));
        EnrichedSnoc(start, queried, chunk, getResources);
        EnrichBatch(chunk, getResources);
        queried := queried + [chunk];
        i := j;
      }
      assert queried + [] == queried;
      ChunksFromIsChunks(arns, TaggingBatch, 0);
      assert arns[0..] == arns;
    }

    /** One batch: a failed call changes nothing. */
    method EnrichBatch(chunk: seq<string>, getResources: seq<string> -> Option<seq<TagMapping>>)
      modifies this
      ensures discovered == Answered(old(discovered), getResources(chunk))
    {
      var response := getResources(chunk);
      if response.Some? {
        ApplyMappings(response.value);
      }
    }

    /** Classifies every discovered resource, recording the verdict on it,
        and returns them in order. */
    method AssessRelevance(activeTag: Option<string>, statistics: Query -> Option<seq<nat>>,
                           addresses: Option<seq<Address>>) returns (results: seq<Resource>)
      modifies this
      ensures results == Assessed(old(discovered), activeTag, statistics, addresses)
      ensures discovered == results
    {
      var taskDefinitions := TaskDefinitionArns(discovered);
      var families := TaskFamilies.CollectFamilies(taskDefinitions);
      var stale := TaskFamilies.CollectStale(taskDefinitions, families);
      var unattached := CollectUnattachedEips(discovered, addresses);
      results := RecordVerdicts(stale, unattached, statistics, activeTag);
    }

    /** The classification loop: each resource gets its verdict, in place and
        in the returned list. */
    method RecordVerdicts(stale: set<string>, unattached: set<string>, statistics: Query -> Option<seq<nat>>,
                          activeTag: Option<string>) returns (results: seq<Resource>)
      modifies this
      ensures results == Judged(old(discovered), stale, unattached, statistics, activeTag)
      ensures discovered == results
    {
      results := [];
      for i := 0 to |discovered|
        invariant |discovered| == |old(discovered)| && |results| == i
        invariant forall k | 0 <= k < i ::
          results[k] == discovered[k] == old(discovered)[k].(verdict := Some(Judge(old(discovered)[k], stale, unattached, statistics, activeTag)))
        invariant forall k | i <= k < |discovered| :: discovered[k] == old(discovered)[k]
      {
        var resource := discovered[i];
        resource := resource.(verdict := Some(Judge(resource, stale, unattached, statistics, activeTag)));
        discovered := discovered[i := resource];
        results := results + [resource];
      }
    }

    /** Hands every DELETE resource to `delete_resource`, in order; returns
        their ARNs and the deletion requests made. */
    method Cleanup(resources: seq<Resource>) returns (forwarded: seq<string>, calls: seq<Call>)
      requires Assessed?(resources)
      ensures forwarded == Forwarded(resources)
      ensures calls == DeletionCalls(resources, dryRun)
    {
      forwarded := [];
      calls := [];
      for i := 0 to |resources|
        invariant forwarded == Forwarded(resources[..i])
        invariant calls == DeletionCalls(resources[..i], dryRun)
      {
        assert resources[..i + 1][..i] == resources[..i];
        var res := resources[i];
        if res.verdict.value.relevance == Delete {
          forwarded := forwarded + [res.arn];
          var call := ResourceCall(res, dryRun);
          if call.Some? {
            calls := calls + [call.value];
          }
        }
      }
      assert resources[..|resources|] == resources;
    }
  }
}
