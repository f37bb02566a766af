/** `apply_naming_tags`: give the internet gateways, NAT gateways and route
    tables of the VPC tagged with a given name a standard `Name` tag. */
module NamingTags {
  import opened Wrappers
  import opened Text

  const DeletedState := "deleted"
  const DefaultRoute := "0.0.0.0/0"
  const IgwPrefix := "igw-"

  datatype Route = Route(destination: string, gatewayId: Option<string>)
  datatype RouteTable = RouteTable(id: string, routes: seq<Route>)
  datatype NatGateway = NatGateway(id: string, state: string)

  /** A VPC as the script sees it: its internet gateways, the NAT gateways
      EC2 reports for its id, and its route tables. */
  datatype Vpc = Vpc(id: string, igws: seq<string>, nats: seq<NatGateway>, routeTables: seq<RouteTable>)

  /** One `tag_resource` call: set the `Name` tag of `resource`. */
  datatype Tagging = Tagging(resource: string, name: string)

  /** What `tag_resource` does: a dry run only reports the rename. */
  datatype Event = CreateTags(resource: string, name: string) | WouldRename(resource: string, name: string)

  // ---------------------------------------------------------------------------
  // Names
  // ---------------------------------------------------------------------------

  function IgwName(vpcName: string): string {
    vpcName + "-igw"
  }

  /** The NAT gateways not in state `deleted`, in their listed order. */
  function ActiveNats(nats: seq<NatGateway>): (r: seq<NatGateway>)
    ensures forall n :: n in r <==> n in nats && n.state != DeletedState
    ensures |r| <= |nats|
  {
    if |nats| == 0 then []
    else
      var n := nats[|nats| - 1];
      ActiveNats(nats[..|nats| - 1]) + (if n.state != DeletedState then [n] else [])
  }

  /** The name of NAT gateway `i` of `k`: numbered from 1 only when there are
      several. */
  function NatName(vpcName: string, i: nat, k: nat): string {
    if k > 1 then vpcName + "-nat-" + NatToString(i + 1) else vpcName + "-nat"
  }

  /** Two different NAT gateways of the same VPC never get the same name. */
  lemma NatNamesDistinct(vpcName: string, i: nat, j: nat, k: nat)
    requires i < k && j < k && i != j
    ensures NatName(vpcName, i, k) != NatName(vpcName, j, k)
  {
    var prefix := vpcName + "-nat-";
    if NatName(vpcName, i, k) == NatName(vpcName, j, k) {
      var x := NatName(vpcName, i, k);
      assert x[|prefix|..] == NatToString(i + 1);
      assert x[|prefix|..] == NatToString(j + 1);
      NatToStringInjective(i + 1, j + 1);
    }
  }

  /** A default route through an internet gateway. */
  predicate IsPublicRoute(r: Route) {
    r.destination == DefaultRoute && r.gatewayId.Some? && StartsWith(r.gatewayId.value, IgwPrefix)
  }

  /** A route table is public when some route is a default route through an
      internet gateway. */
  predicate IsPublic(rt: RouteTable) {
    exists i | 0 <= i < |rt.routes| :: IsPublicRoute(rt.routes[i])
  }

  function RouteTableName(vpcName: string, isPublic: bool): string {
    vpcName + "-" + (if isPublic then "public-rt" else "private-rt")
  }

  /** The route-table name tells public from private: `{vpc}-public-rt`
      exactly for a public table. */
  lemma RouteTableNameTells(vpcName: string, isPublic: bool)
    ensures RouteTableName(vpcName, isPublic) == RouteTableName(vpcName, true) <==> isPublic
  {
    if !isPublic {
      assert RouteTableName(vpcName, isPublic)[|vpcName| + 2] == 'r';
      assert RouteTableName(vpcName, true)[|vpcName| + 2] == 'u';
    }
  }

  // ---------------------------------------------------------------------------
  // The naming plan
  // ---------------------------------------------------------------------------

  function IgwPlan(vpcName: string, igws: seq<string>): seq<Tagging> {
    seq(|igws|, i requires 0 <= i < |igws| => Tagging(igws[i], IgwName(vpcName)))
  }

  function NatPlan(vpcName: string, active: seq<NatGateway>): seq<Tagging> {
    seq(|active|, i requires 0 <= i < |active| => Tagging(active[i].id, NatName(vpcName, i, |active|)))
  }

  function RouteTablePlan(vpcName: string, rts: seq<RouteTable>): seq<Tagging> {
    seq(|rts|, i requires 0 <= i < |rts| => Tagging(rts[i].id, RouteTableName(vpcName, IsPublic(rts[i]))))
  }

  /** Internet gateways, then NAT gateways, then route tables. */
  function Plan(vpcName: string, vpc: Vpc): seq<Tagging> {
    IgwPlan(vpcName, vpc.igws) + NatPlan(vpcName, ActiveNats(vpc.nats)) + RouteTablePlan(vpcName, vpc.routeTables)
  }

  /** The plan for the first VPC whose `Name` tag matches; none without one. */
  function NamingPlan(vpcName: string, matches: seq<Vpc>): seq<Tagging> {
    if |matches| == 0 then [] else Plan(vpcName, matches[0])
  }

  /** NAT names: a lone NAT gateway is `{vpc}-nat`, several get pairwise
      distinct names, and only NAT gateways not deleted are named. */
  lemma NatPlanNames(vpcName: string, nats: seq<NatGateway>)
    ensures forall t | t in NatPlan(vpcName, ActiveNats(nats)) ::
      exists n | n in nats :: n.state != DeletedState && n.id == t.resource
    ensures |ActiveNats(nats)| == 1 ==> NatPlan(vpcName, ActiveNats(nats))[0].name == vpcName + "-nat"
    ensures forall i, j | 0 <= i < j < |NatPlan(vpcName, ActiveNats(nats))| ::
      NatPlan(vpcName, ActiveNats(nats))[i].name != NatPlan(vpcName, ActiveNats(nats))[j].name
  {
    var active := ActiveNats(nats);
    var plan := NatPlan(vpcName, active);
    forall t | t in plan ensures exists n | n in nats :: n.state != DeletedState && n.id == t.resource {
      var i :| 0 <= i < |plan| && plan[i] == t;
      assert active[i] in nats;
    }
    forall i, j | 0 <= i < j < |plan| ensures plan[i].name != plan[j].name {
      NatNamesDistinct(vpcName, i, j, |active|);
    }
  }

  /** Each route table is named `{vpc}-public-rt` exactly when it is public,
      and `{vpc}-private-rt` otherwise. */
  lemma RouteTablesNamed(vpcName: string, rts: seq<RouteTable>)
    ensures forall i | 0 <= i < |rts| ::
      RouteTablePlan(vpcName, rts)[i].resource == rts[i].id &&
      (RouteTablePlan(vpcName, rts)[i].name == RouteTableName(vpcName, true) <==> IsPublic(rts[i]))
  {
    forall i | 0 <= i < |rts|
      ensures RouteTablePlan(vpcName, rts)[i].name == RouteTableName(vpcName, true) <==> IsPublic(rts[i])
    {
      RouteTableNameTells(vpcName, IsPublic(rts[i]));
    }
  }

  /** Each internet gateway, active NAT gateway and route table of the VPC is
      named exactly once, in that order, every gateway as `{vpc}-igw`. */
  lemma PlanSections(vpcName: string, vpc: Vpc)
    ensures |Plan(vpcName, vpc)| == |vpc.igws| + |ActiveNats(vpc.nats)| + |vpc.routeTables|
    ensures forall i | 0 <= i < |vpc.igws| :: Plan(vpcName, vpc)[i] == Tagging(vpc.igws[i], IgwName(vpcName))
    ensures forall i | 0 <= i < |ActiveNats(vpc.nats)| ::
      Plan(vpcName, vpc)[|vpc.igws| + i] == NatPlan(vpcName, ActiveNats(vpc.nats))[i]
    ensures forall i | 0 <= i < |vpc.routeTables| ::
      Plan(vpcName, vpc)[|vpc.igws| + |ActiveNats(vpc.nats)| + i] == RouteTablePlan(vpcName, vpc.routeTables)[i]
  {
    var a := IgwPlan(vpcName, vpc.igws);
    var b := NatPlan(vpcName, ActiveNats(vpc.nats));
    var c := RouteTablePlan(vpcName, vpc.routeTables);
    assert Plan(vpcName, vpc) == a + b + c;
  }

  /** One `tag_resource` call per planned tagging. */
  function TagResource(t: Tagging, dryRun: bool): Event {
    if dryRun then WouldRename(t.resource, t.name) else CreateTags(t.resource, t.name)
  }

  function Events(plan: seq<Tagging>, dryRun: bool): seq<Event> {
    seq(|plan|, i requires 0 <= i < |plan| => TagResource(plan[i], dryRun))
  }

  /** Every planned resource gets exactly one event under its planned name,
      and a dry run makes no `create_tags` call. */
  lemma EventsFollowPlan(plan: seq<Tagging>, dryRun: bool)
    ensures |Events(plan, dryRun)| == |plan|
    ensures forall i | 0 <= i < |plan| ::
      Events(plan, dryRun)[i].resource == plan[i].resource && Events(plan, dryRun)[i].name == plan[i].name
    ensures dryRun ==> forall e | e in Events(plan, dryRun) :: e.WouldRename?
    ensures !dryRun ==> forall e | e in Events(plan, dryRun) :: e.CreateTags?
  {
  }

  lemma EventsConcat(a: seq<Tagging>, b: seq<Tagging>, dryRun: bool)
    ensures Events(a + b, dryRun) == Events(a, dryRun) + Events(b, dryRun)
  {
  }

  // ---------------------------------------------------------------------------
  // The run
  // ---------------------------------------------------------------------------

  /** The route scan with its early exit. */
  method ScanRoutes(rt: RouteTable) returns (isPublic: bool)
    ensures isPublic <==> IsPublic(rt)
  {
    isPublic := false;
    for i := 0 to |rt.routes|
      invariant forall j | 0 <= j < i :: !IsPublicRoute(rt.routes[j])
    {
      var route := rt.routes[i];
      if route.destination == DefaultRoute {
        if route.gatewayId.Some? && StartsWith(route.gatewayId.value, IgwPrefix) {
          isPublic := true;
          return;
        }
      }
    }
  }

  /** The NAT gateways left after dropping the deleted ones. */
  method FilterActive(nats: seq<NatGateway>) returns (active: seq<NatGateway>)
    ensures active == ActiveNats(nats)
  {
    active := [];
    for i := 0 to |nats|
      invariant active == ActiveNats(nats[..i])
    {
      assert nats[..i + 1][..i] == nats[..i];
      if nats[i].state != DeletedState {
        active := active + [nats[i]];
      }
    }
    assert nats[..|nats|] == nats;
  }

  method TagInternetGateways(vpcName: string, igws: seq<string>, dryRun: bool) returns (events: seq<Event>)
    ensures events == Events(IgwPlan(vpcName, igws), dryRun)
  {
    events := [];
    for i := 0 to |igws|
      invariant events == Events(IgwPlan(vpcName, igws[..i]), dryRun)
    {
      events := events + [TagResource(Tagging(igws[i], IgwName(vpcName)), dryRun)];
    }
    assert igws[..|igws|] == igws;
  }

  method TagNatGateways(vpcName: string, active: seq<NatGateway>, dryRun: bool) returns (events: seq<Event>)
    ensures events == Events(NatPlan(vpcName, active), dryRun)
  {
    ghost var planned := Events(NatPlan(vpcName, active), dryRun);
    events := [];
    for i := 0 to |active|
      invariant events == planned[..i]
    {
      var name: string;
      if |active| > 1 {
        name := vpcName + "-nat-" + NatToString(i + 1);
      } else {
        name := vpcName + "-nat";
      }
      assert name == NatName(vpcName, i, |active|);
      assert planned[i] == TagResource(Tagging(active[i].id, name), dryRun);
      assert planned[..i + 1] == planned[..i] + [planned[i]];
      events := events + [TagResource(Tagging(active[i].id, name), dryRun)];
    }
    assert planned[..|active|] == planned;
  }

  method TagRouteTables(vpcName: string, rts: seq<RouteTable>, dryRun: bool) returns (events: seq<Event>)
    ensures events == Events(RouteTablePlan(vpcName, rts), dryRun)
  {
    events := [];
    for i := 0 to |rts|
      invariant |events| == i
      invariant forall j | 0 <= j < i :: events[j] == Events(RouteTablePlan(vpcName, rts), dryRun)[j]
    {
      var isPublic := ScanRoutes(rts[i]);
      var suffix := if isPublic then "public-rt" else "private-rt";
      events := events + [TagResource(Tagging(rts[i].id, vpcName + "-" + suffix), dryRun)];
    }
  }

  /** `apply_naming_tags` given the VPCs whose `Name` tag is `vpcName`: one
      event per resource of the first of them, none when there is none. */
  method ApplyNamingTags(vpcName: string, matches: seq<Vpc>, dryRun: bool) returns (events: seq<Event>)
    ensures events == Events(NamingPlan(vpcName, matches), dryRun)
  {
    if |matches| == 0 {
      return [];
    }
    var vpc := matches[0];
    var igwEvents := TagInternetGateways(vpcName, vpc.igws, dryRun);
    var active := FilterActive(vpc.nats);
    var natEvents := TagNatGateways(vpcName, active, dryRun);
    var rtEvents := TagRouteTables(vpcName, vpc.routeTables, dryRun);
    var igwPlan := IgwPlan(vpcName, vpc.igws);
    var natPlan := NatPlan(vpcName, active);
    var rtPlan := RouteTablePlan(vpcName, vpc.routeTables);
    EventsConcat(igwPlan, natPlan, dryRun);
    EventsConcat(igwPlan + natPlan, rtPlan, dryRun);
    events := igwEvents + natEvents + rtEvents;
  }
}
