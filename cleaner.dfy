/** The pure decisions of the report-driven deletion executor
    (`aws-services-cleaner.py`): the deletion-priority table, identifier
    normalisation, the "deleted" marker, the parser of report rows, the mapping
    from a failed call to a result, and the "first listed ARN containing the
    fragment" lookups. The loop that drives them is in module `CleanerRun`. */
module Cleaner {
  import opened Wrappers
  import opened Text

  // ---------------------------------------------------------------------------
  // Deletion order
  // ---------------------------------------------------------------------------

  /** Priority of anything the table does not list: last. */
  const DefaultPriority: nat := 999

  /** `DELETION_ORDER`: lower numbers are deleted earlier. */
  const DeletionOrder: map<string, nat> := map[
    // application layer
    "apprunner:service" := 10,
    "apprunner:autoscalingconfiguration" := 11,
    "lambda:function" := 12,
    "ecs:service" := 15,
    "ecs:task-definition" := 16,
    "ec2:security-group-rule" := 18,
    // load balancing
    "elasticloadbalancing:listener" := 20,
    "elasticloadbalancing:loadbalancer" := 25,
    "elasticloadbalancing:targetgroup" := 30,
    // compute and containers
    "ec2:instance" := 35,
    "ecs:cluster" := 40,
    // devops
    "codepipeline:pipeline" := 45,
    "codebuild:project" := 50,
    "codestar-connections:connection" := 55,
    // storage and databases
    "rds:db-instance" := 60,
    "dynamodb:table" := 61,
    // active network assets
    "ec2:natgateway" := 70,
    "ec2:elastic-ip" := 75,
    // security and network
    "ec2:security-group" := 80,
    "ec2:network-acl" := 85,
    "ec2:subnet" := 90,
    "ec2:route-table" := 95,
    "ec2:internet-gateway" := 100,
    "ec2:vpc" := 110,
    // artifacts, last
    "ecr:repository" := 120,
    "s3:bucket" := 130,
    "logs:log-group" := 140,
    "resource-groups:group" := 150,
    "payments:payment-instrument" := 999
  ]

  function Key(service: string, rtype: string): string {
    service + ":" + rtype
  }

  /** `DELETION_ORDER.get(f"{service}:{type}", DELETION_ORDER.get(service, 999))`. */
  function Priority(service: string, rtype: string): (p: nat)
    ensures p <= DefaultPriority
  {
    if Key(service, rtype) in DeletionOrder then DeletionOrder[Key(service, rtype)]
    else if service in DeletionOrder then DeletionOrder[service]
    else DefaultPriority
  }

  /** A listed `service:type` gets its table value. */
  lemma PriorityListed(service: string, rtype: string)
    requires Key(service, rtype) in DeletionOrder
    ensures Priority(service, rtype) == DeletionOrder[Key(service, rtype)]
  {
  }

  /** For a service name without a colon, as every service read from an ARN
      is, a row goes before the unlisted ones exactly when its `service:type`
      is a key of the table other than the payment instrument's. */
  lemma PriorityBeforeUnlisted(service: string, rtype: string)
    requires ':' !in service
    ensures Priority(service, rtype) < DefaultPriority <==>
      Key(service, rtype) in DeletionOrder && Key(service, rtype) != "payments:payment-instrument"
  {
    if Key(service, rtype) !in DeletionOrder {
      PriorityUnlisted(service, rtype);
    }
  }

  /** Every key of the table has a colon, so a service name without one never
      matches on its own: an unlisted `service:type` is last. */
  lemma PriorityUnlisted(service: string, rtype: string)
    requires Key(service, rtype) !in DeletionOrder && ':' !in service
    ensures Priority(service, rtype) == DefaultPriority
  {
    UnlistedWithoutColon(service);
  }

  lemma UnlistedWithoutColon(k: string)
    requires ':' !in k
    ensures k !in DeletionOrder
  {
    // where the colon of each key sits
    assert "apprunner:service"[9] == ':';
    assert "apprunner:autoscalingconfiguration"[9] == ':';
    assert "lambda:function"[6] == ':';
    assert "ecs:service"[3] == ':';
    assert "ecs:task-definition"[3] == ':';
    assert "ec2:security-group-rule"[3] == ':';
    assert "elasticloadbalancing:listener"[20] == ':';
    assert "elasticloadbalancing:loadbalancer"[20] == ':';
    assert "elasticloadbalancing:targetgroup"[20] == ':';
    assert "ec2:instance"[3] == ':';
    assert "ecs:cluster"[3] == ':';
    assert "codepipeline:pipeline"[12] == ':';
    assert "codebuild:project"[9] == ':';
    assert "codestar-connections:connection"[20] == ':';
    assert "rds:db-instance"[3] == ':';
    assert "dynamodb:table"[8] == ':';
    assert "ec2:natgateway"[3] == ':';
    assert "ec2:elastic-ip"[3] == ':';
    assert "ec2:security-group"[3] == ':';
    assert "ec2:network-acl"[3] == ':';
    assert "ec2:subnet"[3] == ':';
    assert "ec2:route-table"[3] == ':';
    assert "ec2:internet-gateway"[3] == ':';
    assert "ec2:vpc"[3] == ':';
    assert "ecr:repository"[3] == ':';
    assert "s3:bucket"[2] == ':';
    assert "logs:log-group"[4] == ':';
    assert "resource-groups:group"[15] == ':';
    assert "payments:payment-instrument"[8] == ':';
  }

  /** The network teardown order: NAT gateways, then Elastic IPs, security
      groups, network ACLs, subnets, route tables, internet gateways, VPCs. */
  lemma NetworkChain()
    ensures Priority("ec2", "natgateway") < Priority("ec2", "elastic-ip")
              < Priority("ec2", "security-group") < Priority("ec2", "network-acl")
              < Priority("ec2", "subnet") < Priority("ec2", "route-table")
              < Priority("ec2", "internet-gateway") < Priority("ec2", "vpc")
  {
    NatEipPriorities();
    FirewallPriorities();
    SubnetPriorities();
    GatewayVpcPriorities();
  }

  /** The NAT gateway and Elastic IP entries. */
  lemma NatEipPriorities()
    ensures Priority("ec2", "natgateway") == 70 && Priority("ec2", "elastic-ip") == 75
  {
    assert Key("ec2", "natgateway") == "ec2:natgateway";
    assert Key("ec2", "elastic-ip") == "ec2:elastic-ip";
  }

  /** The security group and network ACL entries. */
  lemma FirewallPriorities()
    ensures Priority("ec2", "security-group") == 80 && Priority("ec2", "network-acl") == 85
  {
    assert Key("ec2", "security-group") == "ec2:security-group";
    assert Key("ec2", "network-acl") == "ec2:network-acl";
  }

  /** The subnet and route table entries. */
  lemma SubnetPriorities()
    ensures Priority("ec2", "subnet") == 90 && Priority("ec2", "route-table") == 95
  {
    assert Key("ec2", "subnet") == "ec2:subnet";
    assert Key("ec2", "route-table") == "ec2:route-table";
  }

  /** The internet gateway and VPC entries. */
  lemma GatewayVpcPriorities()
    ensures Priority("ec2", "internet-gateway") == 100 && Priority("ec2", "vpc") == 110
  {
    assert Key("ec2", "internet-gateway") == "ec2:internet-gateway";
    assert Key("ec2", "vpc") == "ec2:vpc";
  }

  // ---------------------------------------------------------------------------
  // clean_resource_id
  // ---------------------------------------------------------------------------

  /** The services and types whose `prefix/id` identifiers are cut to `id`. */
  predicate TakesLastSegment(service: string, rtype: string) {
    service == "ec2" || (service == "ecs" && rtype in ["cluster", "task-definition"])
  }

  /** `clean_resource_id`: "vpc/vpc-123" becomes "vpc-123" for EC2 and for ECS
      clusters and task definitions; ARNs and everything else are kept. */
  function CleanResourceId(service: string, rtype: string, rawId: string): string {
    if '/' in rawId && !StartsWith(rawId, "arn:") then
      if service == "ec2" then LastSegment(rawId, "/")
      else if service == "ecs" && rtype in ["cluster", "task-definition"] then LastSegment(rawId, "/")
      else if service == "elasticloadbalancing" && rtype in ["loadbalancer", "targetgroup"] then rawId
      else rawId
    else rawId
  }

  /** The identifier is left alone exactly when it has no slash, is an ARN, or
      belongs to a service that keeps its prefix. */
  lemma CleanResourceIdKeeps(service: string, rtype: string, rawId: string)
    ensures CleanResourceId(service, rtype, rawId) == rawId
        <==> ('/' !in rawId || StartsWith(rawId, "arn:") || !TakesLastSegment(service, rtype))
  {
    if '/' in rawId && !StartsWith(rawId, "arn:") && TakesLastSegment(service, rtype) {
      LastSegmentLacksSep(rawId, '/');
    }
  }

  /** Otherwise it becomes the last slash-separated segment, which has no slash. */
  lemma CleanResourceIdCuts(service: string, rtype: string, rawId: string)
    requires '/' in rawId && !StartsWith(rawId, "arn:") && TakesLastSegment(service, rtype)
    ensures CleanResourceId(service, rtype, rawId) == LastSegment(rawId, "/")
    ensures '/' !in CleanResourceId(service, rtype, rawId)
  {
    LastSegmentLacksSep(rawId, '/');
  }

  lemma CleanResourceIdIdempotent(service: string, rtype: string, rawId: string)
    ensures CleanResourceId(service, rtype, CleanResourceId(service, rtype, rawId))
         == CleanResourceId(service, rtype, rawId)
  {
    if '/' in rawId && !StartsWith(rawId, "arn:") && TakesLastSegment(service, rtype) {
      CleanResourceIdCuts(service, rtype, rawId);
    }
  }

  // ---------------------------------------------------------------------------
  // The "deleted" marker
  // ---------------------------------------------------------------------------

  const Open: string := "<span style=\"color:red\">"
  const Close: string := "</span>"

  /** `mark_as_deleted`: wraps a cell in a red span unless it already has one. */
  function MarkAsDeleted(text: string): string {
    if Contains(text, Open) then text else Open + text + Close
  }

  /** What the parser does to a cell: drop every marker, then strip. */
  function CleanCell(cell: string): string {
    Strip(RemoveAll(RemoveAll(cell, Open), Close))
  }

  lemma MarkedHasOpen(text: string)
    ensures Contains(MarkAsDeleted(text), Open)
  {
    if !Contains(text, Open) {
      ContainsPrefix(Open, text + Close);
      assert Open + text + Close == Open + (text + Close);
    }
  }

  lemma MarkIdempotent(text: string)
    ensures MarkAsDeleted(MarkAsDeleted(text)) == MarkAsDeleted(text)
  {
    MarkedHasOpen(text);
  }

  /** Both markers run from `<` to `>`, with no other `<`. */
  lemma MarkerEnds()
    ensures |Close| < |Open|
    ensures Open[0] == '<' && Close[0] == '<' && Open[|Open| - 1] == '>' && Close[|Close| - 1] == '>'
    ensures forall i | 0 < i < |Open| :: Open[i] != '<'
    ensures forall i | 0 < i < |Close| :: Close[i] != '<'
  {
  }

  /** Neither marker holds a `|`, so marking keeps the table's cells apart. */
  lemma MarkersLackBar()
    ensures '|' !in Open && '|' !in Close
  {
  }

  lemma MarkersLower()
    ensures IsLower(Open) && IsLower(Close)
  {
  }

  /** Removing the markers from a wrapped cell removes the wrapping. */
  lemma UnwrapMarkers(x: string)
    ensures RemoveAll(RemoveAll(Open + x + Close, Open), Close)
         == RemoveAll(RemoveAll(x, Open), Close)
  {
    MarkerEnds();
    assert Open + x + Close == Open + (x + Close);
    NoStraddleByTail(Open, x + Close, Open);
    ReplaceConcat(Open, x + Close, Open, "");
    ReplaceWhole(Open, "");
    NoStraddleByHead(x, Close, Open);
    ReplaceConcat(x, Close, Open, "");
    ReplaceAbsentShort(Close, Open, "");
    var y := RemoveAll(x, Open);
    NoStraddleByHead(y, Close, Close);
    ReplaceConcat(y, Close, Close, "");
    ReplaceWhole(Close, "");
    assert RemoveAll(Open + x + Close, Open) == RemoveAll(x, Open) + Close;
    assert RemoveAll(y + Close, Close) == RemoveAll(y, Close);
  }

  /** The parser reads a marked cell as it read the unmarked one, so a row
      marked deleted keeps its identifier, service and type. */
  lemma CleanCellOfMark(text: string)
    ensures CleanCell(MarkAsDeleted(text)) == CleanCell(text)
  {
    if !Contains(text, Open) {
      UnwrapMarkers(text);
    }
  }

  /** For a cell holding neither marker, removing the markers gives the cell back. */
  lemma UnmarkMark(text: string)
    requires !Contains(text, Open) && !Contains(text, Close)
    ensures RemoveAll(RemoveAll(MarkAsDeleted(text), Open), Close) == text
  {
    UnwrapMarkers(text);
    ReplaceAbsent(text, Open, "");
    ReplaceAbsent(text, Close, "");
  }

  /** Marking adds no `|` and keeps the cell stripped. */
  lemma MarkKeepsCell(text: string)
    requires '|' !in text && IsStripped(text)
    ensures '|' !in MarkAsDeleted(text) && IsStripped(MarkAsDeleted(text))
  {
    MarkerEnds();
    MarkersLackBar();
    if !Contains(text, Open) {
      var m := Open + text + Close;
      assert m[0] == '<' && m[|m| - 1] == '>';
    }
  }

  /** A pattern that can start in neither marker's interior and end in no part
      of the closing marker is found in a marked cell only if it is in the cell. */
  lemma MarkAddsNoMatch(text: string, p: string)
    requires |p| > 0 && p[0] !in Open && p[|p| - 1] !in Close
    ensures Contains(MarkAsDeleted(text), p) ==> Contains(text, p)
  {
    if !Contains(text, Open) && Contains(MarkAsDeleted(text), p) {
      ContainsInMiddle(Open, text, Close, p);
    }
  }

  /** The service and type cells are lower-cased and stripped before their
      markers are removed; marking still changes nothing in what is read. */
  lemma CleanLowerOfMark(text: string)
    requires IsStripped(text)
    ensures CleanCell(Strip(Lower(MarkAsDeleted(text)))) == CleanCell(Strip(Lower(text)))
  {
    LowerKeepsStripped(text);
    StrippedFixed(Lower(text));
    if !Contains(text, Open) {
      MarkerEnds();
      MarkersLower();
      LowerConcat(Open + text, Close);
      LowerConcat(Open, text);
      LowerOfLower(Open);
      LowerOfLower(Close);
      var m := Open + Lower(text) + Close;
      assert Lower(MarkAsDeleted(text)) == m;
      assert m[0] == '<' && m[|m| - 1] == '>';
      StrippedFixed(m);
      UnwrapMarkers(Lower(text));
    }
  }

  // ---------------------------------------------------------------------------
  // resolve_identifier
  // ---------------------------------------------------------------------------

  const NamePrefix: string := "Name: "

  /** `next((a for a in items if fragment in a), None)`: the first listed item
      containing the fragment. */
  function FirstContaining(items: seq<string>, fragment: string): (r: Option<string>)
    ensures r.None? <==> forall i | 0 <= i < |items| :: !Contains(items[i], fragment)
    ensures r.Some? ==> exists i | 0 <= i < |items| ::
      items[i] == r.value && Contains(r.value, fragment)
      && forall j | 0 <= j < i :: !Contains(items[j], fragment)
  {
    if |items| == 0 then None
    else if Contains(items[0], fragment) then Some(items[0])
    else
      var r := FirstContaining(items[1..], fragment);
      assert r.Some? ==> exists i | 0 <= i < |items| ::
        items[i] == r.value && Contains(r.value, fragment)
        && forall j | 0 <= j < i :: !Contains(items[j], fragment) by {
        if r.Some? {
          var i :| 0 <= i < |items[1..]| && items[1..][i] == r.value && Contains(r.value, fragment)
            && forall j | 0 <= j < i :: !Contains(items[1..][j], fragment);
          assert items[i + 1] == r.value;
          forall j | 0 <= j < i + 1 ensures !Contains(items[j], fragment) {
            if j > 0 { assert items[j] == items[1..][j - 1]; }
          }
        }
      }
      assert r.None? ==> forall i | 0 <= i < |items| :: !Contains(items[i], fragment) by {
        if r.None? {
          forall i | 0 <= i < |items| ensures !Contains(items[i], fragment) {
            if i > 0 { assert items[i] == items[1..][i - 1]; }
          }
        }
      }
      r
  }

  /** The value of the `Name` tag in a report's tag cell: backticks dropped,
      `<br>` read as a line break, and the text after the first "Name: " of
      the first line holding one, stripped. */
  function NameFromTags(tags: string): Option<string> {
    var clean := RemoveAll(tags, "`");
    if !Contains(clean, NamePrefix) then None
    else
      match FirstContaining(SplitOn(ReplaceAll(clean, "<br>", "\n"), "\n"), NamePrefix)
      case None => None
      case Some(line) =>
        SplitOnContains(line, NamePrefix);
        Some(Strip(SplitOn(line, NamePrefix)[1]))
  }

  /** `resolve_identifier`: the identifier without its backticks, except that a
      log group listed under a generic identifier is named by its `Name` tag. */
  function ResolveIdentifier(idRaw: string, service: string, tags: string): string {
    var rid := StripBackticks(idRaw);
    if service == "logs" && Contains(rid, "log-group") then
      match NameFromTags(tags)
      case Some(name) => name
      case None => rid
    else rid
  }

  /** Every identifier except such a log group is only stripped of backticks:
      it is the report cell with the backticks around it cut off, and it
      neither starts nor ends with one. */
  lemma ResolveStripsBackticks(idRaw: string, service: string, tags: string) returns (lo: nat, hi: nat)
    requires service != "logs" || !Contains(StripBackticks(idRaw), "log-group") || NameFromTags(tags).None?
    ensures var r := ResolveIdentifier(idRaw, service, tags);
      && lo <= hi <= |idRaw| && r == idRaw[lo..hi]
      && (forall i | 0 <= i < lo || hi <= i < |idRaw| :: idRaw[i] == '`')
      && (r == [] || (r[0] != '`' && r[|r| - 1] != '`'))
  {
    lo, hi := StripBackticksCut(idRaw);
  }

  /** The tag cell the report writer emits for a `Name` tag, "`Name: v`", is
      read back as `v` (stripped). */
  lemma NameFromWrittenTag(v: string)
    requires '`' !in v && '\n' !in v && !Contains(v, "<br>") && !Contains(v, NamePrefix)
    ensures NameFromTags("`" + NamePrefix + v + "`") == Some(Strip(v))
  {
    assert '`' !in NamePrefix + v;
    RemoveAroundChar('`', NamePrefix + v);
    var clean := NamePrefix + v;
    assert "`" + NamePrefix + v + "`" == ['`'] + clean + ['`'];
    ContainsPrefix(NamePrefix, v);
    assert !Contains(clean, "<br>") by {
      if Contains(clean, "<br>") {
        assert clean == NamePrefix + v + "";
        ContainsInMiddle(NamePrefix, v, "", "<br>");
      }
    }
    ReplaceAbsent(clean, "<br>", "\n");
    SplitWithoutSep(clean, '\n');
    assert FirstContaining([clean], NamePrefix) == Some(clean);
    assert clean == NamePrefix + v;
    assert StartsWith(clean, NamePrefix);
    assert clean[|NamePrefix|..] == v;
    SplitOnAbsent(v, NamePrefix);
  }

  /** A tag cell without a colon names nothing; in particular the cell the
      report writer emits for a resource without a `Name` tag. */
  lemma NoNameWithoutColon(tags: string)
    requires ':' !in tags
    ensures NameFromTags(tags) == None
  {
    var clean := RemoveAll(tags, "`");
    ReplaceLacks(tags, "`", "", ':');
    if Contains(clean, NamePrefix) {
      ContainsCharOf(clean, NamePrefix, ':');
    }
  }

  // ---------------------------------------------------------------------------
  // Report rows
  // ---------------------------------------------------------------------------

  /** One resource row of the report, as `main` collects it. */
  datatype Row = Row(
    index: nat,            // line number in the report
    parts: seq<string>,    // the stripped cells, including the empty outer ones
    idRaw: string,         // identifier cell, markers removed
    service: string,       // service cell, lower-cased, markers removed
    rtype: string,         // type cell, lower-cased, markers removed
    priority: nat,
    tags: string)

  /** `[p.strip() for p in line.strip().split('|')]`. */
  function Cells(line: string): seq<string> {
    StripAll(SplitOn(Strip(line), "|"))
  }

  /** The row a report line stands for, if any: the line must be a table row
      of at least five cells that is neither the header nor the separator. */
  function ParseLine(line: string, index: nat): (r: Option<Row>)
    ensures r.Some? ==> r.value.index == index && |r.value.parts| >= 5 && r.value.parts == Cells(line)
    ensures r.Some? ==> StartsWith(Strip(line), "|")
    ensures r.Some? ==> !Contains(r.value.parts[1], "Identifier") && !Contains(r.value.parts[1], "---")
    ensures r.Some? ==> r.value.priority == Priority(r.value.service, r.value.rtype)
  {
    var stripped := Strip(line);
    if !StartsWith(stripped, "|") then None
    else
      var parts := StripAll(SplitOn(stripped, "|"));
      if |parts| < 5 then None
      else if Contains(parts[1], "Identifier") || Contains(parts[1], "---") then None
      else
        var service := CleanCell(Strip(Lower(parts[2])));
        var rtype := CleanCell(Strip(Lower(parts[3])));
        Some(Row(index, parts, CleanCell(parts[1]), service, rtype, Priority(service, rtype),
                 if |parts| > 5 then parts[5] else ""))
  }

  /** The row a table line with the given cells stands for. */
  lemma ParseCells(line: string, index: nat, cs: seq<string>)
    requires StartsWith(Strip(line), "|") && Cells(line) == cs && |cs| >= 5
    requires !Contains(cs[1], "Identifier") && !Contains(cs[1], "---")
    ensures var service := CleanCell(Strip(Lower(cs[2])));
      var rtype := CleanCell(Strip(Lower(cs[3])));
      ParseLine(line, index) == Some(Row(index, cs, CleanCell(cs[1]), service, rtype,
                                         Priority(service, rtype), if |cs| > 5 then cs[5] else ""))
  {
  }

  /** Reading a cell brings in no character the cell lacks. */
  lemma CleanCellLacks(cell: string, c: char)
    requires c !in cell
    ensures c !in CleanCell(cell)
  {
    ReplaceLacks(cell, Open, "", c);
    ReplaceLacks(RemoveAll(cell, Open), Close, "", c);
    StripLacks(RemoveAll(RemoveAll(cell, Open), Close), c);
  }

  /** Lower-casing brings in no `|` and leaves no upper-case letter. */
  lemma LowerLacks(s: string)
    ensures '|' in s <== '|' in Lower(s)
    ensures forall c | 'A' <= c <= 'Z' :: c !in Lower(s)
  {
    var l := Lower(s);
    forall i | 0 <= i < |l| ensures l[i] == '|' ==> s[i] == '|' {
    }
  }

  /** A service or type cell as read: stripped, without `|`, and lower-case. */
  lemma ReadLowerCell(cell: string)
    requires '|' !in cell
    ensures var f := CleanCell(Strip(Lower(cell)));
      IsLower(f) && IsStripped(f) && '|' !in f
  {
    var low := Strip(Lower(cell));
    var f := CleanCell(low);
    LowerLacks(cell);
    StripLacks(Lower(cell), '|');
    CleanCellLacks(low, '|');
    forall c | 'A' <= c <= 'Z' ensures c !in f {
      StripLacks(Lower(cell), c);
      CleanCellLacks(low, c);
    }
    forall i | 0 <= i < |f| ensures !('A' <= f[i] <= 'Z') {
      assert f[i] in f;
    }
    var v, v' := StripShape(RemoveAll(RemoveAll(low, Open), Close));
  }

  /** The identifier, service and type a row carries are stripped and hold no
      `|`, and the service and type hold no upper-case letter, so that the
      deletion-order lookup is blind to the case in the report. */
  lemma ParsedFields(line: string, index: nat)
    requires ParseLine(line, index).Some?
    ensures var r := ParseLine(line, index).value;
      IsLower(r.service) && IsLower(r.rtype) &&
      IsStripped(r.idRaw) && IsStripped(r.service) && IsStripped(r.rtype) &&
      '|' !in r.idRaw && '|' !in r.service && '|' !in r.rtype
  {
    var r := ParseLine(line, index).value;
    var parts := r.parts;
    CellsShape(line);
    assert '|' !in parts[1] && '|' !in parts[2] && '|' !in parts[3];
    CleanCellLacks(parts[1], '|');
    var w, w' := StripShape(RemoveAll(RemoveAll(parts[1], Open), Close));
    ReadLowerCell(parts[2]);
    ReadLowerCell(parts[3]);
  }

  /** Cells 1 to 3 (identifier, service, type) marked deleted. */
  function MarkCells(parts: seq<string>): (r: seq<string>)
    requires |parts| >= 4
    ensures |r| == |parts| && r[0] == parts[0]
    ensures forall k | 1 <= k <= 3 :: r[k] == MarkAsDeleted(parts[k])
    ensures forall k | 4 <= k < |parts| :: r[k] == parts[k]
  {
    parts[1 := MarkAsDeleted(parts[1])][2 := MarkAsDeleted(parts[2])][3 := MarkAsDeleted(parts[3])]
  }

  /** `" | ".join(cols)` once the cells are marked. */
  function MarkedLine(row: Row): string
    requires |row.parts| >= 4
  {
    Join(MarkCells(row.parts), " | ")
  }

  /** The cells of a parsed line are stripped, hold no `|`, and the first is empty. */
  lemma CellsShape(line: string)
    requires StartsWith(Strip(line), "|")
    ensures |Cells(line)| >= 1 && Cells(line)[0] == ""
    ensures forall k | 0 <= k < |Cells(line)| :: '|' !in Cells(line)[k] && IsStripped(Cells(line)[k])
  {
    var stripped := Strip(line);
    var pieces := SplitOn(stripped, "|");
    assert stripped[..1] == "|";
    assert pieces == [""] + SplitOn(stripped[1..], "|");
    SplitPiecesLackSep(stripped, '|');
    forall k | 0 <= k < |pieces| ensures '|' !in Strip(pieces[k]) && IsStripped(Strip(pieces[k])) {
      StripLacks(pieces[k], '|');
      var w, w' := StripShape(pieces[k]);
    }
  }

  /** A row whose first cell is empty is written as " | " followed by the rest. */
  lemma RowLineShape(cols: seq<string>)
    requires |cols| >= 2 && cols[0] == ""
    ensures Join(cols, " | ") == " " + ("| " + Join(cols[1..], " | "))
  {
    var rest := Join(cols[1..], " | ");
    assert Join(cols, " | ") == cols[0] + " | " + rest;
    assert cols[0] + " | " == " | ";
    assert " | " + rest == " " + ("| " + rest);
  }

  /** Stripped cells without a bar, the first of them empty, joined with
      " | " form a table row whose cells are those cells. */
  lemma JoinedCells(cols: seq<string>)
    requires |cols| >= 2 && cols[0] == ""
    requires forall k | 0 <= k < |cols| :: '|' !in cols[k] && IsStripped(cols[k])
    ensures StartsWith(Strip(Join(cols, " | ")), "|") && Cells(Join(cols, " | ")) == cols
  {
    var sep := [' ', '|', ' '];
    assert " | " == sep && "|" == ['|'];
    var l := Join(cols, sep);
    assert StartsWith(Strip(l), "|") by {
      RowLineShape(cols);
      StripAfterBlank("| " + Join(cols[1..], " | "));
    }
    assert Cells(l) == cols by {
      SplitIgnoresOuterSpace(l, '|');
      SplitJoinSpaced(cols, '|');
    }
  }

  /** The marked line is still a table row, and its cells are the marked cells. */
  lemma MarkedLineCells(line: string, index: nat)
    requires ParseLine(line, index).Some?
    ensures var row := ParseLine(line, index).value;
      StartsWith(Strip(MarkedLine(row)), "|") && Cells(MarkedLine(row)) == MarkCells(row.parts)
  {
    var parts := ParseLine(line, index).value.parts;
    CellsShape(line);
    var cols := MarkCells(parts);
    forall k | 0 <= k < |cols| ensures '|' !in cols[k] && IsStripped(cols[k]) {
      if 1 <= k <= 3 { MarkKeepsCell(parts[k]); }
    }
    JoinedCells(cols);
  }

  /** Marking an identifier cell does not make it look like the header or the
      separator. */
  lemma MarkedNotHeader(cell: string)
    ensures Contains(MarkAsDeleted(cell), "Identifier") ==> Contains(cell, "Identifier")
    ensures Contains(MarkAsDeleted(cell), "---") ==> Contains(cell, "---")
  {
    assert 'I' !in Open && '-' !in Open;
    assert 'r' !in Close && '-' !in Close;
    MarkAddsNoMatch(cell, "Identifier");
    MarkAddsNoMatch(cell, "---");
  }

  /** A marked row read back gives the same identifier, service, type,
      priority and tags: a row already marked deleted is read, and deleted,
      again. */
  lemma ReparseMarked(line: string, index: nat)
    requires ParseLine(line, index).Some?
    ensures var row := ParseLine(line, index).value;
      ParseLine(MarkedLine(row), index) == Some(row.(parts := MarkCells(row.parts)))
  {
    var parts := ParseLine(line, index).value.parts;
    CellsShape(line);
    MarkedLineCells(line, index);
    MarkedNotHeader(parts[1]);
    CleanCellOfMark(parts[1]);
    CleanLowerOfMark(parts[2]);
    CleanLowerOfMark(parts[3]);
  }

  // ---------------------------------------------------------------------------
  // delete_resource: results of failed calls and ARN lookups
  // ---------------------------------------------------------------------------

  /** How a deletion call can fail. */
  datatype Failure =
    | ClientError(code: string, message: string)
    | OtherError

  /** The result `delete_resource` returns when a call raises. */
  function FailureResult(e: Failure): bool {
    match e
    case OtherError => false
    case ClientError(code, message) =>
      if Contains(code, "NotFound") || Contains(code, "DependencyViolation") then false
      else if Contains(code, "CannotDelete") && Contains(message, "default") then true
      else if Contains(code, "InvalidParameterValue") && Contains(message, "default") then true
      else false
  }

  /** A failure counts as done exactly when it is a client error that is not
      "not found" or a dependency violation, and says a default resource
      cannot be deleted or is an invalid parameter. A resource that is
      already gone therefore counts as failed. */
  lemma FailureResultTrueIff(e: Failure)
    ensures FailureResult(e) <==>
      e.ClientError?
      && !Contains(e.code, "NotFound") && !Contains(e.code, "DependencyViolation")
      && (Contains(e.code, "CannotDelete") || Contains(e.code, "InvalidParameterValue"))
      && Contains(e.message, "default")
  {
  }

  /** The resources whose deletion needs an ARN found by listing. */
  datatype Lookup = Connection | TargetGroup | LoadBalancer | AutoScalingConfiguration

  /** What a lookup leads to: a deletion call on an ARN, or a result with no call. */
  datatype LookupPlan = DeleteArn(arn: string) | Finish(result: bool)

  /** The ARN `delete_resource` resolves for `id`: `id` itself when it is an ARN
      (not checked for auto-scaling configurations), otherwise the first listed
      ARN containing it. Connections that resolve to nothing fail; the other
      kinds then finish as deleted without any call. */
  function PlanLookup(kind: Lookup, id: string, listed: seq<string>): LookupPlan {
    var arn :=
      if kind != AutoScalingConfiguration && StartsWith(id, "arn:") then Some(id)
      else FirstContaining(listed, id);
    match arn
    case Some(a) => DeleteArn(a)
    case None => Finish(kind != Connection)
  }

  lemma PlanLookupResolved(kind: Lookup, id: string, listed: seq<string>)
    ensures PlanLookup(kind, id, listed).DeleteArn? <==>
      ((kind != AutoScalingConfiguration && StartsWith(id, "arn:"))
       || exists i | 0 <= i < |listed| :: Contains(listed[i], id))
    ensures PlanLookup(kind, id, listed).DeleteArn? && !StartsWith(id, "arn:") ==>
      exists i | 0 <= i < |listed| :: listed[i] == PlanLookup(kind, id, listed).arn
        && Contains(listed[i], id) && forall j | 0 <= j < i :: !Contains(listed[j], id)
  {
  }

  /** When no call is made: a connection fails exactly when its identifier is
      no ARN and no listed ARN contains it; a target group, load balancer or
      auto-scaling configuration counts as deleted exactly when nothing listed
      contains its identifier and that identifier is not taken as an ARN. */
  lemma PlanLookupUnresolved(kind: Lookup, id: string, listed: seq<string>)
    ensures PlanLookup(kind, id, listed) == Finish(false) <==>
      kind == Connection && !StartsWith(id, "arn:") && forall i | 0 <= i < |listed| :: !Contains(listed[i], id)
    ensures PlanLookup(kind, id, listed) == Finish(true) <==>
      && kind != Connection
      && (kind == AutoScalingConfiguration || !StartsWith(id, "arn:"))
      && forall i | 0 <= i < |listed| :: !Contains(listed[i], id)
  {
    PlanLookupResolved(kind, id, listed);
  }
}
