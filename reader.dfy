/** The discovery ledger and report writer of `aws-services-reader.py`:
    `AWSServiceReader` collects the resources its scans find, without payment
    instruments and without two entries for one ARN, and writes them as a
    Markdown table sorted by service and identifier. That table is what the
    cleaner reads. */
module Reader {
  import opened Wrappers
  import opened Text
  import opened Sorting
  import opened Cleaner

  /** One discovered resource; `tags` maps tag keys to values. */
  datatype Resource = Resource(
    identifier: string,
    arn: string,
    service: string,
    rtype: string,
    region: string,
    tags: map<string, string>)

  // ---------------------------------------------------------------------------
  // add_resource
  // ---------------------------------------------------------------------------

  predicate HasArn(rs: seq<Resource>, arn: string) {
    exists i | 0 <= i < |rs| :: rs[i].arn == arn
  }

  /** What the ledger promises: no payment instrument and no ARN twice. */
  predicate Ledger(rs: seq<Resource>) {
    && (forall i | 0 <= i < |rs| :: rs[i].service != "payments")
    && (forall i, j | 0 <= i < j < |rs| :: rs[i].arn != rs[j].arn)
  }

  /** `add_resource` on the list of discovered resources. */
  function Added(rs: seq<Resource>, region: string, identifier: string, arn: string,
                 service: string, rtype: string, tags: Option<map<string, string>>): seq<Resource>
  {
    if service == "payments" || HasArn(rs, arn) then rs
    else rs + [Resource(identifier, arn, service, rtype, region, if tags.Some? then tags.value else map[])]
  }

  /** Adding keeps the ledger free of payment instruments and duplicate ARNs. */
  lemma AddedKeepsLedger(rs: seq<Resource>, region: string, identifier: string, arn: string,
                         service: string, rtype: string, tags: Option<map<string, string>>)
    requires Ledger(rs)
    ensures Ledger(Added(rs, region, identifier, arn, service, rtype, tags))
  {
    var r := Added(rs, region, identifier, arn, service, rtype, tags);
    if r != rs {
      forall i, j | 0 <= i < j < |r| ensures r[i].arn != r[j].arn {
        if j == |rs| {
          assert r[i] == rs[i];
        }
      }
    }
  }

  /** A payment instrument, or an ARN already listed, leaves the list as it
      was: the first entry seen for an ARN wins. */
  lemma AddedIgnores(rs: seq<Resource>, region: string, identifier: string, arn: string,
                     service: string, rtype: string, tags: Option<map<string, string>>)
    requires service == "payments" || exists i | 0 <= i < |rs| :: rs[i].arn == arn
    ensures Added(rs, region, identifier, arn, service, rtype, tags) == rs
  {
  }

  /** Anything else is appended as one entry at the end, in the reader's
      region, with no tags when none were given; earlier entries stay. */
  lemma AddedAppends(rs: seq<Resource>, region: string, identifier: string, arn: string,
                     service: string, rtype: string, tags: Option<map<string, string>>)
    requires service != "payments" && forall i | 0 <= i < |rs| :: rs[i].arn != arn
    ensures var r := Added(rs, region, identifier, arn, service, rtype, tags);
      && |r| == |rs| + 1 && r[..|rs|] == rs
      && r[|rs|].identifier == identifier && r[|rs|].arn == arn
      && r[|rs|].service == service && r[|rs|].rtype == rtype && r[|rs|].region == region
      && (tags.None? ==> r[|rs|].tags == map[])
      && (tags.Some? ==> r[|rs|].tags == tags.value)
  {
  }

  /** Adding the same resource twice is adding it once. */
  lemma AddedTwice(rs: seq<Resource>, region: string, identifier: string, arn: string,
                   service: string, rtype: string, tags: Option<map<string, string>>)
    ensures var once := Added(rs, region, identifier, arn, service, rtype, tags);
      Added(once, region, identifier, arn, service, rtype, tags) == once
  {
    var once := Added(rs, region, identifier, arn, service, rtype, tags);
    if once != rs {
      assert once[|rs|].arn == arn;
    }
  }

  // ---------------------------------------------------------------------------
  // The report
  // ---------------------------------------------------------------------------

  /** The tag cell: the `Name` tag in backticks when it is set and not empty. */
  function TagCell(tags: map<string, string>): string {
    if "Name" in tags && tags["Name"] != "" then "`" + NamePrefix + tags["Name"] + "`"
    else "*(No Name Tag)*"
  }

  /** The identifier cell: the identifier in backticks. */
  function IdentifierText(identifier: string): string {
    "`" + identifier + "`"
  }

  /** A table row with the given cells. */
  function TableRow(a: string, b: string, c: string, d: string, e: string): string {
    "| " + a + " | " + b + " | " + c + " | " + d + " | " + e + " |"
  }

  /** One row of the table. */
  function FormatRow(res: Resource): string {
    TableRow(IdentifierText(res.identifier), res.service, res.rtype, res.region, TagCell(res.tags))
  }

  /** The sort key: service, then identifier. */
  function ServiceAndIdentifier(res: Resource): (string, string) {
    (res.service, res.identifier)
  }

  /** `sorted(resources, key=lambda x: (x['Service'], x['Identifier']))`. */
  function ReportOrder(rs: seq<Resource>): (q: seq<Resource>)
    ensures multiset(q) == multiset(rs)
    ensures SortedBy(q, ServiceAndIdentifier, PairLe)
    ensures forall k :: WithKey(q, ServiceAndIdentifier, k) == WithKey(rs, ServiceAndIdentifier, k)
  {
    PairLeTotalOrder();
    SortBy(rs, ServiceAndIdentifier, PairLe)
  }

  const TableHeader: string := TableRow("Identifier", "Service", "Type", "Region", "Tags")
  const TableRule: string := TableRow(":---", ":---", ":---", ":---", ":---")

  /** The lines before the table rows; the date is a parameter. */
  function Preamble(region: string, date: string, count: nat): (lines: seq<string>)
    ensures |lines| == PreambleSize
  {
    [ "# AWS Services & Components Report",
      "",
      "**Date:** " + date,
      "**Region:** " + region,
      "**Total Resources Found:** " + NatToString(count),
      "",
      TableHeader,
      TableRule ]
  }

  const PreambleSize: nat := 8

  /** The table rows, one per resource, in the order given. */
  function TableLines(q: seq<Resource>): (lines: seq<string>)
    ensures |lines| == |q|
    ensures forall j | 0 <= j < |q| :: lines[j] == FormatRow(q[j])
  {
    if |q| == 0 then [] else TableLines(q[..|q| - 1]) + [FormatRow(q[|q| - 1])]
  }

  /** The whole report, one line per element. */
  function Report(region: string, date: string, rs: seq<Resource>): seq<string> {
    Preamble(region, date, |rs|) + TableLines(ReportOrder(rs))
  }

  /** The report is the preamble, then one row line per discovered resource,
      in ascending (service, identifier) order. */
  lemma ReportRows(region: string, date: string, rs: seq<Resource>)
    ensures |Report(region, date, rs)| == PreambleSize + |rs| && |ReportOrder(rs)| == |rs|
    ensures Report(region, date, rs)[..PreambleSize] == Preamble(region, date, |rs|)
    ensures Report(region, date, rs)[PreambleSize..] == TableLines(ReportOrder(rs))
    ensures forall a, b | 0 <= a < b < |rs| ::
      PairLe(ServiceAndIdentifier(ReportOrder(rs)[a]), ServiceAndIdentifier(ReportOrder(rs)[b]))
  {
    var q := ReportOrder(rs);
    assert |q| == |multiset(q)| == |multiset(rs)| == |rs|;
    var pre := Preamble(region, date, |rs|);
    var rows := TableLines(q);
    assert Report(region, date, rs) == pre + rows;
    assert (pre + rows)[..PreambleSize] == pre;
    assert (pre + rows)[PreambleSize..] == rows;
  }

  // ---------------------------------------------------------------------------
  // What the cleaner reads back
  // ---------------------------------------------------------------------------

  /** The cells of a row line, outer empty ones included. */
  function RowCells(res: Resource): seq<string> {
    ["", IdentifierText(res.identifier), res.service, res.rtype, res.region, TagCell(res.tags), ""]
  }

  /** A `Name` value the tag cell carries through unchanged. */
  predicate NameWritable(v: string) {
    '|' !in v && '`' !in v && '\n' !in v && !Contains(v, "<br>") && !Contains(v, NamePrefix)
  }

  /** A cell the cleaner reads as written: no bar, no marker, no padding. */
  predicate PlainCell(s: string) {
    '|' !in s && '<' !in s && IsStripped(s)
  }

  /** What a resource must look like for its row to read back as written:
      plain cells, lower-case service and type as the scans produce them, an
      identifier that is neither header-like nor wrapped in backticks. */
  predicate Writable(res: Resource) {
    && PlainCell(res.identifier)
    && (|res.identifier| == 0 || (res.identifier[0] != '`' && res.identifier[|res.identifier| - 1] != '`'))
    && !Contains(res.identifier, "Identifier") && !Contains(res.identifier, "---")
    && PlainCell(res.service) && IsLower(res.service)
    && PlainCell(res.rtype) && IsLower(res.rtype)
    && '|' !in res.region && IsStripped(res.region)
    && ("Name" in res.tags && res.tags["Name"] != "" ==> NameWritable(res.tags["Name"]))
  }

  /** The row the cleaner collects from line `index` of the report. */
  function WrittenRow(res: Resource, index: nat): Row {
    Row(index, RowCells(res), IdentifierText(res.identifier), res.service, res.rtype,
        Priority(res.service, res.rtype), TagCell(res.tags))
  }

  /** A row line padded by one blank on each side is its cells joined by
      " | ". */
  lemma TableRowJoin(a: string, b: string, c: string, d: string, e: string)
    ensures " " + TableRow(a, b, c, d, e) + " " == Join(["", a, b, c, d, e, ""], " | ")
  {
    var sep := " | ";
    var nested := sep + (a + sep + (b + sep + (c + sep + (d + sep + (e + sep)))));
    JoinSeven(a, b, c, d, e, sep);
    RowSurround(a, b, c, d, e);
  }

  lemma JoinSeven(a: string, b: string, c: string, d: string, e: string, sep: string)
    ensures Join(["", a, b, c, d, e, ""], sep) == sep + (a + sep + (b + sep + (c + sep + (d + sep + (e + sep)))))
  {
    var cs := ["", a, b, c, d, e, ""];
    JoinCons(e, [""], sep);
    assert cs[5..] == [e] + [""];
    JoinCons(d, cs[5..], sep);
    assert cs[4..] == [d] + cs[5..];
    JoinCons(c, cs[4..], sep);
    assert cs[3..] == [c] + cs[4..];
    JoinCons(b, cs[3..], sep);
    assert cs[2..] == [b] + cs[3..];
    JoinCons(a, cs[2..], sep);
    assert cs[1..] == [a] + cs[2..];
    JoinCons("", cs[1..], sep);
    assert cs == [""] + cs[1..];
  }

  lemma RowSurround(a: string, b: string, c: string, d: string, e: string)
    ensures " " + TableRow(a, b, c, d, e) + " " == " | " + (a + " | " + (b + " | " + (c + " | " + (d + " | " + (e + " | ")))))
  {
    var sep := " | ";
    var tail := e + " |";
    var row := "| " + a + sep + b + sep + c + sep + d + sep + tail;
    assert TableRow(a, b, c, d, e) == row;
    assert " " + row + " " == " " + "| " + (a + sep + (b + sep + (c + sep + (d + sep + (tail + " ")))));
    assert tail + " " == e + sep;
    assert " " + "| " == sep;
  }

  /** A plain cell is its own cleaned text. */
  lemma CleanPlain(s: string)
    requires '<' !in s && IsStripped(s)
    ensures CleanCell(s) == s
  {
    MarkerEnds();
    if Contains(s, Open) {
      ContainsCharOf(s, Open, '<');
    }
    ReplaceAbsent(s, Open, "");
    if Contains(s, Close) {
      ContainsCharOf(s, Close, '<');
    }
    ReplaceAbsent(s, Close, "");
  }

  lemma TagCellPlain(tags: map<string, string>)
    requires "Name" in tags && tags["Name"] != "" ==> NameWritable(tags["Name"])
    ensures '|' !in TagCell(tags) && IsStripped(TagCell(tags))
  {
    if "Name" in tags && tags["Name"] != "" {
      var v := tags["Name"];
      assert TagCell(tags) == "`" + (NamePrefix + v) + "`";
    } else {
      assert TagCell(tags) == "*(No Name Tag)*";
    }
  }

  /** The identifier cell is a plain cell that is not the header's. */
  lemma IdentifierCell(id: string)
    requires PlainCell(id) && !Contains(id, "Identifier") && !Contains(id, "---")
    ensures PlainCell(IdentifierText(id))
    ensures !Contains(IdentifierText(id), "Identifier") && !Contains(IdentifierText(id), "---")
  {
    var cell := IdentifierText(id);
    assert cell[0] == '`' && cell[|cell| - 1] == '`';
    if Contains(cell, "Identifier") {
      ContainsInMiddle("`", id, "`", "Identifier");
    }
    if Contains(cell, "---") {
      ContainsInMiddle("`", id, "`", "---");
    }
  }

  /** The cells of a table row split back out of its line. */
  lemma TableRowCells(a: string, b: string, c: string, d: string, e: string)
    requires '|' !in a && '|' !in b && '|' !in c && '|' !in d && '|' !in e
    requires IsStripped(a) && IsStripped(b) && IsStripped(c) && IsStripped(d) && IsStripped(e)
    ensures Strip(TableRow(a, b, c, d, e)) == TableRow(a, b, c, d, e)
    ensures StartsWith(TableRow(a, b, c, d, e), "|")
    ensures Cells(TableRow(a, b, c, d, e)) == ["", a, b, c, d, e, ""]
  {
    var line := TableRow(a, b, c, d, e);
    var cs := ["", a, b, c, d, e, ""];
    assert forall k | 0 <= k < |cs| :: '|' !in cs[k] && IsStripped(cs[k]);
    JoinedCells(cs);
    TableRowJoin(a, b, c, d, e);
    assert line[0] == '|' && line[|line| - 1] == '|';
    StripPadded(" ", line, " ");
    StrippedFixed(line);
  }

  /** Round trip: the cleaner parses every row the reader writes back into the
      cells, service, type, priority and tag cell written, and the quoted
      identifier. */
  lemma ReadBackRow(res: Resource, index: nat)
    requires Writable(res)
    ensures ParseLine(FormatRow(res), index) == Some(WrittenRow(res, index))
  {
    var cs := RowCells(res);
    IdentifierCell(res.identifier);
    TagCellPlain(res.tags);
    TableRowCells(cs[1], cs[2], cs[3], cs[4], cs[5]);
    CleanPlain(cs[1]);
    LowerCellReadBack(res.service);
    LowerCellReadBack(res.rtype);
    ParseCells(FormatRow(res), index, cs);
  }

  /** A lower-case plain cell reads back as written. */
  lemma LowerCellReadBack(s: string)
    requires PlainCell(s) && IsLower(s)
    ensures CleanCell(Strip(Lower(s))) == s
  {
    LowerOfLower(s);
    StrippedFixed(s);
    CleanPlain(s);
  }

  /** The tag cell names the `Name` tag, stripped, when it is set and not
      empty, and nothing otherwise. */
  lemma TagCellReadBack(tags: map<string, string>)
    requires "Name" in tags && tags["Name"] != "" ==> NameWritable(tags["Name"])
    ensures "Name" in tags && tags["Name"] != "" ==> NameFromTags(TagCell(tags)) == Some(Strip(tags["Name"]))
    ensures !("Name" in tags && tags["Name"] != "") ==> NameFromTags(TagCell(tags)) == None
  {
    if "Name" in tags && tags["Name"] != "" {
      NameFromWrittenTag(tags["Name"]);
    } else {
      assert TagCell(tags) == "*(No Name Tag)*";
      NoNameWithoutColon(TagCell(tags));
    }
  }

  /** The cleaner resolves the identifier the reader wrote, unless the row is
      a log group whose `Name` tag then names it. */
  lemma IdentifierReadBack(res: Resource)
    requires Writable(res)
    requires res.service != "logs" || !Contains(res.identifier, "log-group")
          || !("Name" in res.tags && res.tags["Name"] != "")
    ensures ResolveIdentifier(IdentifierText(res.identifier), res.service, TagCell(res.tags)) == res.identifier
  {
    StripBackticksQuoted(res.identifier);
    TagCellReadBack(res.tags);
  }

  /** A line that starts with neither a blank nor a bar is not a row. */
  lemma ProseSkipped(line: string, index: nat)
    requires |line| == 0 || (!IsSpace(line[0]) && line[0] != '|')
    ensures ParseLine(line, index) == None
  {
    if |line| > 0 {
      StripKeepsHead(line);
    }
  }

  /** A table line whose identifier cell is a header or a rule is no row. */
  lemma MarkerCellSkipped(line: string, index: nat)
    requires |Cells(line)| >= 5
    requires Contains(Cells(line)[1], "Identifier") || Contains(Cells(line)[1], "---")
    ensures ParseLine(line, index) == None
  {
  }

  lemma HeaderCells()
    ensures Cells(TableHeader) == ["", "Identifier", "Service", "Type", "Region", "Tags", ""]
    ensures |Cells(TableHeader)| >= 5 && Contains(Cells(TableHeader)[1], "Identifier")
  {
    TableRowCells("Identifier", "Service", "Type", "Region", "Tags");
    assert OccursAt("Identifier", "Identifier", 0);
  }

  lemma DashCell()
    ensures '|' !in ":---" && IsStripped(":---") && Contains(":---", "---")
  {
    assert OccursAt(":---", "---", 1);
  }

  lemma RuleCells()
    ensures Cells(TableRule) == ["", ":---", ":---", ":---", ":---", ":---", ""]
    ensures |Cells(TableRule)| >= 5 && Contains(Cells(TableRule)[1], "---")
  {
    DashCell();
    var dash := ":---";
    TableRowCells(dash, dash, dash, dash, dash);
  }

  lemma HeaderSkipped(index: nat)
    ensures ParseLine(TableHeader, index) == None
  {
    HeaderCells();
    MarkerCellSkipped(TableHeader, index);
  }

  lemma RuleSkipped(index: nat)
    ensures ParseLine(TableRule, index) == None
  {
    RuleCells();
    MarkerCellSkipped(TableRule, index);
  }

  /** No line before the table is a row the cleaner would act on. */
  lemma PreambleSkipped(region: string, date: string, count: nat, index: nat)
    ensures forall k | 0 <= k < PreambleSize :: ParseLine(Preamble(region, date, count)[k], index) == None
  {
    var lines := Preamble(region, date, count);
    forall k | 0 <= k < PreambleSize ensures ParseLine(lines[k], index) == None {
      if k == 6 {
        HeaderSkipped(index);
      } else if k == 7 {
        RuleSkipped(index);
      } else {
        ProseSkipped(lines[k], index);
      }
    }
  }

  /** Sorting keeps every resource writable. */
  lemma OrderWritable(rs: seq<Resource>)
    requires forall i | 0 <= i < |rs| :: Writable(rs[i])
    ensures |ReportOrder(rs)| == |rs|
    ensures forall j | 0 <= j < |rs| :: Writable(ReportOrder(rs)[j])
  {
    var q := ReportOrder(rs);
    assert |q| == |multiset(q)| == |multiset(rs)| == |rs|;
    forall j | 0 <= j < |q| ensures Writable(q[j]) {
      assert q[j] in multiset(rs);
    }
  }

  /** The preamble of a report yields no row. */
  lemma ReportPreambleSkipped(region: string, date: string, rs: seq<Resource>)
    ensures forall k | 0 <= k < PreambleSize :: ParseLine(Report(region, date, rs)[k], k) == None
  {
    var pre := Preamble(region, date, |rs|);
    assert Report(region, date, rs)[..PreambleSize] == pre;
    forall k | 0 <= k < PreambleSize ensures ParseLine(pre[k], k) == None {
      PreambleSkipped(region, date, |rs|, k);
    }
  }

  /** Rows written from line `offset` on read back as written. */
  lemma RowsReadBack(lines: seq<string>, q: seq<Resource>, offset: nat)
    requires |lines| == offset + |q|
    requires forall j | 0 <= j < |q| :: lines[offset + j] == FormatRow(q[j])
    requires forall j | 0 <= j < |q| :: Writable(q[j])
    ensures forall j | 0 <= j < |q| ::
      ParseLine(lines[offset + j], offset + j) == Some(WrittenRow(q[j], offset + j))
  {
    forall j | 0 <= j < |q|
      ensures ParseLine(lines[offset + j], offset + j) == Some(WrittenRow(q[j], offset + j))
    {
      ReadBackRow(q[j], offset + j);
    }
  }

  /** The lines after the preamble, one by one. */
  lemma ReportLines(region: string, date: string, rs: seq<Resource>)
    ensures |Report(region, date, rs)| == PreambleSize + |ReportOrder(rs)|
    ensures forall j | 0 <= j < |ReportOrder(rs)| ::
      Report(region, date, rs)[PreambleSize + j] == FormatRow(ReportOrder(rs)[j])
  {
    var lines := Report(region, date, rs);
    var q := ReportOrder(rs);
    ReportRows(region, date, rs);
    var rows := lines[PreambleSize..];
    forall j | 0 <= j < |q| ensures lines[PreambleSize + j] == FormatRow(q[j]) {
      assert lines[PreambleSize + j] == rows[j];
    }
  }

  /** The whole report read back line by line: line `PreambleSize + j` yields
      the row of the `j`-th resource in report order (the preamble yields none,
      by `ReportPreambleSkipped`). */
  lemma ReportReadBack(region: string, date: string, rs: seq<Resource>)
    requires forall i | 0 <= i < |rs| :: Writable(rs[i])
    ensures |Report(region, date, rs)| == PreambleSize + |rs|
    ensures forall j | 0 <= j < |rs| ::
      ParseLine(Report(region, date, rs)[PreambleSize + j], PreambleSize + j)
        == Some(WrittenRow(ReportOrder(rs)[j], PreambleSize + j))
  {
    ReportLines(region, date, rs);
    OrderWritable(rs);
    RowsReadBack(Report(region, date, rs), ReportOrder(rs), PreambleSize);
  }

  /** The reader itself. */
  class ServiceReader {
    const region: string
    var discovered: seq<Resource>

    ghost predicate Valid()
      reads this
    {
      Ledger(discovered)
    }

    constructor(region: string)
      ensures this.region == region && discovered == [] && Valid()
    {
      this.region := region;
      discovered := [];
    }

    /** `add_resource`. */
    method AddResource(identifier: string, arn: string, service: string, rtype: string,
                       tags: Option<map<string, string>>)
      requires Valid()
      modifies this
      ensures discovered == Added(old(discovered), region, identifier, arn, service, rtype, tags)
      ensures Valid()
    {
      AddedKeepsLedger(discovered, region, identifier, arn, service, rtype, tags);
      if service == "payments" {
        return;
      }
      var i := 0;
      while i < |discovered|
        invariant i <= |discovered|
        invariant forall k | 0 <= k < i :: discovered[k].arn != arn
      {
        if discovered[i].arn == arn {
          return;
        }
        i := i + 1;
      }
      var t := if tags.Some? then tags.value else map[];
      discovered := discovered + [Resource(identifier, arn, service, rtype, region, t)];
    }

    /** `generate_report`: the lines written, without their line breaks. */
    method GenerateReport(date: string) returns (lines: seq<string>)
      ensures lines == Report(region, date, discovered)
    {
      var preamble := Preamble(region, date, |discovered|);
      var sorted := ReportOrder(discovered);
      var rows: seq<string> := [];
      for j := 0 to |sorted|
        invariant rows == TableLines(sorted[..j])
      {
        assert sorted[..j + 1][..j] == sorted[..j];
        rows := rows + [FormatRow(sorted[j])];
      }
      assert sorted[..|sorted|] == sorted;
      lines := preamble + rows;
    }
  }
}
