# AWS resource cleanup scripts, modelled in Dafny

This project models the decision logic of a set of AWS housekeeping scripts.
Each Dafny module proves what its script promises about the resources it
keeps, deletes or renames.

* **Reader** (`aws-services-reader.py`): keeps a ledger of discovered resources
  and writes it out as a Markdown report.
* **Cleaner** and **CleanerRun** (`aws-services-cleaner.py`): read that report
  back, order the rows by a fixed deletion priority, delete each resource with
  up to three attempts, and mark each deleted row in the report. The report
  is saved after every success.
* **Inspector** and **TaskFamilies** (`inspector.py`): the resource-group
  inspector.
  * It lists the members of a resource group and fetches their tags in
    batches of 100.
  * It classifies each member as KEEP or DELETE. The rules use CloudWatch
    sums, stale task-definition revisions and unassociated Elastic IPs. An
    active-project tag overrides them.
  * It hands the DELETE resources to a deletion dispatcher.
* **EcsUsage**, **StaleRevisions** and **UnusedRevisions**
  (`delete_task_definitions.py`, `find_unused_task_definitions.py`): find the
  task-definition revisions that no cluster service, deployment or running
  task uses and that are not among the two newest of their family. The first
  script deregisters and deletes them. The second only reports them.
* **NamingTags** (`apply_naming_tags.py`): gives the internet gateways, NAT
  gateways and route tables of a named VPC a standard `Name` tag.

Support modules:

* `Wrappers`: `Option`.
* `Text`: the Python string operations the scripts use, such as `strip`,
  `split`, `join`, `replace`, `lower`, `in` and `int`.
* `Sorting`: a stable sort by key, standing for Python's `sorted` and
  `list.sort`.
* `Batching`: the `s[i:i+n]` slicing loops.

Each remote call is a parameter of the model, such as a function from a
request to its answer or from a call number to its outcome. This means every
property holds whatever AWS answers. Where the code and its docstrings
disagree, the model follows the code. For example, `delete_resource` in the
cleaner says it returns True for a resource that is already gone. In fact a
`NotFound` error makes it return False, and `Cleaner.FailureResultTrueIff`
states that.

## Model

| member | source | states |
|---|---|---|
| Cleaner.Priority | scripts/aws_resource_cleaner/aws-services-cleaner.py:424-426 | every priority is at most the default 999 given to unlisted resources |
| Cleaner.PriorityBeforeUnlisted | scripts/aws_resource_cleaner/aws-services-cleaner.py:13-58 | for a service name without a colon, a row goes before the unlisted ones exactly when its `service:type` is a table key other than the payment instrument's, which the table puts at 999 too |
| Cleaner.PriorityUnlisted | scripts/aws_resource_cleaner/aws-services-cleaner.py:424-426 | an unlisted pair whose service has no colon gets priority 999, since every table key holds a colon |
| Cleaner.NetworkChain | scripts/aws_resource_cleaner/aws-services-cleaner.py:40-50 | network teardown order: NAT gateways, then Elastic IPs, security groups, network ACLs, subnets, route tables, internet gateways, and the VPC last |
| Cleaner.NatEipPriorities | scripts/aws_resource_cleaner/aws-services-cleaner.py:41-42 | NAT gateways come at 70 and Elastic IPs at 75 |
| Cleaner.FirewallPriorities | scripts/aws_resource_cleaner/aws-services-cleaner.py:45-46 | security groups come at 80 and network ACLs at 85 |
| Cleaner.SubnetPriorities | scripts/aws_resource_cleaner/aws-services-cleaner.py:47-48 | subnets come at 90 and route tables at 95 |
| Cleaner.GatewayVpcPriorities | scripts/aws_resource_cleaner/aws-services-cleaner.py:49-50 | internet gateways come at 100 and VPCs at 110 |
| Cleaner.CleanResourceIdKeeps | scripts/aws_resource_cleaner/aws-services-cleaner.py:60-80 | an identifier is left unchanged exactly when it has no slash, is an ARN, or belongs to a service and type that keep their prefix |
| Cleaner.CleanResourceIdCuts | scripts/aws_resource_cleaner/aws-services-cleaner.py:63-71 | otherwise it becomes its last `/`-segment, which holds no slash |
| Cleaner.CleanResourceIdIdempotent | scripts/aws_resource_cleaner/aws-services-cleaner.py:60-80 | cleaning an identifier twice is the same as cleaning it once |
| Cleaner.MarkedHasOpen | scripts/aws_resource_cleaner/aws-services-cleaner.py:365-368 | a marked cell always holds the red-span opening tag |
| Cleaner.MarkIdempotent | scripts/aws_resource_cleaner/aws-services-cleaner.py:365-368 | marking an already marked cell changes nothing |
| Cleaner.UnmarkMark | scripts/aws_resource_cleaner/aws-services-cleaner.py:420-422 | removing the markers from a marked cell gives back a cell that held none |
| Cleaner.CleanCellOfMark | scripts/aws_resource_cleaner/aws-services-cleaner.py:420-422 | the parser cleans a marked cell to the same text as the unmarked cell |
| Cleaner.MarkKeepsCell | scripts/aws_resource_cleaner/aws-services-cleaner.py:470-474 | marking adds no bar character and keeps a stripped cell stripped, so the table keeps its columns |
| Cleaner.MarkAddsNoMatch | scripts/aws_resource_cleaner/aws-services-cleaner.py:412 | marking does not create a match for a pattern that can start or end in neither marker |
| Cleaner.CleanLowerOfMark | scripts/aws_resource_cleaner/aws-services-cleaner.py:415-422 | a marked service or type cell is lower-cased and cleaned to what the unmarked cell gives |
| Cleaner.FirstContaining | scripts/aws_resource_cleaner/aws-services-cleaner.py:196 | `next(...)` returns None exactly when no item contains the fragment, and otherwise the first item that does |
| Cleaner.ResolveStripsBackticks | scripts/aws_resource_cleaner/aws-services-cleaner.py:370-392 | every identifier except a generic log group with a `Name` tag is the report cell with the backticks around it cut off, and it neither starts nor ends with a backtick |
| Cleaner.NameFromWrittenTag | scripts/aws_resource_cleaner/aws-services-cleaner.py:380-390 | from a tag cell of the form "`Name: v`", the stripped `v` is recovered |
| Cleaner.NoNameWithoutColon | scripts/aws_resource_cleaner/aws-services-cleaner.py:383 | a tag cell without a colon names nothing |
| Cleaner.ParseLine | scripts/aws_resource_cleaner/aws-services-cleaner.py:407-436 | a row is found only on a line whose stripped text starts with a bar and has at least five cells whose identifier cell is not the header or the rule; it carries the line's cells, its index and its table priority |
| Cleaner.ParsedFields | scripts/aws_resource_cleaner/aws-services-cleaner.py:410-422 | the identifier, service and type a row carries are stripped and hold no bar character; service and type hold no upper-case letter, so the priority lookup ignores the report's case |
| Cleaner.MarkCells | scripts/aws_resource_cleaner/aws-services-cleaner.py:470-473 | cells 1 to 3 are marked and every other cell is kept |
| Cleaner.JoinedCells | scripts/aws_resource_cleaner/aws-services-cleaner.py:470-474 | joining stripped cells with a spaced bar and splitting the line again gives back the same cells |
| Cleaner.MarkedLineCells | scripts/aws_resource_cleaner/aws-services-cleaner.py:470-474 | a marked line is still a table row, and its cells are the marked cells |
| Cleaner.MarkedNotHeader | scripts/aws_resource_cleaner/aws-services-cleaner.py:412 | marking never makes an identifier cell look like the header or the rule |
| Cleaner.ReparseMarked | scripts/aws_resource_cleaner/aws-services-cleaner.py:407-436 | a marked line parses to the same identifier, service, type, priority and tags, so it is read again on a later run |
| Cleaner.FailureResultTrueIff | scripts/aws_resource_cleaner/aws-services-cleaner.py:338-356 | a raised call counts as done exactly when it is a client error that is neither NotFound nor DependencyViolation, is CannotDelete or InvalidParameterValue, and its message mentions `default` |
| Cleaner.PlanLookupResolved | scripts/aws_resource_cleaner/aws-services-cleaner.py:189-251 | a deletion call is made exactly when the identifier is an ARN (not checked for auto-scaling configurations) or some listed ARN contains it; the ARN used is then the first such ARN |
| Cleaner.PlanLookupUnresolved | scripts/aws_resource_cleaner/aws-services-cleaner.py:189-251 | a lookup ends without a call exactly when its identifier is not taken as an ARN and no listed ARN contains it; it then fails for a connection and counts as done for a target group, load balancer or auto-scaling configuration |
| CleanerRun.ParseAll | scripts/aws_resource_cleaner/aws-services-cleaner.py:407 | one parse result per line, each row carrying its own line index |
| CleanerRun.RowsParsed | scripts/aws_resource_cleaner/aws-services-cleaner.py:428-436 | each collected row is the parse of its own line |
| CleanerRun.RowsComplete | scripts/aws_resource_cleaner/aws-services-cleaner.py:407-436 | every line that parses contributes its row |
| CleanerRun.RowsOrdered | scripts/aws_resource_cleaner/aws-services-cleaner.py:407-436 | rows come in line order, with no line twice |
| CleanerRun.CollectRows | scripts/aws_resource_cleaner/aws-services-cleaner.py:405-436 | the parsing loop returns the rows of the report in line order |
| CleanerRun.Queue | scripts/aws_resource_cleaner/aws-services-cleaner.py:438 | the queue is a permutation of the rows, sorted by priority, that keeps line order among rows of equal priority (a stable sort) |
| CleanerRun.QueueFromLines | scripts/aws_resource_cleaner/aws-services-cleaner.py:438-446 | every queued row is the parse of the report line it names |
| CleanerRun.Retry | scripts/aws_resource_cleaner/aws-services-cleaner.py:458-466 | at most three calls are made, and success is the outcome of the last call |
| CleanerRun.RetryCalls | scripts/aws_resource_cleaner/aws-services-cleaner.py:460-463 | every call before the last one failed, and without a success all three calls were made |
| CleanerRun.RetryEvents | scripts/aws_resource_cleaner/aws-services-cleaner.py:460-466 | deletion calls alternate with 5-second waits, with no wait after the last call |
| CleanerRun.DeleteWithRetries | scripts/aws_resource_cleaner/aws-services-cleaner.py:458-466 | the retry loop produces exactly that outcome |
| CleanerRun.Step | scripts/aws_resource_cleaner/aws-services-cleaner.py:446-481 | a payment instrument leaves the state as it was; any other row runs the retry loop from the current call count, and on success marks its own line, saves the report and pauses a second, while on failure only the calls and waits are added |
| CleanerRun.StepAttempts | scripts/aws_resource_cleaner/aws-services-cleaner.py:446-481 | an iteration on a row other than a payment instrument makes one to three deletion calls on the row's own target, five seconds apart, each but the last having failed and all three made when none succeeds; a success adds the save and a one-second pause |
| CleanerRun.StepDeletes | scripts/aws_resource_cleaner/aws-services-cleaner.py:447-461 | an iteration only calls for deletion of its own resolved and cleaned identifier, and never for a payment instrument |
| CleanerRun.DeleteRow | scripts/aws_resource_cleaner/aws-services-cleaner.py:446-481 | one pass of the deletion loop is one `Step` |
| CleanerRun.Run | scripts/aws_resource_cleaner/aws-services-cleaner.py:446-481 | the loop keeps the report's length and only appends events |
| CleanerRun.RunConcat | scripts/aws_resource_cleaner/aws-services-cleaner.py:446-481 | the loop over two lists of rows in turn is the loop over them joined |
| CleanerRun.RunUntouched | scripts/aws_resource_cleaner/aws-services-cleaner.py:446-474 | a line that no row of the loop points to keeps its text |
| CleanerRun.RunRowOutcome | scripts/aws_resource_cleaner/aws-services-cleaner.py:446-474 | with rows from distinct lines, a row's line is untouched before its own iteration and after it |
| CleanerRun.QueueDistinct | scripts/aws_resource_cleaner/aws-services-cleaner.py:407-446 | no two queued rows come from the same report line |
| CleanerRun.BeforeEnd | scripts/aws_resource_cleaner/aws-services-cleaner.py:446-481 | the state after the last queued row is the end of the run |
| CleanerRun.CleanRowAttempts | scripts/aws_resource_cleaner/aws-services-cleaner.py:446-481 | in a whole run, each queued row other than a payment instrument gets one to three deletion calls on its own target, five seconds apart, each but the last failed, followed by the save and a pause when one succeeds; a payment instrument changes nothing |
| CleanerRun.CleanRowOutcome | scripts/aws_resource_cleaner/aws-services-cleaner.py:446-474 | in a whole run, a queued row's line ends up marked when the row is not a payment instrument and one of its calls succeeded, and keeps its text otherwise |
| CleanerRun.DeleteAll | scripts/aws_resource_cleaner/aws-services-cleaner.py:446-481 | the deletion loop over the queue is the `Run` of it |
| CleanerRun.RunDeletesInOrder | scripts/aws_resource_cleaner/aws-services-cleaner.py:438-446 | over rows sorted by priority, deletion calls come in priority order |
| CleanerRun.CleanDeletesInOrder | scripts/aws_resource_cleaner/aws-services-cleaner.py:438-481 | in a whole run, no resource is attempted before one with a lower deletion priority |
| CleanerRun.RunSkipsPayments | scripts/aws_resource_cleaner/aws-services-cleaner.py:451-453 | the loop adds no deletion call for a payment instrument |
| CleanerRun.CleanSkipsPayments | scripts/aws_resource_cleaner/aws-services-cleaner.py:451-453 | a whole run never deletes a payment instrument |
| CleanerRun.RunMarks | scripts/aws_resource_cleaner/aws-services-cleaner.py:468-474 | every line stays either as it was or, for a resource row, becomes that row with cells 1 to 3 marked |
| CleanerRun.CleanMarks | scripts/aws_resource_cleaner/aws-services-cleaner.py:446-474 | in a whole run, only resource rows other than payment instruments change, and only by being marked; each queued row's line is marked exactly when it is not a payment instrument and one of its deletion calls succeeded |
| CleanerRun.LastSaved | scripts/aws_resource_cleaner/aws-services-cleaner.py:477-478 | before the first save, the report on disk is the report that was read |
| CleanerRun.RunSaves | scripts/aws_resource_cleaner/aws-services-cleaner.py:468-481 | after each iteration, the report last saved equals the report in memory |
| CleanerRun.StepSaves | scripts/aws_resource_cleaner/aws-services-cleaner.py:468-481 | one iteration keeps the report on disk equal to the report in memory |
| CleanerRun.CleanSaves | scripts/aws_resource_cleaner/aws-services-cleaner.py:476-478 | at the end of a run, the saved report is the marked report |
| CleanerRun.CleanRereads | scripts/aws_resource_cleaner/aws-services-cleaner.py:407-474 | reading the saved report again finds the same resources, with the same identifiers, services, types, priorities and tags, on the same lines |
| CleanerRun.ResumeFailed | scripts/aws_resource_cleaner/aws-services-cleaner.py:460-466 | a failed attempt that is not the last is followed by a wait and the remaining attempts |
| CleanerRun.ResumeSucceeded | scripts/aws_resource_cleaner/aws-services-cleaner.py:461-463 | a successful attempt ends the loop |
| CleanerRun.CleanReport | scripts/aws_resource_cleaner/aws-services-cleaner.py:405-481 | `main` after reading returns the report as finally written and every call, wait and save, as `Clean` defines them |
| Reader.AddedKeepsLedger | scripts/aws_resource_cleaner/aws-services-reader.py:36-52 | adding a resource keeps the ledger free of payment instruments and duplicate ARNs |
| Reader.AddedIgnores | scripts/aws_resource_cleaner/aws-services-reader.py:39-43 | a payment instrument, or an ARN already listed, leaves the ledger unchanged |
| Reader.AddedAppends | scripts/aws_resource_cleaner/aws-services-reader.py:45-52 | any other resource is appended once, at the end, with the reader's region |
| Reader.AddedTwice | scripts/aws_resource_cleaner/aws-services-reader.py:36-52 | adding the same resource twice is the same as adding it once |
| Reader.ServiceReader.AddResource | scripts/aws_resource_cleaner/aws-services-reader.py:36-52 | the method updates the ledger as `Added` does and keeps the ledger's invariant |
| Reader.ReportOrder | scripts/aws_resource_cleaner/aws-services-reader.py:352 | the rows are a permutation of the ledger, sorted by service and then identifier, keeping ledger order among rows with the same service and identifier (a stable sort) |
| Reader.Preamble | scripts/aws_resource_cleaner/aws-services-reader.py:342-349 | the title, date, region, count, header and rule lines come before the rows |
| Reader.TableLines | scripts/aws_resource_cleaner/aws-services-reader.py:354-367 | one formatted row per resource, in the given order |
| Reader.ReportRows | scripts/aws_resource_cleaner/aws-services-reader.py:341-367 | the report is the preamble followed by exactly one row per ledger entry, sorted by service and then identifier |
| Reader.TableRowCells | scripts/aws_resource_cleaner/aws-services-reader.py:367 | a written row splits back into exactly its five cells, with an empty cell at each end |
| Reader.ReadBackRow | scripts/aws_resource_cleaner/aws-services-reader.py:354-367 | the cleaner parses every row the reader writes back into the resource's identifier, service, type and tag cell (a round trip) |
| Reader.TagCellReadBack | scripts/aws_resource_cleaner/aws-services-reader.py:356-360 | the tag cell yields the stripped `Name` tag when it is set and non-empty, and otherwise yields no name |
| Reader.IdentifierReadBack | scripts/aws_resource_cleaner/aws-services-reader.py:363 | the cleaner resolves the written identifier back to the identifier, except for a named generic log group |
| Reader.ProseSkipped | scripts/aws_resource_cleaner/aws-services-reader.py:342-346 | a line starting with neither a blank nor a bar is not a row |
| Reader.HeaderSkipped | scripts/aws_resource_cleaner/aws-services-reader.py:348 | the table header is not read as a row |
| Reader.RuleSkipped | scripts/aws_resource_cleaner/aws-services-reader.py:349 | the table rule is not read as a row |
| Reader.PreambleSkipped | scripts/aws_resource_cleaner/aws-services-reader.py:342-349 | no line before the table is a row the cleaner would act on |
| Reader.ReportReadBack | scripts/aws_resource_cleaner/aws-services-reader.py:336-367 | the whole report read back yields exactly one row per resource, in report order |
| Reader.ServiceReader.GenerateReport | scripts/aws_resource_cleaner/aws-services-reader.py:336-367 | the lines written are the `Report` of the ledger |
| Inspector.GroupName | scripts/aws_inspector/inspector.py:37-41 | a group ARN gives a name without `/`, and a plain name is used unchanged |
| Inspector.GroupNameOfArn | scripts/aws_inspector/inspector.py:38-39 | a group ARN gives the name after its last `/` |
| Inspector.PageEntries | scripts/aws_inspector/inspector.py:48-53 | one entry per listed member, with status `Unknown` when it has none |
| Inspector.ListingEntries | scripts/aws_inspector/inspector.py:46-53 | one entry per listed member across all pages, in listing order |
| Inspector.ResourceInspector.ScanResourceGroup | scripts/aws_inspector/inspector.py:30-56 | the discovered list grows by the listing of the group's name, in order |
| Inspector.ResourceInspector.AppendPages | scripts/aws_inspector/inspector.py:47-53 | the discovered list grows by the entries of every page, in order |
| Inspector.TagMap | scripts/aws_inspector/inspector.py:82 | the dict comprehension has exactly the keys that occur, each with the value of its last pair |
| Inspector.Arns | scripts/aws_inspector/inspector.py:69 | the ARNs of the discovered resources, in order |
| Inspector.Tagged | scripts/aws_inspector/inspector.py:80-83 | only the first entry with the ARN gets the tags, and nothing else changes |
| Inspector.ResourceInspector.TagFirst | scripts/aws_inspector/inspector.py:80-83 | the inner loop tags the first entry with the ARN |
| Inspector.EnrichedKeepsAllButTags | scripts/aws_inspector/inspector.py:58-85 | enrichment changes nothing but tags: the same entries in the same order |
| Inspector.ResourceInspector.EnrichResourceData | scripts/aws_inspector/inspector.py:58-85 | the ARNs are queried in consecutive batches of 100, and each answer is applied in order; a failed call changes nothing |
| Inspector.ResourceInspector.EnrichBatch | scripts/aws_inspector/inspector.py:75-85 | one batch applies its answer, or nothing when the call raised |
| Batching.ChunkAt | scripts/aws_inspector/inspector.py:73-74 | batch `k` is the slice starting at `k*n`, cut at the end of the list |
| Inspector.MetricSum | scripts/aws_inspector/inspector.py:104-110 | None exactly when the call raised; zero exactly when there is no datapoint or the first is zero |
| Inspector.AlbDimensionOf | scripts/aws_inspector/inspector.py:183 | a load balancer's metric dimension is what follows `loadbalancer/` |
| Inspector.EipArns | scripts/aws_inspector/inspector.py:141 | exactly the ARNs of the discovered Elastic IPs |
| Inspector.UnattachedEips | scripts/aws_inspector/inspector.py:139-153 | an ARN is unattached exactly when it is an EIP whose allocation id belongs to an address without association; none are unattached when the lookup failed |
| Inspector.CollectUnattachedEips | scripts/aws_inspector/inspector.py:140-153 | the address loop computes exactly that set |
| Inspector.Override | scripts/aws_inspector/inspector.py:220-224 | a matching non-empty active tag forces KEEP, and otherwise the verdict is unchanged |
| Inspector.OverrideIdempotent | scripts/aws_inspector/inspector.py:220-224 | applying the override twice is the same as applying it once |
| Inspector.JudgeVerdict | scripts/aws_inspector/inspector.py:155-224 | DELETE exactly when one of the five rules fires and the active tag does not match; a matching tag gives its own justification; other types are KEEP with the default justification |
| Inspector.Judged | scripts/aws_inspector/inspector.py:155-228 | every resource gets its verdict, in order |
| Inspector.FailedLookupKeepsEips | scripts/aws_inspector/inspector.py:139-207 | when `describe_addresses` fails, every EIP is KEEP |
| Inspector.UnparseableTaskDefinitionKept | scripts/aws_inspector/inspector.py:124-199 | a task-definition ARN that does not parse is never DELETE |
| Inspector.TaskDefinitionDeleteIffTwoNewer | scripts/aws_inspector/inspector.py:119-197 | without an active-tag match, a parseable task definition is DELETE exactly when two other revisions of its family are newer |
| Inspector.ResourceInspector.AssessRelevance | scripts/aws_inspector/inspector.py:112-230 | the results are the discovered resources, each with its verdict recorded in place |
| Inspector.ResourceInspector.RecordVerdicts | scripts/aws_inspector/inspector.py:155-228 | the classification loop records each verdict in place and returns them in order |
| Inspector.NoHandlerAsWritten | scripts/aws_inspector/inspector.py:252-261 | as written, none of the five types the classifier can mark DELETE reaches a handler |
| Inspector.DeleteVerdictHasNoHandlerAsWritten | scripts/aws_inspector/inspector.py:252-261 | as written, a resource marked DELETE is never deleted |
| Inspector.NatGatewayNoHandlerAsWritten | scripts/aws_inspector/inspector.py:252-261 | the NAT gateway type matches no substring test |
| Inspector.LoadBalancerNoHandlerAsWritten | scripts/aws_inspector/inspector.py:252-261 | the load balancer type matches no substring test |
| Inspector.TaskDefinitionNoHandlerAsWritten | scripts/aws_inspector/inspector.py:256-257 | the task-definition type matches no substring test |
| Inspector.EipNoHandlerAsWritten | scripts/aws_inspector/inspector.py:258-259 | the Elastic IP type matches no substring test |
| Inspector.DbInstanceNoHandlerAsWritten | scripts/aws_inspector/inspector.py:252-261 | the RDS instance type matches no substring test |
| Inspector.Dispatch | scripts/aws_inspector/inspector.py:252-261 | corrected: a handler is chosen exactly for the S3 bucket, EC2 instance, task-definition and Elastic IP types |
| Inspector.ForwardedAreDeletes | scripts/aws_inspector/inspector.py:237-239 | `cleanup` forwards exactly the DELETE resources |
| Inspector.CallsComeFromDeletes | scripts/aws_inspector/inspector.py:241-263 | every request is the handler call of some DELETE resource, and a dry run makes none |
| Inspector.DeletesReachTheirHandler | scripts/aws_inspector/inspector.py:252-275 | outside a dry run, every DELETE task definition is deregistered and every DELETE Elastic IP has its allocation released |
| Inspector.ResourceInspector.Cleanup | scripts/aws_inspector/inspector.py:232-263 | returns the forwarded ARNs and the requests made, as `Forwarded` and `DeletionCalls` define them |
| TaskFamilies.FamilyRevisionParts | scripts/aws_inspector/inspector.py:125-126 | a parsed ARN ends in `/<family>:<digits>` with no colon in the family |
| TaskFamilies.FamilyRevisionOf | scripts/aws_inspector/inspector.py:125-129 | any ARN ending in `/<family>:<revision>` parses back to that family and revision |
| TaskFamilies.ParsedMembers | scripts/aws_inspector/inspector.py:121-131 | exactly the parseable ARNs are filed, under their own family and revision |
| TaskFamilies.Members | scripts/aws_inspector/inspector.py:127-129 | a family's list holds exactly the items filed under that family |
| TaskFamilies.FamiliesKeys | scripts/aws_inspector/inspector.py:125-129 | the dictionary has an entry exactly for the families of the ARNs whose last segment splits into family and revision, whether or not the revision is an integer |
| TaskFamilies.FamiliesEntries | scripts/aws_inspector/inspector.py:120-131 | each entry lists exactly the items filed under its family, in discovery order |
| TaskFamilies.FamiliesAreMembers | scripts/aws_inspector/inspector.py:120-131 | both of the above: keys for every family that splits, and each entry that family's items in discovery order |
| TaskFamilies.EmptyEntryKept | scripts/aws_inspector/inspector.py:127-131 | a family whose only ARN has a non-integer revision (`web:latest`) keeps an empty entry |
| TaskFamilies.CollectFamilies | scripts/aws_inspector/inspector.py:120-131 | the grouping loop builds exactly that dictionary, creating the entry before the revision is read |
| TaskFamilies.Ranked | scripts/aws_inspector/inspector.py:135 | a permutation of the family's list, newest revision first |
| TaskFamilies.StaleArns | scripts/aws_inspector/inspector.py:133-137 | an ARN is stale exactly when its item lies beyond the first two of its ranked family |
| TaskFamilies.TwoHigherInFamily | scripts/aws_inspector/inspector.py:135-137 | two distinct items with strictly higher revisions push an item beyond the first two |
| TaskFamilies.StaleInFamily | scripts/aws_inspector/inspector.py:135-137 | conversely, in a family without repeated items or revisions, a stale item has two newer items |
| TaskFamilies.UnparseableNeverStale | scripts/aws_inspector/inspector.py:130-131 | an ARN that does not parse is never stale |
| TaskFamilies.TwoNewerMakesStale | scripts/aws_inspector/inspector.py:119-137 | an ARN with two newer ARNs in its family is stale |
| TaskFamilies.StaleHasTwoNewer | scripts/aws_inspector/inspector.py:119-137 | with no ARN listed twice and distinct revisions in each family, a stale ARN has two newer ones |
| TaskFamilies.StaleIffTwoNewer | scripts/aws_inspector/inspector.py:119-137 | under those conditions an ARN is stale exactly when two newer ARNs share its family |
| TaskFamilies.CollectStale | scripts/aws_inspector/inspector.py:133-137 | the ranking loop gathers exactly the stale ARNs |
| EcsUsage.ServicesInUseIff | scripts/aws_inspector/delete_task_definitions.py:34-37 | a definition is used by described services exactly when one of them, or one of their deployments, names it |
| EcsUsage.ServicePagesInUseIff | scripts/aws_inspector/delete_task_definitions.py:26-37 | a definition is used by a cluster's services exactly when some batch of 10 of some page describes a service that names it |
| EcsUsage.TaskPagesInUseIff | scripts/aws_inspector/delete_task_definitions.py:40-49 | a definition is used by a cluster's tasks exactly when some batch of 100 of some page describes a task that runs it |
| EcsUsage.ActiveSetIff | scripts/aws_inspector/delete_task_definitions.py:19-49 | a definition is active exactly when some cluster has a service, deployment or running task that uses it |
| EcsUsage.ScanServicePage | scripts/aws_inspector/delete_task_definitions.py:31-37 | one page of services, described in consecutive batches of 10, adds exactly what those batches use |
| EcsUsage.ScanTaskPage | scripts/aws_inspector/delete_task_definitions.py:45-49 | one page of tasks, described in consecutive batches of 100, adds exactly what those batches use |
| EcsUsage.ScanCluster | scripts/aws_inspector/delete_task_definitions.py:24-49 | a cluster adds exactly what its services and running tasks use; empty pages add nothing |
| EcsUsage.CollectActive | scripts/aws_inspector/find_unused_task_definitions.py:15-53 | both scripts' first step computes exactly the active set |
| EcsUsage.TaskRevisionOf | scripts/aws_inspector/find_unused_task_definitions.py:84 | the revision of `...:n` is `n` |
| StaleRevisions.Dedup | scripts/aws_inspector/delete_task_definitions.py:65 | `set(...)` keeps every ARN of the list exactly once |
| StaleRevisions.OrderedNewestFirst | scripts/aws_inspector/delete_task_definitions.py:59-65 | the merged list holds each ACTIVE or INACTIVE ARN exactly once, newest revision first |
| StaleRevisions.StaleAmongIff | scripts/aws_inspector/delete_task_definitions.py:67-74 | an ARN is a candidate exactly when it is not in use and sits at index 2 or beyond |
| StaleRevisions.StaleAmongBounded | scripts/aws_inspector/delete_task_definitions.py:67-74 | a family yields at most its length minus two candidates, all from its list, none twice |
| StaleRevisions.AppendStale | scripts/aws_inspector/delete_task_definitions.py:68-74 | the enumeration loop appends exactly the family's stale ARNs |
| StaleRevisions.FamiliesAbortSticks | scripts/aws_inspector/delete_task_definitions.py:17-65 | a family whose revisions cannot be sorted aborts the run |
| StaleRevisions.PagesAbortSticks | scripts/aws_inspector/delete_task_definitions.py:57-65 | an abort on some page aborts the whole run |
| StaleRevisions.FamiliesStaleMember | scripts/aws_inspector/delete_task_definitions.py:58-74 | every candidate of some families is stale in one of them |
| StaleRevisions.PagesStaleMember | scripts/aws_inspector/delete_task_definitions.py:57-74 | every candidate of some pages is stale in a family of one of them |
| StaleRevisions.SelectFromPage | scripts/aws_inspector/delete_task_definitions.py:58-74 | the families of one page add their candidates, or abort as `FamiliesStale` does |
| StaleRevisions.SelectCandidates | scripts/aws_inspector/delete_task_definitions.py:53-74 | the candidates are those of every family of every page, in order |
| StaleRevisions.CandidateIsStale | scripts/aws_inspector/delete_task_definitions.py:19-74 | every candidate is unused by any cluster and sits at index 2 or beyond of its family's list (newest revision first, each ARN once), so at least two ARNs of no lower revision come before it |
| StaleRevisions.FamiliesStaleComplete | scripts/aws_inspector/delete_task_definitions.py:58-74 | when the families complete, each family completes and all its stale ARNs are among theirs |
| StaleRevisions.PagesStaleComplete | scripts/aws_inspector/delete_task_definitions.py:57-74 | when the pages complete, every family on them completes and all its stale ARNs are among theirs |
| StaleRevisions.StaleIsCandidate | scripts/aws_inspector/delete_task_definitions.py:19-74 | when the run completes, every unused ARN at index 2 or beyond of the list of a family on a listed page is a candidate: the converse of `CandidateIsStale` |
| StaleRevisions.Deregisters | scripts/aws_inspector/delete_task_definitions.py:93-99 | one deregistration per candidate, in order |
| StaleRevisions.Deletes | scripts/aws_inspector/delete_task_definitions.py:113-116 | one batch deletion per batch, in order |
| StaleRevisions.PlanOrder | scripts/aws_inspector/delete_task_definitions.py:79-116 | with no candidates or in a dry run nothing is requested; otherwise every candidate is deregistered, then deleted in consecutive batches of 10 |
| StaleRevisions.DeregisterFirst | scripts/aws_inspector/delete_task_definitions.py:88-116 | no deletion request comes before a deregistration |
| StaleRevisions.Execute | scripts/aws_inspector/delete_task_definitions.py:79-127 | the deletion step makes exactly the planned requests |
| StaleRevisions.DeleteTaskDefinitions | scripts/aws_inspector/delete_task_definitions.py:11-127 | the script gathers the candidates, or aborts without requests, and then makes the planned requests |
| UnusedRevisions.SamePolicyAsDeletion | scripts/aws_inspector/find_unused_task_definitions.py:78-100 | this report's stale list for a family is exactly the deletion script's candidate list |
| UnusedRevisions.FamilyRowsIff | scripts/aws_inspector/find_unused_task_definitions.py:83-105 | a row is printed for a revision exactly when it is in use or is the unused newest one, with the matching status |
| UnusedRevisions.NewestShownStaleHidden | scripts/aws_inspector/find_unused_task_definitions.py:104-109 | no printed row says STALE, and the newest revision always has a row |
| UnusedRevisions.FamilyStaleIff | scripts/aws_inspector/find_unused_task_definitions.py:73-100 | a family lists exactly its unused revisions behind its two newest |
| UnusedRevisions.FamiliesAbortSticks | scripts/aws_inspector/find_unused_task_definitions.py:83-124 | a revision that does not parse ends the run |
| UnusedRevisions.PagesAbortSticks | scripts/aws_inspector/find_unused_task_definitions.py:66-124 | an error on some page ends the whole run |
| UnusedRevisions.FamiliesStaleIff | scripts/aws_inspector/find_unused_task_definitions.py:67-100 | a completed run over some families lists exactly their unused revisions behind the two newest |
| UnusedRevisions.PagesStaleIff | scripts/aws_inspector/find_unused_task_definitions.py:66-100 | the same over every page |
| UnusedRevisions.ReportedStaleIff | scripts/aws_inspector/find_unused_task_definitions.py:14-100 | the candidates of a completed run are exactly the revisions that no cluster uses and that sit behind the two newest of their family |
| UnusedRevisions.ClassifyFamily | scripts/aws_inspector/find_unused_task_definitions.py:83-109 | the enumeration loop adds the family's rows and stale revisions, or fails exactly when some revision does not parse |
| UnusedRevisions.ReportPage | scripts/aws_inspector/find_unused_task_definitions.py:67-109 | the families of one page add their report, or fail as `FamiliesReport` does |
| UnusedRevisions.Bullets | scripts/aws_inspector/find_unused_task_definitions.py:116-117 | one bullet line per ARN, in order |
| UnusedRevisions.MoreLineCount | scripts/aws_inspector/find_unused_task_definitions.py:118-119 | the closing line's count reads back as the number of unnamed candidates |
| UnusedRevisions.ExamplesAccount | scripts/aws_inspector/find_unused_task_definitions.py:114-119 | nothing without candidates; otherwise a heading, the first ten by name, and a closing line exactly when more than ten remain |
| UnusedRevisions.Summarize | scripts/aws_inspector/find_unused_task_definitions.py:112-119 | the summary is the count line followed by the example listing |
| UnusedRevisions.FindUnusedTaskDefinitions | scripts/aws_inspector/find_unused_task_definitions.py:10-124 | the script returns the report and its summary, or nothing after an error |
| NamingTags.ActiveNats | scripts/aws_inspector/apply_naming_tags.py:50 | exactly the NAT gateways not in state `deleted`, never more than were listed |
| NamingTags.FilterActive | scripts/aws_inspector/apply_naming_tags.py:50 | the filter computes exactly those gateways |
| NamingTags.NatNamesDistinct | scripts/aws_inspector/apply_naming_tags.py:52-58 | two different NAT gateways of a VPC never get the same name |
| NamingTags.NatPlanNames | scripts/aws_inspector/apply_naming_tags.py:52-60 | a lone NAT gateway is named `{vpc}-nat`; several get pairwise distinct numbered names |
| NamingTags.ScanRoutes | scripts/aws_inspector/apply_naming_tags.py:79-84 | the route scan, with its early exit, finds a default route through an `igw-` gateway exactly when there is one |
| NamingTags.RouteTableNameTells | scripts/aws_inspector/apply_naming_tags.py:96-100 | the name is `{vpc}-public-rt` exactly for a public table |
| NamingTags.RouteTablesNamed | scripts/aws_inspector/apply_naming_tags.py:78-103 | each route table is named public exactly when it has such a route |
| NamingTags.PlanSections | scripts/aws_inspector/apply_naming_tags.py:41-103 | each internet gateway, active NAT gateway and route table of the VPC is tagged once, in that order, under its standard name |
| NamingTags.EventsFollowPlan | scripts/aws_inspector/apply_naming_tags.py:31-39 | one `tag_resource` call per planned tagging, under its planned name; a dry run only reports the renames |
| NamingTags.TagInternetGateways | scripts/aws_inspector/apply_naming_tags.py:42-45 | every internet gateway is tagged `{vpc}-igw` |
| NamingTags.TagNatGateways | scripts/aws_inspector/apply_naming_tags.py:52-60 | the NAT loop makes exactly the planned calls |
| NamingTags.TagRouteTables | scripts/aws_inspector/apply_naming_tags.py:78-103 | the route-table loop makes exactly the planned calls |
| NamingTags.ApplyNamingTags | scripts/aws_inspector/apply_naming_tags.py:11-103 | the first VPC with the given name gets the whole plan, and without such a VPC nothing is tagged |

## Left out

- Remote calls are inputs, not behaviour. Examples: the deletion outcome as a function of the call number, CloudWatch sums as a function of the request, and ECS listings as functions of the cluster or family. Pagination is the sequence of pages delivered.
- Exceptions that the scripts catch around whole phases are modelled only where they change the result:
  - tag enrichment and `describe_addresses`;
  - metric calls (as `None`);
  - `int()` of a revision;
  - `ClientError` results in the cleaner.
- An error during the active-set scan ends both ECS scripts early. The model assumes the scan completes.
- A failing `create_tags` or a failing `describe_nat_gateways` is not modelled.
- The individual AWS calls inside the cleaner's `delete_resource` are not modelled one by one. Examples: detaching the internet gateway, deletion protection, emptying buckets, waiters. Their success or failure is the outcome input. The ARN lookups and the handling of raised errors are modelled: `Cleaner.PlanLookupResolved` and `Cleaner.FailureResultTrueIff`.
- `wait_for_deletion`, session and client creation and `argparse` entry points are not modelled. Sleeps are events, not time.
- Logging is not modelled, except in `find_unused_task_definitions.py`: its table rows and summary are its output, and the model returns them as values.
- UnusedRevisions.FindUnusedTaskDefinitions: when `int()` of a revision fails, the model returns `None` and drops the table rows already logged; the script has logged them before it reports the error. `UnusedRevisions.ClassifyFamily` and `UnusedRevisions.ReportPage` do the same.
- CleanerRun.Run: its own contract gives only the report's length and the event prefix; what each row does to the report and the events is stated by `CleanerRun.Step`, `CleanerRun.StepAttempts`, `CleanerRun.RunRowOutcome` and, for a whole run, `CleanerRun.CleanRowAttempts` and `CleanerRun.CleanRowOutcome`.
- CleanerRun.RunMarks: states only which form each line can take, for any list of rows; which lines a whole run marks is stated by `CleanerRun.CleanMarks`.
- CloudWatch sums are floats in the source. The model uses `nat`, so it only distinguishes zero from a count. The 7-day window uses the clock and is left out.
- The report date comes from the clock. The model takes it as a parameter.
- Files are sequences of lines without their line terminators.
- `strip` removes the ASCII whitespace and the separators `\x1c` to `\x1f`, but not the non-ASCII whitespace Python also removes (`\x85`, `\xa0` and the Unicode spaces). `lower` lower-cases ASCII letters only. `int` reads decimal digits only, with no sign, spaces or underscores.
- Python set iteration order is not modelled. Sets stay sets, and only the order of lists is tracked.
- `Reader.ReadBackRow`: does not cover resources whose cells hold `|`, markers, padding, or a header-like identifier. For those, the written table does not read back cell for cell.
- The `scan_*` discovery methods of `aws-services-reader.py` are not part of this model. Only `add_resource` and `generate_report` are.
- `delete_vpc.py`, `find_unused_vpcs.py` and `main.py` are not part of this model.
- `Inspector.ResourceInspector.Cleanup`: uses the corrected `Inspector.Dispatch`. The substring dispatch as written is kept as `Inspector.DispatchAsWritten`, with the lemmas under Findings.
- The handler helpers of the inspector are modelled as the request they make, not as the bucket emptying and instance termination that follow.

## Findings

| source | as written | input that shows it | evidently intended | confidence | as-written member | corrected member |
|---|---|---|---|---|---|---|
| scripts/aws_inspector/inspector.py:252-261 | `delete_resource` picks a handler with lower-case substring tests (`"s3"`, `"ec2"`, `"task-definition"`, `"elastic-ip"`) on CloudFormation type names such as `AWS::EC2::EIP` | a resource of type `AWS::ECS::TaskDefinition` or `AWS::EC2::EIP` marked DELETE falls through to "No specific deletion handler" | dispatch by resource type, so that DELETE task definitions are deregistered and DELETE Elastic IPs are released | high; not executed | Inspector.DeleteVerdictHasNoHandlerAsWritten | Inspector.DeletesReachTheirHandler |
