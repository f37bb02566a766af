/** The driver of `aws-services-cleaner.py` (`main`): read the report, collect
    its resource rows, sort them by deletion priority, and delete them one by
    one with up to three attempts each. A deleted row is marked in the report,
    and the report is saved at once.

    The AWS calls are an oracle `ok`, which answers the n-th deletion call of
    the run; sleeps and saves are recorded as events. */
module CleanerRun {
  import opened Wrappers
  import opened Sorting
  import opened Cleaner

  const MaxRetries: nat := 3
  /** Seconds waited before another attempt on the same resource. */
  const RetryDelay: nat := 5
  /** Seconds waited after saving the report. */
  const SaveDelay: nat := 1

  /** What a deletion call is asked to delete. */
  datatype Target = Target(service: string, rtype: string, id: string)

  /** The observable steps of a run. */
  datatype Event =
    | Delete(target: Target)
    | Sleep(seconds: nat)
    | Save(lines: seq<string>)

  // ---------------------------------------------------------------------------
  // Collecting the rows
  // ---------------------------------------------------------------------------

  /** What each line of the report parses to. */
  function ParseAll(lines: seq<string>): (ps: seq<Option<Row>>)
    ensures |ps| == |lines|
    ensures forall i | 0 <= i < |ps| && ps[i].Some? :: ps[i].value.index == i
  {
    seq(|lines|, i requires 0 <= i < |lines| => ParseLine(lines[i], i))
  }

  /** The rows among the first `k` parse results, in order. */
  function Rows(ps: seq<Option<Row>>, k: nat): (rows: seq<Row>)
    requires k <= |ps|
    ensures |rows| <= k
  {
    if k == 0 then []
    else
      match ps[k - 1]
      case None => Rows(ps, k - 1)
      case Some(row) => Rows(ps, k - 1) + [row]
  }

  /** Each collected row is the parse result of its own line. */
  lemma {:induction false} RowsParsed(ps: seq<Option<Row>>, k: nat)
    requires k <= |ps|
    requires forall i | 0 <= i < |ps| && ps[i].Some? :: ps[i].value.index == i
    ensures forall r | r in Rows(ps, k) :: r.index < k && ps[r.index] == Some(r)
  {
    if k > 0 {
      RowsParsed(ps, k - 1);
    }
  }

  /** Every line that parses contributes its row. */
  lemma {:induction false} RowsComplete(ps: seq<Option<Row>>, k: nat)
    requires k <= |ps|
    ensures forall i | 0 <= i < k && ps[i].Some? :: ps[i].value in Rows(ps, k)
  {
    if k > 0 {
      RowsComplete(ps, k - 1);
    }
  }

  /** Rows come in line order, each line at most once. */
  lemma {:induction false} RowsOrdered(ps: seq<Option<Row>>, k: nat)
    requires k <= |ps|
    requires forall i | 0 <= i < |ps| && ps[i].Some? :: ps[i].value.index == i
    ensures forall a, b | 0 <= a < b < |Rows(ps, k)| :: Rows(ps, k)[a].index < Rows(ps, k)[b].index
  {
    if k > 0 {
      RowsOrdered(ps, k - 1);
      RowsParsed(ps, k - 1);
      var prev := Rows(ps, k - 1);
      assert forall j | 0 <= j < |prev| :: prev[j] in prev;
    }
  }

  /** The rows of the report, in line order. */
  function RowsOf(lines: seq<string>): seq<Row> {
    Rows(ParseAll(lines), |lines|)
  }

  /** The loop of `main` that turns report lines into rows. */
  method CollectRows(lines: seq<string>) returns (rows: seq<Row>)
    ensures rows == RowsOf(lines)
  {
    ghost var ps := ParseAll(lines);
    rows := [];
    for i := 0 to |lines|
      invariant rows == Rows(ps, i)
    {
      var r := ParseLine(lines[i], i);
      assert r == ps[i];
      if r.Some? {
        rows := rows + [r.value];
      }
    }
  }

  function RowPriority(row: Row): int {
    row.priority
  }

  /** `resources.sort(key=lambda x: x['priority'])`. */
  function Queue(lines: seq<string>): (q: seq<Row>)
    ensures multiset(q) == multiset(RowsOf(lines))
    ensures SortedBy(q, RowPriority, IntLe)
    ensures forall p :: WithKey(q, RowPriority, p) == WithKey(RowsOf(lines), RowPriority, p)
  {
    IntOrders();
    SortBy(RowsOf(lines), RowPriority, IntLe)
  }

  /** Every queued row is the parse of its own line. */
  lemma QueueFromLines(lines: seq<string>)
    ensures forall r | r in Queue(lines) ::
      r.index < |lines| && ParseLine(lines[r.index], r.index) == Some(r)
  {
    var ps := ParseAll(lines);
    var rows := RowsOf(lines);
    RowsParsed(ps, |lines|);
    forall r | r in Queue(lines)
      ensures r.index < |lines| && ParseLine(lines[r.index], r.index) == Some(r)
    {
      assert r in multiset(Queue(lines));
      assert r in multiset(rows);
      assert ps[r.index] == Some(r);
    }
  }

  // ---------------------------------------------------------------------------
  // Deleting one row
  // ---------------------------------------------------------------------------

  /** The outcome of the retry loop: its events, whether a call succeeded, and
      the number of the next call. */
  datatype Attempts = Attempts(events: seq<Event>, deleted: bool, next: nat)

  /** The retry loop from attempt `attempt` on, starting with call `calls`:
      calls are made until one succeeds or three have been made, with a wait of
      five seconds between two calls. */
  function Retry(t: Target, ok: nat -> bool, calls: nat, attempt: nat): (r: Attempts)
    requires attempt < MaxRetries
    ensures calls < r.next <= calls + (MaxRetries - attempt)
    ensures r.deleted == ok(r.next - 1)
    decreases MaxRetries - attempt
  {
    if ok(calls) then Attempts([Delete(t)], true, calls + 1)
    else if attempt < MaxRetries - 1 then
      var rest := Retry(t, ok, calls + 1, attempt + 1);
      Attempts([Delete(t), Sleep(RetryDelay)] + rest.events, rest.deleted, rest.next)
    else Attempts([Delete(t)], false, calls + 1)
  }

  /** Every call before the last one failed, and without a success all three
      calls were made. */
  lemma {:induction false} RetryCalls(t: Target, ok: nat -> bool, calls: nat, attempt: nat)
    requires attempt < MaxRetries
    ensures var r := Retry(t, ok, calls, attempt);
      && (forall j | calls <= j < r.next - 1 :: !ok(j))
      && (!r.deleted ==> r.next == calls + (MaxRetries - attempt))
    decreases MaxRetries - attempt
  {
    if !ok(calls) && attempt < MaxRetries - 1 {
      RetryCalls(t, ok, calls + 1, attempt + 1);
    }
  }

  /** The loop's events: one deletion call per attempt, with a five-second
      wait between two attempts and none after the last. */
  lemma {:induction false} RetryEvents(t: Target, ok: nat -> bool, calls: nat, attempt: nat)
    requires attempt < MaxRetries
    ensures var r := Retry(t, ok, calls, attempt);
      && |r.events| == 2 * (r.next - calls) - 1
      && forall k | 0 <= k < |r.events| :: r.events[k] == if k % 2 == 0 then Delete(t) else Sleep(RetryDelay)
    decreases MaxRetries - attempt
  {
    if !ok(calls) && attempt < MaxRetries - 1 {
      RetryEvents(t, ok, calls + 1, attempt + 1);
      var rest := Retry(t, ok, calls + 1, attempt + 1);
      var evs := [Delete(t), Sleep(RetryDelay)] + rest.events;
      assert Retry(t, ok, calls, attempt).events == evs;
      forall k | 2 <= k < |evs|
        ensures evs[k] == if k % 2 == 0 then Delete(t) else Sleep(RetryDelay)
      {
        assert evs[k] == rest.events[k - 2];
        assert (k - 2) % 2 == k % 2;
      }
    }
  }

  /** The identifier a row is deleted under: its `Name` tag for a generic log
      group, then cut to its last path segment where the service wants that. */
  function TargetOf(row: Row): Target {
    Target(row.service, row.rtype,
           CleanResourceId(row.service, row.rtype, ResolveIdentifier(row.idRaw, row.service, row.tags)))
  }

  /** The state of a run: the report lines in memory, the events so far, and
      the number of the next deletion call. */
  datatype RunState = RunState(lines: seq<string>, events: seq<Event>, calls: nat)

  /** One iteration of the deletion loop. Payment instruments are skipped.
      After a successful deletion the row's first three cells are marked,
      the report is saved, and the run pauses for a second. */
  function Step(s: RunState, row: Row, ok: nat -> bool): (r: RunState)
    requires row.index < |s.lines| && |row.parts| >= 4
    ensures |r.lines| == |s.lines| && s.calls <= r.calls
    ensures |s.events| <= |r.events| && r.events[..|s.events|] == s.events
    ensures row.service == "payments" ==> r == s
    ensures row.service != "payments" ==>
      var a := Retry(TargetOf(row), ok, s.calls, 0);
      && r.calls == a.next
      && r.lines == (if a.deleted then s.lines[row.index := MarkedLine(row)] else s.lines)
      && r.events == s.events + a.events + (if a.deleted then [Save(r.lines), Sleep(SaveDelay)] else [])
  {
    if row.service == "payments" then s
    else
      var a := Retry(TargetOf(row), ok, s.calls, 0);
      if a.deleted then
        var lines := s.lines[row.index := MarkedLine(row)];
        RunState(lines, s.events + a.events + [Save(lines), Sleep(SaveDelay)], a.next)
      else RunState(s.lines, s.events + a.events, a.next)
  }

  /** The rows fit the report they came from. */
  predicate Fits(n: nat, rows: seq<Row>) {
    forall r | r in rows :: r.index < n && |r.parts| >= 4
  }

  /** The deletion loop over `rows`, in order. */
  function Run(s: RunState, rows: seq<Row>, ok: nat -> bool): (r: RunState)
    requires Fits(|s.lines|, rows)
    ensures |r.lines| == |s.lines| && s.calls <= r.calls
    ensures |s.events| <= |r.events| && r.events[..|s.events|] == s.events
    decreases |rows|
  {
    if |rows| == 0 then s
    else
      var prev := Run(s, rows[..|rows| - 1], ok);
      Step(prev, rows[|rows| - 1], ok)
  }

  lemma QueueFits(lines: seq<string>)
    ensures Fits(|lines|, Queue(lines))
  {
    QueueFromLines(lines);
  }

  /** The whole run on a report. */
  function Clean(lines: seq<string>, ok: nat -> bool): RunState
  {
    QueueFits(lines);
    Run(RunState(lines, [], 0), Queue(lines), ok)
  }

  // ---------------------------------------------------------------------------
  // What a run guarantees
  // ---------------------------------------------------------------------------

  /** The deletion priority of a target. */
  function TargetPriority(t: Target): nat {
    Priority(t.service, t.rtype)
  }

  /** What one iteration adds after the events so far: deletion calls on the
      row's own target only, and none for a payment instrument. */
  lemma StepDeletes(s: RunState, row: Row, ok: nat -> bool) returns (added: seq<Event>)
    requires row.index < |s.lines| && |row.parts| >= 4
    ensures Step(s, row, ok).events == s.events + added
    ensures forall e | e in added :: e.Delete? ==> e.target == TargetOf(row) && row.service != "payments"
  {
    if row.service == "payments" {
      added := [];
    } else {
      var t := TargetOf(row);
      var a := Retry(t, ok, s.calls, 0);
      RetryTargets(t, ok, s.calls);
      var r := Step(s, row, ok);
      added := a.events + (if a.deleted then [Save(r.lines), Sleep(SaveDelay)] else []);
    }
  }

  /** The retry loop calls for its own target only. */
  lemma RetryTargets(t: Target, ok: nat -> bool, calls: nat)
    ensures forall e | e in Retry(t, ok, calls, 0).events :: e.Delete? ==> e.target == t
  {
    var evs := Retry(t, ok, calls, 0).events;
    RetryEvents(t, ok, calls, 0);
    forall e | e in evs && e.Delete? ensures e.target == t {
      var k :| 0 <= k < |evs| && evs[k] == e;
    }
  }

  /** The last row of the loop is handled last. */
  lemma RunLast(s: RunState, rows: seq<Row>, ok: nat -> bool) returns (init: seq<Row>, last: Row)
    requires Fits(|s.lines|, rows) && |rows| > 0
    ensures rows == init + [last] && Fits(|s.lines|, init)
    ensures last in rows && forall x | x in init :: x in rows
    ensures last.index < |Run(s, init, ok).lines| && |last.parts| >= 4
    ensures Run(s, rows, ok) == Step(Run(s, init, ok), last, ok)
  {
    init, last := rows[..|rows| - 1], rows[|rows| - 1];
    assert rows == init + [last];
  }

  /** Running two lists of rows one after the other is running them joined. */
  lemma {:induction false} RunConcat(s: RunState, a: seq<Row>, b: seq<Row>, ok: nat -> bool)
    requires Fits(|s.lines|, a + b)
    ensures Fits(|s.lines|, a) && Fits(|s.lines|, b)
    ensures Run(s, a + b, ok) == Run(Run(s, a, ok), b, ok)
    decreases |b|
  {
    assert forall r | r in a :: r in a + b;
    assert forall r | r in b :: r in a + b;
    if |b| == 0 {
      assert a + b == a;
    } else {
      var init := b[..|b| - 1];
      assert (a + b)[..|a + b| - 1] == a + init;
      assert forall r | r in a + init :: r in a + b;
      RunConcat(s, a, init, ok);
    }
  }

  /** A line that no row of the loop points to keeps its text. */
  lemma {:induction false} RunUntouched(s: RunState, rows: seq<Row>, ok: nat -> bool, i: nat)
    requires Fits(|s.lines|, rows) && i < |s.lines|
    requires forall j | 0 <= j < |rows| :: rows[j].index != i
    ensures Run(s, rows, ok).lines[i] == s.lines[i]
    decreases |rows|
  {
    if |rows| > 0 {
      var init, last := RunLast(s, rows, ok);
      assert forall j | 0 <= j < |init| :: init[j] == rows[j];
      RunUntouched(s, init, ok, i);
    }
  }

  /** No two rows of `rows` come from the same line. */
  predicate DistinctLines(rows: seq<Row>) {
    forall a, b | 0 <= a < b < |rows| :: rows[a].index != rows[b].index
  }

  /** Each line of the report is queued at most once. */
  lemma QueueDistinct(lines: seq<string>)
    ensures DistinctLines(Queue(lines))
  {
    var ps := ParseAll(lines);
    var rows := RowsOf(lines);
    var queue := Queue(lines);
    RowsOrdered(ps, |lines|);
    assert Unique(rows);
    UniquePermutation(rows, queue);
    QueueFromLines(lines);
    forall a, b | 0 <= a < b < |queue| ensures queue[a].index != queue[b].index {
      var x, y := queue[a], queue[b];
      assert x in queue && y in queue;
      assert ParseLine(lines[x.index], x.index) == Some(x);
      assert ParseLine(lines[y.index], y.index) == Some(y);
    }
  }

  /** The state of the run on a report just before its `k`-th queued row. */
  function Before(lines: seq<string>, ok: nat -> bool, k: nat): (s: RunState)
    requires k <= |Queue(lines)|
    ensures |s.lines| == |lines|
  {
    QueueFits(lines);
    assert forall r | r in Queue(lines)[..k] :: r in Queue(lines);
    Run(RunState(lines, [], 0), Queue(lines)[..k], ok)
  }

  /** After the last queued row the run is over. */
  lemma BeforeEnd(lines: seq<string>, ok: nat -> bool)
    ensures Before(lines, ok, |Queue(lines)|) == Clean(lines, ok)
  {
    assert Queue(lines)[..|Queue(lines)|] == Queue(lines);
  }

  /** Taking one more row of the loop is taking one more step. */
  lemma RunPrefix(s: RunState, rows: seq<Row>, ok: nat -> bool, k: nat)
    requires Fits(|s.lines|, rows) && k < |rows|
    ensures Fits(|s.lines|, rows[..k]) && Fits(|s.lines|, rows[..k + 1])
    ensures rows[k].index < |Run(s, rows[..k], ok).lines| && |rows[k].parts| >= 4
    ensures Run(s, rows[..k + 1], ok) == Step(Run(s, rows[..k], ok), rows[k], ok)
  {
    assert forall r | r in rows[..k] :: r in rows;
    assert forall r | r in rows[..k + 1] :: r in rows;
    assert rows[..k + 1][..k] == rows[..k];
    assert rows[k] in rows;
  }

  /** The loop over `rows` is the loop over its first `k` rows followed by
      the loop over the others. */
  lemma RunSplit(s: RunState, rows: seq<Row>, ok: nat -> bool, k: nat)
    requires Fits(|s.lines|, rows) && k <= |rows|
    ensures Fits(|s.lines|, rows[..k]) && Fits(|s.lines|, rows[k..])
    ensures Run(s, rows, ok) == Run(Run(s, rows[..k], ok), rows[k..], ok)
  {
    assert rows == rows[..k] + rows[k..];
    RunConcat(s, rows[..k], rows[k..], ok);
  }

  /** No row before the `k`-th, all on other lines, touches its line. */
  lemma RunRowBefore(s: RunState, rows: seq<Row>, ok: nat -> bool, k: nat)
    requires Fits(|s.lines|, rows) && DistinctLines(rows) && k < |rows|
    ensures Fits(|s.lines|, rows[..k]) && rows[k].index < |s.lines|
    ensures Run(s, rows[..k], ok).lines[rows[k].index] == s.lines[rows[k].index]
  {
    var q := rows[k];
    assert q in rows;
    assert forall r | r in rows[..k] :: r in rows;
    RunUntouched(s, rows[..k], ok, q.index);
  }

  /** No row after the `k`-th, all on other lines, touches its line. */
  lemma RunRowAfter(s: RunState, rows: seq<Row>, ok: nat -> bool, k: nat)
    requires Fits(|s.lines|, rows) && DistinctLines(rows) && k < |rows|
    ensures Fits(|s.lines|, rows[..k + 1]) && rows[k].index < |s.lines|
    ensures Run(s, rows, ok).lines[rows[k].index] == Run(s, rows[..k + 1], ok).lines[rows[k].index]
  {
    var q := rows[k];
    assert q in rows;
    RunSplit(s, rows, ok, k + 1);
    var mid := Run(s, rows[..k + 1], ok);
    var rest := rows[k + 1..];
    assert |mid.lines| == |s.lines| && Fits(|mid.lines|, rest);
    forall j | 0 <= j < |rest| ensures rest[j].index != q.index {
      assert rest[j] == rows[k + 1 + j];
    }
    RunUntouched(mid, rest, ok, q.index);
  }

  /** With rows from distinct lines, a row's line is settled by its own step:
      no earlier row has touched it and no later row touches it. */
  lemma RunRowOutcome(s: RunState, rows: seq<Row>, ok: nat -> bool, k: nat)
    requires Fits(|s.lines|, rows) && DistinctLines(rows) && k < |rows|
    ensures Fits(|s.lines|, rows[..k])
    ensures rows[k].index < |s.lines| && |rows[k].parts| >= 4
    ensures Run(s, rows[..k], ok).lines[rows[k].index] == s.lines[rows[k].index]
    ensures Run(s, rows, ok).lines[rows[k].index] == Step(Run(s, rows[..k], ok), rows[k], ok).lines[rows[k].index]
  {
    RunPrefix(s, rows, ok, k);
    RunRowBefore(s, rows, ok, k);
    RunRowAfter(s, rows, ok, k);
  }

  /** Going from `s` to `r` by adding `added`, a row was tried by one to
      three deletion calls on its own target, five seconds apart, each call
      before the last one having failed, and all three made when none
      succeeded; a successful call is followed by the save of the report and a
      one-second pause. */
  ghost predicate Attempted(s: RunState, r: RunState, row: Row, ok: nat -> bool, added: seq<Event>) {
    var n := r.calls - s.calls;
    && r.events == s.events + added
    && 1 <= n <= MaxRetries
    && (forall j | s.calls <= j < r.calls - 1 :: !ok(j))
    && (!ok(r.calls - 1) ==> n == MaxRetries)
    && |added| == 2 * n - 1 + (if ok(r.calls - 1) then 2 else 0)
    && (forall j | 0 <= j < 2 * n - 1 :: added[j] == if j % 2 == 0 then Delete(TargetOf(row)) else Sleep(RetryDelay))
    && (ok(r.calls - 1) ==> added[2 * n - 1..] == [Save(r.lines), Sleep(SaveDelay)])
  }

  /** What one iteration adds to the run: nothing for a payment instrument,
      the attempts on the row's target for any other row. */
  lemma StepAttempts(s: RunState, row: Row, ok: nat -> bool) returns (added: seq<Event>)
    requires row.index < |s.lines| && |row.parts| >= 4
    ensures Step(s, row, ok).events == s.events + added
    ensures row.service == "payments" ==> Step(s, row, ok) == s
    ensures row.service != "payments" ==> Attempted(s, Step(s, row, ok), row, ok, added)
  {
    if row.service == "payments" {
      added := [];
    } else {
      added := RetryAttempted(s, Step(s, row, ok), row, ok);
    }
  }

  /** A state reached from `s` by the retry loop on the row's target, plus
      the save and pause after a success, is one where the row was attempted. */
  lemma RetryAttempted(s: RunState, r: RunState, row: Row, ok: nat -> bool) returns (added: seq<Event>)
    requires var a := Retry(TargetOf(row), ok, s.calls, 0);
      && r.calls == a.next
      && r.events == s.events + a.events + (if a.deleted then [Save(r.lines), Sleep(SaveDelay)] else [])
    ensures Attempted(s, r, row, ok, added)
  {
    var t := TargetOf(row);
    var a := Retry(t, ok, s.calls, 0);
    RetryCalls(t, ok, s.calls, 0);
    RetryEvents(t, ok, s.calls, 0);
    var tail := if a.deleted then [Save(r.lines), Sleep(SaveDelay)] else [];
    added := a.events + tail;
    var n := a.next - s.calls;
    forall j | 0 <= j < 2 * n - 1
      ensures added[j] == if j % 2 == 0 then Delete(t) else Sleep(RetryDelay)
    {
      assert added[j] == a.events[j];
    }
    assert added[2 * n - 1..] == tail;
  }

  /** What the `k`-th queued row adds to the whole run on a report: nothing
      for a payment instrument, the attempts on its target for any other row,
      from the state reached before it. */
  lemma CleanRowAttempts(lines: seq<string>, ok: nat -> bool, k: nat) returns (added: seq<Event>)
    requires k < |Queue(lines)|
    ensures Before(lines, ok, k + 1).events == Before(lines, ok, k).events + added
    ensures Queue(lines)[k].service == "payments" ==> Before(lines, ok, k + 1) == Before(lines, ok, k)
    ensures Queue(lines)[k].service != "payments" ==>
      Attempted(Before(lines, ok, k), Before(lines, ok, k + 1), Queue(lines)[k], ok, added)
  {
    var queue := Queue(lines);
    var start := RunState(lines, [], 0);
    QueueFits(lines);
    RunPrefix(start, queue, ok, k);
    var pre := Before(lines, ok, k);
    assert pre == Run(start, queue[..k], ok);
    assert Before(lines, ok, k + 1) == Run(start, queue[..k + 1], ok) == Step(pre, queue[k], ok);
    added := StepAttempts(pre, queue[k], ok);
  }

  /** The `k`-th queued row's line at the end of the run: marked when the row
      is not a payment instrument and one of the calls made for it, starting
      from the call count reached before it, succeeded; unchanged otherwise. */
  lemma CleanRowOutcome(lines: seq<string>, ok: nat -> bool, k: nat)
    requires k < |Queue(lines)|
    ensures var q := Queue(lines)[k];
      var out := Clean(lines, ok).lines;
      && q.index < |lines| == |out| && |q.parts| >= 4
      && out[q.index] == if q.service != "payments" && Retry(TargetOf(q), ok, Before(lines, ok, k).calls, 0).deleted
                         then MarkedLine(q) else lines[q.index]
  {
    QueueFits(lines);
    QueueDistinct(lines);
    RunRowOutcome(RunState(lines, [], 0), Queue(lines), ok, k);
  }

  /** Rows that agree with the deletion table. */
  predicate Prioritised(rows: seq<Row>) {
    forall r | r in rows :: r.priority == Priority(r.service, r.rtype)
  }

  /** Deletion calls in `events` are on targets whose priority is at most `p`. */
  ghost predicate DeletesAtMost(events: seq<Event>, p: int) {
    forall e | e in events && e.Delete? :: TargetPriority(e.target) <= p
  }

  /** Deletion calls in `events` come in order of priority. */
  ghost predicate DeletesOrdered(events: seq<Event>) {
    forall a, b | 0 <= a < b < |events| && events[a].Delete? && events[b].Delete? ::
      TargetPriority(events[a].target) <= TargetPriority(events[b].target)
  }

  lemma DeletesOrderedConcat(x: seq<Event>, y: seq<Event>, p: int)
    requires DeletesOrdered(x) && DeletesAtMost(x, p)
    requires forall e | e in y && e.Delete? :: TargetPriority(e.target) == p
    ensures DeletesOrdered(x + y)
  {
    var xy := x + y;
    forall a, b | 0 <= a < b < |xy| && xy[a].Delete? && xy[b].Delete?
      ensures TargetPriority(xy[a].target) <= TargetPriority(xy[b].target)
    {
      if b < |x| {
        assert xy[a] == x[a] && xy[b] == x[b];
      } else if a < |x| {
        assert xy[a] == x[a] && xy[b] == y[b - |x|];
        assert x[a] in x && y[b - |x|] in y;
      } else {
        assert xy[a] == y[a - |x|] && xy[b] == y[b - |x|];
        assert y[a - |x|] in y && y[b - |x|] in y;
      }
    }
  }

  lemma NoDeletesOrdered(events: seq<Event>, p: int)
    requires forall e | e in events :: !e.Delete?
    ensures DeletesOrdered(events) && DeletesAtMost(events, p)
  {
    forall a | 0 <= a < |events| ensures !events[a].Delete? {
      assert events[a] in events;
    }
  }

  /** Over rows sorted by priority, the deletion calls come in priority order. */
  lemma {:induction false} RunDeletesInOrder(s: RunState, rows: seq<Row>, ok: nat -> bool)
    requires Fits(|s.lines|, rows) && Prioritised(rows) && SortedBy(rows, RowPriority, IntLe)
    requires forall e | e in s.events :: !e.Delete?
    ensures DeletesOrdered(Run(s, rows, ok).events)
    ensures |rows| > 0 ==> DeletesAtMost(Run(s, rows, ok).events, rows[|rows| - 1].priority)
    decreases |rows|
  {
    if |rows| == 0 {
      NoDeletesOrdered(s.events, 0);
    } else {
      var init, last := RunLast(s, rows, ok);
      var prev := Run(s, init, ok);
      RunDeletesInOrder(s, init, ok);
      assert DeletesAtMost(prev.events, last.priority) by {
        if |init| > 0 {
          assert init[|init| - 1] == rows[|rows| - 2];
          assert init[|init| - 1].priority <= last.priority;
        } else {
          NoDeletesOrdered(s.events, last.priority);
        }
      }
      var added := StepDeletes(prev, last, ok);
      assert TargetPriority(TargetOf(last)) == last.priority;
      DeletesOrderedConcat(prev.events, added, last.priority);
    }
  }

  /** No deletion call in `events` is for a payment instrument. */
  ghost predicate NoPaymentDeletes(events: seq<Event>) {
    forall e | e in events && e.Delete? :: e.target.service != "payments"
  }

  /** A row of the report that gets deleted is never a payment instrument. */
  lemma {:induction false} RunSkipsPayments(s: RunState, rows: seq<Row>, ok: nat -> bool)
    requires Fits(|s.lines|, rows) && NoPaymentDeletes(s.events)
    ensures NoPaymentDeletes(Run(s, rows, ok).events)
    decreases |rows|
  {
    if |rows| > 0 {
      var init, last := RunLast(s, rows, ok);
      RunSkipsPayments(s, init, ok);
      var added := StepDeletes(Run(s, init, ok), last, ok);
    }
  }

  /** The rows come from the parse results `ps`. */
  predicate FromParse(ps: seq<Option<Row>>, rows: seq<Row>) {
    forall r | r in rows :: r.index < |ps| && ps[r.index] == Some(r)
  }

  /** A line of the report is either as it was or, for a row that is not a
      payment instrument, the row with its first three cells marked. */
  ghost predicate MarkedOrKept(ps: seq<Option<Row>>, before: seq<string>, after: seq<string>) {
    && |after| == |before| == |ps|
    && forall i | 0 <= i < |before| ::
         after[i] == before[i]
         || (ps[i].Some? && |ps[i].value.parts| >= 4 && ps[i].value.service != "payments"
             && after[i] == MarkedLine(ps[i].value))
  }

  lemma {:induction false} RunMarks(s: RunState, rows: seq<Row>, ok: nat -> bool, ps: seq<Option<Row>>, lines: seq<string>)
    requires Fits(|s.lines|, rows) && FromParse(ps, rows)
    requires MarkedOrKept(ps, lines, s.lines)
    ensures MarkedOrKept(ps, lines, Run(s, rows, ok).lines)
    decreases |rows|
  {
    if |rows| > 0 {
      var init, last := RunLast(s, rows, ok);
      RunMarks(s, init, ok, ps, lines);
    }
  }

  /** The report as last saved: the one read, until the first save. */
  function LastSaved(events: seq<Event>, read: seq<string>): (saved: seq<string>)
    ensures (forall k | 0 <= k < |events| :: !events[k].Save?) ==> saved == read
  {
    if |events| == 0 then read
    else if events[|events| - 1].Save? then events[|events| - 1].lines
    else LastSaved(events[..|events| - 1], read)
  }

  lemma {:induction false} LastSavedSkips(events: seq<Event>, more: seq<Event>, read: seq<string>)
    requires forall k | 0 <= k < |more| :: !more[k].Save?
    ensures LastSaved(events + more, read) == LastSaved(events, read)
    decreases |more|
  {
    if |more| > 0 {
      var all := events + more;
      var front := more[..|more| - 1];
      assert !all[|all| - 1].Save? by {
        assert all[|all| - 1] == more[|more| - 1];
      }
      assert all[..|all| - 1] == events + front;
      assert forall k | 0 <= k < |front| :: !front[k].Save? by {
        forall k | 0 <= k < |front| ensures !front[k].Save? {
          assert front[k] == more[k];
        }
      }
      LastSavedSkips(events, front, read);
      assert LastSaved(all, read) == LastSaved(all[..|all| - 1], read);
    } else {
      assert events + more == events;
    }
  }

  /** Each successful deletion is followed by a save of the whole report, so
      the report on disk is always the one in memory once an iteration ends. */
  lemma {:induction false} RunSaves(s: RunState, rows: seq<Row>, ok: nat -> bool, read: seq<string>)
    requires Fits(|s.lines|, rows) && LastSaved(s.events, read) == s.lines
    ensures LastSaved(Run(s, rows, ok).events, read) == Run(s, rows, ok).lines
    decreases |rows|
  {
    if |rows| > 0 {
      var init, last := RunLast(s, rows, ok);
      RunSaves(s, init, ok, read);
      StepSaves(Run(s, init, ok), last, ok, read);
    }
  }

  lemma StepSaves(s: RunState, row: Row, ok: nat -> bool, read: seq<string>)
    requires row.index < |s.lines| && |row.parts| >= 4
    requires LastSaved(s.events, read) == s.lines
    ensures LastSaved(Step(s, row, ok).events, read) == Step(s, row, ok).lines
  {
    if row.service != "payments" {
      var a := Retry(TargetOf(row), ok, s.calls, 0);
      RetryEvents(TargetOf(row), ok, s.calls, 0);
      LastSavedSkips(s.events, a.events, read);
      if a.deleted {
        var lines := s.lines[row.index := MarkedLine(row)];
        assert Step(s, row, ok).events == (s.events + a.events + [Save(lines)]) + [Sleep(SaveDelay)];
        LastSavedSkips(s.events + a.events + [Save(lines)], [Sleep(SaveDelay)], read);
      }
    }
  }

  // ---------------------------------------------------------------------------
  // The same, for a whole run on a report
  // ---------------------------------------------------------------------------

  /** Deletion calls are made in order of deletion priority. */
  lemma CleanDeletesInOrder(lines: seq<string>, ok: nat -> bool)
    ensures DeletesOrdered(Clean(lines, ok).events)
  {
    QueueFits(lines);
    QueueFromLines(lines);
    RunDeletesInOrder(RunState(lines, [], 0), Queue(lines), ok);
  }

  /** No payment instrument is ever deleted. */
  lemma CleanSkipsPayments(lines: seq<string>, ok: nat -> bool)
    ensures NoPaymentDeletes(Clean(lines, ok).events)
  {
    QueueFits(lines);
    RunSkipsPayments(RunState(lines, [], 0), Queue(lines), ok);
  }

  /** The only lines that change are resource rows other than payment
      instruments, and they change into the row with its cells marked. */
  lemma CleanMarks(lines: seq<string>, ok: nat -> bool)
    ensures MarkedOrKept(ParseAll(lines), lines, Clean(lines, ok).lines)
    ensures forall k | 0 <= k < |Queue(lines)| ::
      && Queue(lines)[k].index < |lines| && |Queue(lines)[k].parts| >= 4
      && Clean(lines, ok).lines[Queue(lines)[k].index] ==
           if Queue(lines)[k].service != "payments" && Retry(TargetOf(Queue(lines)[k]), ok, Before(lines, ok, k).calls, 0).deleted
           then MarkedLine(Queue(lines)[k]) else lines[Queue(lines)[k].index]
  {
    forall k | 0 <= k < |Queue(lines)|
      ensures Queue(lines)[k].index < |lines| && |Queue(lines)[k].parts| >= 4
      ensures Clean(lines, ok).lines[Queue(lines)[k].index] ==
           if Queue(lines)[k].service != "payments" && Retry(TargetOf(Queue(lines)[k]), ok, Before(lines, ok, k).calls, 0).deleted
           then MarkedLine(Queue(lines)[k]) else lines[Queue(lines)[k].index]
    {
      CleanRowOutcome(lines, ok, k);
    }
    QueueFits(lines);
    QueueFromLines(lines);
    RunMarks(RunState(lines, [], 0), Queue(lines), ok, ParseAll(lines), lines);
  }

  /** The report on disk at the end is the report in memory. */
  lemma CleanSaves(lines: seq<string>, ok: nat -> bool)
    ensures LastSaved(Clean(lines, ok).events, lines) == Clean(lines, ok).lines
  {
    QueueFits(lines);
    RunSaves(RunState(lines, [], 0), Queue(lines), ok, lines);
  }

  /** A row without its cells: what the parser makes of a line apart from its text. */
  function Fields(r: Option<Row>): Option<Row> {
    match r
    case None => None
    case Some(row) => Some(row.(parts := []))
  }

  /** Reading the saved report again finds the same resources, with the same
      identifiers, services, types, priorities and tags, on the same lines. */
  lemma CleanRereads(lines: seq<string>, ok: nat -> bool)
    ensures var out := Clean(lines, ok).lines;
      |out| == |lines| && forall i | 0 <= i < |lines| :: Fields(ParseLine(out[i], i)) == Fields(ParseLine(lines[i], i))
  {
    var out := Clean(lines, ok).lines;
    var ps := ParseAll(lines);
    CleanMarks(lines, ok);
    forall i | 0 <= i < |lines| ensures Fields(ParseLine(out[i], i)) == Fields(ParseLine(lines[i], i)) {
      if out[i] != lines[i] {
        assert ps[i] == ParseLine(lines[i], i);
        ReparseMarked(lines[i], i);
      }
    }
  }

  // ---------------------------------------------------------------------------
  // main
  // ---------------------------------------------------------------------------

  /** The outcome of the retry loop when `tried` has been recorded and the
      loop is about to make attempt `attempt` with call `calls`. */
  ghost function Resume(tried: seq<Event>, t: Target, ok: nat -> bool, calls: nat, attempt: nat): Attempts {
    if attempt < MaxRetries then
      var rest := Retry(t, ok, calls, attempt);
      Attempts(tried + rest.events, rest.deleted, rest.next)
    else Attempts(tried, false, calls)
  }

  lemma ResumeFailed(tried: seq<Event>, t: Target, ok: nat -> bool, calls: nat, attempt: nat)
    requires attempt < MaxRetries && !ok(calls)
    ensures Resume(tried, t, ok, calls, attempt)
         == Resume(tried + [Delete(t)] + (if attempt < MaxRetries - 1 then [Sleep(RetryDelay)] else []),
                   t, ok, calls + 1, attempt + 1)
  {
    if attempt < MaxRetries - 1 {
      var rest := Retry(t, ok, calls + 1, attempt + 1);
      assert tried + ([Delete(t), Sleep(RetryDelay)] + rest.events)
          == tried + [Delete(t)] + [Sleep(RetryDelay)] + rest.events;
    }
  }

  lemma ResumeSucceeded(tried: seq<Event>, t: Target, ok: nat -> bool, calls: nat, attempt: nat)
    requires attempt < MaxRetries && ok(calls)
    ensures Resume(tried, t, ok, calls, attempt) == Attempts(tried + [Delete(t)], true, calls + 1)
  {
  }

  /** The retry loop of `main` for one resource, starting with call `start`. */
  method DeleteWithRetries(t: Target, ok: nat -> bool, start: nat) returns (tried: seq<Event>, success: bool, calls: nat)
    ensures Attempts(tried, success, calls) == Retry(t, ok, start, 0)
  {
    tried, success, calls := [], false, start;
    var attempt := 0;
    assert [] + Retry(t, ok, start, 0).events == Retry(t, ok, start, 0).events;
    while attempt < MaxRetries
      invariant attempt <= MaxRetries && !success
      invariant Retry(t, ok, start, 0) == Resume(tried, t, ok, calls, attempt)
    {
      success := ok(calls);
      if success {
        ResumeSucceeded(tried, t, ok, calls, attempt);
        tried := tried + [Delete(t)];
        calls := calls + 1;
        break;
      }
      ResumeFailed(tried, t, ok, calls, attempt);
      tried := tried + [Delete(t)];
      calls := calls + 1;
      if attempt < MaxRetries - 1 {
        tried := tried + [Sleep(RetryDelay)];
      } else {
        assert tried + [] == tried;
      }
      attempt := attempt + 1;
    }
  }

  /** One pass of the deletion loop of `main`. */
  method DeleteRow(s: RunState, row: Row, ok: nat -> bool) returns (r: RunState)
    requires row.index < |s.lines| && |row.parts| >= 4
    ensures r == Step(s, row, ok)
  {
    if row.service == "payments" {
      return s;
    }
    var tried, success, calls := DeleteWithRetries(TargetOf(row), ok, s.calls);
    if success {
      var lines := s.lines[row.index := MarkedLine(row)];
      r := RunState(lines, s.events + tried + [Save(lines), Sleep(SaveDelay)], calls);
    } else {
      r := RunState(s.lines, s.events + tried, calls);
    }
  }

  /** The deletion loop of `main` over the sorted rows. */
  method DeleteAll(lines: seq<string>, queue: seq<Row>, ok: nat -> bool) returns (s: RunState)
    requires Fits(|lines|, queue)
    ensures s == Run(RunState(lines, [], 0), queue, ok)
  {
    s := RunState(lines, [], 0);
    for i := 0 to |queue|
      invariant |s.lines| == |lines|
      invariant s == Run(RunState(lines, [], 0), queue[..i], ok)
    {
      assert queue[..i + 1][..i] == queue[..i];
      assert queue[i] in queue;
      s := DeleteRow(s, queue[i], ok);
    }
    assert queue[..|queue|] == queue;
  }

  /** `main` after the report has been read: returns the report lines as last
      saved and the events of the run. */
  method CleanReport(lines: seq<string>, ok: nat -> bool) returns (report: seq<string>, events: seq<Event>)
    ensures report == Clean(lines, ok).lines && events == Clean(lines, ok).events
  {
    var rows := CollectRows(lines);
    IntOrders();
    var queue := SortBy(rows, RowPriority, IntLe);
    assert queue == Queue(lines);
    QueueFits(lines);
    if |queue| == 0 {
      return lines, [];
    }
    var s := DeleteAll(lines, queue, ok);
    report, events := s.lines, s.events;
  }
}
