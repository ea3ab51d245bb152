/**
 * The GitHub component (pkg/component/application/github/v0/main.go): the
 * task dispatch table, the job loop of an execution, the webhook event
 * identification and parsing, and the registration lifecycle of the
 * "star" webhook against a hook store that stands for the GitHub API.
 */
module GitHub {
  import opened Wrappers
  import opened Strings
  import opened JsonValue

  // ---------------------------------------------------------------------------
  // Task dispatch
  // ---------------------------------------------------------------------------

  const TaskListPRs := "TASK_LIST_PULL_REQUESTS"
  const TaskGetPR := "TASK_GET_PULL_REQUEST"
  const TaskGetCommit := "TASK_GET_COMMIT"
  const TaskGetReviewComments := "TASK_LIST_REVIEW_COMMENTS"
  const TaskCreateReviewComment := "TASK_CREATE_REVIEW_COMMENT"
  const TaskListIssues := "TASK_LIST_ISSUES"
  const TaskGetIssue := "TASK_GET_ISSUE"
  const TaskCreateIssue := "TASK_CREATE_ISSUE"
  const TaskCreateWebhook := "TASK_CREATE_WEBHOOK"

  /** The nine task identifiers the component serves. */
  const Tasks: set<string> := {
    TaskListPRs, TaskGetPR, TaskGetCommit, TaskGetReviewComments, TaskCreateReviewComment,
    TaskListIssues, TaskGetIssue, TaskCreateIssue, TaskCreateWebhook
  }

  /** The client method an execution binds to its `execute` field. */
  datatype Handler =
    | ListPullRequests
    | GetPullRequest
    | ListReviewComments
    | CreateReviewComment
    | GetCommit
    | ListIssues
    | GetIssue
    | CreateIssue
    | CreateWebhook

  /** The task each handler serves. */
  function TaskOf(h: Handler): (t: string)
    ensures t in Tasks
  {
    match h
    case ListPullRequests => TaskListPRs
    case GetPullRequest => TaskGetPR
    case ListReviewComments => TaskGetReviewComments
    case CreateReviewComment => TaskCreateReviewComment
    case GetCommit => TaskGetCommit
    case ListIssues => TaskListIssues
    case GetIssue => TaskGetIssue
    case CreateIssue => TaskCreateIssue
    case CreateWebhook => TaskCreateWebhook
  }

  /** An error carrying a developer message and the message shown to the user. */
  datatype TaskError = TaskError(message: string, userMessage: string)

  /** CreateExecution: the handler bound to the execution's task. */
  function CreateExecution(task: string): (r: Result<Handler, TaskError>)
    ensures r.Ok? <==> task in Tasks
    ensures r.Ok? ==> TaskOf(r.value) == task
    ensures r.Err? ==> r.error == TaskError("not supported task: " + task, task + " task is not supported.")
  {
    if task == TaskListPRs then Ok(ListPullRequests)
    else if task == TaskGetPR then Ok(GetPullRequest)
    else if task == TaskGetReviewComments then Ok(ListReviewComments)
    else if task == TaskCreateReviewComment then Ok(CreateReviewComment)
    else if task == TaskGetCommit then Ok(GetCommit)
    else if task == TaskListIssues then Ok(ListIssues)
    else if task == TaskGetIssue then Ok(GetIssue)
    else if task == TaskCreateIssue then Ok(CreateIssue)
    else if task == TaskCreateWebhook then Ok(CreateWebhook)
    else Err(TaskError("not supported task: " + task, task + " task is not supported."))
  }

  /** Every handler is reached from its own task, so no two tasks share a handler. */
  lemma DispatchComplete(h: Handler)
    ensures CreateExecution(TaskOf(h)) == Ok(h)
  {
  }

  // ---------------------------------------------------------------------------
  // Execute: the job loop
  // ---------------------------------------------------------------------------

  /**
   * One job of a batch: what reading its input gives, and the error its
   * output sink returns when written to, if any.
   */
  datatype Job = Job(input: Result<Node, string>, writeError: Option<string>)

  /** A call on the sinks of the job at index `job`. */
  datatype SinkCall = Written(job: nat, output: Node) | Reported(job: nat, error: string)

  /** The output and error sinks of a batch, as the sequence of calls made on them. */
  class Sinks {
    var calls: seq<SinkCall>

    constructor()
      ensures calls == []
    {
      calls := [];
    }
  }

  /**
   * The sink calls made for the job at index `i`: the first failing step
   * among read, fill-defaults and the handler reports its error; when all
   * three succeed the output is written, and a failed write is reported.
   */
  function JobCalls(h: Handler, fill: Node -> Result<Node, string>, run: (Handler, Node) -> Result<Node, string>,
                    i: nat, job: Job): (calls: seq<SinkCall>)
  {
    match job.input
    case Err(e) => [Reported(i, e)]
    case Ok(input) =>
      match fill(input)
      case Err(e) => [Reported(i, e)]
      case Ok(filled) =>
        match run(h, filled)
        case Err(e) => [Reported(i, e)]
        case Ok(output) =>
          if job.writeError.Some? then [Written(i, output), Reported(i, job.writeError.value)]
          else [Written(i, output)]
  }

  /** A job makes one or two calls, all of them for itself. */
  lemma JobCallsOwn(h: Handler, fill: Node -> Result<Node, string>, run: (Handler, Node) -> Result<Node, string>,
                    i: nat, job: Job)
    ensures 1 <= |JobCalls(h, fill, run, i, job)| <= 2
    ensures forall k | 0 <= k < |JobCalls(h, fill, run, i, job)| :: JobCalls(h, fill, run, i, job)[k].job == i
  {
  }

  /** The calls each job makes on its own, by index. */
  function JobParts(h: Handler, fill: Node -> Result<Node, string>, run: (Handler, Node) -> Result<Node, string>,
                    jobs: seq<Job>): (parts: seq<seq<SinkCall>>)
    ensures |parts| == |jobs|
  {
    seq(|jobs|, k requires 0 <= k < |jobs| => JobCalls(h, fill, run, k, jobs[k]))
  }

  /** parts[0] + ... + parts[n - 1]. */
  function Concat(parts: seq<seq<SinkCall>>, n: nat): seq<SinkCall>
    requires n <= |parts|
  {
    if n == 0 then [] else Concat(parts, n - 1) + parts[n - 1]
  }

  /** The calls of jobs[..n], job after job. */
  function BatchCalls(h: Handler, fill: Node -> Result<Node, string>, run: (Handler, Node) -> Result<Node, string>,
                      jobs: seq<Job>, n: nat): seq<SinkCall>
    requires n <= |jobs|
  {
    Concat(JobParts(h, fill, run, jobs), n)
  }

  /** Every call in part k is made for job k. */
  predicate OwnParts(parts: seq<seq<SinkCall>>) {
    forall k: int, m: int | 0 <= k < |parts| && 0 <= m < |parts[k]| :: parts[k][m].job == k
  }

  lemma JobPartsOwn(h: Handler, fill: Node -> Result<Node, string>, run: (Handler, Node) -> Result<Node, string>,
                    jobs: seq<Job>)
    ensures OwnParts(JobParts(h, fill, run, jobs))
  {
    var parts: seq<seq<SinkCall>> := JobParts(h, fill, run, jobs);
    forall k: int, m: int | 0 <= k < |parts| && 0 <= m < |parts[k]|
      ensures parts[k][m].job == k
    {
      JobCallsOwn(h, fill, run, k, jobs[k]);
    }
  }

  lemma {:induction false} ConcatJobs(parts: seq<seq<SinkCall>>, n: nat)
    requires n <= |parts| && OwnParts(parts)
    ensures forall m | 0 <= m < |Concat(parts, n)| :: Concat(parts, n)[m].job < n
  {
    if n > 0 {
      ConcatJobs(parts, n - 1);
      assert Concat(parts, n) == Concat(parts, n - 1) + parts[n - 1];
    }
  }

  /** The calls in `calls` made for job `i`, in order. */
  function CallsOf(calls: seq<SinkCall>, i: nat): seq<SinkCall> {
    if calls == [] then []
    else (if calls[0].job == i then [calls[0]] else []) + CallsOf(calls[1..], i)
  }

  lemma {:induction false} CallsOfAppend(a: seq<SinkCall>, b: seq<SinkCall>, i: nat)
    ensures CallsOf(a + b, i) == CallsOf(a, i) + CallsOf(b, i)
  {
    if a == [] {
      assert a + b == b;
    } else {
      var head := if a[0].job == i then [a[0]] else [];
      assert (a + b)[0] == a[0];
      assert (a + b)[1..] == a[1..] + b;
      CallsOfAppend(a[1..], b, i);
      calc {
        CallsOf(a + b, i);
        head + CallsOf(a[1..] + b, i);
        head + (CallsOf(a[1..], i) + CallsOf(b, i));
        (head + CallsOf(a[1..], i)) + CallsOf(b, i);
      }
    }
  }

  lemma {:induction false} CallsOfNone(calls: seq<SinkCall>, i: nat)
    requires forall k | 0 <= k < |calls| :: calls[k].job != i
    ensures CallsOf(calls, i) == []
  {
    if calls != [] {
      CallsOfNone(calls[1..], i);
    }
  }

  lemma {:induction false} CallsOfAll(calls: seq<SinkCall>, i: nat)
    requires forall k | 0 <= k < |calls| :: calls[k].job == i
    ensures CallsOf(calls, i) == calls
  {
    if calls != [] {
      CallsOfAll(calls[1..], i);
    }
  }

  /** Appending the calls of one job `j` adds them to the calls of job `j` alone. */
  lemma CallsOfSnoc(prefix: seq<SinkCall>, last: seq<SinkCall>, i: nat, j: nat)
    requires forall k | 0 <= k < |last| :: last[k].job == j
    ensures CallsOf(prefix + last, i) == CallsOf(prefix, i) + (if i == j then last else [])
  {
    CallsOfAppend(prefix, last, i);
    if i == j {
      CallsOfAll(last, i);
    } else {
      CallsOfNone(last, i);
    }
  }

  /**
   * Jobs are isolated: the calls a batch makes for job i are exactly the
   * calls that job makes on its own, whatever the other jobs do.
   */
  lemma {:induction false} JobIsolation(h: Handler, fill: Node -> Result<Node, string>, run: (Handler, Node) -> Result<Node, string>,
                                        jobs: seq<Job>, n: nat, i: nat)
    requires n <= |jobs|
    ensures CallsOf(BatchCalls(h, fill, run, jobs, n), i) == if i < n then JobCalls(h, fill, run, i, jobs[i]) else []
  {
    JobPartsOwn(h, fill, run, jobs);
    ConcatIsolation(JobParts(h, fill, run, jobs), n, i);
  }

  /** Part i holds the only calls for job i in a concatenation of parts. */
  lemma {:induction false} ConcatIsolation(parts: seq<seq<SinkCall>>, n: nat, i: nat)
    requires n <= |parts| && OwnParts(parts)
    ensures CallsOf(Concat(parts, n), i) == if i < n then parts[i] else []
  {
    if n > 0 {
      ConcatLast(parts, n, i);
      if i != n - 1 {
        ConcatIsolation(parts, n - 1, i);
      }
    }
  }

  /** The last part adds its calls to job n - 1 alone, which no earlier part has calls for. */
  lemma ConcatLast(parts: seq<seq<SinkCall>>, n: nat, i: nat)
    requires 0 < n <= |parts| && OwnParts(parts)
    ensures CallsOf(Concat(parts, n), i) == if i == n - 1 then parts[i] else CallsOf(Concat(parts, n - 1), i)
  {
    var prefix := Concat(parts, n - 1);
    var last := parts[n - 1];
    assert Concat(parts, n) == prefix + last;
    CallsOfSnoc(prefix, last, i, n - 1);
    if i == n - 1 {
      ConcatJobs(parts, n - 1);
      CallsOfNone(prefix, i);
    }
  }


  /**
   * A job's output is written exactly when its read, its defaults and its
   * handler all succeed; an error is reported exactly when some step fails,
   * and a report is the job's last call, so no later step of it runs.
   */
  lemma JobOutcome(h: Handler, fill: Node -> Result<Node, string>, run: (Handler, Node) -> Result<Node, string>, i: nat, job: Job)
    ensures var calls := JobCalls(h, fill, run, i, job);
      var ran := job.input.Ok? && fill(job.input.value).Ok? && run(h, fill(job.input.value).value).Ok?;
      && ((exists k | 0 <= k < |calls| :: calls[k].Written?) <==> ran)
      && (ran ==> calls[0] == Written(i, run(h, fill(job.input.value).value).value))
      && ((exists k | 0 <= k < |calls| :: calls[k].Reported?) <==> !ran || job.writeError.Some?)
      && (forall k | 0 <= k < |calls| - 1 :: calls[k].Written?)
  {
    var calls := JobCalls(h, fill, run, i, job);
    // The first call, and the second when there is one, witness the existentials.
    assert calls[0].Written? || calls[0].Reported?;
    if |calls| == 2 {
      assert calls[1].Written? || calls[1].Reported?;
    }
  }

  /**
   * Execute: runs every job in input order, continuing after a failed job,
   * and returns no error.
   */
  method Execute(h: Handler, fill: Node -> Result<Node, string>, run: (Handler, Node) -> Result<Node, string>,
                 jobs: seq<Job>, sinks: Sinks) returns (err: Option<string>)
    modifies sinks
    ensures err.None?
    ensures sinks.calls == old(sinks.calls) + BatchCalls(h, fill, run, jobs, |jobs|)
  {
    for i := 0 to |jobs|
      invariant sinks.calls == old(sinks.calls) + BatchCalls(h, fill, run, jobs, i)
    {
      var calls := RunJob(h, fill, run, i, jobs[i]);
      BatchCallsStep(h, fill, run, jobs, i);
      sinks.calls := sinks.calls + calls;
    }
    return None;
  }

  lemma BatchCallsStep(h: Handler, fill: Node -> Result<Node, string>, run: (Handler, Node) -> Result<Node, string>,
                       jobs: seq<Job>, i: nat)
    requires i < |jobs|
    ensures BatchCalls(h, fill, run, jobs, i + 1) == BatchCalls(h, fill, run, jobs, i) + JobCalls(h, fill, run, i, jobs[i])
  {
  }

  /** The body of Execute's loop for the job at index `i`; a failed step skips the rest. */
  method RunJob(h: Handler, fill: Node -> Result<Node, string>, run: (Handler, Node) -> Result<Node, string>,
                i: nat, job: Job) returns (calls: seq<SinkCall>)
    ensures calls == JobCalls(h, fill, run, i, job)
  {
    if job.input.Err? {
      return [Reported(i, job.input.error)];
    }
    var filled := fill(job.input.value);
    if filled.Err? {
      return [Reported(i, filled.error)];
    }
    var output := run(h, filled.value);
    if output.Err? {
      return [Reported(i, output.error)];
    }
    calls := [Written(i, output.value)];
    if job.writeError.Some? {
      calls := calls + [Reported(i, job.writeError.value)];
    }
  }

  // ---------------------------------------------------------------------------
  // strconv.Atoi on a 64-bit platform
  // ---------------------------------------------------------------------------

  const MaxUint64: int := 0xffff_ffff_ffff_ffff
  const MaxInt64: int := 0x7fff_ffff_ffff_ffff
  const MinInt64: int := -0x8000_0000_0000_0000

  datatype NumErrorKind = ErrSyntax | ErrRange

  /** strconv.NumError: the function that failed, its input and the reason. */
  datatype NumError = NumError(func: string, num: string, err: NumErrorKind)

  predicate IsDigit(c: char) {
    '0' <= c <= '9'
  }

  function DigitValue(c: char): (d: nat)
    requires IsDigit(c)
    ensures d <= 9
  {
    c as int - '0' as int
  }

  function DigitChar(d: nat): (c: char)
    requires d <= 9
    ensures IsDigit(c) && DigitValue(c) == d
  {
    ('0' as int + d) as char
  }

  predicate AllDigits(s: string) {
    forall k | 0 <= k < |s| :: IsDigit(s[k])
  }

  /** The value of a string of decimal digits, most significant first. */
  function DecimalValue(s: string): nat
    requires AllDigits(s)
  {
    if s == [] then 0 else DecimalValue(s[..|s| - 1]) * 10 + DigitValue(s[|s| - 1])
  }

  /**
   * The unsigned digit scan of strconv.ParseUint over s[i..], n being the
   * value of the digits already read: a non-digit is a syntax error, and a
   * value past the 64-bit range is a range error as soon as it is reached.
   */
  function ScanUint(s: string, i: nat, n: nat): Result<nat, NumErrorKind>
    requires i <= |s| && n <= MaxUint64
    decreases |s| - i
  {
    if i == |s| then Ok(n)
    else if !IsDigit(s[i]) then Err(ErrSyntax)
    else if n * 10 + DigitValue(s[i]) > MaxUint64 then Err(ErrRange)
    else ScanUint(s, i + 1, n * 10 + DigitValue(s[i]))
  }

  /** The length of the optional sign at the head of `s`. */
  function SignLength(s: string): nat {
    if |s| > 0 && (s[0] == '-' || s[0] == '+') then 1 else 0
  }

  /** strconv.Atoi: an optional sign and at least one decimal digit, within the range of int. */
  function Atoi(s: string): (r: Result<int, NumError>)
    ensures r.Ok? ==> MinInt64 <= r.value <= MaxInt64
    ensures r.Err? ==> r.error.func == "Atoi" && r.error.num == s
  {
    var neg := |s| > 0 && s[0] == '-';
    var start := SignLength(s);
    if start == |s| then Err(NumError("Atoi", s, ErrSyntax))
    else match ScanUint(s, start, 0)
      case Err(kind) => Err(NumError("Atoi", s, kind))
      case Ok(u) =>
        if !neg && u > MaxInt64 then Err(NumError("Atoi", s, ErrRange))
        else if neg && u > MaxInt64 + 1 then Err(NumError("Atoi", s, ErrRange))
        else Ok(if neg then -(u as int) else u as int)
  }

  lemma {:induction false} DecimalValuePrefix(s: string, i: nat)
    requires AllDigits(s) && i <= |s|
    ensures DecimalValue(s[..i]) <= DecimalValue(s)
    decreases |s| - i
  {
    if i < |s| {
      DecimalValuePrefix(s[..|s| - 1], i);
      assert s[..|s| - 1][..i] == s[..i];
    } else {
      assert s[..i] == s;
    }
  }

  /** The scan reads a digit string whose value fits 64 bits to that value. */
  lemma {:induction false} ScanDigits(s: string, start: nat, i: nat)
    requires start <= i <= |s| && AllDigits(s[start..]) && DecimalValue(s[start..]) <= MaxUint64
    ensures DecimalValue(s[start..i]) <= MaxUint64
    ensures ScanUint(s, i, DecimalValue(s[start..i])) == Ok(DecimalValue(s[start..]))
    decreases |s| - i
  {
    assert s[start..][..i - start] == s[start..i];
    DecimalValuePrefix(s[start..], i - start);
    if i < |s| {
      assert s[start..][..i + 1 - start] == s[start..i + 1];
      DecimalValuePrefix(s[start..], i + 1 - start);
      assert s[start..i + 1][..i - start] == s[start..i];
      ScanDigits(s, start, i + 1);
    } else {
      assert s[start..i] == s[start..];
    }
  }

  /** strconv.Itoa's decimal digits of a natural number. */
  function Digits(n: nat): (s: string)
    ensures |s| > 0 && AllDigits(s) && DecimalValue(s) == n
  {
    if n < 10 then [DigitChar(n)]
    else
      var s := Digits(n / 10) + [DigitChar(n % 10)];
      assert s[..|s| - 1] == Digits(n / 10);
      s
  }

  /** strconv.Itoa: the decimal form of n, with a '-' when negative. */
  function Itoa(n: int): string {
    if n < 0 then "-" + Digits(-n) else Digits(n)
  }

  /** Atoi reads back what Itoa writes, for every value of a 64-bit int. */
  lemma AtoiItoa(n: int)
    requires MinInt64 <= n <= MaxInt64
    ensures Atoi(Itoa(n)) == Ok(n)
  {
    var s := Itoa(n);
    var start := SignLength(s);
    if n < 0 {
      assert s[1..] == Digits(-n);
      assert start == 1;
    } else {
      assert s[0] == Digits(n)[0];
      assert start == 0 && s[0..] == s;
    }
    assert s[start..start] == [];
    ScanDigits(s, start, start);
  }

  /** What Atoi accepts: an optional sign followed by digits only, in range. */
  lemma AtoiAccepts(s: string)
    requires Atoi(s).Ok?
    ensures SignLength(s) < |s| && AllDigits(s[SignLength(s)..])
  {
    var start := SignLength(s);
    ScanAccepts(s, start, 0);
  }

  lemma {:induction false} ScanAccepts(s: string, i: nat, n: nat)
    requires i <= |s| && n <= MaxUint64 && ScanUint(s, i, n).Ok?
    ensures AllDigits(s[i..])
    decreases |s| - i
  {
    if i < |s| {
      ScanAccepts(s, i + 1, n * 10 + DigitValue(s[i]));
      assert forall k | 0 < k < |s[i..]| :: s[i..][k] == s[i + 1..][k - 1];
    }
  }

  // ---------------------------------------------------------------------------
  // Webhook identification and parsing
  // ---------------------------------------------------------------------------

  const EventHeader := "x-github-event"
  const HookIdHeader := "x-github-hook-id"

  /** An HTTP header: the values of each key, in order. */
  type Header = map<string, seq<string>>

  /** The identifier of a webhook subscription: `{"hook-id": id}`. */
  function HookIdentifier(id: int): Node {
    map["hook-id" := JNum(id)]
  }

  /** base.IdentifierResult; `response` is None where the source leaves it nil. */
  datatype IdentifierResult = IdentifierResult(skipTrigger: bool, response: Option<Node>, identifiers: seq<Node>)

  predicate IsPing(header: Header) {
    EventHeader in header && |header[EventHeader]| > 0 && header[EventHeader][0] == "ping"
  }

  predicate HasHookId(header: Header) {
    HookIdHeader in header && |header[HookIdHeader]| > 0
  }

  /** IdentifyEvent: which subscription a delivery belongs to, if any. */
  function IdentifyEvent(header: Header): (r: Result<Option<IdentifierResult>, NumError>)
    ensures IsPing(header) ==> r == Ok(Some(IdentifierResult(true, Some(map[]), [])))
    ensures r.Err? <==> !IsPing(header) && HasHookId(header) && Atoi(header[HookIdHeader][0]).Err?
    ensures r == Ok(None) <==> !IsPing(header) && !HasHookId(header)
    ensures r.Ok? && r.value.Some? && !r.value.value.skipTrigger ==>
      exists n | MinInt64 <= n <= MaxInt64 :: r.value.value == IdentifierResult(false, None, [HookIdentifier(n)])
  {
    if IsPing(header) then Ok(Some(IdentifierResult(true, Some(map[]), [])))
    else if HasHookId(header) then
      match Atoi(header[HookIdHeader][0])
      case Err(e) => Err(e)
      case Ok(n) => Ok(Some(IdentifierResult(false, None, [HookIdentifier(n)])))
    else Ok(None)
  }

  /**
   * A delivery of the hook that RegisterEvent answered `id` for is identified
   * by that same identifier.
   */
  lemma IdentifyRegistered(header: Header, id: int)
    requires MinInt64 <= id <= MaxInt64
    requires !IsPing(header) && HookIdHeader in header && header[HookIdHeader] == [Itoa(id)]
    ensures IdentifyEvent(header) == Ok(Some(IdentifierResult(false, None, [HookIdentifier(id)])))
  {
    AtoiItoa(id);
  }

  datatype EventError =
    | Panic                                  // the event header is missing
    | UnsupportedEvent(message: string)

  /** base.ParsedEvent. */
  datatype ParsedEvent = ParsedEvent(parsedMessage: Json, response: Node)

  /** ParseEvent: only a "star" event with action "created" is accepted, passed on unchanged. */
  function ParseEvent(header: Header, action: string, message: Json): (r: Result<ParsedEvent, EventError>)
    ensures r.Ok? ==> r.value == ParsedEvent(message, map[])
    ensures r == Err(Panic) <==> !(EventHeader in header && |header[EventHeader]| > 0)
    ensures r.Err? && r != Err(Panic) ==>
      r.error == UnsupportedEvent("not supported event: " + header[EventHeader][0] + "." + action)
  {
    if !(EventHeader in header && |header[EventHeader]| > 0) then Err(Panic)
    else
      var event := header[EventHeader][0];
      if event + "." + action == "star.created" then Ok(ParsedEvent(message, map[]))
      else Err(UnsupportedEvent("not supported event: " + event + "." + action))
  }

  /**
   * The joined key is matched, not the two parts; as "star.created" has a
   * single dot, it still singles out the event "star" with the action "created".
   */
  lemma ParseEventAccepts(header: Header, action: string, message: Json)
    requires EventHeader in header && |header[EventHeader]| > 0
    ensures ParseEvent(header, action, message).Ok? <==> header[EventHeader][0] == "star" && action == "created"
  {
    var event := header[EventHeader][0];
    var key := event + "." + action;
    if key == "star.created" {
      assert key[|event|] == '.';
      assert |event| == 4;
      assert action == key[|event| + 1..];
      assert event == key[..|event|];
    }
  }

  // ---------------------------------------------------------------------------
  // The hook store and the webhook subscription lifecycle
  // ---------------------------------------------------------------------------

  /** A repository webhook; `url`, `contentType` and `insecureSsl` are its config. */
  datatype Hook = Hook(id: int, url: string, events: seq<string>, active: bool, contentType: string, insecureSsl: string)

  /** A repository, named by its owner and its name. */
  type Repo = (string, string)

  datatype VendorError = Unavailable | NotFound

  /** The hooks of repository `r` in `hooks`; a repository never seen has none. */
  function HooksIn(hooks: map<Repo, seq<Hook>>, r: Repo): seq<Hook> {
    if r in hooks then hooks[r] else []
  }

  /** The last position of a hook with this id among `hooks`, if any. */
  function IndexOfId(hooks: seq<Hook>, id: int): (r: Option<nat>)
    ensures r.Some? ==> r.value < |hooks| && hooks[r.value].id == id
    ensures r.Some? ==> forall j | r.value < j < |hooks| :: hooks[j].id != id
    ensures r.None? ==> forall j | 0 <= j < |hooks| :: hooks[j].id != id
  {
    if hooks == [] then None
    else if hooks[|hooks| - 1].id == id then Some(|hooks| - 1)
    else IndexOfId(hooks[..|hooks| - 1], id)
  }

  predicate DistinctIds(hooks: seq<Hook>) {
    forall a, b | 0 <= a < b < |hooks| :: hooks[a].id != hooks[b].id
  }

  /**
   * The webhooks of every repository, as the GitHub API keeps them. Calls
   * are numbered from 0; `failing` holds the numbers of the calls the API
   * fails, standing for network and authorisation errors.
   */
  class HookStore {
    var hooks: map<Repo, seq<Hook>>
    var nextId: int
    var callCount: nat
    const failing: set<nat>

    /** Ids are positive, unique within a repository and below nextId; every hook has an event. */
    ghost predicate Valid()
      reads this
    {
      && 0 < nextId
      && forall r | r in hooks :: DistinctIds(hooks[r]) && forall j | 0 <= j < |hooks[r]| ::
        0 < hooks[r][j].id < nextId && |hooks[r][j].events| > 0
    }

    function HooksAt(r: Repo): seq<Hook>
      reads this
    {
      HooksIn(hooks, r)
    }

    constructor(failing: set<nat>)
      ensures Valid() && hooks == map[] && nextId == 1 && callCount == 0 && this.failing == failing
    {
      hooks := map[];
      nextId := 1;
      callCount := 0;
      this.failing := failing;
    }

    /** Repositories.ListHooks: every hook of the repository, in order. */
    method ListHooks(r: Repo) returns (result: Result<seq<Hook>, VendorError>)
      modifies this`callCount
      ensures callCount == old(callCount) + 1
      ensures result == if old(callCount) in failing then Err(Unavailable) else Ok(HooksAt(r))
    {
      result := if callCount in failing then Err(Unavailable) else Ok(HooksAt(r));
      callCount := callCount + 1;
    }

    /** Repositories.EditHook with only `active` set: the rest of the hook is kept. */
    method EditHook(r: Repo, id: int, active: bool) returns (err: Option<VendorError>)
      requires Valid()
      modifies this`callCount, this`hooks
      ensures Valid() && callCount == old(callCount) + 1
      ensures err == if old(callCount) in failing then Some(Unavailable)
                     else if IndexOfId(old(HooksAt(r)), id).None? then Some(NotFound) else None
      ensures HooksAt(r) == if err.None? then SetActive(old(HooksAt(r)), id, active) else old(HooksAt(r))
      ensures SameElsewhere(old(hooks), hooks, r)
    {
      var hs := HooksAt(r);
      SetActiveAt(hs, id, active);
      if callCount in failing {
        err := Some(Unavailable);
      } else if IndexOfId(hs, id).None? {
        err := Some(NotFound);
      } else {
        hooks := hooks[r := SetActive(hs, id, active)];
        err := None;
      }
      callCount := callCount + 1;
    }

    /** Repositories.CreateHook: a new hook with a fresh id, appended to the repository's hooks. */
    method CreateHook(r: Repo, url: string, events: seq<string>, active: bool, contentType: string, insecureSsl: string)
      returns (result: Result<Hook, VendorError>)
      requires Valid() && |events| > 0
      modifies this`callCount, this`hooks, this`nextId
      ensures Valid() && callCount == old(callCount) + 1
      ensures SameElsewhere(old(hooks), hooks, r)
      ensures old(callCount) in failing ==> result == Err(Unavailable) && HooksAt(r) == old(HooksAt(r)) && nextId == old(nextId)
      ensures old(callCount) !in failing ==>
        && result == Ok(Hook(old(nextId), url, events, active, contentType, insecureSsl))
        && HooksAt(r) == old(HooksAt(r)) + [result.value]
        && nextId == old(nextId) + 1
    {
      if callCount in failing {
        result := Err(Unavailable);
      } else {
        var hook := Hook(nextId, url, events, active, contentType, insecureSsl);
        hooks := hooks[r := HooksAt(r) + [hook]];
        nextId := nextId + 1;
        result := Ok(hook);
      }
      callCount := callCount + 1;
    }
  }

  /** The hooks with the one whose id is `id` set to `active`, everything else kept. */
  function SetActive(hooks: seq<Hook>, id: int, active: bool): (r: seq<Hook>)
    ensures |r| == |hooks|
  {
    match IndexOfId(hooks, id)
    case None => hooks
    case Some(j) => hooks[j := hooks[j].(active := active)]
  }

  lemma SetActiveAt(hooks: seq<Hook>, id: int, active: bool)
    ensures forall j | 0 <= j < |hooks| ::
      SetActive(hooks, id, active)[j] ==
        if hooks[j].id == id && IndexOfId(hooks, id) == Some(j) then hooks[j].(active := active) else hooks[j]
  {
  }

  /** With unique ids, setting a hook's `active` touches that hook and no other. */
  lemma SetActiveUnique(hooks: seq<Hook>, id: int, active: bool)
    requires DistinctIds(hooks)
    ensures forall j | 0 <= j < |hooks| ::
      SetActive(hooks, id, active)[j] == if hooks[j].id == id then hooks[j].(active := active) else hooks[j]
  {
    SetActiveAt(hooks, id, active);
  }

  /** The callback URL the deliveries are posted to. */
  function CallbackUrl(host: string): string {
    host + "/v1beta/pipeline-webhooks/github"
  }

  /** The insecure_ssl setting of a new hook: "0" for an https host, "1" otherwise. */
  function InsecureSsl(host: string): string {
    if HasPrefix(host, "https://") then "0" else "1"
  }

  /** A hook RegisterEvent reuses: it posts to the callback and its first event is "star". */
  predicate Matches(hook: Hook, url: string) {
    hook.url == url && |hook.events| > 0 && hook.events[0] == "star"
  }

  /** The position of the first hook that matches, if any. */
  function FirstMatch(hooks: seq<Hook>, url: string): (r: Option<nat>)
    ensures r.Some? ==>
      r.value < |hooks| && Matches(hooks[r.value], url) && forall j | 0 <= j < r.value :: !Matches(hooks[j], url)
    ensures r.None? ==> forall j | 0 <= j < |hooks| :: !Matches(hooks[j], url)
  {
    if hooks == [] then None
    else if Matches(hooks[0], url) then Some(0)
    else match FirstMatch(hooks[1..], url)
      case None => None
      case Some(j) => Some(j + 1)
  }

  /**
   * The hooks of the repository after a successful registration, and the id
   * answered: the first matching hook reactivated, or else a new "star" hook.
   */
  function Registered(hooks: seq<Hook>, host: string, nextId: int): (seq<Hook>, int) {
    var url := CallbackUrl(host);
    match FirstMatch(hooks, url)
    case Some(j) => (hooks[j := hooks[j].(active := true)], hooks[j].id)
    case None => (hooks + [Hook(nextId, url, ["star"], true, "json", InsecureSsl(host))], nextId)
  }

  /**
   * Registration keeps every hook but the one it answers for, which is active,
   * posts to the callback and has "star" first; at most one hook is added,
   * and only when none matched.
   */
  lemma RegisteredShape(hooks: seq<Hook>, host: string, nextId: int)
    ensures var (after, id) := Registered(hooks, host, nextId);
      var created := FirstMatch(hooks, CallbackUrl(host)).None?;
      && |after| == |hooks| + (if created then 1 else 0)
      && (exists j | 0 <= j < |after| :: after[j].id == id && after[j].active && Matches(after[j], CallbackUrl(host)))
      && (forall j | 0 <= j < |hooks| :: after[j] == hooks[j] || (after[j] == hooks[j].(active := true) && after[j].id == id))
      && (created ==> id == nextId && after[|hooks|] == Hook(nextId, CallbackUrl(host), ["star"], true, "json", InsecureSsl(host)))
  {
    var (after, id) := Registered(hooks, host, nextId);
    var url := CallbackUrl(host);
    match FirstMatch(hooks, url)
    case Some(j) =>
      assert after[j].id == id && after[j].active && Matches(after[j], url);
    case None =>
      var k := |hooks|;
      assert after[k].id == id && after[k].active && Matches(after[k], url);
  }

  /** Registering twice adds no second hook and answers the same id. */
  lemma RegisterIdempotent(hooks: seq<Hook>, host: string, nextId: int, laterId: int)
    ensures var (once, id) := Registered(hooks, host, nextId);
      Registered(once, host, laterId) == (once, id)
  {
    var url := CallbackUrl(host);
    var (once, id) := Registered(hooks, host, nextId);
    match FirstMatch(hooks, url)
    case Some(j) =>
      SameMatch(hooks, once, url, j);
      assert once[j := once[j].(active := true)] == once;
    case None =>
      var k := |hooks|;
      assert forall j | 0 <= j < k :: once[j] == hooks[j];
      assert Matches(once[k], url);
      assert FirstMatch(once, url) == Some(k) by { FirstMatchIs(once, url, k); }
      assert once[k := once[k].(active := true)] == once;
  }

  /** Changing only `active` of a hook keeps the first match where it was. */
  lemma SameMatch(hooks: seq<Hook>, after: seq<Hook>, url: string, j: nat)
    requires FirstMatch(hooks, url) == Some(j)
    requires after == hooks[j := hooks[j].(active := true)]
    ensures FirstMatch(after, url) == Some(j)
  {
    FirstMatchIs(after, url, j);
  }

  lemma {:induction false} FirstMatchIs(hooks: seq<Hook>, url: string, j: nat)
    requires j < |hooks| && Matches(hooks[j], url) && forall k | 0 <= k < j :: !Matches(hooks[k], url)
    ensures FirstMatch(hooks, url) == Some(j)
  {
    if j > 0 {
      assert !Matches(hooks[0], url);
      FirstMatchIs(hooks[1..], url, j - 1);
    }
  }

  /**
   * Re-registering after unregistering reactivates the same hook instead of
   * adding one, for a store whose ids are unique and below the next id.
   */
  lemma ReregisterReuses(hooks: seq<Hook>, host: string, nextId: int, laterId: int)
    requires DistinctIds(hooks) && forall k | 0 <= k < |hooks| :: hooks[k].id < nextId
    ensures var (once, id) := Registered(hooks, host, nextId);
      Registered(Deactivated(once, [id]), host, laterId) == (once, id)
  {
    var url := CallbackUrl(host);
    var (once, id) := Registered(hooks, host, nextId);
    var j: nat;
    match FirstMatch(hooks, url) {
      case Some(m) =>
        j := m;
        SameMatch(hooks, once, url, m);
      case None =>
        j := |hooks|;
        FirstMatchIs(once, url, j);
    }
    assert FirstMatch(once, url) == Some(j) && once[j].id == id && once[j].active;
    assert DistinctIds(once);
    var off := Deactivated(once, [id]);
    DeactivatedOne(once, id);
    assert off == once[j := once[j].(active := false)];
    FirstMatchIs(off, url, j);
    assert off[j := off[j].(active := true)] == once;
  }

  /** The hooks of every repository but `r` are the same in both maps. */
  ghost predicate SameElsewhere(before: map<Repo, seq<Hook>>, after: map<Repo, seq<Hook>>, r: Repo) {
    forall other | other != r :: HooksIn(after, other) == HooksIn(before, other)
  }

  /** The repository a config names: owner and name around the first '/'. */
  function RepoOf(repository: string): Option<Repo> {
    Cut(repository, '/')
  }

  datatype EventRegistrationError =
    | InvalidRepository(message: string)
    | Vendor(error: VendorError)

  /**
   * RegisterEvent: subscribes the callback to the repository's "star" events,
   * reusing the first matching hook, and answers the hook's identifier.
   */
  method RegisterEvent(store: HookStore, host: string, repository: string)
    returns (r: Result<seq<Node>, EventRegistrationError>)
    requires store.Valid()
    modifies store
    ensures store.Valid()
    ensures RepoOf(repository).None? ==>
      r == Err(InvalidRepository("invalid repository format: " + repository)) && unchanged(store)
    ensures RepoOf(repository).Some? ==>
      var repo := RepoOf(repository).value;
      var (after, id) := Registered(old(store.HooksAt(repo)), host, old(store.nextId));
      && (r.Ok? <==> old(store.callCount) !in store.failing && old(store.callCount) + 1 !in store.failing)
      && SameElsewhere(old(store.hooks), store.hooks, repo)
      && (r.Ok? ==> r.value == [HookIdentifier(id)] && store.HooksAt(repo) == after)
      && (r.Err? ==> r == Err(Vendor(Unavailable)) && store.HooksAt(repo) == old(store.HooksAt(repo)))
  {
    var repo := RepoOf(repository);
    if repo.None? {
      return Err(InvalidRepository("invalid repository format: " + repository));
    }
    var subscribed := Subscribe(store, repo.value, host);
    if subscribed.Err? {
      return Err(Vendor(subscribed.error));
    }
    return Ok([HookIdentifier(subscribed.value)]);
  }

  /**
   * The vendor calls of RegisterEvent on a well-formed repository: list the
   * hooks, reactivate the first matching one or else create one, and answer
   * the hook's id.
   */
  method Subscribe(store: HookStore, repo: Repo, host: string) returns (r: Result<int, VendorError>)
    requires store.Valid()
    modifies store
    ensures store.Valid()
    ensures var (after, id) := Registered(old(store.HooksAt(repo)), host, old(store.nextId));
      && (r.Ok? <==> old(store.callCount) !in store.failing && old(store.callCount) + 1 !in store.failing)
      && SameElsewhere(old(store.hooks), store.hooks, repo)
      && (r.Ok? ==> r.value == id && store.HooksAt(repo) == after)
      && (r.Err? ==> r.error == Unavailable && store.HooksAt(repo) == old(store.HooksAt(repo)))
  {
    var url := CallbackUrl(host);
    var listed := store.ListHooks(repo);
    if listed.Err? {
      return Err(listed.error);
    }
    var hooks := listed.value;
    var existingHook := false;
    var hookId := 0;
    var i := 0;
    while i < |hooks|
      invariant 0 <= i <= |hooks| && !existingHook
      invariant forall j | 0 <= j < i :: !Matches(hooks[j], url)
      invariant store.hooks == old(store.hooks) && store.nextId == old(store.nextId)
      invariant store.callCount == old(store.callCount) + 1
    {
      if Matches(hooks[i], url) {
        existingHook := true;
        var err := store.EditHook(repo, hooks[i].id, true);
        if err.Some? {
          return Err(err.value);
        }
        hookId := hooks[i].id;
        FirstMatchIs(hooks, url, i);
        break;
      }
      i := i + 1;
    }
    if !existingHook {
      var created := store.CreateHook(repo, url, ["star"], true, "json", InsecureSsl(host));
      if created.Err? {
        return Err(created.error);
      }
      hookId := created.value.id;
    } else {
      SetActiveUnique(hooks, hookId, true);
      assert SetActive(hooks, hookId, true) == hooks[i := hooks[i].(active := true)];
    }
    return Ok(hookId);
  }

  /** Whether an identifier names a hook: it has a numeric "hook-id". */
  predicate NamesHook(identifier: Node) {
    "hook-id" in identifier && identifier["hook-id"].JNum?
  }

  /** The hook ids named by the identifiers, in order. */
  function HookIds(identifiers: seq<Node>): (ids: seq<int>)
    ensures |ids| <= |identifiers|
  {
    if identifiers == [] then []
    else
      var last := identifiers[|identifiers| - 1];
      HookIds(identifiers[..|identifiers| - 1]) + (if NamesHook(last) then [last["hook-id"].n] else [])
  }

  /** The hooks with each hook named in `ids` set inactive, one edit after another. */
  function Deactivated(hooks: seq<Hook>, ids: seq<int>): (r: seq<Hook>)
    ensures |r| == |hooks|
  {
    if ids == [] then hooks else SetActive(Deactivated(hooks, ids[..|ids| - 1]), ids[|ids| - 1], false)
  }

  lemma DeactivatedOne(hooks: seq<Hook>, id: int)
    requires DistinctIds(hooks)
    ensures forall j | 0 <= j < |hooks| ::
      Deactivated(hooks, [id])[j] == if hooks[j].id == id then hooks[j].(active := false) else hooks[j]
  {
    assert [id][..0] == [];
    SetActiveUnique(hooks, id, false);
  }

  /**
   * Unregistering never deletes or reconfigures a hook: a hook named by the
   * ids is inactive afterwards and every other hook is unchanged.
   */
  lemma {:induction false} DeactivatedMeaning(hooks: seq<Hook>, ids: seq<int>)
    requires DistinctIds(hooks)
    ensures forall j | 0 <= j < |hooks| ::
      Deactivated(hooks, ids)[j] == if hooks[j].id in ids then hooks[j].(active := false) else hooks[j]
  {
    if ids != [] {
      var prev := ids[..|ids| - 1];
      DeactivatedMeaning(hooks, prev);
      var mid := Deactivated(hooks, prev);
      assert forall j | 0 <= j < |hooks| :: mid[j].id == hooks[j].id;
      assert DistinctIds(mid);
      SetActiveUnique(mid, ids[|ids| - 1], false);
      assert forall x :: x in ids <==> x in prev || x == ids[|ids| - 1] by {
        assert ids == prev + [ids[|ids| - 1]];
      }
    }
  }

  /**
   * UnregisterEvent: sets inactive, in order, every hook named by an
   * identifier, stopping at the first failed edit.
   */
  method UnregisterEvent(store: HookStore, repository: string, identifiers: seq<Node>)
    returns (err: Option<EventRegistrationError>)
    requires store.Valid()
    requires forall k | 0 <= k < |identifiers| :: "hook-id" in identifiers[k] ==> identifiers[k]["hook-id"].JNum?
    modifies store
    ensures store.Valid() && store.nextId == old(store.nextId)
    ensures RepoOf(repository).None? ==>
      err == Some(InvalidRepository("invalid repository format: " + repository)) && unchanged(store)
    ensures RepoOf(repository).Some? ==>
      var repo := RepoOf(repository).value;
      var ids := HookIds(identifiers);
      && SameElsewhere(old(store.hooks), store.hooks, repo)
      && (err.None? ==> store.HooksAt(repo) == Deactivated(old(store.HooksAt(repo)), ids))
      && (err.Some? ==> err.value.Vendor? && exists n | 0 <= n < |ids| ::
            store.HooksAt(repo) == Deactivated(old(store.HooksAt(repo)), ids[..n]))
  {
    var repo := RepoOf(repository);
    if repo.None? {
      return Some(InvalidRepository("invalid repository format: " + repository));
    }
    var e := Unsubscribe(store, repo.value, identifiers);
    if e.Some? {
      return Some(Vendor(e.value));
    }
    return None;
  }

  /**
   * The vendor calls of UnregisterEvent on a well-formed repository: one
   * edit per identifier that names a hook, in order, stopping at the first
   * failed edit.
   */
  method Unsubscribe(store: HookStore, repo: Repo, identifiers: seq<Node>) returns (err: Option<VendorError>)
    requires store.Valid()
    requires forall k | 0 <= k < |identifiers| :: "hook-id" in identifiers[k] ==> identifiers[k]["hook-id"].JNum?
    modifies store
    ensures store.Valid() && store.nextId == old(store.nextId)
    ensures SameElsewhere(old(store.hooks), store.hooks, repo)
    ensures err.None? ==> store.HooksAt(repo) == Deactivated(old(store.HooksAt(repo)), HookIds(identifiers))
    ensures err.Some? ==> exists n | 0 <= n < |HookIds(identifiers)| ::
      store.HooksAt(repo) == Deactivated(old(store.HooksAt(repo)), HookIds(identifiers)[..n])
  {
    ghost var before := store.HooksAt(repo);
    var k := 0;
    while k < |identifiers|
      invariant 0 <= k <= |identifiers|
      invariant store.Valid() && store.nextId == old(store.nextId)
      invariant SameElsewhere(old(store.hooks), store.hooks, repo)
      invariant store.HooksAt(repo) == Deactivated(before, HookIds(identifiers[..k]))
    {
      var id := identifiers[k];
      ghost var done := HookIds(identifiers[..k]);
      HookIdsStep(identifiers, k);
      if "hook-id" in id {
        assert NamesHook(id);
        var e := store.EditHook(repo, id["hook-id"].n, false);
        if e.Some? {
          HookIdsPrefix(identifiers, k);
          return e;
        }
        DeactivatedSnoc(before, done, id["hook-id"].n);
      } else {
        assert HookIds(identifiers[..k + 1]) == done;
      }
      k := k + 1;
    }
    assert identifiers[..k] == identifiers;
    return None;
  }

  lemma DeactivatedSnoc(hooks: seq<Hook>, ids: seq<int>, id: int)
    ensures Deactivated(hooks, ids + [id]) == SetActive(Deactivated(hooks, ids), id, false)
  {
    assert (ids + [id])[..|ids|] == ids;
  }

  lemma HookIdsStep(identifiers: seq<Node>, k: nat)
    requires k < |identifiers|
    ensures HookIds(identifiers[..k + 1]) == HookIds(identifiers[..k]) +
      if NamesHook(identifiers[k]) then [identifiers[k]["hook-id"].n] else []
  {
    assert identifiers[..k + 1][..k] == identifiers[..k];
  }

  /** The ids named before position k are a proper prefix of all the ids named, when k names one. */
  lemma {:induction false} HookIdsPrefix(identifiers: seq<Node>, k: nat)
    requires k < |identifiers| && NamesHook(identifiers[k])
    ensures var n := |HookIds(identifiers[..k])|;
      n < |HookIds(identifiers)| && HookIds(identifiers)[..n] == HookIds(identifiers[..k])
    decreases |identifiers|
  {
    if k + 1 == |identifiers| {
      assert identifiers[..|identifiers| - 1] == identifiers[..k];
    } else {
      var init := identifiers[..|identifiers| - 1];
      assert init[..k] == identifiers[..k];
      HookIdsPrefix(init, k);
    }
  }
}
