/**
 The summary pipeline: any number of five-stage flows, worked on by any number of workers in any
 order, with attempts that fail before or after their effect, while people keep writing messages and
 delete groups.
 Only the rules of the queue are assumed: a job waits for its child, an attempt is retried up to
 three times, and a job that fails for good takes its ancestors with it.
 */
module SummaryFlow {
  import opened Wrappers
  import opened Keyset
  import opened MessageTable
  import opened SummaryQueue

  // ---------- The stages ----------

  const FETCH := 0
  const GENERATE := 1
  const SAVE := 2
  const PUBLISH := 3
  const ROOT := 4
  const STAGES := 5

  datatype Skip = EXISTS | EMPTY | BLANK

  datatype Line = Line(sender: string, content: string)

  datatype FetchResult = SkipFetch(reason: Skip) | Transcript(group: Group, lines: seq<Line>)
  datatype GenerateResult = SkipGenerate(reason: Skip) | Text(group: Group, text: string)
  datatype SaveResult = SkipSave | Saved(message: Row)

  datatype Value =
    | Fetched(f: FetchResult)
    | Generated(g: GenerateResult)
    | Persisted(s: SaveResult)
    | Broadcast(published: bool)
    | Finished(published: bool)

  const UNKNOWN_SENDER := "Unknown"

  predicate IsSummary(row: Row, group: Group, since: int) {
    row.group == group && row.kind == AI_SUMMARY && row.createdAt >= since
  }

  predicate HasSummarySince(rows: map<Id, Row>, group: Group, since: int) {
    exists id :: id in rows && IsSummary(rows[id], group, since)
  }

  predicate InWindow(row: Row, group: Group, since: int) {
    row.group == group && row.kind == USER && row.createdAt >= since && row.deletedAt.None?
  }

  /** What `findForSummary` may answer; rows of one timestamp come in any order. */
  ghost predicate IsWindow(rows: map<Id, Row>, group: Group, since: int, found: seq<Row>) {
    && (forall i, j | 0 <= i < j < |found| :: found[i].createdAt <= found[j].createdAt && found[i] != found[j])
    && (forall row :: row in found <==> row.id in rows && rows[row.id] == row && InWindow(row, group, since))
  }

  function LineOf(names: map<User, string>, row: Row): Line {
    Line(if row.sender.Some? && row.sender.value in names then names[row.sender.value] else UNKNOWN_SENDER, row.content)
  }

  function Fetch(names: map<User, string>, group: Group, found: seq<Row>): FetchResult {
    if |found| == 0 then SkipFetch(EMPTY)
    else Transcript(group, seq(|found|, i requires 0 <= i < |found| => LineOf(names, found[i])))
  }

  function WindowIds(rows: map<Id, Row>, group: Group, since: int): set<Id> {
    set id | id in rows && rows[id].group == group && rows[id].kind == USER && rows[id].createdAt >= since
             && rows[id].deletedAt.None?
  }

  /**
   The fetch skips as empty exactly when the group has no undeleted USER message since `since`;
   otherwise the transcript has one line for each such message and for no other, oldest first, with a
   fallback name for a sender that is gone. Messages of one millisecond come in any order.
   */
  lemma TranscriptIsTheWindow(names: map<User, string>, rows: map<Id, Row>, group: Group, since: int, found: seq<Row>)
    requires IsWindow(rows, group, since, found) && forall id | id in rows :: rows[id].id == id
    ensures var wanted := WindowIds(rows, group, since);
      var result := Fetch(names, group, found);
      && (result == SkipFetch(EMPTY) <==> wanted == {})
      && (wanted != {} ==> result.Transcript? && result.group == group && |result.lines| == |wanted|)
      && (result.Transcript? ==> |result.lines| == |found|)
      && (result.Transcript? ==> forall i | 0 <= i < |found| ::
            && found[i].id in wanted && rows[found[i].id] == found[i]
            && result.lines[i].content == found[i].content
            && (forall user | found[i].sender == Some(user) && user in names :: result.lines[i].sender == names[user])
            && ((forall user | found[i].sender == Some(user) :: user !in names) ==>
                  result.lines[i].sender == "Unknown"))
      && (forall i, j | 0 <= i < j < |found| :: rows[found[i].id].createdAt <= rows[found[j].id].createdAt)
  {
    var wanted := WindowIds(rows, group, since);
    forall i | 0 <= i < |found| ensures found[i].id in wanted && rows[found[i].id] == found[i] {
      assert found[i] in found;
    }
    forall id | id in wanted ensures exists i :: 0 <= i < |found| && found[i].id == id {
      assert InWindow(rows[id], group, since) && rows[id] in found;
    }
    ListedIdsCount(found, rows, wanted);
    assert |found| == |wanted|;
    assert wanted == {} <==> |wanted| == 0;
  }

  /** A list of distinct rows that names every id of a set once is as long as the set. */
  lemma {:induction false} ListedIdsCount(found: seq<Row>, rows: map<Id, Row>, ids: set<Id>)
    requires forall i | 0 <= i < |found| :: found[i].id in ids && ids <= rows.Keys && rows[found[i].id] == found[i]
    requires forall i, j | 0 <= i < j < |found| :: found[i] != found[j]
    requires forall id | id in ids :: exists i :: 0 <= i < |found| && found[i].id == id
    ensures |found| == |ids|
  {
    if found == [] {
      assert ids == {};
    } else {
      var rest, first := found[1..], found[0].id;
      forall i | 0 <= i < |rest| ensures rest[i].id in ids - {first} && rows[rest[i].id] == rest[i] {
        assert rest[i] == found[i + 1] && found[0] != found[i + 1];
      }
      forall id | id in ids - {first} ensures exists i :: 0 <= i < |rest| && rest[i].id == id {
        var i :| 0 <= i < |found| && found[i].id == id;
        assert rest[i - 1] == found[i];
      }
      ListedIdsCount(rest, rows, ids - {first});
    }
  }

  function Generate(child: Option<Value>, answer: string): GenerateResult {
    match child
    case Some(Fetched(Transcript(group, _))) => if answer == "" then SkipGenerate(BLANK) else Text(group, answer)
    case Some(Fetched(SkipFetch(reason))) => SkipGenerate(reason)
    case _ => SkipGenerate(EMPTY)
  }

  /**
   What the model's stage hands on: its text for a transcript, unless it is blank; the reason its child skipped
   for; and a skip as empty when there is no child to read.
   */
  lemma GenerateIsExact(child: Option<Value>, answer: string)
    ensures child.Some? && child.value.Fetched? && child.value.f.Transcript? ==>
      Generate(child, answer) == if answer == "" then SkipGenerate(BLANK) else Text(child.value.f.group, answer)
    ensures child.Some? && child.value.Fetched? && child.value.f.SkipFetch? ==>
      Generate(child, answer) == SkipGenerate(child.value.f.reason)
    ensures child.None? ==> Generate(child, answer) == SkipGenerate(EMPTY)
  {}

  /** `persistAiSummary`: no sender, the database's own clock and a fresh id. */
  function Save(child: Option<Value>, id: Id, now: int): SaveResult {
    match child
    case Some(Generated(Text(group, text))) => Saved(Row(id, group, None, AI_SUMMARY, now, text, None, None, None, {}))
    case _ => SkipSave
  }

  function Publish(child: Option<Value>): bool {
    child.Some? && child.value.Persisted? && child.value.s.Saved?
  }

  function GroupSummary(child: Option<Value>): bool {
    child.Some? && child.value.Broadcast? && child.value.published
  }

  // ---------- One flow ----------

  datatype State = Waiting | Completed(value: Value) | Failed

  datatype Job = Job(attempts: nat, state: State)

  /**
   The jobs in the order they may run. `guarded`: an attempt at the fetch is past `hasSummarySince`.
   History variables: `ran`, the stage of each attempt so far, and `cleared`, how many summaries had
   been stored when the fetch last passed its guard.
   */
  datatype Flow = Flow(group: Group, since: int, guarded: bool, jobs: seq<Job>, ran: seq<nat>, cleared: Option<nat>)

  function NewFlow(group: Group, since: int): Flow {
    Flow(group, since, false, seq(STAGES, _ => Job(0, Waiting)), [], None)
  }

  /** A job may run once its child has completed. */
  predicate Ready(flow: Flow, s: nat) {
    && s < STAGES == |flow.jobs|
    && flow.jobs[s].state.Waiting?
    && (s > 0 ==> flow.jobs[s - 1].state.Completed?)
  }

  function ChildValue(flow: Flow, s: nat): Option<Value>
    requires s < |flow.jobs|
  {
    FirstChildValue(if s > 0 && flow.jobs[s - 1].state.Completed? then [flow.jobs[s - 1].state.value] else [])
  }

  function Complete(flow: Flow, s: nat, value: Value): Flow
    requires s < |flow.jobs|
  {
    flow.(jobs := flow.jobs[s := Job(flow.jobs[s].attempts + 1, Completed(value))],
          guarded := false,
          ran := flow.ran + [s])
  }

  /** A failed attempt is retried, until the last one fails the job and with it every ancestor. */
  function Fail(flow: Flow, s: nat): Flow
    requires s < |flow.jobs|
  {
    var attempts := flow.jobs[s].attempts + 1;
    flow.(jobs := if attempts < MAX_ATTEMPTS then flow.jobs[s := Job(attempts, Waiting)]
                  else seq(|flow.jobs|, t requires 0 <= t < |flow.jobs| =>
                         if t < s then flow.jobs[t]
                         else if t == s then Job(attempts, Failed)
                         else flow.jobs[t].(state := Failed)),
          guarded := false,
          ran := flow.ran + [s])
  }

  // ---------- The flow is the tree the scheduler adds ----------

  /** All children of the s-th job of a tree have completed. */
  ghost predicate ChildrenCompleted(tree: seq<FlowJob>, jobs: seq<Job>, s: nat)
    requires s < |tree| == |jobs|
  {
    forall child | child in tree[s].children ::
      exists t :: 0 <= t < |tree| && tree[t] == child && jobs[t].state.Completed?
  }

  /** Failing the s-th job of a chain for good takes the t-th down with it. */
  predicate GoesDown(tree: seq<FlowJob>, s: nat, t: nat)
    requires s < |tree| && t < |tree|
  {
    t == s || (t > s && tree[t - 1].opts.failParentOnFailure && GoesDown(tree, s, t - 1))
  }

  lemma {:induction false} AllAboveGoDown(tree: seq<FlowJob>, s: nat, t: nat)
    requires s < |tree| && t < |tree|
    requires forall u | 0 <= u < |tree| - 1 :: tree[u].opts.failParentOnFailure
    ensures GoesDown(tree, s, t) <==> s <= t
  {
    if t > s {
      AllAboveGoDown(tree, s, t - 1);
    }
  }

  /**
   `Ready` and `Fail` say of five jobs what the tree of `buildSummaryFlow` says of its own: a job is
   ready when it waits and its children have completed; a failed attempt is retried as often as the
   job's options allow; and the last one fails the job and every ancestor up the failParentOnFailure flags.
   */
  lemma FlowFollowsTheTree(flow: Flow, s: nat, t: nat, group: string, since: int, bucket: nat)
    requires |flow.jobs| == STAGES && s < STAGES && t < STAGES
    ensures var tree := RunOrder(BuildSummaryFlow(group, since, bucket));
      var after := Fail(flow, s).jobs;
      var attempts := flow.jobs[s].attempts + 1;
      && |tree| == STAGES == |after|
      && (Ready(flow, s) <==> flow.jobs[s].state.Waiting? && ChildrenCompleted(tree, flow.jobs, s))
      && (attempts < tree[s].opts.attempts ==> after == flow.jobs[s := Job(attempts, Waiting)])
      && (attempts >= tree[s].opts.attempts ==>
            after[t] == Job(if t == s then attempts else flow.jobs[t].attempts,
                            if GoesDown(tree, s, t) then Failed else flow.jobs[t].state))
  {
    var tree := RunOrder(BuildSummaryFlow(group, since, bucket));
    FlowIsAChain(group, since, bucket);
    AllAboveGoDown(tree, s, t);
    ReadyFollowsTheTree(flow, s, tree, group, since, bucket);
  }

  lemma ReadyFollowsTheTree(flow: Flow, s: nat, tree: seq<FlowJob>, group: string, since: int, bucket: nat)
    requires |flow.jobs| == STAGES && s < STAGES && tree == RunOrder(BuildSummaryFlow(group, since, bucket))
    ensures |tree| == STAGES
    ensures Ready(flow, s) <==> flow.jobs[s].state.Waiting? && ChildrenCompleted(tree, flow.jobs, s)
  {
    FlowIsAChain(group, since, bucket);
    ChildIsBelow(group, since, bucket, s);
    if s > 0 {
      assert tree[s - 1] in tree[s].children;
      forall u: nat | u < STAGES ensures tree[u] == tree[s - 1] ==> u == s - 1 {
        var low, high := if u < s - 1 then u else s - 1, if u < s - 1 then s - 1 else u;
        assert low < high ==> tree[low].opts.jobId != tree[high].opts.jobId;
      }
    }
  }

  // ---------- The world ----------

  datatype Note = Note(flow: nat, row: Row)

  datatype Fault = NoFault | BeforeEffect | AfterEffect

  /**
   `rows` and `gone` are those of the message table. History variables: `stored` and `sent`, the summaries
   inserted and broadcast so far, with the flow that did it.
   */
  datatype World = World(
    rows: map<Id, Row>,
    gone: set<Group>,
    names: map<User, string>,
    window: nat,
    now: int,
    flows: seq<Flow>,
    stored: seq<Note>,
    sent: seq<Note>)

  datatype Action =
    | FanOut(group: Group)     // the scheduler adds a flow for the group
    | Tick(to: int)
    | Other(op: Op)            // some request changes the messages, or deletes a group
    | Work(flow: nat, stage: nat, fault: Fault, answer: string, found: seq<Row>, id: Id)

  function Start(rows: map<Id, Row>, names: map<User, string>, window: nat, now: int): World {
    World(rows, {}, names, window, now, [], [], [])
  }

  function Messages(w: World): Server {
    Server(w.rows, w.gone, [])
  }

  function Pass(flow: Flow, fault: Fault, exists_: bool, stored: nat): Flow
    requires |flow.jobs| == STAGES
  {
    if fault != NoFault then Fail(flow, FETCH)
    else if exists_ then Complete(flow, FETCH, Fetched(SkipFetch(EXISTS)))
    else flow.(guarded := true, cleared := Some(stored))
  }

  function ResultOf(w: World, flow: Flow, a: Action): Value
    requires a.Work? && a.stage < STAGES == |flow.jobs|
  {
    var child := ChildValue(flow, a.stage);
    if a.stage == FETCH then Fetched(Fetch(w.names, flow.group, a.found))
    else if a.stage == GENERATE then Generated(Generate(child, a.answer))
    else if a.stage == SAVE then Persisted(Save(child, a.id, w.now))
    else if a.stage == PUBLISH then Broadcast(Publish(child))
    else Finished(GroupSummary(child))
  }

  function Insert(rows: map<Id, Row>, value: Value): map<Id, Row> {
    if value.Persisted? && value.s.Saved? then rows[value.s.message.id := value.s.message] else rows
  }

  function Stored(stored: seq<Note>, f: nat, value: Value): seq<Note> {
    if value.Persisted? && value.s.Saved? then stored + [Note(f, value.s.message)] else stored
  }

  function Sent(sent: seq<Note>, f: nat, child: Option<Value>, value: Value): seq<Note> {
    if value.Broadcast? && value.published && child.Some? && child.value.Persisted? && child.value.s.Saved? then
      sent + [Note(f, child.value.s.message)]
    else sent
  }

  /**
   The ready stage of an existing flow; the database answers a read with the table's rows, and an
   insert with a fresh id, unless the group is gone: then the insert fails its foreign key.
   */
  ghost predicate Workable(w: World, a: Action)
    requires a.Work?
  {
    && a.flow < |w.flows| && Ready(w.flows[a.flow], a.stage)
    && (a.stage == FETCH && w.flows[a.flow].guarded ==>
          IsWindow(Table(Messages(w)), w.flows[a.flow].group, w.flows[a.flow].since, a.found))
    && (a.stage == SAVE ==> a.id !in w.rows)
    && (a.stage == SAVE && SavesInto(w.flows[a.flow], w.gone) ==> a.fault == BeforeEffect)
  }

  /** The save of this flow would insert into one of these groups. */
  predicate SavesInto(flow: Flow, groups: set<Group>)
    requires |flow.jobs| == STAGES
  {
    var child := ChildValue(flow, SAVE);
    child.Some? && child.value.Generated? && child.value.g.Text? && child.value.g.group in groups
  }

  /** The guard of a fetch is one step; the read that follows it, and every other attempt, is another. */
  function Attempt(w: World, a: Action): World
    requires a.Work? && a.flow < |w.flows| && Ready(w.flows[a.flow], a.stage)
  {
    var flow := w.flows[a.flow];
    if a.stage == FETCH && !flow.guarded then
      w.(flows := w.flows[a.flow :=
           Pass(flow, a.fault, HasSummarySince(Table(Messages(w)), flow.group, flow.since), |w.stored|)])
    else
      var value := ResultOf(w, flow, a);
      var after := if a.fault == NoFault then Complete(flow, a.stage, value) else Fail(flow, a.stage);
      if a.fault == BeforeEffect then w.(flows := w.flows[a.flow := after])
      else
        w.(flows := w.flows[a.flow := after],
           rows := Insert(w.rows, value),
           stored := Stored(w.stored, a.flow, value),
           sent := Sent(w.sent, a.flow, ChildValue(flow, a.stage), value))
  }

  function AddFlow(w: World, group: Group): World {
    w.(flows := w.flows + [NewFlow(group, w.now - w.window)])
  }

  ghost function Step(w: World, a: Action): World {
    match a
    case FanOut(group) => AddFlow(w, group)
    case Tick(to) => w.(now := if to > w.now then to else w.now)
    case Other(op) => w.(rows := Apply(Messages(w), op).rows, gone := Apply(Messages(w), op).gone)
    case Work(_, _, _, _, _, _) => if Workable(w, a) then Attempt(w, a) else w
  }

  ghost function RunAll(w: World, actions: seq<Action>): World
    decreases |actions|
  {
    if actions == [] then w else RunAll(Step(w, actions[0]), actions[1..])
  }

  // ---------- Order, retries and failure within one flow ----------

  predicate JobOk(job: Job) {
    && job.attempts <= MAX_ATTEMPTS
    && (job.state.Waiting? ==> job.attempts < MAX_ATTEMPTS)
    && (job.state.Completed? ==> job.attempts > 0)
    && (job.state.Failed? ==> job.attempts == 0 || job.attempts == MAX_ATTEMPTS)
  }

  /** Next to each other: nothing is tried before its child completes, and failure goes all the way up. */
  predicate LinkOk(child: Job, job: Job) {
    && (job.attempts > 0 ==> child.state.Completed?)
    && (child.state.Failed? ==> job.state.Failed?)
    && (job.state.Failed? && job.attempts == 0 ==> child.state.Failed?)
  }

  predicate Shape(jobs: seq<Job>) {
    && |jobs| == STAGES
    && JobOk(jobs[0]) && JobOk(jobs[1]) && JobOk(jobs[2]) && JobOk(jobs[3]) && JobOk(jobs[4])
    && LinkOk(jobs[0], jobs[1]) && LinkOk(jobs[1], jobs[2]) && LinkOk(jobs[2], jobs[3]) && LinkOk(jobs[3], jobs[4])
    && (jobs[0].state.Failed? ==> jobs[0].attempts == MAX_ATTEMPTS)
  }

  function Attempts(jobs: seq<Job>): nat
    requires |jobs| == STAGES
  {
    jobs[0].attempts + jobs[1].attempts + jobs[2].attempts + jobs[3].attempts + jobs[4].attempts
  }

  predicate RanInOrder(flow: Flow)
    requires |flow.jobs| == STAGES
  {
    && |flow.ran| == Attempts(flow.jobs)
    && (forall i | 0 <= i < |flow.ran| :: flow.ran[i] < STAGES && flow.jobs[flow.ran[i]].attempts > 0)
    && (forall i, j | 0 <= i < j < |flow.ran| :: flow.ran[i] <= flow.ran[j])
  }

  predicate FlowOk(flow: Flow) {
    Shape(flow.jobs) && RanInOrder(flow) && (flow.guarded ==> Ready(flow, FETCH))
  }

  lemma NewFlowIsOk(group: Group, since: int)
    ensures FlowOk(NewFlow(group, since))
  {}

  lemma TriedStagesAreBelow(flow: Flow, s: nat)
    requires FlowOk(flow) && Ready(flow, s)
    ensures forall i | 0 <= i < |flow.ran| :: flow.ran[i] <= s
    ensures forall t | s < t < STAGES :: flow.jobs[t] == Job(0, Waiting)
    ensures forall t | 0 <= t < s :: flow.jobs[t].state.Completed?
  {}

  lemma CompleteKeepsFlow(flow: Flow, s: nat, value: Value)
    requires FlowOk(flow) && Ready(flow, s)
    ensures FlowOk(Complete(flow, s, value))
  {
    TriedStagesAreBelow(flow, s);
  }

  lemma FailKeepsShape(flow: Flow, s: nat)
    requires FlowOk(flow) && Ready(flow, s)
    ensures Shape(Fail(flow, s).jobs)
    ensures Attempts(Fail(flow, s).jobs) == Attempts(flow.jobs) + 1
    ensures forall t | 0 <= t < STAGES && (t == s || flow.jobs[t].attempts > 0) :: Fail(flow, s).jobs[t].attempts > 0
  {
    TriedStagesAreBelow(flow, s);
  }

  lemma FailKeepsFlow(flow: Flow, s: nat)
    requires FlowOk(flow) && Ready(flow, s)
    ensures FlowOk(Fail(flow, s))
  {
    TriedStagesAreBelow(flow, s);
    FailKeepsShape(flow, s);
  }

  // ---------- What a stage hands to its parent ----------

  predicate Follows(child: Option<Value>, s: nat, value: Value, group: Group) {
    if s == FETCH then
      value.Fetched? && (value.f.Transcript? ==> value.f.group == group)
    else if s == GENERATE then
      && value.Generated?
      && (value.g.Text? ==>
            && value.g.group == group && value.g.text != ""
            && child.Some? && child.value.Fetched? && child.value.f.Transcript?)
      && (child.Some? && child.value.Fetched? && child.value.f.SkipFetch? ==>
            value.g == SkipGenerate(child.value.f.reason))
    else if s == SAVE then
      && value.Persisted?
      && (value.s.SkipSave? ==> !(child.Some? && child.value.Generated? && child.value.g.Text?))
      && (value.s.Saved? ==>
            && child == Some(Generated(Text(group, value.s.message.content)))
            && value.s.message.group == group)
    else if s == PUBLISH then
      value.Broadcast? && (value.published <==> Publish(child))
    else
      value.Finished? && (value.published <==> GroupSummary(child))
  }

  predicate ValuesOk(flow: Flow) {
    && |flow.jobs| == STAGES
    && forall s | 0 <= s < STAGES && flow.jobs[s].state.Completed? ::
         Follows(ChildValue(flow, s), s, flow.jobs[s].state.value, flow.group)
  }

  lemma ResultFollows(w: World, flow: Flow, a: Action)
    requires a.Work? && a.stage < STAGES && FlowOk(flow) && ValuesOk(flow) && Ready(flow, a.stage)
    ensures Follows(ChildValue(flow, a.stage), a.stage, ResultOf(w, flow, a), flow.group)
  {
    if a.stage > 0 {
      assert Follows(ChildValue(flow, a.stage - 1), a.stage - 1, flow.jobs[a.stage - 1].state.value, flow.group);
    }
  }

  lemma CompleteKeepsValues(flow: Flow, s: nat, value: Value)
    requires FlowOk(flow) && ValuesOk(flow) && Ready(flow, s) && Follows(ChildValue(flow, s), s, value, flow.group)
    ensures ValuesOk(Complete(flow, s, value))
  {
    TriedStagesAreBelow(flow, s);
    var after := Complete(flow, s, value);
    forall t | 0 <= t < STAGES && after.jobs[t].state.Completed?
      ensures Follows(ChildValue(after, t), t, after.jobs[t].state.value, flow.group)
    {
      assert t <= s;
      assert ChildValue(after, t) == ChildValue(flow, t);
    }
  }

  lemma FailKeepsValues(flow: Flow, s: nat)
    requires FlowOk(flow) && ValuesOk(flow) && Ready(flow, s)
    ensures ValuesOk(Fail(flow, s))
  {
    TriedStagesAreBelow(flow, s);
    var after := Fail(flow, s);
    forall t | 0 <= t < STAGES && after.jobs[t].state.Completed?
      ensures Follows(ChildValue(after, t), t, after.jobs[t].state.value, flow.group)
    {
      assert t < s;
      assert ChildValue(after, t) == ChildValue(flow, t);
    }
  }

  // ---------- Nothing a flow has settled is ever undone ----------

  ghost predicate Advances(before: Flow, after: Flow) {
    && |before.jobs| == |after.jobs| == STAGES
    && after.group == before.group && after.since == before.since
    && (before.ran <= after.ran)
    && (forall t | 0 <= t < STAGES && !before.jobs[t].state.Waiting? :: after.jobs[t] == before.jobs[t])
  }

  lemma CompleteAdvances(flow: Flow, s: nat, value: Value)
    requires FlowOk(flow) && Ready(flow, s)
    ensures Advances(flow, Complete(flow, s, value))
  {}

  lemma FailAdvances(flow: Flow, s: nat)
    requires FlowOk(flow) && Ready(flow, s)
    ensures Advances(flow, Fail(flow, s))
  {
    TriedStagesAreBelow(flow, s);
  }

  /** A flow whose root is settled is never worked on again, and neither is a stage below a failed one. */
  predicate Over(flow: Flow)
    requires |flow.jobs| == STAGES
  {
    !flow.jobs[ROOT].state.Waiting?
  }

  /** Exactly one stage of a flow that is not over is ready, and an attempt at it always counts. */
  lemma OneStageIsReady(flow: Flow)
    requires FlowOk(flow)
    ensures Over(flow) <==> forall s :: !Ready(flow, s)
    ensures forall s, t | Ready(flow, s) && Ready(flow, t) :: s == t
    ensures Attempts(flow.jobs) <= STAGES * MAX_ATTEMPTS
  {
    if !Over(flow) {
      assert Ready(flow, 0) || Ready(flow, 1) || Ready(flow, 2) || Ready(flow, 3) || Ready(flow, 4);
    }
    forall s, t | Ready(flow, s) && Ready(flow, t) ensures s == t {
      TriedStagesAreBelow(flow, s);
      TriedStagesAreBelow(flow, t);
    }
  }
}
