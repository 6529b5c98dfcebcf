/**
 Runs of the summary pipeline: what is stored and broadcast, how often, and in which order, whatever
 the workers do and wherever an attempt fails.
 */
module SummaryRuns {
  import opened Wrappers
  import opened Keyset
  import opened MessageTable
  import opened SummaryQueue
  import opened SummaryFlow

  // ---------- The summaries stored and broadcast ----------

  function Count(notes: seq<Note>, f: nat): nat {
    if notes == [] then 0
    else Count(notes[..|notes| - 1], f) + if notes[|notes| - 1].flow == f then 1 else 0
  }

  lemma CountMore(notes: seq<Note>, n: Note, f: nat)
    ensures Count(notes + [n], f) == Count(notes, f) + if n.flow == f then 1 else 0
  {
    assert (notes + [n])[..|notes|] == notes;
  }

  lemma {:induction false} CountedIsThere(notes: seq<Note>, f: nat)
    ensures Count(notes, f) > 0 <==> exists i :: 0 <= i < |notes| && notes[i].flow == f
  {
    if notes != [] {
      CountedIsThere(notes[..|notes| - 1], f);
    }
  }

  /** Reactions may come and go; nothing else of a stored summary ever changes. */
  predicate SameSummary(now: Row, stored: Row) {
    stored.kind == AI_SUMMARY && now == stored.(reactions := now.reactions)
  }

  /** A stored summary is in the table, in its flow's group, with the text its flow was given. */
  predicate NoteOk(n: Note, flows: seq<Flow>, rows: map<Id, Row>, window: nat, now: int) {
    && n.flow < |flows| && |flows[n.flow].jobs| == STAGES
    && n.row.group == flows[n.flow].group
    && flows[n.flow].jobs[GENERATE].state == Completed(Generated(Text(n.row.group, n.row.content)))
    && n.row.id in rows && SameSummary(rows[n.row.id], n.row)
    && flows[n.flow].since + window <= n.row.createdAt <= now
  }

  ghost predicate NotesOk(notes: seq<Note>, flows: seq<Flow>, rows: map<Id, Row>, window: nat, now: int) {
    forall i | 0 <= i < |notes| :: NoteOk(notes[i], flows, rows, window, now)
  }

  /** What is broadcast is what the flow's save returned, and was stored before. */
  ghost predicate SentOk(sent: seq<Note>, stored: seq<Note>, flows: seq<Flow>) {
    forall i | 0 <= i < |sent| ::
      && sent[i] in stored && sent[i].flow < |flows| && |flows[sent[i].flow].jobs| == STAGES
      && flows[sent[i].flow].jobs[SAVE].state == Completed(Persisted(Saved(sent[i].row)))
  }

  ghost predicate SavedIsStored(flows: seq<Flow>, stored: seq<Note>) {
    forall f | 0 <= f < |flows| ::
      |flows[f].jobs| == STAGES &&
      (var save := flows[f].jobs[SAVE].state;
       save.Completed? && save.value.Persisted? && save.value.s.Saved? ==> Note(f, save.value.s.message) in stored)
  }

  predicate CountsOk(flow: Flow, f: nat, stored: seq<Note>, sent: seq<Note>) {
    && |flow.jobs| == STAGES
    && Count(stored, f) <= flow.jobs[SAVE].attempts
    && Count(sent, f) <= flow.jobs[PUBLISH].attempts
    && (flow.jobs[PUBLISH].state == Completed(Broadcast(true)) ==> Count(sent, f) > 0)
  }

  predicate HasTranscript(fetch: State) {
    fetch.Completed? && fetch.value.Fetched? && fetch.value.f.Transcript?
  }

  /**
   When the fetch passed its guard, no summary of the group stood in its window; unless the group was gone,
   and then the fetch finds nothing.
   */
  predicate ClearedOk(flow: Flow, stored: seq<Note>, gone: set<Group>) {
    && |flow.jobs| == STAGES
    && (flow.cleared.Some? ==>
          && flow.cleared.value <= |stored|
          && (flow.group !in gone || HasTranscript(flow.jobs[FETCH].state) ==>
                forall i | 0 <= i < flow.cleared.value && stored[i].row.group == flow.group ::
                  stored[i].row.createdAt < flow.since))
    && (flow.guarded ==> flow.cleared.Some?)
    && (HasTranscript(flow.jobs[FETCH].state) ==> flow.cleared.Some?)
  }

  predicate FlowFits(flow: Flow, f: nat, stored: seq<Note>, sent: seq<Note>, gone: set<Group>, window: nat, now: int) {
    && FlowOk(flow) && ValuesOk(flow)
    && flow.since + window <= now
    && CountsOk(flow, f, stored, sent)
    && ClearedOk(flow, stored, gone)
  }

  ghost predicate FlowsFit(flows: seq<Flow>, stored: seq<Note>, sent: seq<Note>, gone: set<Group>, window: nat,
                           now: int) {
    forall f | 0 <= f < |flows| :: FlowFits(flows[f], f, stored, sent, gone, window, now)
  }

  ghost predicate Good(w: World) {
    && FlowsFit(w.flows, w.stored, w.sent, w.gone, w.window, w.now)
    && NotesOk(w.stored, w.flows, w.rows, w.window, w.now)
    && SentOk(w.sent, w.stored, w.flows)
    && SavedIsStored(w.flows, w.stored)
  }

  ghost predicate AllAdvance(before: seq<Flow>, after: seq<Flow>) {
    |before| <= |after| && forall f | 0 <= f < |before| :: Advances(before[f], after[f])
  }

  lemma NotesOutlive(notes: seq<Note>, flows: seq<Flow>, rows: map<Id, Row>, window: nat, now: int,
                     flows': seq<Flow>, rows': map<Id, Row>, now': int)
    requires NotesOk(notes, flows, rows, window, now) && AllAdvance(flows, flows') && now <= now'
    requires forall i | 0 <= i < |notes| && notes[i].row.id in rows
      && SameSummary(rows[notes[i].row.id], notes[i].row) ::
      notes[i].row.id in rows' && SameSummary(rows'[notes[i].row.id], notes[i].row)
    ensures NotesOk(notes, flows', rows', window, now')
  {
    forall i | 0 <= i < |notes| ensures NoteOk(notes[i], flows', rows', window, now') {
      assert NoteOk(notes[i], flows, rows, window, now);
      assert Advances(flows[notes[i].flow], flows'[notes[i].flow]);
    }
  }

  lemma SentOutlives(sent: seq<Note>, stored: seq<Note>, flows: seq<Flow>, stored': seq<Note>, flows': seq<Flow>)
    requires SentOk(sent, stored, flows) && AllAdvance(flows, flows') && stored <= stored'
    ensures SentOk(sent, stored', flows')
  {
    forall i | 0 <= i < |sent|
      ensures sent[i] in stored' && sent[i].flow < |flows'| && |flows'[sent[i].flow].jobs| == STAGES
           && flows'[sent[i].flow].jobs[SAVE].state == Completed(Persisted(Saved(sent[i].row)))
    {
      assert sent[i] in stored;
      assert Advances(flows[sent[i].flow], flows'[sent[i].flow]);
    }
  }

  /**
   Nobody edits or deletes a summary, which has no sender and is no USER message; it goes with its group,
   and only so.
   */
  lemma RequestsSpareSummaries(s: Server, op: Op, n: Row)
    requires n.id in s.rows && SameSummary(s.rows[n.id], n)
    ensures var after := Apply(s, op);
      && n.id in after.rows && SameSummary(after.rows[n.id], n)
      && (n.id in Table(after) <==> n.id in Table(s) && op != DeleteGroup(n.group))
  {}

  lemma DeletionKeepsFits(flows: seq<Flow>, stored: seq<Note>, sent: seq<Note>, gone: set<Group>, gone': set<Group>,
                          window: nat, now: int)
    requires FlowsFit(flows, stored, sent, gone, window, now) && gone <= gone'
    ensures FlowsFit(flows, stored, sent, gone', window, now)
  {
    forall f | 0 <= f < |flows| ensures FlowFits(flows[f], f, stored, sent, gone', window, now) {
      assert FlowFits(flows[f], f, stored, sent, gone, window, now);
    }
  }

  lemma OtherKeepsGood(w: World, op: Op)
    requires Good(w)
    ensures Good(Step(w, Other(op)))
  {
    var after := Apply(Messages(w), op);
    forall i | 0 <= i < |w.stored|
      ensures w.stored[i].row.id in after.rows && SameSummary(after.rows[w.stored[i].row.id], w.stored[i].row)
    {
      assert NoteOk(w.stored[i], w.flows, w.rows, w.window, w.now);
      RequestsSpareSummaries(Messages(w), op, w.stored[i].row);
    }
    NotesOutlive(w.stored, w.flows, w.rows, w.window, w.now, w.flows, after.rows, w.now);
    DeletionKeepsFits(w.flows, w.stored, w.sent, w.gone, after.gone, w.window, w.now);
  }

  lemma TickKeepsGood(w: World, to: int)
    requires Good(w)
    ensures Good(Step(w, Tick(to)))
  {
    NotesOutlive(w.stored, w.flows, w.rows, w.window, w.now, w.flows, w.rows, Step(w, Tick(to)).now);
  }

  lemma FlowsHaveAllStages(w: World, f: nat)
    requires FlowsFit(w.flows, w.stored, w.sent, w.gone, w.window, w.now) && f < |w.flows|
    ensures FlowOk(w.flows[f]) && ValuesOk(w.flows[f]) && w.flows[f].since + w.window <= w.now
  {
    assert FlowFits(w.flows[f], f, w.stored, w.sent, w.gone, w.window, w.now);
  }

  lemma NewFlowFits(w: World, group: Group)
    requires NotesOk(w.stored, w.flows, w.rows, w.window, w.now) && SentOk(w.sent, w.stored, w.flows)
    ensures FlowFits(NewFlow(group, w.now - w.window), |w.flows|, w.stored, w.sent, w.gone, w.window, w.now)
  {
    NewFlowIsOk(group, w.now - w.window);
    CountedIsThere(w.stored, |w.flows|);
    CountedIsThere(w.sent, |w.flows|);
    assert forall i | 0 <= i < |w.stored| :: NoteOk(w.stored[i], w.flows, w.rows, w.window, w.now);
  }

  lemma OneMoreFits(flows: seq<Flow>, flow: Flow, stored: seq<Note>, sent: seq<Note>, gone: set<Group>, window: nat,
                    now: int)
    requires FlowsFit(flows, stored, sent, gone, window, now)
    requires FlowFits(flow, |flows|, stored, sent, gone, window, now)
    ensures FlowsFit(flows + [flow], stored, sent, gone, window, now)
  {
    forall f | 0 <= f < |flows + [flow]| ensures FlowFits((flows + [flow])[f], f, stored, sent, gone, window, now) {
      assert f < |flows| ==> FlowFits(flows[f], f, stored, sent, gone, window, now);
    }
  }

  lemma OneMoreAdvances(flows: seq<Flow>, flow: Flow)
    requires forall f | 0 <= f < |flows| :: |flows[f].jobs| == STAGES
    ensures AllAdvance(flows, flows + [flow])
  {}

  lemma FanOutKeepsFlows(w: World, group: Group)
    requires NotesOk(w.stored, w.flows, w.rows, w.window, w.now) && SentOk(w.sent, w.stored, w.flows)
    requires FlowsFit(w.flows, w.stored, w.sent, w.gone, w.window, w.now)
    ensures FlowsFit(w.flows + [NewFlow(group, w.now - w.window)], w.stored, w.sent, w.gone, w.window, w.now)
  {
    NewFlowFits(w, group);
    OneMoreFits(w.flows, NewFlow(group, w.now - w.window), w.stored, w.sent, w.gone, w.window, w.now);
  }

  lemma FanOutAdvances(w: World, group: Group)
    requires FlowsFit(w.flows, w.stored, w.sent, w.gone, w.window, w.now)
    ensures AllAdvance(w.flows, AddFlow(w, group).flows)
  {
    forall f | 0 <= f < |w.flows| ensures |w.flows[f].jobs| == STAGES {
      FlowsHaveAllStages(w, f);
    }
    OneMoreAdvances(w.flows, NewFlow(group, w.now - w.window));
  }

  lemma FanOutKeepsNotes(w: World, group: Group)
    requires NotesOk(w.stored, w.flows, w.rows, w.window, w.now)
    requires SentOk(w.sent, w.stored, w.flows) && SavedIsStored(w.flows, w.stored)
    requires AllAdvance(w.flows, AddFlow(w, group).flows)
    ensures var flows := AddFlow(w, group).flows;
      && NotesOk(w.stored, flows, w.rows, w.window, w.now)
      && SentOk(w.sent, w.stored, flows) && SavedIsStored(flows, w.stored)
  {
    var flows := AddFlow(w, group).flows;
    NotesOutlive(w.stored, w.flows, w.rows, w.window, w.now, flows, w.rows, w.now);
    SentOutlives(w.sent, w.stored, w.flows, w.stored, flows);
  }

  lemma FanOutKeepsGood(w: World, group: Group)
    requires Good(w)
    ensures Good(AddFlow(w, group))
  {
    FanOutKeepsFlows(w, group);
    FanOutAdvances(w, group);
    FanOutKeepsNotes(w, group);
  }

  // ---------- An attempt ----------

  /** The flow after an attempt other than the guard of a fetch. */
  function After(flow: Flow, s: nat, fault: Fault, value: Value): Flow
    requires s < |flow.jobs|
  {
    if fault == NoFault then Complete(flow, s, value) else Fail(flow, s)
  }

  lemma AfterAdvances(flow: Flow, s: nat, fault: Fault, value: Value)
    requires FlowOk(flow) && Ready(flow, s)
    ensures Advances(flow, After(flow, s, fault, value))
  {
    CompleteAdvances(flow, s, value);
    FailAdvances(flow, s);
  }

  lemma AfterKeepsFlow(flow: Flow, s: nat, fault: Fault, value: Value)
    requires FlowOk(flow) && ValuesOk(flow) && Ready(flow, s) && Follows(ChildValue(flow, s), s, value, flow.group)
    ensures FlowOk(After(flow, s, fault, value)) && ValuesOk(After(flow, s, fault, value))
  {
    if fault == NoFault {
      CompleteKeepsFlow(flow, s, value);
      CompleteKeepsValues(flow, s, value);
    } else {
      FailKeepsFlow(flow, s);
      FailKeepsValues(flow, s);
    }
  }

  predicate Stores(value: Value) {
    value.Persisted? && value.s.Saved?
  }

  lemma StoredCounts(stored: seq<Note>, f: nat, value: Value, g: nat)
    ensures Count(Stored(stored, f, value), g) == Count(stored, g) + if Stores(value) && f == g then 1 else 0
    ensures stored <= Stored(stored, f, value)
  {
    if Stores(value) {
      CountMore(stored, Note(f, value.s.message), g);
    }
  }

  lemma SentCounts(sent: seq<Note>, f: nat, child: Option<Value>, value: Value, g: nat)
    ensures Count(Sent(sent, f, child, value), g)
      == Count(sent, g) + if value.Broadcast? && value.published && Publish(child) && f == g then 1 else 0
  {
    if Publish(child) {
      CountMore(sent, Note(f, child.value.s.message), g);
    }
  }

  /** The attempts at save bound the rows, and those at publish the broadcasts. */
  lemma AfterKeepsCounts(flow: Flow, f: nat, s: nat, fault: Fault, value: Value, stored: seq<Note>, sent: seq<Note>)
    requires FlowOk(flow) && Ready(flow, s) && CountsOk(flow, f, stored, sent)
    requires Follows(ChildValue(flow, s), s, value, flow.group)
    ensures var child := ChildValue(flow, s);
      var after := After(flow, s, fault, value);
      && CountsOk(after, f, Stored(stored, f, value), Sent(sent, f, child, value))
      && (fault == BeforeEffect ==> CountsOk(after, f, stored, sent))
  {
    TriedStagesAreBelow(flow, s);
    StoredCounts(stored, f, value, f);
    SentCounts(sent, f, ChildValue(flow, s), value, f);
  }

  lemma AfterKeepsCleared(flow: Flow, s: nat, fault: Fault, value: Value, stored: seq<Note>, stored': seq<Note>,
                          gone: set<Group>)
    requires FlowOk(flow) && Ready(flow, s) && ClearedOk(flow, stored, gone) && stored <= stored'
    requires s == FETCH ==> flow.guarded && (HasTranscript(Completed(value)) ==> flow.group !in gone)
    ensures ClearedOk(After(flow, s, fault, value), stored', gone)
  {
    TriedStagesAreBelow(flow, s);
  }

  lemma PassFits(flow: Flow, f: nat, fault: Fault, exists_: bool, stored: seq<Note>, sent: seq<Note>,
                 gone: set<Group>, window: nat, now: int)
    requires FlowFits(flow, f, stored, sent, gone, window, now) && Ready(flow, FETCH) && !flow.guarded
    requires !exists_ && flow.group !in gone ==> forall i | 0 <= i < |stored| && stored[i].row.group == flow.group ::
      stored[i].row.createdAt < flow.since
    ensures FlowFits(Pass(flow, fault, exists_, |stored|), f, stored, sent, gone, window, now)
    ensures Advances(flow, Pass(flow, fault, exists_, |stored|))
  {
    var value := Fetched(SkipFetch(EXISTS));
    if fault != NoFault || exists_ {
      AfterKeepsFlow(flow, FETCH, fault, value);
      AfterAdvances(flow, FETCH, fault, value);
      AfterKeepsCounts(flow, f, FETCH, fault, value, stored, sent);
      TriedStagesAreBelow(flow, FETCH);
    }
  }

  /** While the group stands the guard sees every stored summary. */
  lemma GuardSeesSummaries(stored: seq<Note>, flows: seq<Flow>, s: Server, window: nat, now: int, group: Group,
                           since: int)
    requires NotesOk(stored, flows, s.rows, window, now) && !HasSummarySince(Table(s), group, since)
    requires group !in s.gone
    ensures forall i | 0 <= i < |stored| :: stored[i].row.group == group ==> stored[i].row.createdAt < since
  {
    forall i | 0 <= i < |stored| && stored[i].row.group == group ensures stored[i].row.createdAt < since {
      assert NoteOk(stored[i], flows, s.rows, window, now);
      assert stored[i].row.id in Table(s) && !IsSummary(Table(s)[stored[i].row.id], group, since);
    }
  }

  lemma OneFlowChanges(flows: seq<Flow>, f: nat, flow: Flow, stored: seq<Note>, sent: seq<Note>, stored': seq<Note>,
                       sent': seq<Note>, gone: set<Group>, window: nat, now: int)
    requires f < |flows| && FlowsFit(flows, stored, sent, gone, window, now)
    requires FlowFits(flow, f, stored', sent', gone, window, now) && stored <= stored'
    requires forall g: nat | g != f :: Count(stored', g) == Count(stored, g) && Count(sent', g) == Count(sent, g)
    ensures FlowsFit(flows[f := flow], stored', sent', gone, window, now)
  {
    forall g | 0 <= g < |flows| && g != f ensures FlowFits(flows[g], g, stored', sent', gone, window, now) {
      assert FlowFits(flows[g], g, stored, sent, gone, window, now);
    }
  }

  lemma OneAdvances(flows: seq<Flow>, f: nat, flow: Flow)
    requires f < |flows| && Advances(flows[f], flow) && forall g | 0 <= g < |flows| :: |flows[g].jobs| == STAGES
    ensures AllAdvance(flows, flows[f := flow])
  {}

  lemma GuardKeepsFlows(w: World, a: Action)
    requires a.Work? && Workable(w, a) && a.stage == FETCH && !w.flows[a.flow].guarded
    requires FlowsFit(w.flows, w.stored, w.sent, w.gone, w.window, w.now)
    requires NotesOk(w.stored, w.flows, w.rows, w.window, w.now)
    ensures var after := Attempt(w, a);
      FlowsFit(after.flows, after.stored, after.sent, w.gone, w.window, w.now) && AllAdvance(w.flows, after.flows)
  {
    var flow := w.flows[a.flow];
    var exists_ := HasSummarySince(Table(Messages(w)), flow.group, flow.since);
    var after := Pass(flow, a.fault, exists_, |w.stored|);
    assert FlowFits(flow, a.flow, w.stored, w.sent, w.gone, w.window, w.now);
    if !exists_ && flow.group !in w.gone {
      GuardSeesSummaries(w.stored, w.flows, Messages(w), w.window, w.now, flow.group, flow.since);
    }
    PassFits(flow, a.flow, a.fault, exists_, w.stored, w.sent, w.gone, w.window, w.now);
    OneFlowChanges(w.flows, a.flow, after, w.stored, w.sent, w.stored, w.sent, w.gone, w.window, w.now);
    assert forall g | 0 <= g < |w.flows| :: FlowFits(w.flows[g], g, w.stored, w.sent, w.gone, w.window, w.now);
    OneAdvances(w.flows, a.flow, after);
  }

  lemma GuardKeepsNotes(w: World, a: Action)
    requires a.Work? && Workable(w, a) && a.stage == FETCH && !w.flows[a.flow].guarded && FlowOk(w.flows[a.flow])
    requires NotesOk(w.stored, w.flows, w.rows, w.window, w.now)
    requires SentOk(w.sent, w.stored, w.flows) && SavedIsStored(w.flows, w.stored)
    requires AllAdvance(w.flows, Attempt(w, a).flows)
    ensures var after := Attempt(w, a);
      && NotesOk(after.stored, after.flows, after.rows, w.window, w.now)
      && SentOk(after.sent, after.stored, after.flows)
      && SavedIsStored(after.flows, after.stored)
  {
    TriedStagesAreBelow(w.flows[a.flow], FETCH);
    NotesOutlive(w.stored, w.flows, w.rows, w.window, w.now, Attempt(w, a).flows, w.rows, w.now);
    SentOutlives(w.sent, w.stored, w.flows, w.stored, Attempt(w, a).flows);
  }

  lemma GuardKeepsGood(w: World, a: Action)
    requires Good(w) && a.Work? && Workable(w, a) && a.stage == FETCH && !w.flows[a.flow].guarded
    ensures Good(Attempt(w, a))
  {
    GuardKeepsFlows(w, a);
    FlowsHaveAllStages(w, a.flow);
    GuardKeepsNotes(w, a);
  }

  // ---------- An attempt past the guard ----------

  /** What an attempt past the guard finds: a ready stage and the value it is about to return. */
  predicate Trying(flow: Flow, f: nat, s: nat, value: Value, stored: seq<Note>, sent: seq<Note>, gone: set<Group>,
                   window: nat, now: int) {
    && FlowFits(flow, f, stored, sent, gone, window, now) && Ready(flow, s)
    && (s == FETCH ==> flow.guarded && (HasTranscript(Completed(value)) ==> flow.group !in gone))
    && Follows(ChildValue(flow, s), s, value, flow.group)
  }

  lemma AfterFits(flow: Flow, f: nat, s: nat, fault: Fault, value: Value, stored: seq<Note>, sent: seq<Note>,
                  gone: set<Group>, window: nat, now: int)
    requires Trying(flow, f, s, value, stored, sent, gone, window, now)
    ensures var after := After(flow, s, fault, value);
      && FlowFits(after, f, Stored(stored, f, value), Sent(sent, f, ChildValue(flow, s), value), gone, window, now)
      && (fault == BeforeEffect ==> FlowFits(after, f, stored, sent, gone, window, now))
      && Advances(flow, after)
  {
    StoredCounts(stored, f, value, f);
    AfterKeepsFlow(flow, s, fault, value);
    AfterKeepsCounts(flow, f, s, fault, value, stored, sent);
    AfterKeepsCleared(flow, s, fault, value, stored, stored, gone);
    AfterKeepsCleared(flow, s, fault, value, stored, Stored(stored, f, value), gone);
    AfterAdvances(flow, s, fault, value);
  }

  predicate Inserts(value: Value, rows: map<Id, Row>, now: int) {
    Stores(value) ==>
      && value.s.message.id !in rows && value.s.message.kind == AI_SUMMARY && value.s.message.createdAt == now
  }

  lemma AfterKeepsStored(flows: seq<Flow>, f: nat, s: nat, fault: Fault, value: Value, stored: seq<Note>,
                         rows: map<Id, Row>, window: nat, now: int)
    requires f < |flows| && Ready(flows[f], s) && Follows(ChildValue(flows[f], s), s, value, flows[f].group)
    requires flows[f].since + window <= now && Inserts(value, rows, now)
    requires NotesOk(stored, flows, rows, window, now)
    requires AllAdvance(flows, flows[f := After(flows[f], s, fault, value)])
    ensures var flows' := flows[f := After(flows[f], s, fault, value)];
      && NotesOk(Stored(stored, f, value), flows', Insert(rows, value), window, now)
      && NotesOk(stored, flows', rows, window, now)
  {
    var flows' := flows[f := After(flows[f], s, fault, value)];
    NotesOutlive(stored, flows, rows, window, now, flows', rows, now);
    NotesOutlive(stored, flows, rows, window, now, flows', Insert(rows, value), now);
    if Stores(value) {
      assert Advances(flows[f], flows'[f]);
      assert NoteOk(Note(f, value.s.message), flows', Insert(rows, value), window, now);
    }
  }

  lemma AfterKeepsSent(flows: seq<Flow>, f: nat, s: nat, fault: Fault, value: Value, stored: seq<Note>, sent: seq<Note>)
    requires f < |flows| && Ready(flows[f], s) && Follows(ChildValue(flows[f], s), s, value, flows[f].group)
    requires SentOk(sent, stored, flows) && SavedIsStored(flows, stored)
    requires AllAdvance(flows, flows[f := After(flows[f], s, fault, value)])
    ensures var flows' := flows[f := After(flows[f], s, fault, value)];
      && SentOk(Sent(sent, f, ChildValue(flows[f], s), value), Stored(stored, f, value), flows')
      && SentOk(sent, stored, flows')
  {
    var flows' := flows[f := After(flows[f], s, fault, value)];
    StoredCounts(stored, f, value, f);
    SentOutlives(sent, stored, flows, stored, flows');
    SentOutlives(sent, stored, flows, Stored(stored, f, value), flows');
    assert Advances(flows[f], flows'[f]);
    if value.Broadcast? && value.published {
      assert Note(f, flows[f].jobs[SAVE].state.value.s.message) in stored;
    }
  }

  lemma AfterKeepsSaved(flows: seq<Flow>, f: nat, s: nat, fault: Fault, value: Value, stored: seq<Note>)
    requires f < |flows| && FlowOk(flows[f]) && Ready(flows[f], s)
    requires Follows(ChildValue(flows[f], s), s, value, flows[f].group)
    requires SavedIsStored(flows, stored)
    ensures var flows' := flows[f := After(flows[f], s, fault, value)];
      && SavedIsStored(flows', Stored(stored, f, value))
      && (fault == BeforeEffect ==> SavedIsStored(flows', stored))
  {
    StoredCounts(stored, f, value, f);
    TriedStagesAreBelow(flows[f], s);
    if Stores(value) {
      assert Stored(stored, f, value)[|stored|] == Note(f, value.s.message);
    }
  }

  /** A transcript has a line, and so a row of the table. */
  lemma TranscriptNeedsTheGroup(w: World, a: Action)
    requires a.Work? && Workable(w, a) && a.stage == FETCH && w.flows[a.flow].guarded
    ensures HasTranscript(Completed(ResultOf(w, w.flows[a.flow], a))) ==> w.flows[a.flow].group !in w.gone
  {
    if a.found != [] {
      assert a.found[0] in a.found;
    }
  }

  lemma AttemptKeepsFlows(w: World, a: Action)
    requires a.Work? && Workable(w, a)
    requires a.stage == FETCH ==> w.flows[a.flow].guarded
    requires FlowsFit(w.flows, w.stored, w.sent, w.gone, w.window, w.now)
    ensures var after := Attempt(w, a);
      FlowsFit(after.flows, after.stored, after.sent, w.gone, w.window, w.now) && AllAdvance(w.flows, after.flows)
  {
    var f, s, flow := a.flow, a.stage, w.flows[a.flow];
    var value, child := ResultOf(w, flow, a), ChildValue(flow, s);
    var after := After(flow, s, a.fault, value);
    assert FlowFits(flow, f, w.stored, w.sent, w.gone, w.window, w.now);
    ResultFollows(w, flow, a);
    if s == FETCH {
      TranscriptNeedsTheGroup(w, a);
    }
    AfterFits(flow, f, s, a.fault, value, w.stored, w.sent, w.gone, w.window, w.now);
    forall g: nat
      ensures Count(Stored(w.stored, f, value), g) == Count(w.stored, g) || g == f
      ensures Count(Sent(w.sent, f, child, value), g) == Count(w.sent, g) || g == f
      ensures w.stored <= Stored(w.stored, f, value)
    {
      StoredCounts(w.stored, f, value, g);
      SentCounts(w.sent, f, child, value, g);
    }
    var stored := if a.fault == BeforeEffect then w.stored else Stored(w.stored, f, value);
    var sent := if a.fault == BeforeEffect then w.sent else Sent(w.sent, f, child, value);
    OneFlowChanges(w.flows, f, after, w.stored, w.sent, stored, sent, w.gone, w.window, w.now);
    assert forall g | 0 <= g < |w.flows| :: FlowFits(w.flows[g], g, w.stored, w.sent, w.gone, w.window, w.now);
    OneAdvances(w.flows, f, after);
  }

  lemma AttemptKeepsStored(w: World, a: Action)
    requires a.Work? && Workable(w, a)
    requires FlowOk(w.flows[a.flow]) && ValuesOk(w.flows[a.flow]) && w.flows[a.flow].since + w.window <= w.now
    requires a.stage == FETCH ==> w.flows[a.flow].guarded
    requires NotesOk(w.stored, w.flows, w.rows, w.window, w.now) && AllAdvance(w.flows, Attempt(w, a).flows)
    ensures var after := Attempt(w, a); NotesOk(after.stored, after.flows, after.rows, w.window, w.now)
  {
    var flow := w.flows[a.flow];
    ResultFollows(w, flow, a);
    AfterKeepsStored(w.flows, a.flow, a.stage, a.fault, ResultOf(w, flow, a), w.stored, w.rows, w.window, w.now);
  }

  lemma AttemptKeepsSent(w: World, a: Action)
    requires a.Work? && Workable(w, a)
    requires FlowOk(w.flows[a.flow]) && ValuesOk(w.flows[a.flow])
    requires a.stage == FETCH ==> w.flows[a.flow].guarded
    requires SentOk(w.sent, w.stored, w.flows) && SavedIsStored(w.flows, w.stored)
    requires AllAdvance(w.flows, Attempt(w, a).flows)
    ensures var after := Attempt(w, a);
      SentOk(after.sent, after.stored, after.flows) && SavedIsStored(after.flows, after.stored)
  {
    var flow := w.flows[a.flow];
    var value := ResultOf(w, flow, a);
    ResultFollows(w, flow, a);
    AfterKeepsSent(w.flows, a.flow, a.stage, a.fault, value, w.stored, w.sent);
    AfterKeepsSaved(w.flows, a.flow, a.stage, a.fault, value, w.stored);
  }

  lemma AttemptKeepsGood(w: World, a: Action)
    requires Good(w) && a.Work? && Workable(w, a) && (a.stage == FETCH ==> w.flows[a.flow].guarded)
    ensures Good(Attempt(w, a))
  {
    AttemptKeepsFlows(w, a);
    FlowsHaveAllStages(w, a.flow);
    AttemptKeepsStored(w, a);
    AttemptKeepsSent(w, a);
  }

  lemma StepKeepsGood(w: World, a: Action)
    requires Good(w)
    ensures Good(Step(w, a))
  {
    match a
    case FanOut(group) => FanOutKeepsGood(w, group);
    case Tick(to) => TickKeepsGood(w, to);
    case Other(op) => OtherKeepsGood(w, op);
    case Work(_, _, _, _, _, _) =>
      if Workable(w, a) {
        if a.stage == FETCH && !w.flows[a.flow].guarded {
          GuardKeepsGood(w, a);
        } else {
          AttemptKeepsGood(w, a);
        }
      }
  }

  lemma {:induction false} RunKeepsGood(w: World, actions: seq<Action>)
    requires Good(w)
    ensures Good(RunAll(w, actions))
    decreases |actions|
  {
    if actions != [] {
      StepKeepsGood(w, actions[0]);
      RunKeepsGood(Step(w, actions[0]), actions[1..]);
    }
  }

  ghost predicate Reachable(w: World) {
    exists rows, names, window, now, actions :: w == RunAll(Start(rows, names, window, now), actions)
  }

  lemma ReachableIsGood(w: World)
    requires Reachable(w)
    ensures Good(w)
  {
    var rows, names, window, now, actions :| w == RunAll(Start(rows, names, window, now), actions);
    RunKeepsGood(Start(rows, names, window, now), actions);
  }

  // ---------- Safety ----------

  /**
   Every broadcast is of a row stored before, in the flow's group; it is still in the table, with at most its
   reactions changed, if and only if the group has not been deleted since.
   */
  lemma BroadcastsAreStored(w: World, i: nat)
    requires Reachable(w) && i < |w.sent|
    ensures var Note(f, row) := w.sent[i];
      && w.sent[i] in w.stored
      && f < |w.flows| && row.group == w.flows[f].group
      && (row.id in Table(Messages(w)) <==> row.group !in w.gone)
      && row.id in w.rows && SameSummary(w.rows[row.id], row)
  {
    ReachableIsGood(w);
    assert w.sent[i] in w.stored;
    var j :| 0 <= j < |w.stored| && w.stored[j] == w.sent[i];
    assert NoteOk(w.stored[j], w.flows, w.rows, w.window, w.now);
  }

  lemma StoredMeansText(w: World, f: nat)
    requires NotesOk(w.stored, w.flows, w.rows, w.window, w.now) && f < |w.flows| && Count(w.stored, f) > 0
    ensures |w.flows[f].jobs| == STAGES && w.flows[f].jobs[GENERATE].state.Completed?
    ensures w.flows[f].jobs[GENERATE].state.value.Generated? && w.flows[f].jobs[GENERATE].state.value.g.Text?
  {
    CountedIsThere(w.stored, f);
    var i :| 0 <= i < |w.stored| && w.stored[i].flow == f;
    assert NoteOk(w.stored[i], w.flows, w.rows, w.window, w.now);
  }

  lemma SentMeansSaved(w: World, f: nat)
    requires SentOk(w.sent, w.stored, w.flows) && f < |w.flows| && Count(w.sent, f) > 0
    ensures |w.flows[f].jobs| == STAGES && w.flows[f].jobs[SAVE].state.Completed?
    ensures w.flows[f].jobs[SAVE].state.value.Persisted? && w.flows[f].jobs[SAVE].state.value.s.Saved?
  {
    CountedIsThere(w.sent, f);
    var i :| 0 <= i < |w.sent| && w.sent[i].flow == f;
  }

  lemma FitsGivesParts(w: World, f: nat)
    requires FlowsFit(w.flows, w.stored, w.sent, w.gone, w.window, w.now) && f < |w.flows|
    ensures FlowOk(w.flows[f]) && ValuesOk(w.flows[f]) && CountsOk(w.flows[f], f, w.stored, w.sent)
  {
    assert FlowFits(w.flows[f], f, w.stored, w.sent, w.gone, w.window, w.now);
  }

  /** The root reports a publication exactly when the flow broadcast something. */
  lemma PublishedIffBroadcast(w: World, f: nat)
    requires Reachable(w) && f < |w.flows| && |w.flows[f].jobs| == STAGES
    requires w.flows[f].jobs[ROOT].state.Completed? && w.flows[f].jobs[ROOT].state.value.Finished?
    ensures w.flows[f].jobs[ROOT].state.value.published <==> Count(w.sent, f) > 0
  {
    ReachableIsGood(w);
    FitsGivesParts(w, f);
    var flow := w.flows[f];
    assert flow.jobs[PUBLISH].state.Completed? && flow.jobs[SAVE].state.Completed?;
    assert Follows(ChildValue(flow, ROOT), ROOT, flow.jobs[ROOT].state.value, flow.group);
    assert Follows(ChildValue(flow, PUBLISH), PUBLISH, flow.jobs[PUBLISH].state.value, flow.group);
    if Count(w.sent, f) > 0 {
      SentMeansSaved(w, f);
    }
  }

  predicate SkippedAt(flow: Flow, s: nat)
    requires |flow.jobs| == STAGES
  {
    var state := flow.jobs[if s == FETCH then FETCH else GENERATE].state;
    && state.Completed?
    && (s == FETCH ==> state.value.Fetched? && state.value.f.SkipFetch?)
    && (s != FETCH ==> state.value.Generated? && state.value.g.SkipGenerate?)
  }

  /** A skip at fetch or generate stores nothing and broadcasts nothing, and is never published. */
  lemma SkipIsSilent(w: World, f: nat, s: nat)
    requires Reachable(w) && f < |w.flows| && |w.flows[f].jobs| == STAGES
    requires s <= GENERATE && SkippedAt(w.flows[f], s)
    ensures Count(w.stored, f) == 0 && Count(w.sent, f) == 0
    ensures w.flows[f].jobs[ROOT].state.Completed? ==> w.flows[f].jobs[ROOT].state.value == Finished(false)
    ensures s == FETCH && w.flows[f].jobs[GENERATE].state.Completed? ==>
      w.flows[f].jobs[GENERATE].state.value == Generated(SkipGenerate(w.flows[f].jobs[FETCH].state.value.f.reason))
  {
    ReachableIsGood(w);
    FitsGivesParts(w, f);
    var flow := w.flows[f];
    assert flow.jobs[GENERATE].state.Completed? ==>
      Follows(ChildValue(flow, GENERATE), GENERATE, flow.jobs[GENERATE].state.value, flow.group);
    if Count(w.stored, f) > 0 {
      StoredMeansText(w, f);
    }
    assert flow.jobs[SAVE].state.Completed? ==>
      Follows(ChildValue(flow, SAVE), SAVE, flow.jobs[SAVE].state.value, flow.group);
    if Count(w.sent, f) > 0 {
      SentMeansSaved(w, f);
    }
    if flow.jobs[ROOT].state.Completed? {
      assert Follows(ChildValue(flow, ROOT), ROOT, flow.jobs[ROOT].state.value, flow.group);
      PublishedIffBroadcast(w, f);
    }
  }

  // ---------- The summaries of the table are those stored ----------

  ghost predicate SummariesAreNotes(w: World, before: set<Id>) {
    forall id | id in w.rows && w.rows[id].kind == AI_SUMMARY && id !in before ::
      exists i :: 0 <= i < |w.stored| && w.stored[i].row.id == id
  }

  lemma StepStoresSummaries(w: World, a: Action, before: set<Id>)
    requires SummariesAreNotes(w, before)
    ensures SummariesAreNotes(Step(w, a), before)
  {
    var after := Step(w, a);
    forall id | id in after.rows && after.rows[id].kind == AI_SUMMARY && id !in before
      ensures exists i :: 0 <= i < |after.stored| && after.stored[i].row.id == id
    {
      if id in w.rows && w.rows[id].kind == AI_SUMMARY {
        var i :| 0 <= i < |w.stored| && w.stored[i].row.id == id;
        assert after.stored[i] == w.stored[i];
      } else if a.Work? {
        assert after.stored[|w.stored|].row.id == id;
      }
    }
  }

  lemma {:induction false} RunStoresSummaries(w: World, actions: seq<Action>, before: set<Id>)
    requires SummariesAreNotes(w, before)
    ensures SummariesAreNotes(RunAll(w, actions), before)
    decreases |actions|
  {
    if actions != [] {
      StepStoresSummaries(w, actions[0], before);
      RunStoresSummaries(Step(w, actions[0]), actions[1..], before);
    }
  }

  /** In every run each summary that was not there at the start is one that a flow's save stored. */
  lemma EverySummaryWasSaved(rows: map<Id, Row>, names: map<User, string>, window: nat, now: int,
                             actions: seq<Action>, id: Id)
    ensures var w := RunAll(Start(rows, names, window, now), actions);
      id in w.rows && w.rows[id].kind == AI_SUMMARY && id !in rows ==>
        exists i :: 0 <= i < |w.stored| && w.stored[i].row.id == id
  {
    RunStoresSummaries(Start(rows, names, window, now), actions, rows.Keys);
  }

  // ---------- The window ----------

  /** Requests reach the messages beside the pipeline, and time goes on. */
  lemma WorldGoesOn(w: World, op: Op, to: int)
    ensures Messages(Step(w, Other(op))).rows == Apply(Messages(w), op).rows
    ensures Messages(Step(w, Other(op))).gone == Apply(Messages(w), op).gone
    ensures w.now <= Step(w, Tick(to)).now && to <= Step(w, Tick(to)).now
  {}

  lemma StepKeepsWindow(w: World, a: Action, f: nat)
    requires f < |w.flows|
    ensures f < |Step(w, a).flows|
    ensures Step(w, a).flows[f].since == w.flows[f].since && Step(w, a).flows[f].group == w.flows[f].group
  {}

  lemma {:induction false} WindowStays(w: World, actions: seq<Action>, f: nat)
    requires f < |w.flows|
    ensures f < |RunAll(w, actions).flows|
    ensures RunAll(w, actions).flows[f].since == w.flows[f].since
    ensures RunAll(w, actions).flows[f].group == w.flows[f].group
    decreases |actions|
  {
    if actions != [] {
      StepKeepsWindow(w, actions[0], f);
      WindowStays(Step(w, actions[0]), actions[1..], f);
    }
  }

  /** A flow is about the window that ends when the scheduler adds it, whenever its stages come to run. */
  lemma WindowEndsAtFanOut(w: World, group: Group, actions: seq<Action>)
    ensures var end := RunAll(Step(w, FanOut(group)), actions);
      && |w.flows| < |end.flows|
      && end.flows[|w.flows|].group == group && end.flows[|w.flows|].since == w.now - w.window
  {
    WindowStays(Step(w, FanOut(group)), actions, |w.flows|);
  }

  /** The guard of a fetch: a summary in the window is a skip, and its absence lets the attempt read on. */
  lemma GuardIsExact(w: World, a: Action)
    requires a.Work? && Workable(w, a) && a.stage == FETCH && !w.flows[a.flow].guarded && a.fault == NoFault
    ensures var flow, after := w.flows[a.flow], Step(w, a).flows[a.flow];
      if exists id ::
        && id in w.rows && w.rows[id].group == flow.group && flow.group !in w.gone
        && w.rows[id].kind == AI_SUMMARY && w.rows[id].createdAt >= flow.since
      then after.jobs[FETCH].state == Completed(Fetched(SkipFetch(EXISTS)))
      else after.jobs == flow.jobs && after.guarded
  {
    var flow := w.flows[a.flow];
    if exists id ::
      && id in w.rows && w.rows[id].group == flow.group && flow.group !in w.gone
      && w.rows[id].kind == AI_SUMMARY && w.rows[id].createdAt >= flow.since
    {
      var id :| id in w.rows && w.rows[id].group == flow.group && flow.group !in w.gone
        && w.rows[id].kind == AI_SUMMARY && w.rows[id].createdAt >= flow.since;
      assert id in Table(Messages(w)) && IsSummary(Table(Messages(w))[id], flow.group, flow.since);
    }
  }

  // ---------- Termination and bounds ----------

  /**
   The stages run in order; a flow makes at most fifteen attempts, and after fifteen it is over; it
   stores at most three rows and makes at most three broadcasts.
   */
  lemma FlowIsBounded(w: World, f: nat)
    requires Reachable(w) && f < |w.flows|
    ensures var flow := w.flows[f];
      && |flow.jobs| == STAGES
      && (forall i, j | 0 <= i < j < |flow.ran| :: flow.ran[i] <= flow.ran[j])
      && |flow.ran| <= STAGES * MAX_ATTEMPTS
      && (|flow.ran| == STAGES * MAX_ATTEMPTS ==> Over(flow))
      && Count(w.stored, f) <= MAX_ATTEMPTS && Count(w.sent, f) <= MAX_ATTEMPTS
  {
    ReachableIsGood(w);
    FitsGivesParts(w, f);
    OneStageIsReady(w.flows[f]);
  }

  /**
   While a flow is not over, exactly one of its stages is ready, and whatever happens to an attempt
   at it, the attempt is counted; only the guard of a fetch is a step that is not, once an attempt.
   */
  lemma EveryAttemptCounts(w: World, f: nat)
    requires Reachable(w) && f < |w.flows| && |w.flows[f].jobs| == STAGES && !Over(w.flows[f])
    ensures exists s :: Ready(w.flows[f], s) && forall t | Ready(w.flows[f], t) :: t == s
    ensures forall a: Action | a.Work? && a.flow == f && Workable(w, a) ::
      var flow, after := w.flows[f], Step(w, a).flows[f];
      || after.ran == flow.ran + [a.stage]
      || (after.ran == flow.ran && !flow.guarded && after.guarded && after.jobs == flow.jobs)
  {
    ReachableIsGood(w);
    FitsGivesParts(w, f);
    OneStageIsReady(w.flows[f]);
  }

  lemma UnusedId(ids: set<Id>) returns (fresh_: Id)
    ensures forall id | id in ids :: id < fresh_
    decreases |ids|
  {
    if ids == {} {
      fresh_ := 0;
    } else {
      var id :| id in ids;
      var above := UnusedId(ids - {id});
      fresh_ := if id < above then above else id + 1;
      assert forall other | other in ids :: other == id || other in ids - {id};
    }
  }

  lemma EarliestRow(rows: map<Id, Row>, ids: set<Id>) returns (first: Id)
    requires ids != {} && ids <= rows.Keys
    ensures first in ids && forall id | id in ids :: rows[first].createdAt <= rows[id].createdAt
    decreases |ids|
  {
    first :| first in ids;
    if ids != {first} {
      var other := EarliestRow(rows, ids - {first});
      assert forall id | id in ids :: id == first || id in ids - {first};
      if rows[other].createdAt < rows[first].createdAt {
        first := other;
      }
    }
  }

  lemma RowsInTimeOrder(rows: map<Id, Row>, ids: set<Id>) returns (found: seq<Row>)
    requires ids <= rows.Keys && forall id | id in ids :: rows[id].id == id
    ensures forall i, j | 0 <= i < j < |found| :: found[i].createdAt <= found[j].createdAt && found[i] != found[j]
    ensures forall row :: row in found <==> row.id in ids && rows[row.id] == row
    decreases |ids|
  {
    if ids == {} {
      found := [];
    } else {
      var first := EarliestRow(rows, ids);
      var rest := RowsInTimeOrder(rows, ids - {first});
      found := [rows[first]] + rest;
      forall j | 0 < j < |found| ensures found[0].createdAt <= found[j].createdAt && found[0] != found[j] {
        assert rest[j - 1] in rest;
      }
      forall row ensures row in found <==> row.id in ids && rows[row.id] == row {
        assert row in found <==> row == rows[first] || row in rest;
      }
    }
  }

  /**
   No flow is ever stuck: until it is over some worker can make an attempt at it, and one without a fault
   unless it is to save into a group that is gone.
   */
  lemma SomeAttemptIsEnabled(w: World, f: nat)
    requires Reachable(w) && f < |w.flows| && |w.flows[f].jobs| == STAGES && !Over(w.flows[f])
    ensures exists a: Action ::
      && a.Work? && a.flow == f && Workable(w, a)
      && (a.fault == NoFault || (a.stage == SAVE && w.flows[f].group in w.gone))
  {
    ReachableIsGood(w);
    FitsGivesParts(w, f);
    OneStageIsReady(w.flows[f]);
    var flow := w.flows[f];
    var s :| Ready(flow, s);
    var rows := Table(Messages(w));
    var ids := set id | id in rows && rows[id].id == id && InWindow(rows[id], flow.group, flow.since);
    var found := RowsInTimeOrder(rows, ids);
    var id := UnusedId(w.rows.Keys);
    forall row
      ensures row in found <==> row.id in rows && rows[row.id] == row && InWindow(row, flow.group, flow.since)
    {
      assert row in found <==> row.id in ids && rows[row.id] == row;
    }
    assert IsWindow(rows, flow.group, flow.since, found);
    if s == SAVE {
      assert Follows(ChildValue(flow, GENERATE), GENERATE, flow.jobs[GENERATE].state.value, flow.group);
    }
    var fault := if s == SAVE && flow.group in w.gone then BeforeEffect else NoFault;
    assert Workable(w, Work(f, s, fault, "", found, id));
  }

  /** What an attempt without faults leaves of the world, at a stage past the guard. */
  lemma CleanAttempt(w: World, a: Action)
    requires a.Work? && Workable(w, a) && a.fault == NoFault && (a.stage == FETCH ==> w.flows[a.flow].guarded)
    ensures var flow := w.flows[a.flow];
      var value := ResultOf(w, flow, a);
      Step(w, a) == w.(flows := w.flows[a.flow := Complete(flow, a.stage, value)],
                       rows := Insert(w.rows, value),
                       stored := Stored(w.stored, a.flow, value),
                       sent := Sent(w.sent, a.flow, ChildValue(flow, a.stage), value))
  {}

  predicate AtStage(w: World, f: nat, s: nat, child: Value) {
    && f < |w.flows| && 0 < s < STAGES && Ready(w.flows[f], s) && w.flows[f].jobs[s - 1].state.value == child
    && forall t | s < t < STAGES :: w.flows[f].jobs[t].state.Waiting?
  }

  lemma CleanFetch(w: World, f: nat, found: seq<Row>)
    requires f < |w.flows| && w.flows[f] == NewFlow(w.flows[f].group, w.flows[f].since)
    requires !HasSummarySince(Table(Messages(w)), w.flows[f].group, w.flows[f].since)
    requires IsWindow(Table(Messages(w)), w.flows[f].group, w.flows[f].since, found) && found != []
    ensures var a := Work(f, FETCH, NoFault, "", found, 0);
      var after := Step(Step(w, a), a);
      && after.rows == w.rows && after.gone == w.gone && after.now == w.now
      && after.stored == w.stored && after.sent == w.sent
      && AtStage(after, f, GENERATE, Fetched(Fetch(w.names, w.flows[f].group, found)))
      && after.flows[f].group == w.flows[f].group
  {
    var a := Work(f, FETCH, NoFault, "", found, 0);
    var passed := Step(w, a);
    assert passed.flows[f].guarded && passed.rows == w.rows;
    CleanAttempt(passed, a);
  }

  lemma CleanStage(w: World, f: nat, s: nat, child: Value, a: Action)
    requires AtStage(w, f, s, child) && a.Work? && a.flow == f && a.stage == s && a.fault == NoFault
    requires s == SAVE ==> a.id !in w.rows && !SavesInto(w.flows[f], w.gone)
    ensures var after := Step(w, a);
      var value := ResultOf(w, w.flows[f], a);
      && after.now == w.now && after.gone == w.gone
      && |after.flows| == |w.flows| && after.flows[f].group == w.flows[f].group
      && after.rows == Insert(w.rows, value) && after.stored == Stored(w.stored, f, value)
      && after.sent == Sent(w.sent, f, Some(child), value)
      && (s + 1 < STAGES ==> AtStage(after, f, s + 1, value))
      && (s == ROOT ==> after.flows[f].jobs[ROOT].state == Completed(value))
  {
    CleanAttempt(w, a);
  }

  /**
   When nothing fails, a group with something to summarize and no summary in the window gets one: the
   model's text is stored as one row, that row is broadcast, and the root reports it published.
   */
  lemma CleanFlowPublishes(w: World, f: nat, found: seq<Row>, answer: string, id: Id)
    requires f < |w.flows| && w.flows[f] == NewFlow(w.flows[f].group, w.flows[f].since)
    requires !HasSummarySince(Table(Messages(w)), w.flows[f].group, w.flows[f].since)
    requires IsWindow(Table(Messages(w)), w.flows[f].group, w.flows[f].since, found) && found != []
    requires answer != "" && id !in w.rows
    ensures var read := Work(f, FETCH, NoFault, "", found, 0);
      var fetched := Step(Step(w, read), read);
      var end := Step(Step(Step(Step(fetched,
        Work(f, GENERATE, NoFault, answer, [], 0)), Work(f, SAVE, NoFault, "", [], id)),
        Work(f, PUBLISH, NoFault, "", [], 0)), Work(f, ROOT, NoFault, "", [], 0));
      var row := Row(id, w.flows[f].group, None, AI_SUMMARY, w.now, answer, None, None, None, {});
      && f < |end.flows| && |end.flows[f].jobs| == STAGES
      && end.flows[f].jobs[ROOT].state == Completed(Finished(true))
      && end.rows == w.rows[id := row]
      && end.stored == w.stored + [Note(f, row)] && end.sent == w.sent + [Note(f, row)]
  {
    var group := w.flows[f].group;
    var read := Work(f, FETCH, NoFault, "", found, 0);
    var generate, save := Work(f, GENERATE, NoFault, answer, [], 0), Work(f, SAVE, NoFault, "", [], id);
    var publish, root := Work(f, PUBLISH, NoFault, "", [], 0), Work(f, ROOT, NoFault, "", [], 0);
    var row := Row(id, group, None, AI_SUMMARY, w.now, answer, None, None, None, {});
    assert found[0] in found;
    CleanFetch(w, f, found);
    var fetched := Step(Step(w, read), read);
    CleanStage(fetched, f, GENERATE, Fetched(Fetch(w.names, group, found)), generate);
    var generated := Step(fetched, generate);
    CleanStage(generated, f, SAVE, Generated(Text(group, answer)), save);
    var saved := Step(generated, save);
    CleanStage(saved, f, PUBLISH, Persisted(Saved(row)), publish);
    var published := Step(saved, publish);
    CleanStage(published, f, ROOT, Broadcast(true), root);
  }

  /** A save into a group deleted after its fetch can only fail, before any effect. */
  lemma SaveNeedsTheGroup(w: World, a: Action)
    requires a.Work? && Workable(w, a) && a.stage == SAVE && SavesInto(w.flows[a.flow], w.gone)
    ensures Step(w, a) == w.(flows := w.flows[a.flow := Fail(w.flows[a.flow], SAVE)])
  {}

  /**
   Such a run of publish: the group is deleted after the save, and a row that is no longer in the table is
   broadcast and reported as published.
   */
  lemma PublishOutlivesTheGroup(w: World, f: nat, row: Row)
    requires AtStage(w, f, PUBLISH, Persisted(Saved(row))) && row.id in Table(Messages(w))
    requires w.rows[row.id].group == row.group
    ensures var end := Step(Step(w, Other(DeleteGroup(row.group))), Work(f, PUBLISH, NoFault, "", [], 0));
      && end.sent == w.sent + [Note(f, row)] && AtStage(end, f, ROOT, Broadcast(true))
      && row.id !in Table(Messages(end))
  {
    var deleted := Step(w, Other(DeleteGroup(row.group)));
    CleanStage(deleted, f, PUBLISH, Persisted(Saved(row)), Work(f, PUBLISH, NoFault, "", [], 0));
  }

  lemma OverStays(w: World, a: Action, f: nat)
    requires f < |w.flows| && |w.flows[f].jobs| == STAGES && FlowOk(w.flows[f]) && Over(w.flows[f])
    ensures f < |Step(w, a).flows| && Step(w, a).flows[f] == w.flows[f]
  {
    OneStageIsReady(w.flows[f]);
  }

  /** A flow that is over is never touched again, whatever the workers do. */
  lemma {:induction false} OverIsFinal(w: World, actions: seq<Action>, f: nat)
    requires Reachable(w) && f < |w.flows| && |w.flows[f].jobs| == STAGES && Over(w.flows[f])
    ensures f < |RunAll(w, actions).flows| && RunAll(w, actions).flows[f] == w.flows[f]
  {
    ReachableIsGood(w);
    FitsGivesParts(w, f);
    OverStaysOver(w, actions, f);
  }

  lemma {:induction false} OverStaysOver(w: World, actions: seq<Action>, f: nat)
    requires f < |w.flows| && |w.flows[f].jobs| == STAGES && FlowOk(w.flows[f]) && Over(w.flows[f])
    ensures f < |RunAll(w, actions).flows| && RunAll(w, actions).flows[f] == w.flows[f]
    decreases |actions|
  {
    if actions != [] {
      OverStays(w, actions[0], f);
      OverStaysOver(Step(w, actions[0]), actions[1..], f);
    }
  }

  lemma FailureGoesUp(flow: Flow, s: nat)
    requires FlowOk(flow) && s < STAGES && flow.jobs[s].state.Failed? && flow.jobs[s].attempts > 0
    ensures flow.jobs[s].attempts == MAX_ATTEMPTS && Over(flow)
    ensures forall t | 0 <= t < s :: flow.jobs[t].state.Completed?
    ensures forall t | s < t < STAGES :: flow.jobs[t] == Job(0, Failed)
  {}

  /** A stage that fails has used its three attempts, and none of its ancestors ever runs. */
  lemma ExhaustedStageFailsTheFlow(w: World, actions: seq<Action>, f: nat, s: nat)
    requires Reachable(w) && f < |w.flows| && |w.flows[f].jobs| == STAGES
    requires s < STAGES && w.flows[f].jobs[s].state.Failed? && w.flows[f].jobs[s].attempts > 0
    ensures w.flows[f].jobs[s].attempts == MAX_ATTEMPTS
    ensures forall t | 0 <= t < s :: w.flows[f].jobs[t].state.Completed?
    ensures forall t | s < t < STAGES :: w.flows[f].jobs[t] == Job(0, Failed)
    ensures f < |RunAll(w, actions).flows| && RunAll(w, actions).flows[f] == w.flows[f]
  {
    ReachableIsGood(w);
    FitsGivesParts(w, f);
    FailureGoesUp(w.flows[f], s);
    OverStaysOver(w, actions, f);
  }

  // ---------- Once, unless an attempt fails after its effect ----------

  predicate NoLateFaults(actions: seq<Action>) {
    forall i | 0 <= i < |actions| && actions[i].Work? :: actions[i].fault != AfterEffect
  }

  predicate Once(flow: Flow, f: nat, stored: seq<Note>, sent: seq<Note>) {
    && |flow.jobs| == STAGES
    && Count(stored, f) <= (if flow.jobs[SAVE].state.Completed? then 1 else 0)
    && Count(sent, f) <= (if flow.jobs[PUBLISH].state.Completed? then 1 else 0)
  }

  ghost predicate AllOnce(w: World) {
    forall f | 0 <= f < |w.flows| :: Once(w.flows[f], f, w.stored, w.sent)
  }

  lemma AfterKeepsOnce(flow: Flow, f: nat, s: nat, fault: Fault, value: Value, stored: seq<Note>, sent: seq<Note>)
    requires FlowOk(flow) && Ready(flow, s) && Once(flow, f, stored, sent) && fault != AfterEffect
    requires Follows(ChildValue(flow, s), s, value, flow.group)
    ensures var after := After(flow, s, fault, value);
      && (fault == BeforeEffect ==> Once(after, f, stored, sent))
      && (fault == NoFault ==> Once(after, f, Stored(stored, f, value), Sent(sent, f, ChildValue(flow, s), value)))
  {
    TriedStagesAreBelow(flow, s);
    StoredCounts(stored, f, value, f);
    SentCounts(sent, f, ChildValue(flow, s), value, f);
  }

  lemma AttemptKeepsOnce(w: World, a: Action, f: nat)
    requires a.Work? && a.flow < |w.flows| && Ready(w.flows[a.flow], a.stage) && a.fault != AfterEffect && f < |w.flows|
    requires FlowOk(w.flows[a.flow]) && ValuesOk(w.flows[a.flow])
    requires Once(w.flows[f], f, w.stored, w.sent)
    ensures Once(Attempt(w, a).flows[f], f, Attempt(w, a).stored, Attempt(w, a).sent)
  {
    var flow := w.flows[a.flow];
    var value := ResultOf(w, flow, a);
    TriedStagesAreBelow(flow, a.stage);
    StoredCounts(w.stored, a.flow, value, f);
    SentCounts(w.sent, a.flow, ChildValue(flow, a.stage), value, f);
    if a.flow == f && (a.stage != FETCH || flow.guarded) {
      ResultFollows(w, flow, a);
      AfterKeepsOnce(flow, f, a.stage, a.fault, value, w.stored, w.sent);
    }
  }

  lemma FanOutKeepsOnce(w: World, group: Group)
    requires NotesOk(w.stored, w.flows, w.rows, w.window, w.now) && SentOk(w.sent, w.stored, w.flows) && AllOnce(w)
    ensures AllOnce(AddFlow(w, group))
  {
    var after := AddFlow(w, group);
    NewFlowFits(w, group);
    forall f | 0 <= f < |after.flows| ensures Once(after.flows[f], f, w.stored, w.sent) {
      assert f < |w.flows| ==> Once(w.flows[f], f, w.stored, w.sent);
    }
  }

  lemma WorkKeepsOnce(w: World, a: Action)
    requires FlowsFit(w.flows, w.stored, w.sent, w.gone, w.window, w.now) && AllOnce(w)
    requires a.Work? && a.fault != AfterEffect && a.flow < |w.flows| && Ready(w.flows[a.flow], a.stage)
    ensures AllOnce(Attempt(w, a))
  {
    FitsGivesParts(w, a.flow);
    forall f | 0 <= f < |w.flows| ensures Once(Attempt(w, a).flows[f], f, Attempt(w, a).stored, Attempt(w, a).sent) {
      AttemptKeepsOnce(w, a, f);
    }
  }

  lemma StepKeepsOnce(w: World, a: Action)
    requires Good(w) && AllOnce(w) && (a.Work? ==> a.fault != AfterEffect)
    ensures AllOnce(Step(w, a))
  {
    match a
    case FanOut(group) => FanOutKeepsOnce(w, group);
    case Tick(_) =>
    case Other(_) =>
    case Work(_, _, _, _, _, _) =>
      if Workable(w, a) {
        WorkKeepsOnce(w, a);
      }
  }

  lemma {:induction false} RunKeepsOnce(w: World, actions: seq<Action>)
    requires Good(w) && AllOnce(w) && NoLateFaults(actions)
    ensures AllOnce(RunAll(w, actions))
    decreases |actions|
  {
    if actions != [] {
      assert actions[0].Work? ==> actions[0].fault != AfterEffect;
      StepKeepsGood(w, actions[0]);
      StepKeepsOnce(w, actions[0]);
      assert forall i | 0 <= i < |actions[1..]| :: actions[1..][i] == actions[i + 1];
      RunKeepsOnce(Step(w, actions[0]), actions[1..]);
    }
  }

  /** When no attempt fails after its effect, a flow stores at most one row and broadcasts it at most once. */
  lemma AtMostOnce(rows: map<Id, Row>, names: map<User, string>, window: nat, now: int, actions: seq<Action>, f: nat)
    requires NoLateFaults(actions)
    ensures var w := RunAll(Start(rows, names, window, now), actions);
      f < |w.flows| ==> Count(w.stored, f) <= 1 && Count(w.sent, f) <= 1
  {
    RunKeepsOnce(Start(rows, names, window, now), actions);
    var w := RunAll(Start(rows, names, window, now), actions);
    assert f < |w.flows| ==> Once(w.flows[f], f, w.stored, w.sent);
  }

  // ---------- Spacing ----------

  lemma ClearedSummariesAreSpaced(w: World, i: nat, j: nat)
    requires Good(w) && i < |w.stored| && j < |w.stored|
    requires w.stored[i].row.group == w.stored[j].row.group && ClearedBeyond(w, w.stored[j].flow, i + 1)
    ensures w.stored[j].row.createdAt - w.stored[i].row.createdAt > w.window
  {
    var flow := w.flows[w.stored[j].flow];
    assert NoteOk(w.stored[j], w.flows, w.rows, w.window, w.now);
    assert FlowFits(flow, w.stored[j].flow, w.stored, w.sent, w.gone, w.window, w.now);
  }

  ghost predicate ClearedBeyond(w: World, f: nat, n: nat) {
    f < |w.flows| && w.flows[f].cleared.Some? && n <= w.flows[f].cleared.value && n <= |w.stored|
  }

  lemma {:induction false} ClearanceLasts(w: World, actions: seq<Action>, f: nat, n: nat)
    requires ClearedBeyond(w, f, n)
    ensures ClearedBeyond(RunAll(w, actions), f, n) && w.stored <= RunAll(w, actions).stored
    ensures RunAll(w, actions).window == w.window
    decreases |actions|
  {
    if actions != [] {
      var after := Step(w, actions[0]);
      assert ClearedBeyond(after, f, n) && w.stored <= after.stored;
      ClearanceLasts(after, actions[1..], f, n);
    }
  }

  /**
   A summary stored before another flow's fetch passes its guard is more than the window older than
   any summary that flow ever stores for the same group.
   */
  lemma LaterFlowIsSpaced(w: World, guard: Action, rest: seq<Action>, i: nat, j: nat)
    requires Reachable(w) && guard.Work? && Workable(w, guard) && !w.flows[guard.flow].guarded
    requires Step(w, guard).flows[guard.flow].guarded
    requires i < |w.stored| && j < |RunAll(Step(w, guard), rest).stored|
    requires var Note(f, later) := RunAll(Step(w, guard), rest).stored[j];
      f == guard.flow && later.group == w.stored[i].row.group
    ensures RunAll(Step(w, guard), rest).stored[j].row.createdAt - w.stored[i].row.createdAt > w.window
  {
    ReachableIsGood(w);
    FitsGivesParts(w, guard.flow);
    GuardClears(w, guard);
    var passed := Step(w, guard);
    StepKeepsGood(w, guard);
    RunKeepsGood(passed, rest);
    ClearanceLasts(passed, rest, guard.flow, |w.stored|);
    ClearedSummariesAreSpaced(RunAll(passed, rest), i, j);
  }

  lemma GuardClears(w: World, guard: Action)
    requires guard.Work? && Workable(w, guard) && FlowOk(w.flows[guard.flow]) && !w.flows[guard.flow].guarded
    requires Step(w, guard).flows[guard.flow].guarded
    ensures ClearedBeyond(Step(w, guard), guard.flow, |w.stored|)
    ensures Step(w, guard).stored == w.stored && Step(w, guard).window == w.window
  {}

  /** Every flow that stored anything did pass the guard. */
  lemma StoredMeansCleared(w: World, j: nat)
    requires Reachable(w) && j < |w.stored|
    ensures w.stored[j].flow < |w.flows| && w.flows[w.stored[j].flow].cleared.Some?
  {
    ReachableIsGood(w);
    assert NoteOk(w.stored[j], w.flows, w.rows, w.window, w.now);
    var flow := w.flows[w.stored[j].flow];
    assert FlowFits(flow, w.stored[j].flow, w.stored, w.sent, w.gone, w.window, w.now);
    assert Follows(ChildValue(flow, GENERATE), GENERATE, flow.jobs[GENERATE].state.value, flow.group);
  }

  /**
   Every stored summary is of a flow that has passed its guard, and is more than the window younger
   than every summary of its group that was stored before the guard last let it through.
   */
  lemma SummariesAreSpaced(w: World, i: nat, j: nat)
    requires Reachable(w) && i < |w.stored| && j < |w.stored| && w.stored[i].row.group == w.stored[j].row.group
    ensures var g := w.stored[j].flow;
      && g < |w.flows| && w.flows[g].cleared.Some?
      && (i < w.flows[g].cleared.value ==> w.stored[j].row.createdAt - w.stored[i].row.createdAt > w.window)
  {
    ReachableIsGood(w);
    StoredMeansCleared(w, j);
    if i < w.flows[w.stored[j].flow].cleared.value {
      ClearedSummariesAreSpaced(w, i, j);
    }
  }
}
