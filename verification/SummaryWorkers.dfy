/** The processors and services of the summary pipeline that write or emit, statement by statement. */
module SummaryWorkers {
  import opened Wrappers
  import opened Keyset
  import opened MessageTable
  import opened SummaryQueue
  import opened Windows
  import F = SummaryFlow

  /** `SummaryMessagesService` over the message table, with the database's clock. */
  class SummaryMessages {
    var rows: map<Id, Row>
    var gone: set<Group>
    var clock: int

    constructor (rows: map<Id, Row>, gone: set<Group>, clock: int)
      ensures this.rows == rows && this.gone == gone && this.clock == clock
    {
      this.rows := rows;
      this.gone := gone;
      this.clock := clock;
    }

    /** The row has no sender; nothing is emitted. A group that is gone fails its foreign key. */
    method PersistAiSummary(group: Group, content: string, id: Id) returns (message: Option<Row>)
      requires id !in rows
      modifies this`rows
      ensures message ==
        if group in gone then None else Some(Row(id, group, None, AI_SUMMARY, clock, content, None, None, None, {}))
      ensures rows == if message.Some? then old(rows)[id := message.value] else old(rows)
    {
      if group in gone {
        return None;
      }
      var row := Row(id, group, None, AI_SUMMARY, clock, content, None, None, None, {});
      rows := rows[id := row];
      return Some(row);
    }

    method HasSummarySince(group: Group, since: int) returns (found: bool)
      ensures found == F.HasSummarySince(Table(Server(rows, gone, [])), group, since)
    {
      var table := Table(Server(rows, gone, []));
      var matching := set id | id in table && F.IsSummary(table[id], group, since);
      found := |matching| > 0;
      assert found ==> exists id :: id in matching;
      assert forall id | id in table && F.IsSummary(table[id], group, since) :: id in matching;
    }
  }

  class SummaryProcessor {
    const messages: SummaryMessages

    constructor (messages: SummaryMessages)
      ensures this.messages == messages
    {
      this.messages := messages;
    }

    /**
     One save attempt: what it returns and what it inserts are those of the pipeline's save step; None is an
     attempt that fails, because it would insert into a group that is gone, and inserts nothing.
     */
    method Save(children: seq<F.Value>, id: Id) returns (result: Option<F.SaveResult>)
      requires id !in messages.rows
      modifies messages`rows
      ensures var save := F.Save(FirstChildValue(children), id, messages.clock);
        result == if save.Saved? && save.message.group in messages.gone then None else Some(save)
      ensures messages.rows ==
        if result.Some? then F.Insert(old(messages.rows), F.Persisted(result.value)) else old(messages.rows)
    {
      var child := FirstChildValue(children);
      if child.None? || !child.value.Generated? || child.value.g.SkipGenerate? {
        return Some(F.SkipSave);
      }
      var message := messages.PersistAiSummary(child.value.g.group, child.value.g.text, id);
      if message.None? {
        return None;
      }
      return Some(F.Saved(message.value));
    }
  }

  class PublishProcessor {
    var emitted: seq<Row>

    constructor ()
      ensures emitted == []
    {
      emitted := [];
    }

    /** Published exactly when the child handed over a saved row, which is then broadcast as it is. */
    method Process(children: seq<F.Value>) returns (published: bool)
      modifies this
      ensures published <==> exists row :: FirstChildValue(children) == Some(F.Persisted(F.Saved(row)))
      ensures published == F.Publish(FirstChildValue(children))
      ensures published ==> emitted == old(emitted) + [children[0].s.message]
      ensures !published ==> emitted == old(emitted)
    {
      var child := FirstChildValue(children);
      if child.None? || !child.value.Persisted? || child.value.s.SkipSave? {
        return false;
      }
      assert child == Some(F.Persisted(F.Saved(child.value.s.message)));
      emitted := emitted + [child.value.s.message];
      return true;
    }
  }

  // ---------- The scheduler ----------

  /** The flows of one tick: one for every group whose `flow.add` succeeds, in order. */
  function Enqueued(groups: seq<string>, adds: seq<bool>, since: int, bucket: nat): (flows: seq<FlowJob>)
    requires |adds| == |groups|
    decreases |groups|
  {
    if groups == [] then []
    else
      var last := BuildSummaryFlow(groups[|groups| - 1], since, bucket);
      Enqueued(groups[..|groups| - 1], adds[..|groups| - 1], since, bucket) + if adds[|groups| - 1] then [last] else []
  }

  /** The groups whose `flow.add` fails, in order. */
  function Failed(groups: seq<string>, adds: seq<bool>): seq<string>
    requires |adds| == |groups|
    decreases |groups|
  {
    if groups == [] then []
    else
      var last := groups[|groups| - 1];
      Failed(groups[..|groups| - 1], adds[..|groups| - 1]) + if !adds[|groups| - 1] then [last] else []
  }

  class SchedulerProcessor {
    const window: nat
    var queue: seq<FlowJob>
    var errors: seq<string>

    constructor (window: nat)
      requires window > 0
      ensures this.window == window && queue == [] && errors == []
    {
      this.window := window;
      queue, errors := [], [];
    }

    /** `adds[i]` is whether adding the i-th flow succeeds; a failure is logged and the tick goes on. */
    method FanOutSummaries(now: nat, groups: seq<string>, adds: seq<bool>)
      requires window > 0 && |adds| == |groups|
      modifies this
      ensures queue == old(queue) + Enqueued(groups, adds, now - window, BucketStart(now, window))
      ensures errors == old(errors) + Failed(groups, adds)
    {
      var since := now - window;
      var bucketStart := now / window * window;
      var i := 0;
      while i < |groups|
        invariant 0 <= i <= |groups|
        invariant queue == old(queue) + Enqueued(groups[..i], adds[..i], since, bucketStart)
        invariant errors == old(errors) + Failed(groups[..i], adds[..i])
      {
        var g := groups[i];
        assert groups[..i + 1][..i] == groups[..i] && adds[..i + 1][..i] == adds[..i];
        i := i + 1;
        if !adds[i - 1] {
          errors := errors + [g];
          continue;
        }
        queue := queue + [BuildSummaryFlow(g, since, bucketStart)];
      }
      assert groups[..i] == groups && adds[..i] == adds;
    }
  }

  lemma FlowNamesItsGroup(a: string, b: string, since: int, bucket: nat)
    ensures BuildSummaryFlow(a, since, bucket) == BuildSummaryFlow(b, since, bucket) <==> a == b
  {
    assert BuildSummaryFlow(a, since, bucket).group == a;
    assert BuildSummaryFlow(b, since, bucket).group == b;
  }

  lemma InAppended<T>(front: seq<T>, last: T, added: bool, x: T)
    ensures x in front + (if added then [last] else []) <==> x in front || (added && x == last)
  {}

  /** A group's flow is enqueued if and only if adding it succeeds, and the group logged if and only if it fails. */
  lemma {:induction false} GroupsAreIsolated(groups: seq<string>, adds: seq<bool>, since: int, bucket: nat,
                                             group: string)
    requires |adds| == |groups|
    ensures BuildSummaryFlow(group, since, bucket) in Enqueued(groups, adds, since, bucket) <==>
      exists i :: 0 <= i < |groups| && groups[i] == group && adds[i] == true
    ensures group in Failed(groups, adds) <==> exists i :: 0 <= i < |groups| && groups[i] == group && adds[i] == false
    ensures |Enqueued(groups, adds, since, bucket)| + |Failed(groups, adds)| == |groups|
    decreases |groups|
  {
    if groups != [] {
      var n := |groups| - 1;
      GroupsAreIsolated(groups[..n], adds[..n], since, bucket, group);
      FlowNamesItsGroup(group, groups[n], since, bucket);
      InAppended(Enqueued(groups[..n], adds[..n], since, bucket), BuildSummaryFlow(groups[n], since, bucket), adds[n],
        BuildSummaryFlow(group, since, bucket));
      InAppended(Failed(groups[..n], adds[..n]), groups[n], !adds[n], group);
      SplitLast(groups, adds, group, true);
      SplitLast(groups, adds, group, false);
    }
  }

  lemma SplitLast(groups: seq<string>, adds: seq<bool>, group: string, ok: bool)
    requires |adds| == |groups| && groups != []
    ensures var n := |groups| - 1;
      (exists i :: 0 <= i < |groups| && groups[i] == group && adds[i] == ok) <==>
        || (exists i :: 0 <= i < n && groups[..n][i] == group && adds[..n][i] == ok)
        || (groups[n] == group && adds[n] == ok)
  {
    var n := |groups| - 1;
    assert forall i | 0 <= i < n :: groups[..n][i] == groups[i] && adds[..n][i] == adds[i];
  }

  /** Two ticks give a group's stages the same job ids if and only if they fall in the same window. */
  lemma IdsChangeWithTheWindow(stage: string, group: string, now: nat, later: nat, window: nat)
    requires window > 0 && NoColon(stage)
    ensures BucketStart(now, window) <= now < BucketStart(now, window) + window
    ensures
      StageJobId(stage, group, BucketStart(now, window)) == StageJobId(stage, group, BucketStart(later, window)) <==>
      now / window == later / window
  {
    JobIdsAreDistinct(stage, group, BucketStart(now, window), stage, group, BucketStart(later, window));
    BucketContains(now, window);
    BucketIsTheWindow(now, later, window);
  }
}
