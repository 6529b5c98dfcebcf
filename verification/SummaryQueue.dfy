/** Queue and job names, job ids and options, and the job tree of one group's summary. */
module SummaryQueue {
  import opened Wrappers
  import opened Decimal

  const AI_QUEUE := "ai-queue"
  const SUMMARY_QUEUE := "summary-queue"
  const NOTIFICATION_QUEUE := "notification-queue"

  const JOB_GROUP_SUMMARY := "group-summary"
  const JOB_FETCH := "fetch-messages"
  const JOB_GENERATE := "generate-ai-summary"
  const JOB_SAVE := "save-summary"
  const JOB_PUBLISH := "publish-summary"

  const MAX_ATTEMPTS: nat := 3
  const BACKOFF_DELAY: nat := 2000

  datatype JobOpts = JobOpts(jobId: string, attempts: nat, delay: nat, removeOnComplete: bool, removeOnFail: nat,
                             failParentOnFailure: bool)

  datatype FlowJob = FlowJob(name: string, queueName: string, group: string, since: Option<int>, opts: JobOpts,
                             children: seq<FlowJob>)

  /** `stage:group:bucket`. */
  function StageJobId(stage: string, group: string, bucketStart: nat): string {
    stage + ":" + group + ":" + Numeral(bucketStart)
  }

  function JobOptsOf(jobId: string): JobOpts {
    JobOpts(jobId, MAX_ATTEMPTS, BACKOFF_DELAY, true, 100, false)
  }

  function BuildSummaryFlow(group: string, since: int, bucketStart: nat): FlowJob {
    FlowJob(JOB_GROUP_SUMMARY, SUMMARY_QUEUE, group, None,
      JobOptsOf(StageJobId(JOB_GROUP_SUMMARY, group, bucketStart)),
      [FlowJob(JOB_PUBLISH, NOTIFICATION_QUEUE, group, None,
         JobOptsOf(StageJobId(JOB_PUBLISH, group, bucketStart)).(failParentOnFailure := true),
         [FlowJob(JOB_SAVE, SUMMARY_QUEUE, group, None,
            JobOptsOf(StageJobId(JOB_SAVE, group, bucketStart)).(failParentOnFailure := true),
            [FlowJob(JOB_GENERATE, AI_QUEUE, group, None,
               JobOptsOf(StageJobId(JOB_GENERATE, group, bucketStart)).(failParentOnFailure := true),
               [FlowJob(JOB_FETCH, SUMMARY_QUEUE, group, Some(since),
                  JobOptsOf(StageJobId(JOB_FETCH, group, bucketStart)).(failParentOnFailure := true),
                  [])])])])])
  }

  /** The jobs of a tree without branches in the order they may run: a child before its parent. */
  function RunOrder(job: FlowJob): seq<FlowJob> {
    (if job.children == [] then [] else RunOrder(job.children[0])) + [job]
  }

  predicate Branchless(job: FlowJob) {
    |job.children| <= 1 && (job.children != [] ==> Branchless(job.children[0]))
  }

  predicate NoColon(text: string) {
    forall i | 0 <= i < |text| :: text[i] != ':'
  }

  lemma SplitAtColon(a: string, x: string, b: string, y: string)
    requires NoColon(a) && NoColon(b) && a + ":" + x == b + ":" + y
    ensures a == b && x == y
  {
    var s := a + ":" + x;
    assert s[|a|] == ':' && s[|b|] == ':';
    assert forall i | 0 <= i < |a| :: s[i] == a[i];
    assert forall i | 0 <= i < |b| :: s[i] == b[i];
    assert s[..|a|] == a && s[..|b|] == b;
    assert s[|a| + 1..] == x && s[|b| + 1..] == y;
  }

  lemma SplitAtLastColon(x: string, a: string, y: string, b: string)
    requires NoColon(a) && NoColon(b) && x + ":" + a == y + ":" + b
    ensures a == b && x == y
  {
    var s := x + ":" + a;
    assert s[|x|] == ':' && s[|y|] == ':';
    assert forall i | |x| < i < |s| :: s[i] == a[i - |x| - 1];
    assert forall i | |y| < i < |s| :: s[i] == b[i - |y| - 1];
    assert s[|x| + 1..] == a && s[|y| + 1..] == b;
    assert s[..|x|] == x && s[..|y|] == y;
  }

  /** Jobs of different stages, groups or windows never share an id, whatever the group ids are. */
  lemma JobIdsAreDistinct(stage: string, group: string, bucket: nat, stage': string, group': string, bucket': nat)
    requires NoColon(stage) && NoColon(stage')
    ensures StageJobId(stage, group, bucket) == StageJobId(stage', group', bucket') <==>
      stage == stage' && group == group' && bucket == bucket'
  {
    if StageJobId(stage, group, bucket) == StageJobId(stage', group', bucket') {
      var n, n' := Numeral(bucket), Numeral(bucket');
      assert (stage + ":" + group) + ":" + n == stage + ":" + (group + ":" + n);
      assert (stage' + ":" + group') + ":" + n' == stage' + ":" + (group' + ":" + n');
      SplitAtColon(stage, group + ":" + n, stage', group' + ":" + n');
      SplitAtLastColon(group, n, group', n');
      NumeralIsReadBack(bucket);
      NumeralIsReadBack(bucket');
    }
  }

  /** What a stage is, where it runs, and what data it carries beside the group. */
  datatype Stage = Stage(name: string, queueName: string, since: Option<int>)

  /** The five stages in the order they run. */
  function StagesFrom(since: int): seq<Stage> {
    [Stage("fetch-messages", "summary-queue", Some(since)), Stage("generate-ai-summary", "ai-queue", None),
     Stage("save-summary", "summary-queue", None), Stage("publish-summary", "notification-queue", None),
     Stage("group-summary", "summary-queue", None)]
  }

  /**
   Each job of the tree is its stage: its name, its queue, the start of the window for the fetch and for no
   other; its id is that of its stage, group and window; and its policy is three attempts with a delay doubling
   from two seconds, removed when it succeeds and kept among the last hundred failures.
   */
  lemma JobsAreTheirStages(group: string, since: int, bucket: nat, s: nat)
    requires s < 5
    ensures var jobs, stages := RunOrder(BuildSummaryFlow(group, since, bucket)), StagesFrom(since);
      && |jobs| == 5
      && Stage(jobs[s].name, jobs[s].queueName, jobs[s].since) == stages[s] && jobs[s].group == group
      && jobs[s].opts == JobOpts(stages[s].name + ":" + group + ":" + Numeral(bucket), 3, 2000, true, 100, s < 4)
  {
    RunOrderIs(group, since, bucket);
  }

  /** Two jobs of two trees share an id if and only if they are the same stage of the same group and window. */
  lemma TreesShareNoIds(group: string, since: int, bucket: nat, s: nat, group': string, since': int, bucket': nat,
                        s': nat)
    requires s < 5 && s' < 5
    ensures var jobs, jobs' := RunOrder(BuildSummaryFlow(group, since, bucket)),
                               RunOrder(BuildSummaryFlow(group', since', bucket'));
      && |jobs| == |jobs'| == 5
      && (jobs[s].opts.jobId == jobs'[s'].opts.jobId <==> s == s' && group == group' && bucket == bucket')
  {
    var name, name' := StagesFrom(since)[s].name, StagesFrom(since')[s'].name;
    JobsAreTheirStages(group, since, bucket, s);
    JobsAreTheirStages(group', since', bucket', s');
    StageNamesHaveNoColon(since, s);
    StageNamesHaveNoColon(since', s');
    JobIdsAreDistinct(name, group, bucket, name', group', bucket');
    StageNamesDiffer(since, since', s, s');
  }

  lemma StageNamesHaveNoColon(since: int, s: nat)
    requires s < 5
    ensures NoColon(StagesFrom(since)[s].name)
  {
    if s == 0 {
      assert NoColon("fetch-messages");
    } else if s == 1 {
      assert NoColon("generate-ai-summary");
    } else if s == 2 {
      assert NoColon("save-summary");
    } else if s == 3 {
      assert NoColon("publish-summary");
    } else {
      assert NoColon("group-summary");
    }
  }

  lemma StageNamesDiffer(since: int, since': int, s: nat, s': nat)
    requires s < 5 && s' < 5
    ensures StagesFrom(since)[s].name == StagesFrom(since')[s'].name <==> s == s'
  {
    assert |"fetch-messages"| == 14 && |"generate-ai-summary"| == 19 && |"save-summary"| == 12
        && |"publish-summary"| == 15 && |"group-summary"| == 13;
  }

  lemma RunOrderIs(group: string, since: int, bucket: nat)
    ensures var root := BuildSummaryFlow(group, since, bucket);
      var publish := root.children[0];
      var save := publish.children[0];
      var generate := save.children[0];
      var fetch := generate.children[0];
      RunOrder(root) == [fetch, generate, save, publish, root]
  {
    var root := BuildSummaryFlow(group, since, bucket);
    var publish := root.children[0];
    var save := publish.children[0];
    var generate := save.children[0];
    var fetch := generate.children[0];
    assert RunOrder(fetch) == [fetch];
    assert RunOrder(generate) == [fetch, generate];
    assert RunOrder(save) == [fetch, generate, save];
    assert RunOrder(publish) == [fetch, generate, save, publish];
  }

  /**
   The tree is one chain, run fetch, generate, save, publish, root; every job has three attempts, and
   every job but the root takes its parent down when it fails for good.
   */
  lemma FlowIsAChain(group: string, since: int, bucket: nat)
    ensures var flow := BuildSummaryFlow(group, since, bucket);
      var jobs := RunOrder(flow);
      && Branchless(flow) && |jobs| == 5
      && jobs[0].name == JOB_FETCH && jobs[1].name == JOB_GENERATE && jobs[2].name == JOB_SAVE
      && jobs[3].name == JOB_PUBLISH && jobs[4].name == JOB_GROUP_SUMMARY
      && (forall s | 0 <= s < 5 :: jobs[s].opts.attempts == MAX_ATTEMPTS && jobs[s].group == group)
      && (forall s | 0 <= s < 5 :: jobs[s].opts.failParentOnFailure <==> s < 4)
      && (forall s, t | 0 <= s < t < 5 :: jobs[s].opts.jobId != jobs[t].opts.jobId)
  {
    RunOrderIs(group, since, bucket);
    var root := BuildSummaryFlow(group, since, bucket);
    var publish := root.children[0];
    var save := publish.children[0];
    var generate := save.children[0];
    assert Branchless(generate.children[0]) && Branchless(generate) && Branchless(save) && Branchless(publish);
    forall s, t | 0 <= s < t < 5 ensures RunOrder(root)[s].opts.jobId != RunOrder(root)[t].opts.jobId {
      TreesShareNoIds(group, since, bucket, s, group, since, bucket, t);
    }
  }

  /** Each job of the chain has the one below it as its only child. */
  lemma ChildIsBelow(group: string, since: int, bucket: nat, s: nat)
    requires s < 5
    ensures var jobs := RunOrder(BuildSummaryFlow(group, since, bucket));
      |jobs| == 5 && jobs[s].children == if s == 0 then [] else [jobs[s - 1]]
  {
    RunOrderIs(group, since, bucket);
  }

  /** `Object.values(values)[0]`: a stage has one child, or none it can read. */
  function FirstChildValue<T>(values: seq<T>): Option<T> {
    if |values| > 0 then Some(values[0]) else None
  }
}
