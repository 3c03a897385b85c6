/**
 How many keys are live.  DELETE looks its key up in the current state and only then queues the removal, so
 two DELETEs of one key may both be committed and counted.
 */
module AuthorityDeletes {
  import opened Wrappers
  import opened Authority
  import opened AuthorityMachine

  // The ids of the committed DELETEs, repeats included.
  function DeletedIds(commits: seq<Commit>): seq<int> {
    if commits == [] then []
    else
      var last := commits[|commits| - 1].job;
      DeletedIds(commits[..|commits| - 1]) + if last.DeleteJob? then [last.id] else []
  }

  function Distinct(ids: seq<int>): set<int> { set id | id in ids }

  predicate Issued(s: State, id: int) { FIRST_KEY_ID < id <= s.nextKeyId }

  // Every issued id is either live or among the deleted ones, and all deletes are counted.
  ghost predicate Counted(s: State, ids: seq<int>) {
    && s.counts.keyDeletes == |ids|
    && |s.keys| == s.counts.keyCreates - |Distinct(ids)|
    && forall id :: Issued(s, id) ==> (id in ids <==> !HasId(s.keys, id))
  }

  ghost predicate InRange(s: State, ids: seq<int>) { forall id :: id in ids ==> Issued(s, id) }

  predicate Fits(job: Job, s: State) { job.DeleteJob? ==> Issued(s, job.id) }

  ghost predicate QueueIssued(queue: seq<Job>, s: State) { forall i :: 0 <= i < |queue| ==> Fits(queue[i], s) }

  lemma {:induction false} DistinctAppend(ids: seq<int>, id: int)
    ensures |Distinct(ids + [id])| == |Distinct(ids)| + if id in ids then 0 else 1
  {
    if id in ids {
      assert Distinct(ids + [id]) == Distinct(ids);
    } else {
      assert Distinct(ids + [id]) == Distinct(ids) + {id};
      assert id !in Distinct(ids);
    }
  }

  lemma {:induction false} DeleteCounted(s: State, ids: seq<int>, id: int, c: Config, h: Hashes)
    requires Good(s, c, h) && Counted(s, ids) && InRange(s, ids) && Issued(s, id)
    ensures Counted(DeleteApply(s, id), ids + [id]) && InRange(DeleteApply(s, id), ids + [id])
  {
    var t := DeleteApply(s, id);
    DeleteKeeps(s, id, c, h);
    DistinctAppend(ids, id);
    assert id in ids <==> !HasId(s.keys, id);
    assert |t.keys| == t.counts.keyCreates - |Distinct(ids + [id])|;
    forall other | Issued(t, other) ensures other in ids + [id] <==> !HasId(t.keys, other) {
      assert Issued(s, other);
      assert other in ids <==> !HasId(s.keys, other);
    }
    forall other | other in ids + [id] ensures Issued(t, other) {
      assert other in ids || other == id;
    }
  }

  lemma {:induction false} CreateCounted(
    s: State, ids: seq<int>, idem: string, input: KeyInput, h: Hashes, now: nat, c: Config)
    requires Good(s, c, h) && Counted(s, ids) && InRange(s, ids)
    ensures var t := KeyApply(s, idem, input, h, now).0; Counted(t, ids) && InRange(t, ids)
  {
    var (t, out) := KeyApply(s, idem, input, h, now);
    if t != s {
      forall id
        ensures HasId(t.keys, id) <==> HasId(s.keys, id) || id == out.key.id
      {
        AppendHasId(s.keys, out.key, id);
      }
      assert out.key.id == s.nextKeyId + 1;
    }
  }

  lemma {:induction false} RedeemCounted(s: State, ids: seq<int>, r: Redeem, h: Hashes, now: nat)
    requires Counted(s, ids) && InRange(s, ids)
    ensures var t := RedeemApply(s, r, h, now).0; Counted(t, ids) && InRange(t, ids)
  {
    RedeemSparesKeys(s, r, h, now);
  }

  lemma {:induction false} PerformCounted(s: State, commits: seq<Commit>, job: Job, h: Hashes, now: nat, c: Config)
    requires Good(s, c, h) && Admitted(job) && Fits(job, s) && Counted(s, DeletedIds(commits))
      && InRange(s, DeletedIds(commits))
    ensures var t, ids := Perform(s, job, h, now).0, DeletedIds(commits + [Commit(job, now)]);
      Counted(t, ids) && InRange(t, ids)
  {
    var ids := DeletedIds(commits);
    DeletedAppend(commits, job, now);
    match job
    case RedeemJob(r) => RedeemCounted(s, ids, r, h, now);
    case CreateJob(idem, input) => CreateCounted(s, ids, idem, input, h, now, c);
    case DeleteJob(id) => DeleteCounted(s, ids, id, c, h);
  }

  lemma {:induction false} DeletedAppend(commits: seq<Commit>, job: Job, now: nat)
    ensures DeletedIds(commits + [Commit(job, now)]) ==
      if job.DeleteJob? then DeletedIds(commits) + [job.id] else DeletedIds(commits)
  {
    assert (commits + [Commit(job, now)])[..|commits|] == commits;
  }

  // The disk's keys are counted by what was committed, and every DELETE under way names an issued id.
  ghost predicate DeleteInv(m: Machine, done: seq<Commit>) {
    && (match m.disk
        case None => done == []
        case Some(d) => Counted(d, DeletedIds(done)) && InRange(d, DeletedIds(done)))
    && (m.process.Up? ==>
          QueueIssued(m.process.queue, m.process.mem)
            && (m.process.phase.Idle? || Fits(m.process.phase.job, m.process.mem)))
  }

  lemma {:induction false} FreshCounted(c: Config, now: nat)
    ensures Counted(InitialState(c, now), []) && InRange(InitialState(c, now), [])
  {
  }

  lemma {:induction false} LiveIsIssued(s: State, id: int, c: Config, h: Hashes)
    requires Good(s, c, h) && FindKey(s.keys, id).Some?
    ensures Issued(s, id)
  {
    FindKeyIff(s.keys, id);
  }

  lemma {:induction false} ArriveIssued(m: Machine, e: Event, u: Setup)
    requires Inv(m, u) && e.Arrive? && m.process.Up? && QueueIssued(m.process.queue, m.process.mem)
    ensures QueueIssued(Step(m, e, u).process.queue, m.process.mem)
  {
    var j := Admit(e.request);
    if j.Some? && j.value.DeleteJob? && FindKey(m.process.mem.keys, j.value.id).Some? {
      LiveIsIssued(m.process.mem, j.value.id, u.config, u.hashes);
    }
  }

  lemma {:induction false} StepDelete(m: Machine, done: seq<Commit>, e: Event, u: Setup)
    requires Inv(m, u) && DeleteInv(m, done)
    ensures DeleteInv(Step(m, e, u), done + CommitOf(m, e))
  {
    match e
    case Rename => RenameDelete(m, done, u);
    case Swap => SwapDelete(m, done, u);
    case _ =>
      assert CommitOf(m, e) == [] && done + [] == done;
      QuietDelete(m, done, e, u);
  }

  lemma {:induction false} QuietDelete(m: Machine, done: seq<Commit>, e: Event, u: Setup)
    requires Inv(m, u) && DeleteInv(m, done) && !e.Rename? && !e.Swap?
    ensures DeleteInv(Step(m, e, u), done)
  {
    if e.Boot? {
      FreshCounted(u.config, e.now);
    } else if e.Arrive? && m.process.Up? {
      ArriveIssued(m, e, u);
    }
  }

  lemma {:induction false} RenameDelete(m: Machine, done: seq<Commit>, u: Setup)
    requires Inv(m, u) && DeleteInv(m, done)
    ensures DeleteInv(Step(m, Rename, u), done + CommitOf(m, Rename))
  {
    if m.process.Up? && m.process.phase.Writing? {
      var p := m.process;
      PerformCounted(p.mem, done, p.phase.job, u.hashes, p.phase.now, u.config);
    } else {
      assert done + [] == done;
    }
  }

  lemma {:induction false} SwapDelete(m: Machine, done: seq<Commit>, u: Setup)
    requires Inv(m, u) && DeleteInv(m, done)
    ensures DeleteInv(Step(m, Swap, u), done + CommitOf(m, Swap))
  {
    assert done + [] == done;
    if m.process.Up? && m.process.phase.Renamed? {
      var p := m.process;
      PerformKeeps(p.mem, p.phase.job, u.hashes, p.phase.now, u.config);
      IssuedLater(p.queue, p.mem, p.phase.candidate);
    }
  }

  lemma {:induction false} IssuedLater(queue: seq<Job>, s: State, t: State)
    requires QueueIssued(queue, s) && s.nextKeyId <= t.nextKeyId
    ensures QueueIssued(queue, t)
  {
    forall i | 0 <= i < |queue| ensures Fits(queue[i], t) { assert Fits(queue[i], s); }
  }

  lemma {:induction false} RunDelete(m: Machine, done: seq<Commit>, events: seq<Event>, u: Setup)
    requires Inv(m, u) && u.config.initial >= 0 && DeleteInv(m, done)
    ensures DeleteInv(Run(m, events, u), done + Committed(m, events, u))
    decreases |events|
  {
    if events == [] {
      assert done + [] == done;
    } else {
      var n, c := Step(m, events[0], u), CommitOf(m, events[0]);
      StepDelete(m, done, events[0], u);
      StepKeepsInv(m, events[0], u);
      RunDelete(n, done + c, events[1..], u);
      Joined(done, c, Committed(n, events[1..], u));
    }
  }

  /**
   After every schedule the deletes counted are the committed ones, and the live keys are the creates minus the
   distinct ids among them.  So live keys are creates minus deletes exactly when no committed DELETE repeats an id.
   */
  lemma {:induction false} LiveKeysIff(events: seq<Event>, u: Setup)
    requires u.config.initial >= 0 && Run(Fresh(), events, u).disk.Some?
    ensures var d, ids := Run(Fresh(), events, u).disk.value, DeletedIds(Committed(Fresh(), events, u));
      && d.counts.keyDeletes == |ids| && |d.keys| == d.counts.keyCreates - |Distinct(ids)|
      && (|d.keys| == d.counts.keyCreates - d.counts.keyDeletes <==> |ids| == |Distinct(ids)|)
  {
    RunDelete(Fresh(), [], events, u);
    assert [] + Committed(Fresh(), events, u) == Committed(Fresh(), events, u);
  }

  /******* Deletes of one key that do not overlap *******/

  ghost predicate PendingDelete(queue: seq<Job>, id: int) {
    exists i :: 0 <= i < |queue| && queue[i] == DeleteJob(id)
  }

  // No DELETE arrives while another one for the same key is queued or being written.
  ghost predicate NoOverlap(m: Machine, events: seq<Event>, u: Setup)
    decreases |events|
  {
    events == [] ||
    (NoOverlapNow(m, events[0]) && NoOverlap(Step(m, events[0], u), events[1..], u))
  }

  ghost predicate NoOverlapNow(m: Machine, e: Event) {
    e.Arrive? && e.request.DeleteRequest? && m.process.Up? ==>
      !PendingDelete(m.process.queue, e.request.id)
        && (m.process.phase.Idle? || m.process.phase.job != DeleteJob(e.request.id))
  }

  ghost predicate Tight(s: State) { |s.keys| == s.counts.keyCreates - s.counts.keyDeletes }

  // Queued deletes name distinct keys, all of them in s.
  ghost predicate QueueFits(queue: seq<Job>, s: State) {
    && (forall i :: 0 <= i < |queue| && queue[i].DeleteJob? ==> HasId(s.keys, queue[i].id))
    && (forall i, j ::
      0 <= i < j < |queue| && queue[i].DeleteJob? && queue[j].DeleteJob? ==> queue[i].id != queue[j].id)
  }

  ghost predicate PhaseFits(mem: State, queue: seq<Job>, phase: Phase) {
    phase.Idle?
      || (Tight(phase.candidate) && QueueFits(queue, phase.candidate) && KeepsOthers(mem, phase.candidate, phase.job))
  }

  ghost predicate TightInv(m: Machine) {
    && (m.disk.Some? ==> Tight(m.disk.value))
    && match m.process
       case Down => true
       case Up(mem, queue, phase) => Tight(mem) && QueueFits(queue, mem) && PhaseFits(mem, queue, phase)
  }

  // The candidate still has every key of s, but for the one a delete names.
  ghost predicate KeepsOthers(s: State, t: State, job: Job) {
    forall id :: HasId(s.keys, id) && job != DeleteJob(id) ==> HasId(t.keys, id)
  }

  lemma {:induction false} RestFits(job: Job, rest: seq<Job>, s: State)
    requires QueueFits([job] + rest, s)
    ensures QueueFits(rest, s) && (job.DeleteJob? ==> HasId(s.keys, job.id) && !PendingDelete(rest, job.id))
  {
    var q := [job] + rest;
    assert q[0] == job && forall i :: 0 <= i < |rest| ==> rest[i] == q[i + 1];
  }

  lemma {:induction false} KeptFits(job: Job, rest: seq<Job>, s: State, t: State)
    requires QueueFits(rest, s) && KeepsOthers(s, t, job) && (job.DeleteJob? ==> !PendingDelete(rest, job.id))
    ensures QueueFits(rest, t)
  {
    forall i | 0 <= i < |rest| && rest[i].DeleteJob? ensures HasId(t.keys, rest[i].id) {
      assert job != DeleteJob(rest[i].id);
    }
  }

  lemma {:induction false} PerformTight(s: State, job: Job, rest: seq<Job>, h: Hashes, now: nat, c: Config)
    requires Good(s, c, h) && Admitted(job) && Tight(s) && QueueFits([job] + rest, s)
    ensures var t := Perform(s, job, h, now).0; Tight(t) && KeepsOthers(s, t, job) && QueueFits(rest, t)
  {
    RestFits(job, rest, s);
    match job
    case RedeemJob(r) => RedeemKeeps(s, r, h, now, c);
    case CreateJob(idem, input) => KeyKeeps(s, idem, input, h, now, c);
    case DeleteJob(id) => DeleteKeeps(s, id, c, h);
    KeptFits(job, rest, s, Perform(s, job, h, now).0);
  }

  lemma {:induction false} ArriveFits(queue: seq<Job>, job: Job, s: State)
    requires QueueFits(queue, s)
    requires job.DeleteJob? ==> HasId(s.keys, job.id) && !PendingDelete(queue, job.id)
    ensures QueueFits(queue + [job], s)
  {
    var q := queue + [job];
    forall i, j | 0 <= i < j < |q| && q[i].DeleteJob? && q[j].DeleteJob? ensures q[i].id != q[j].id {
      assert q[i] == queue[i];
      if j == |queue| {
        assert queue[i] != DeleteJob(job.id);
      }
    }
  }

  lemma {:induction false} TailFits(queue: seq<Job>, s: State)
    requires queue != [] && QueueFits(queue, s)
    ensures QueueFits(queue[1..], s) && queue == [queue[0]] + queue[1..]
  {
  }

  lemma {:induction false} ArriveTight(m: Machine, job: Job)
    requires m.process.Up? && TightInv(m)
    requires job.DeleteJob? ==>
      !PendingDelete(m.process.queue, job.id) && (m.process.phase.Idle? || m.process.phase.job != job)
    ensures TightInv(Arrives(m, job))
  {
    var p := m.process;
    if job.DeleteJob? { FindKeyIff(p.mem.keys, job.id); }
    if !(job.DeleteJob? && FindKey(p.mem.keys, job.id).None?) {
      ArriveFits(p.queue, job, p.mem);
      if !p.phase.Idle? { ArriveFits(p.queue, job, p.phase.candidate); }
    }
  }

  lemma {:induction false} StepTight(m: Machine, e: Event, u: Setup)
    requires Inv(m, u) && TightInv(m) && NoOverlapNow(m, e)
    ensures TightInv(Step(m, e, u))
  {
    if m.process.Up? {
      var p := m.process;
      if e.Arrive? && Admit(e.request).Some? {
        ArriveTight(m, Admit(e.request).value);
      } else if e.Start? && p.phase.Idle? && p.queue != [] {
        StartTight(m, e.now, u);
      }
    }
  }

  lemma {:induction false} StartTight(m: Machine, now: nat, u: Setup)
    requires Inv(m, u) && TightInv(m) && m.process.Up? && m.process.phase.Idle? && m.process.queue != []
    ensures TightInv(Starts(m, now, u))
  {
    var p := m.process;
    TailFits(p.queue, p.mem);
    PerformTight(p.mem, p.queue[0], p.queue[1..], u.hashes, now, u.config);
  }

  /** When DELETEs of one key never overlap, the number of live keys is exactly creates minus deletes. */
  lemma {:induction false} LiveKeysExact(m: Machine, events: seq<Event>, u: Setup)
    requires Inv(m, u) && TightInv(m) && u.config.initial >= 0 && NoOverlap(m, events, u)
    ensures TightInv(Run(m, events, u))
    ensures Run(m, events, u).disk.Some? ==>
      var d := Run(m, events, u).disk.value; |d.keys| == d.counts.keyCreates - d.counts.keyDeletes
    decreases |events|
  {
    if events != [] {
      StepTight(m, events[0], u);
      StepKeepsInv(m, events[0], u);
      LiveKeysExact(Step(m, events[0], u), events[1..], u);
    }
  }

  lemma {:induction false} LiveKeysExactFromFresh(events: seq<Event>, u: Setup)
    requires u.config.initial >= 0 && NoOverlap(Fresh(), events, u)
    ensures var d := Run(Fresh(), events, u).disk;
      d.Some? ==> |d.value.keys| == d.value.counts.keyCreates - d.value.counts.keyDeletes
  {
    LiveKeysExact(Fresh(), events, u);
  }

  /** Two overlapping DELETEs of the one key both count, and then the number of live keys is above the difference. */
  lemma {:induction false} OverlappingDeletesCountTwice(u: Setup)
    requires u.config.initial >= 0
    ensures exists events :: CountedTwice(Run(Fresh(), events, u).disk)
  {
    var input := KeyInput("key", GROUP_ID, 0, 0, 0, 0, [], [], None);
    var s0 := InitialState(u.config, 0);
    var m0 := Machine(Some(s0), Up(s0, [], Idle), [], false);
    var s1 := KeyApply(s0, "k", input, u.hashes, 0).0;
    var create := [Arrive(CreateRequest("k", input))] + [Start(0), Rename, Swap];
    OneJob(m0, CreateRequest("k", input), u, 0);
    var m1 := Run(m0, create, u);
    var rest := TwoDeletesRun(m1, s1, u);
    RunCons(Fresh(), Boot(0, false), create + rest, u);
    RunSplit(m0, create, rest, u);
    TwoDeletes(s1);
  }

  // Both DELETEs arrive while the key is there; the second is applied to a state without it.
  lemma {:induction false} TwoDeletesRun(m: Machine, s: State, u: Setup) returns (events: seq<Event>)
    requires m.process == Up(s, [], Idle) && |s.keys| == 1 && s.keys[0].id == 701
    ensures Run(m, events, u).disk == Some(DeleteApply(DeleteApply(s, 701), 701))
  {
    var d := DeleteJob(701);
    var twice := [Arrive(DeleteRequest(701)), Arrive(DeleteRequest(701))];
    RunTwo(m, twice[0], twice[1], u);
    var m2 := Run(m, twice, u);
    assert m2.process == Up(s, [d, d], Idle);
    var write := [Start(0), Rename, Swap];
    QueuedJob(m2, u, 0);
    var m3 := Run(m2, write, u);
    assert m3.process.queue == [d];
    QueuedJob(m3, u, 0);
    RunSplit(m2, write, write, u);
    RunSplit(m, twice, write + write, u);
    events := twice + (write + write);
  }

  ghost predicate CountedTwice(disk: Option<State>) {
    disk.Some? && |disk.value.keys| == 0 && disk.value.counts.keyCreates - disk.value.counts.keyDeletes == -1
  }

  lemma {:induction false} TwoDeletes(s: State)
    requires |s.keys| == 1 && s.keys[0].id == 701 && s.counts.keyCreates == 1 && s.counts.keyDeletes == 0
    ensures CountedTwice(Some(DeleteApply(DeleteApply(s, 701), 701)))
  {
    assert s.keys[1..] == [];
    assert RemoveKey(s.keys, 701) == [];
  }
}
