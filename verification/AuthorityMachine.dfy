/**
 The authority process: concurrent handlers, the mutation queue, the write of a temporary file followed by
 a rename, the swap of the in-memory state, failures, crashes and restarts.  An event list is one schedule;
 an event that cannot happen in a state leaves it alone, so every statement over lists is over every schedule.
 */
module AuthorityMachine {
  import opened Wrappers
  import opened Authority
  import Decimal

  // What a client sends; a body is parsed and checked by its handler before anything is queued.
  datatype Request =
    | RedeemRequest(body: RedeemBody)
    | CreateRequest(idem: string, input: KeyInput)
    | DeleteRequest(id: int)

  datatype Job = RedeemJob(redeem: Redeem) | CreateJob(idem: string, input: KeyInput) | DeleteJob(id: int)

  datatype Answer =
    | RedeemAnswer(redeem: Redeem, outcome: RedeemOutcome)
    | KeyAnswer(idem: string, input: KeyInput, result: KeyOutcome)
    | DeleteAnswer(id: int)

  // Where the head of the queue is: the state is only swapped after the rename returned.
  datatype Phase =
    | Idle
    | Writing(job: Job, now: nat, candidate: State, answer: Answer)
    | Renamed(job: Job, now: nat, candidate: State, answer: Answer)

  datatype Process = Down | Up(mem: State, queue: seq<Job>, phase: Phase)

  // `answers` is everything clients were told, `refused` whether a start rejected the stored file.
  datatype Machine = Machine(disk: Option<State>, process: Process, answers: seq<Answer>, refused: bool)

  datatype Event =
    | Boot(now: nat, firstWriteFails: bool)
    | Arrive(request: Request)
    | Start(now: nat)
    | WriteFails
    | Rename
    | Swap
    | Crash

  datatype Setup = Setup(config: Config, hashes: Hashes)

  function Fresh(): Machine { Machine(None, Down, [], false) }

  function Perform(s: State, job: Job, h: Hashes, now: nat): (State, Answer) {
    match job
    case RedeemJob(r) => var (t, out) := RedeemApply(s, r, h, now); (t, RedeemAnswer(r, out))
    case CreateJob(idem, input) => var (t, out) := KeyApply(s, idem, input, h, now); (t, KeyAnswer(idem, input, out))
    case DeleteJob(id) => (DeleteApply(s, id), DeleteAnswer(id))
  }

  // What the handler makes of a request: a job for the queue, or a refusal that touches nothing.
  function Admit(r: Request): (j: Option<Job>)
    ensures j.Some? ==> Admitted(j.value)
  {
    match r
    case RedeemRequest(b) => (match AdmitRedeem(b) case Ok(redeem) => Some(RedeemJob(redeem)) case Err(_) => None)
    case CreateRequest(idem, input) => if AdmittedKey(idem, input) then Some(CreateJob(idem, input)) else None
    case DeleteRequest(id) => Some(DeleteJob(id))
  }

  /** What a handler lets through: a well-formed redeem or create, and every DELETE. */
  lemma {:induction false} AdmitIff(r: Request)
    ensures Admit(r).Some? <==>
      match r
      case RedeemRequest(b) =>
        b.idempotencyKey == b.code != "" && b.kind == "balance" && b.userId == 41
        && Decimal.ParseStrict(b.value).Some? && Decimal.ParseStrict(b.value) != Some(0)
      case CreateRequest(idem, input) =>
        idem != "" && input.name != "" && input.groupId == 7
        && input.quota >= 0 && input.limit5h >= 0 && input.limit1d >= 0 && input.limit7d >= 0
      case DeleteRequest(_) => true
    ensures match r
      case RedeemRequest(b) =>
        Admit(r).Some? ==>
          Admit(r).value == RedeemJob(Redeem(b.code, "balance", Decimal.ParseStrict(b.value).value, 41, b.notes))
      case CreateRequest(idem, input) => Admit(r).Some? ==> Admit(r).value == CreateJob(idem, input)
      case DeleteRequest(id) => Admit(r) == Some(DeleteJob(id))
  {
  }

  predicate Admitted(job: Job) {
    match job
    case RedeemJob(r) => AdmittedRedeem(r)
    case CreateJob(idem, input) => AdmittedKey(idem, input)
    case DeleteJob(_) => true
  }

  function Boots(m: Machine, now: nat, firstWriteFails: bool, u: Setup): Machine {
    match m.disk
    case Some(s) => if ValidStored(s, u.config) then m.(process := Up(s, [], Idle)) else m.(refused := true)
    case None =>
      if firstWriteFails then m
      else var s := InitialState(u.config, now); m.(disk := Some(s), process := Up(s, [], Idle))
  }

  function Arrives(m: Machine, job: Job): Machine
    requires m.process.Up?
  {
    // DELETE looks the key up in the current state, outside the queue; a missing key is answered at once.
    if job.DeleteJob? && FindKey(m.process.mem.keys, job.id).None? then
      m.(answers := m.answers + [DeleteAnswer(job.id)])
    else m.(process := m.process.(queue := m.process.queue + [job]))
  }

  // The callback threw: its rejection is answered without a write.
  predicate Throws(a: Answer) { a.KeyAnswer? && a.result.BadExpiry? }

  function Starts(m: Machine, now: nat, u: Setup): Machine
    requires m.process.Up? && m.process.queue != []
  {
    var p := m.process;
    var (t, a) := Perform(p.mem, p.queue[0], u.hashes, now);
    if Throws(a) then m.(process := Up(p.mem, p.queue[1..], Idle), answers := m.answers + [a])
    else m.(process := Up(p.mem, p.queue[1..], Writing(p.queue[0], now, t, a)))
  }

  function Step(m: Machine, e: Event, u: Setup): Machine {
    match (e, m.process)
    case (Boot(now, firstWriteFails), Down) => Boots(m, now, firstWriteFails, u)
    case (Arrive(r), Up(_, _, _)) => if Admit(r).Some? then Arrives(m, Admit(r).value) else m
    case (Start(now), Up(_, queue, Idle)) => if queue == [] then m else Starts(m, now, u)
    case (WriteFails, Up(mem, queue, Writing(_, _, _, _))) => m.(process := Up(mem, queue, Idle))
    case (Rename, Up(mem, queue, Writing(job, now, t, a))) =>
      m.(disk := Some(t), process := Up(mem, queue, Renamed(job, now, t, a)))
    case (Swap, Up(mem, queue, Renamed(_, _, t, a))) => m.(process := Up(t, queue, Idle), answers := m.answers + [a])
    case (Crash, Up(_, _, _)) => m.(process := Down)
    case _ => m
  }

  function Run(m: Machine, events: seq<Event>, u: Setup): Machine
    decreases |events|
  {
    if events == [] then m else Run(Step(m, events[0], u), events[1..], u)
  }

  /******* The invariant *******/

  // An answer already given, or about to be, is backed by the state that is (or is about to be) on disk.
  ghost predicate Backed(a: Answer, s: State, h: Hashes) {
    match a
    case RedeemAnswer(r, out) =>
      out.Success() ==>
        out.adjustment in s.adjustments && out.adjustment.code == r.code && out.adjustment.requestHash == h.redeem(r)
    case KeyAnswer(idem, input, out) =>
      out.Success() ==> idem in s.keyRequests && s.keyRequests[idem] == KeyRequest(h.key(input), out.key.id)
    case DeleteAnswer(_) => true
  }

  ghost predicate Jobs(queue: seq<Job>) { forall i :: 0 <= i < |queue| ==> Admitted(queue[i]) }

  // The candidate and the pending answer are what the one job in progress makes of memory.
  ghost predicate InProgress(phase: Phase, mem: State, h: Hashes) {
    phase.Idle? || (Admitted(phase.job) && (phase.candidate, phase.answer) == Perform(mem, phase.job, h, phase.now))
  }

  ghost predicate ProcessOk(p: Process, disk: Option<State>, u: Setup) {
    p.Up? ==>
      && disk == Some(if p.phase.Renamed? then p.phase.candidate else p.mem)
      && Good(p.mem, u.config, u.hashes) && Jobs(p.queue) && InProgress(p.phase, p.mem, u.hashes)
  }

  ghost predicate Inv(m: Machine, u: Setup) {
    && !m.refused
    && (m.disk.Some? ==> Good(m.disk.value, u.config, u.hashes))
    && ProcessOk(m.process, m.disk, u)
    && AllBacked(m.answers, m.disk, u.hashes)
  }

  ghost predicate AllBacked(answers: seq<Answer>, disk: Option<State>, h: Hashes) {
    forall i :: 0 <= i < |answers| ==> AnswerBacked(answers[i], disk, h)
  }

  ghost predicate AnswerBacked(a: Answer, disk: Option<State>, h: Hashes) {
    disk.Some? && Backed(a, disk.value, h)
  }

  // The disk only moves forward.
  ghost predicate DiskLater(m: Machine, n: Machine) {
    m.disk.Some? ==> n.disk.Some? && Later(m.disk.value, n.disk.value)
  }

  lemma {:induction false} PerformKeeps(s: State, job: Job, h: Hashes, now: nat, c: Config)
    requires Good(s, c, h) && Admitted(job)
    ensures var (t, a) := Perform(s, job, h, now); Good(t, c, h) && Later(s, t) && Backed(a, t, h)
  {
    match job
    case RedeemJob(r) => RedeemKeeps(s, r, h, now, c);
    case CreateJob(idem, input) => KeyKeeps(s, idem, input, h, now, c);
    case DeleteJob(id) => DeleteKeeps(s, id, c, h);
  }

  lemma {:induction false} BackedLater(a: Answer, s: State, t: State, h: Hashes)
    requires Backed(a, s, h) && Later(s, t)
    ensures Backed(a, t, h)
  {
    if a.RedeemAnswer? && a.outcome.Success() {
      var i :| 0 <= i < |s.adjustments| && s.adjustments[i] == a.outcome.adjustment;
      assert t.adjustments[i] == a.outcome.adjustment;
    }
  }

  lemma {:induction false} AnswersLater(answers: seq<Answer>, s: State, t: State, h: Hashes)
    requires AllBacked(answers, Some(s), h) && Later(s, t)
    ensures AllBacked(answers, Some(t), h)
  {
    forall i | 0 <= i < |answers| ensures AnswerBacked(answers[i], Some(t), h) {
      BackedLater(answers[i], s, t, h);
    }
  }

  lemma {:induction false} DiskStays(m: Machine, n: Machine)
    requires n.disk == m.disk
    ensures DiskLater(m, n)
  {
    if m.disk.Some? { LaterReflexive(m.disk.value); }
  }

  lemma {:induction false} StepBoot(m: Machine, e: Event, u: Setup)
    requires Inv(m, u) && u.config.initial >= 0 && e.Boot?
    ensures Inv(Step(m, e, u), u) && DiskLater(m, Step(m, e, u))
  {
    if m.process.Down? && m.disk.None? {
      InitialGood(u.config, u.hashes, e.now);
    } else {
      if m.disk.Some? { GoodIsValidStored(m.disk.value, u.config, u.hashes); }
      DiskStays(m, Step(m, e, u));
    }
  }

  lemma {:induction false} StepRename(m: Machine, u: Setup)
    requires Inv(m, u)
    ensures Inv(Step(m, Rename, u), u) && DiskLater(m, Step(m, Rename, u))
  {
    if m.process.Up? && m.process.phase.Writing? {
      var p := m.process;
      PerformKeeps(p.mem, p.phase.job, u.hashes, p.phase.now, u.config);
      AnswersLater(m.answers, p.mem, p.phase.candidate, u.hashes);
    } else {
      DiskStays(m, Step(m, Rename, u));
    }
  }

  lemma {:induction false} StepSwap(m: Machine, u: Setup)
    requires Inv(m, u)
    ensures Inv(Step(m, Swap, u), u) && DiskLater(m, Step(m, Swap, u))
  {
    DiskStays(m, Step(m, Swap, u));
    if m.process.Up? && m.process.phase.Renamed? {
      var p := m.process;
      PerformKeeps(p.mem, p.phase.job, u.hashes, p.phase.now, u.config);
    }
  }

  lemma {:induction false} StepStart(m: Machine, e: Event, u: Setup)
    requires Inv(m, u) && e.Start?
    ensures Inv(Step(m, e, u), u) && DiskLater(m, Step(m, e, u))
  {
    DiskStays(m, Step(m, e, u));
  }

  lemma {:induction false} StepArrive(m: Machine, e: Event, u: Setup)
    requires Inv(m, u) && e.Arrive?
    ensures Inv(Step(m, e, u), u) && DiskLater(m, Step(m, e, u))
  {
    DiskStays(m, Step(m, e, u));
  }

  /** Every step of every schedule keeps the invariant and never takes anything back from the disk. */
  lemma {:induction false} StepKeepsInv(m: Machine, e: Event, u: Setup)
    requires Inv(m, u) && u.config.initial >= 0
    ensures Inv(Step(m, e, u), u) && DiskLater(m, Step(m, e, u))
  {
    match e
    case Boot(_, _) => StepBoot(m, e, u);
    case Arrive(_) => StepArrive(m, e, u);
    case Start(_) => StepStart(m, e, u);
    case Rename => StepRename(m, u);
    case Swap => StepSwap(m, u);
    case _ => DiskStays(m, Step(m, e, u));
  }

  lemma {:induction false} DiskLaterTransitive(m: Machine, n: Machine, o: Machine)
    requires DiskLater(m, n) && DiskLater(n, o)
    ensures DiskLater(m, o)
  {
    if m.disk.Some? { LaterTransitive(m.disk.value, n.disk.value, o.disk.value); }
  }

  lemma {:induction false} RunKeepsInv(m: Machine, events: seq<Event>, u: Setup)
    requires Inv(m, u) && u.config.initial >= 0
    ensures Inv(Run(m, events, u), u) && DiskLater(m, Run(m, events, u))
    decreases |events|
  {
    if events == [] {
      DiskStays(m, m);
    } else {
      var n := Step(m, events[0], u);
      StepKeepsInv(m, events[0], u);
      RunKeepsInv(n, events[1..], u);
      DiskLaterTransitive(m, n, Run(n, events[1..], u));
    }
  }

  lemma {:induction false} RunSplit(m: Machine, before: seq<Event>, after: seq<Event>, u: Setup)
    ensures Run(m, before + after, u) == Run(Run(m, before, u), after, u)
    decreases |before|
  {
    if before == [] {
      assert before + after == after;
    } else {
      assert (before + after)[1..] == before[1..] + after;
      RunSplit(Step(m, before[0], u), before[1..], after, u);
    }
  }

  /******* What every schedule guarantees *******/

  /** Whatever was stored is sound, and no start ever refuses the process's own file. */
  lemma {:induction false} EveryRunIsSound(events: seq<Event>, u: Setup)
    requires u.config.initial >= 0
    ensures var m := Run(Fresh(), events, u);
      && !m.refused
      && (m.disk.Some? ==>
           var d := m.disk.value;
           && d.wallet == u.config.initial + Sum(d.adjustments) && d.wallet >= 0
           && (forall i, j :: 0 <= i < j < |d.adjustments| ==> d.adjustments[i].code != d.adjustments[j].code)
           && d.nextKeyId == FIRST_KEY_ID + d.counts.keyCreates == FIRST_KEY_ID + |d.keyRequests|
           && Increasing(d.keys)
           && |d.keys| >= d.counts.keyCreates - d.counts.keyDeletes
           && ValidStored(d, u.config))
  {
    RunKeepsInv(Fresh(), events, u);
    var m := Run(Fresh(), events, u);
    if m.disk.Some? { GoodIsValidStored(m.disk.value, u.config, u.hashes); }
  }

  /**
   A start over a file written for another owner or another initial amount, or one that was tampered with into debt, is
   refused and leaves the file alone; over any other file the process comes up with what is stored.
   */
  lemma {:induction false} StartRefusesIff(m: Machine, now: nat, firstWriteFails: bool, u: Setup)
    requires m.process.Down? && m.disk.Some? && !m.refused
    ensures var n, s := Step(m, Boot(now, firstWriteFails), u), m.disk.value;
      && n.disk == m.disk && n.answers == m.answers
      && (n.refused <==>
        s.email != u.config.email || s.initial != u.config.initial || s.wallet < 0 || |s.adjustments| > 2)
      && n.process == if n.refused then Down else Up(s, [], Idle)
  {
    ValidStoredIff(m.disk.value, u.config);
  }

  /** Nothing stored is ever lost: later in any schedule, crashes and restarts included, it is all still there. */
  lemma {:induction false} NothingIsLost(before: seq<Event>, after: seq<Event>, u: Setup)
    requires u.config.initial >= 0
    ensures DiskLater(Run(Fresh(), before, u), Run(Fresh(), before + after, u))
  {
    RunKeepsInv(Fresh(), before, u);
    RunSplit(Fresh(), before, after, u);
    RunKeepsInv(Run(Fresh(), before, u), after, u);
  }

  /******* The disk is a serial history *******/

  datatype Commit = Commit(job: Job, now: nat)

  // The job a step makes durable: the one whose file is renamed into place.
  function CommitOf(m: Machine, e: Event): seq<Commit> {
    if e.Rename? && m.process.Up? && m.process.phase.Writing? then [Commit(m.process.phase.job, m.process.phase.now)]
    else []
  }

  function Committed(m: Machine, events: seq<Event>, u: Setup): seq<Commit>
    decreases |events|
  {
    if events == [] then [] else CommitOf(m, events[0]) + Committed(Step(m, events[0], u), events[1..], u)
  }

  predicate Creates(m: Machine, e: Event) { e.Boot? && !e.firstWriteFails && m.process.Down? && m.disk.None? }

  // When the first file was written, if it was.
  function FirstStart(m: Machine, events: seq<Event>, u: Setup): Option<nat>
    decreases |events|
  {
    if events == [] then None
    else if Creates(m, events[0]) then Some(events[0].now)
    else FirstStart(Step(m, events[0], u), events[1..], u)
  }

  // The jobs one after the other, nothing in between.
  function Replay(s: State, commits: seq<Commit>, h: Hashes): State {
    if commits == [] then s
    else
      var last := commits[|commits| - 1];
      Perform(Replay(s, commits[..|commits| - 1], h), last.job, h, last.now).0
  }

  lemma {:induction false} ReplayOne(s: State, commits: seq<Commit>, c: Commit, h: Hashes)
    ensures Replay(s, commits + [c], h) == Perform(Replay(s, commits, h), c.job, h, c.now).0
  {
    assert (commits + [c])[..|commits|] == commits;
  }

  lemma {:induction false} HistoryStep(m: Machine, s0: State, done: seq<Commit>, e: Event, u: Setup)
    requires Inv(m, u) && m.disk == Some(Replay(s0, done, u.hashes))
    ensures Step(m, e, u).disk == Some(Replay(s0, done + CommitOf(m, e), u.hashes))
  {
    if CommitOf(m, e) == [] {
      assert done + [] == done;
      NoCommitNoChange(m, e, u);
    } else {
      var p := m.process.phase;
      ReplayOne(s0, done, Commit(p.job, p.now), u.hashes);
    }
  }

  lemma {:induction false} NoCommitNoChange(m: Machine, e: Event, u: Setup)
    requires m.disk.Some? && CommitOf(m, e) == []
    ensures Step(m, e, u).disk == m.disk
  {
  }

  // From a disk that replays `done`, a run ends with a disk that replays `done` and what the run committed.
  lemma {:induction false} HistoryFrom(m: Machine, s0: State, done: seq<Commit>, events: seq<Event>, u: Setup)
    requires Inv(m, u) && u.config.initial >= 0 && m.disk == Some(Replay(s0, done, u.hashes))
    ensures Run(m, events, u).disk == Some(Replay(s0, done + Committed(m, events, u), u.hashes))
    decreases |events|
  {
    if events == [] {
      assert done + [] == done;
    } else {
      var n, c := Step(m, events[0], u), CommitOf(m, events[0]);
      StepKeepsInv(m, events[0], u);
      HistoryStep(m, s0, done, events[0], u);
      HistoryFrom(n, s0, done + c, events[1..], u);
      assert done + Committed(m, events, u) == done + c + Committed(n, events[1..], u) by {
        Joined(done, c, Committed(n, events[1..], u));
      }
    }
  }

  lemma {:induction false} Joined(a: seq<Commit>, b: seq<Commit>, c: seq<Commit>)
    ensures a + (b + c) == a + b + c
  {
  }

  lemma {:induction false} HistoryBefore(m: Machine, events: seq<Event>, u: Setup)
    requires Inv(m, u) && u.config.initial >= 0 && m.disk.None? && m.process.Down?
    ensures match FirstStart(m, events, u)
      case None => Run(m, events, u).disk == None && Committed(m, events, u) == []
      case Some(now) =>
        Run(m, events, u).disk == Some(Replay(InitialState(u.config, now), Committed(m, events, u), u.hashes))
    decreases |events|
  {
    if events != [] {
      var n := Step(m, events[0], u);
      StepKeepsInv(m, events[0], u);
      if Creates(m, events[0]) {
        var s0, later := InitialState(u.config, events[0].now), Committed(n, events[1..], u);
        assert n.disk == Some(Replay(s0, [], u.hashes));
        HistoryFrom(n, s0, [], events[1..], u);
        assert Committed(m, events, u) == [] + later == later;
      } else {
        assert n.disk.None? && n.process.Down?;
        HistoryBefore(n, events[1..], u);
        assert Committed(m, events, u) == [] + Committed(n, events[1..], u) == Committed(n, events[1..], u);
      }
    }
  }

  /**
   After every schedule, up, down or crashed in between, the disk holds exactly what the renamed jobs make of
   the first file when they are run one after the other, each at the time it started.
   */
  lemma {:induction false} DiskIsSerialHistory(events: seq<Event>, u: Setup)
    requires u.config.initial >= 0
    ensures match FirstStart(Fresh(), events, u)
      case None => Run(Fresh(), events, u).disk == None && Committed(Fresh(), events, u) == []
      case Some(now) =>
        Run(Fresh(), events, u).disk
          == Some(Replay(InitialState(u.config, now), Committed(Fresh(), events, u), u.hashes))
  {
    HistoryBefore(Fresh(), events, u);
  }

  // The disk after a step: as before, or the first file, or one mutation of what it was.
  ghost predicate OneMutation(m: Machine, n: Machine, u: Setup) {
    || n.disk == m.disk
    || (m.disk == None && exists now :: n.disk == Some(InitialState(u.config, now)))
    || (m.disk.Some? && exists job, now :: n.disk == Some(Perform(m.disk.value, job, u.hashes, now).0))
  }

  /**
   Any event, a crash at any point included, leaves the disk in the state before or after one mutation.  While
   the process is up, memory is what is on disk, or the disk is exactly one mutation ahead and about to be
   swapped in.
   */
  lemma {:induction false} DiskIsBeforeOrAfter(events: seq<Event>, e: Event, u: Setup)
    requires u.config.initial >= 0
    ensures var m := Run(Fresh(), events, u);
      && OneMutation(m, Step(m, e, u), u)
      && (m.process.Up? ==>
           var p := m.process;
           m.disk == Some(if p.phase.Renamed? then Perform(p.mem, p.phase.job, u.hashes, p.phase.now).0 else p.mem))
  {
    RunKeepsInv(Fresh(), events, u);
    StepMutatesOnce(Run(Fresh(), events, u), e, u);
  }

  lemma {:induction false} StepMutatesOnce(m: Machine, e: Event, u: Setup)
    requires ProcessOk(m.process, m.disk, u)
    ensures OneMutation(m, Step(m, e, u), u)
  {
    if e.Rename? && m.process.Up? && m.process.phase.Writing? {
      var p := m.process;
      assert Step(m, e, u).disk == Some(Perform(m.disk.value, p.phase.job, u.hashes, p.phase.now).0);
    } else if Creates(m, e) {
      assert Step(m, e, u).disk == Some(InitialState(u.config, e.now));
    } else {
      assert Step(m, e, u).disk == m.disk;
    }
  }

  /******* Where adjustments come from *******/

  ghost predicate Asked(job: Job, seen: seq<Event>) {
    exists i :: 0 <= i < |seen| && seen[i].Arrive? && Admit(seen[i].request) == Some(job)
  }

  function JobOf(a: Adjustment): Job { RedeemJob(Redeem(a.code, "balance", a.value, QUALIFICATION_USER_ID, a.notes)) }

  ghost predicate AllAsked(s: State, seen: seq<Event>) {
    forall i :: 0 <= i < |s.adjustments| ==> Asked(JobOf(s.adjustments[i]), seen)
  }

  ghost predicate QueueAsked(queue: seq<Job>, seen: seq<Event>) {
    forall i :: 0 <= i < |queue| ==> Asked(queue[i], seen)
  }

  ghost predicate Sourced(m: Machine, seen: seq<Event>) {
    && (m.disk.Some? ==> AllAsked(m.disk.value, seen))
    && (m.process.Up? ==> AllAsked(m.process.mem, seen) && QueueAsked(m.process.queue, seen))
    && (m.process.Up? && !m.process.phase.Idle? ==> AllAsked(m.process.phase.candidate, seen))
  }

  lemma {:induction false} AskedLater(job: Job, seen: seq<Event>, e: Event)
    requires Asked(job, seen)
    ensures Asked(job, seen + [e])
  {
    var i :| 0 <= i < |seen| && seen[i].Arrive? && Admit(seen[i].request) == Some(job);
    assert (seen + [e])[i] == seen[i];
  }

  lemma {:induction false} StateAskedLater(s: State, seen: seq<Event>, e: Event)
    requires AllAsked(s, seen)
    ensures AllAsked(s, seen + [e])
  {
    forall i | 0 <= i < |s.adjustments| ensures Asked(JobOf(s.adjustments[i]), seen + [e]) {
      AskedLater(JobOf(s.adjustments[i]), seen, e);
    }
  }

  lemma {:induction false} QueueAskedLater(queue: seq<Job>, seen: seq<Event>, e: Event)
    requires QueueAsked(queue, seen)
    ensures QueueAsked(queue, seen + [e])
  {
    forall i | 0 <= i < |queue| ensures Asked(queue[i], seen + [e]) { AskedLater(queue[i], seen, e); }
  }

  lemma {:induction false} SourcedLater(m: Machine, seen: seq<Event>, e: Event)
    requires Sourced(m, seen)
    ensures Sourced(m, seen + [e])
  {
    if m.disk.Some? { StateAskedLater(m.disk.value, seen, e); }
    if m.process.Up? {
      StateAskedLater(m.process.mem, seen, e);
      QueueAskedLater(m.process.queue, seen, e);
      if !m.process.phase.Idle? { StateAskedLater(m.process.phase.candidate, seen, e); }
    }
  }

  lemma {:induction false} PerformAsked(s: State, job: Job, h: Hashes, now: nat, seen: seq<Event>)
    requires AllAsked(s, seen) && Asked(job, seen) && Admitted(job)
    ensures AllAsked(Perform(s, job, h, now).0, seen)
  {
    match job
    case RedeemJob(r) => RedeemAsked(s, r, h, now, seen);
    case CreateJob(idem, input) => assert Perform(s, job, h, now).0.adjustments == s.adjustments;
    case DeleteJob(id) => assert Perform(s, job, h, now).0.adjustments == s.adjustments;
  }

  lemma {:induction false} RedeemAsked(s: State, r: Redeem, h: Hashes, now: nat, seen: seq<Event>)
    requires AllAsked(s, seen) && Asked(RedeemJob(r), seen) && AdmittedRedeem(r)
    ensures AllAsked(RedeemApply(s, r, h, now).0, seen)
  {
    var t := RedeemApply(s, r, h, now).0;
    if t != s {
      var a := t.adjustments[|s.adjustments|];
      assert t.adjustments == s.adjustments + [a];
      assert JobOf(a).redeem == r;
      AppendedAsked(s.adjustments, a, seen);
    }
  }

  lemma {:induction false} AppendedAsked(all: seq<Adjustment>, a: Adjustment, seen: seq<Event>)
    requires (forall i :: 0 <= i < |all| ==> Asked(JobOf(all[i]), seen)) && Asked(JobOf(a), seen)
    ensures forall i :: 0 <= i < |all + [a]| ==> Asked(JobOf((all + [a])[i]), seen)
  {
  }

  lemma {:induction false} ArriveSourced(m: Machine, r: Request, u: Setup, seen: seq<Event>)
    requires Sourced(m, seen + [Arrive(r)])
    ensures Sourced(Step(m, Arrive(r), u), seen + [Arrive(r)])
  {
    if Admit(r).Some? {
      assert (seen + [Arrive(r)])[|seen|] == Arrive(r);
      assert Asked(Admit(r).value, seen + [Arrive(r)]);
    }
  }

  lemma {:induction false} StartSourced(m: Machine, now: nat, u: Setup, seen: seq<Event>)
    requires Inv(m, u) && Sourced(m, seen)
    ensures Sourced(Step(m, Start(now), u), seen)
  {
    if m.process.Up? && m.process.phase.Idle? && m.process.queue != [] {
      assert Asked(m.process.queue[0], seen) && Admitted(m.process.queue[0]);
      PerformAsked(m.process.mem, m.process.queue[0], u.hashes, now, seen);
    }
  }

  lemma {:induction false} OtherSourced(m: Machine, e: Event, u: Setup, seen: seq<Event>)
    requires Sourced(m, seen) && !e.Arrive? && !e.Start?
    ensures Sourced(Step(m, e, u), seen)
  {
  }

  lemma {:induction false} StepSourced(m: Machine, e: Event, u: Setup, seen: seq<Event>)
    requires Inv(m, u) && Sourced(m, seen)
    ensures Sourced(Step(m, e, u), seen + [e])
  {
    SourcedLater(m, seen, e);
    match e
    case Arrive(r) => ArriveSourced(m, r, u, seen);
    case Start(now) => StartSourced(m, now, u, seen + [e]);
    case _ => OtherSourced(m, e, u, seen + [e]);
  }

  lemma {:induction false} RunSourced(m: Machine, events: seq<Event>, u: Setup, seen: seq<Event>)
    requires Inv(m, u) && u.config.initial >= 0 && Sourced(m, seen)
    ensures Sourced(Run(m, events, u), seen + events)
    decreases |events|
  {
    if events == [] {
      assert seen + events == seen;
    } else {
      StepSourced(m, events[0], u, seen);
      StepKeepsInv(m, events[0], u);
      RunSourced(Step(m, events[0], u), events[1..], u, seen + [events[0]]);
      assert seen + events == seen + [events[0]] + events[1..];
    }
  }

  // The body asked for exactly this adjustment: same code as idempotency key, and its decimal is the amount.
  predicate AsksFor(b: RedeemBody, a: Adjustment) {
    && b.idempotencyKey == b.code == a.code != "" && b.kind == "balance" && b.userId == QUALIFICATION_USER_ID
    && b.notes == a.notes && a.value != 0 && Decimal.ParseStrict(b.value) == Some(a.value)
  }

  /**
   The wallet only moves by what was asked: after every schedule each stored adjustment has the code, notes and
   exact decimal amount of a request that arrived.
   */
  lemma {:induction false} AdjustmentsWereRequested(events: seq<Event>, u: Setup, a: Adjustment)
    requires u.config.initial >= 0
    requires Run(Fresh(), events, u).disk.Some? && a in Run(Fresh(), events, u).disk.value.adjustments
    ensures exists e ::
      e in events && e.Arrive? && e.request.RedeemRequest? && AsksFor(e.request.body, a)
  {
    RunSourced(Fresh(), events, u, []);
    assert [] + events == events;
    var all := Run(Fresh(), events, u).disk.value.adjustments;
    var k :| 0 <= k < |all| && all[k] == a;
    assert Asked(JobOf(a), events);
    var i :| 0 <= i < |events| && events[i].Arrive? && Admit(events[i].request) == Some(JobOf(a));
    AdmitRedeemIff(events[i].request.body, JobOf(a).redeem);
    assert AsksFor(events[i].request.body, a);
  }

  /******* What clients were told *******/

  ghost predicate SuccessfulRedeem(a: Answer, code: string) {
    a.RedeemAnswer? && a.redeem.code == code && a.outcome.Success()
  }

  ghost predicate OneWithCode(a: seq<Adjustment>, code: string) {
    forall k, l :: 0 <= k < |a| && 0 <= l < |a| && a[k].code == code && a[l].code == code ==> k == l
  }

  /**
   Exactly once: all success answers for one code name one adjustment, on disk once, with the hash of each
   request answered.
   */
  lemma {:induction false} AppliedExactlyOnce(events: seq<Event>, u: Setup, i: nat, j: nat, code: string)
    requires u.config.initial >= 0
    requires var m := Run(Fresh(), events, u);
      i < |m.answers| && j < |m.answers| && SuccessfulRedeem(m.answers[i], code) && SuccessfulRedeem(m.answers[j], code)
    ensures var m := Run(Fresh(), events, u);
      && m.disk.Some?
      && m.answers[i].outcome.adjustment == m.answers[j].outcome.adjustment
      && m.answers[i].outcome.adjustment in m.disk.value.adjustments
      && OneWithCode(m.disk.value.adjustments, code)
      && u.hashes.redeem(m.answers[i].redeem) == u.hashes.redeem(m.answers[j].redeem)
  {
    RunKeepsInv(Fresh(), events, u);
    var m := Run(Fresh(), events, u);
    assert AnswerBacked(m.answers[i], m.disk, u.hashes) && AnswerBacked(m.answers[j], m.disk, u.hashes);
    var a := m.disk.value.adjustments;
    var k :| 0 <= k < |a| && a[k] == m.answers[i].outcome.adjustment;
    var l :| 0 <= l < |a| && a[l] == m.answers[j].outcome.adjustment;
    assert k == l;
  }

  ghost predicate Injective(h: Hashes) {
    forall r, q :: h.redeem(r) == h.redeem(q) ==> r == q
  }

  /** With a collision-free hash the applied amount is the amount of every request that was told so. */
  lemma {:induction false} AppliedAmount(events: seq<Event>, u: Setup, i: nat)
    requires u.config.initial >= 0 && Injective(u.hashes)
    requires var m := Run(Fresh(), events, u);
      i < |m.answers| && m.answers[i].RedeemAnswer? && m.answers[i].outcome.Success()
    ensures var a := Run(Fresh(), events, u).answers[i];
      a.outcome.adjustment.value == a.redeem.value && a.outcome.adjustment.notes == a.redeem.notes
  {
    RunKeepsInv(Fresh(), events, u);
    var m := Run(Fresh(), events, u);
    var a := m.answers[i];
    assert AnswerBacked(a, m.disk, u.hashes);
    var d := m.disk.value;
    var k :| 0 <= k < |d.adjustments| && d.adjustments[k] == a.outcome.adjustment;
    assert Recorded(d.adjustments[k], u.hashes);
  }

  /** A key id is bound to one idempotency key for good, and success answers for one idempotency key name one key. */
  lemma {:induction false} KeyIdsNeverReused(events: seq<Event>, u: Setup, i: nat, j: nat)
    requires u.config.initial >= 0
    requires var m := Run(Fresh(), events, u);
      && i < |m.answers| && m.answers[i].KeyAnswer? && m.answers[i].result.Success()
      && j < |m.answers| && m.answers[j].KeyAnswer? && m.answers[j].result.Success()
    ensures var m := Run(Fresh(), events, u);
      m.answers[i].result.key.id == m.answers[j].result.key.id <==> m.answers[i].idem == m.answers[j].idem
  {
    RunKeepsInv(Fresh(), events, u);
    var m := Run(Fresh(), events, u);
    assert AnswerBacked(m.answers[i], m.disk, u.hashes) && AnswerBacked(m.answers[j], m.disk, u.hashes);
  }

  // The name is bound to a key that is no longer there, and nothing in flight is about to say otherwise.
  ghost predicate Gone(m: Machine, idem: string) {
    && m.disk.Some? && KeyGone(m.disk.value, idem)
    && (m.process.Up? && m.process.phase.Renamed? ==> Conflicts(m.process.phase.answer, idem))
  }

  predicate Conflicts(a: Answer, idem: string) { a.KeyAnswer? && a.idem == idem ==> a.result == KeyConflict }

  ghost predicate KeyGone(s: State, idem: string) { idem in s.keyRequests && !HasId(s.keys, s.keyRequests[idem].keyId) }

  lemma {:induction false} PerformGone(s: State, job: Job, h: Hashes, now: nat, idem: string, c: Config)
    requires Good(s, c, h) && Admitted(job) && KeyGone(Perform(s, job, h, now).0, idem)
    ensures Conflicts(Perform(s, job, h, now).1, idem)
  {
    if job.CreateJob? && job.idem == idem {
      KeyKeeps(s, idem, job.input, h, now, c);
      KeyAnswered(s, idem, job.input, h, now);
    }
  }

  lemma {:induction false} KeyAnswered(s: State, idem: string, input: KeyInput, h: Hashes, now: nat)
    ensures var (t, out) := KeyApply(s, idem, input, h, now); out.Success() ==> HasId(t.keys, out.key.id)
  {
    if idem in s.keyRequests {
      FindKeyIff(s.keys, s.keyRequests[idem].keyId);
    } else if KeyApply(s, idem, input, h, now).1.Success() {
      AppendHasId(s.keys, KeyApply(s, idem, input, h, now).1.key, s.nextKeyId + 1);
    }
  }

  // What a step can answer: a DELETE without a job, a job whose callback threw, or the pending answer.
  ghost predicate Answerable(p: Process, a: Answer, h: Hashes)
    requires p.Up?
  {
    || a.DeleteAnswer?
    || (p.phase.Idle? && p.queue != [] && exists now :: a == Perform(p.mem, p.queue[0], h, now).1)
    || (p.phase.Renamed? && a == p.phase.answer)
  }

  lemma {:induction false} StepAnswers(m: Machine, e: Event, u: Setup)
    ensures var n := Step(m, e, u);
      || n.answers == m.answers
      || (|n.answers| == |m.answers| + 1 && m.answers <= n.answers
          && m.process.Up? && Answerable(m.process, n.answers[|m.answers|], u.hashes))
  {
    if m.process.Up? && e.Start? && m.process.phase.Idle? && m.process.queue != [] {
      var a := Perform(m.process.mem, m.process.queue[0], u.hashes, e.now).1;
      assert Answerable(m.process, a, u.hashes);
    }
  }

  lemma {:induction false} GoneConflicts(s: State, job: Job, h: Hashes, now: nat, idem: string)
    requires KeyGone(s, idem)
    ensures Conflicts(Perform(s, job, h, now).1, idem)
  {
    FindKeyIff(s.keys, s.keyRequests[idem].keyId);
  }

  lemma {:induction false} StillGone(s: State, t: State, idem: string, c: Config, h: Hashes)
    requires Good(s, c, h) && KeyGone(s, idem) && Later(s, t)
    ensures KeyGone(t, idem)
  {
  }

  lemma {:induction false} StepGone(m: Machine, e: Event, u: Setup, idem: string)
    requires Inv(m, u) && u.config.initial >= 0 && Gone(m, idem)
    ensures Gone(Step(m, e, u), idem)
  {
    var n := Step(m, e, u);
    assert KeyGone(n.disk.value, idem) by {
      StepKeepsInv(m, e, u);
      StillGone(m.disk.value, n.disk.value, idem, u.config, u.hashes);
    }
    if e.Rename? && m.process.Up? && m.process.phase.Writing? {
      var p := m.process;
      assert Conflicts(p.phase.answer, idem) by {
        PerformGone(p.mem, p.phase.job, u.hashes, p.phase.now, idem, u.config);
      }
    }
  }

  ghost predicate OnlyConflictsAdded(a: seq<Answer>, b: seq<Answer>, idem: string) {
    a <= b && forall i :: |a| <= i < |b| ==> Conflicts(b[i], idem)
  }

  lemma {:induction false} AddedTwice(a: seq<Answer>, b: seq<Answer>, c: seq<Answer>, idem: string)
    requires OnlyConflictsAdded(a, b, idem) && OnlyConflictsAdded(b, c, idem)
    ensures OnlyConflictsAdded(a, c, idem)
  {
    forall i | |a| <= i < |c| ensures Conflicts(c[i], idem) {
      if i < |b| { assert c[i] == b[i]; }
    }
  }

  lemma {:induction false} StepAdds(m: Machine, e: Event, u: Setup, idem: string)
    requires ProcessOk(m.process, m.disk, u) && Gone(m, idem)
    ensures OnlyConflictsAdded(m.answers, Step(m, e, u).answers, idem)
  {
    StepAnswers(m, e, u);
    var n := Step(m, e, u);
    if |n.answers| > |m.answers| && m.process.phase.Idle? && m.process.queue != [] {
      var p, a := m.process, n.answers[|m.answers|];
      if now :| a == Perform(p.mem, p.queue[0], u.hashes, now).1 {
        GoneConflicts(p.mem, p.queue[0], u.hashes, now, idem);
      }
    }
  }

  lemma {:induction false} RunGone(m: Machine, events: seq<Event>, u: Setup, idem: string)
    requires Inv(m, u) && u.config.initial >= 0 && Gone(m, idem)
    ensures OnlyConflictsAdded(m.answers, Run(m, events, u).answers, idem)
    decreases |events|
  {
    if events != [] {
      var n := Step(m, events[0], u);
      StepAdds(m, events[0], u, idem);
      assert Gone(n, idem) by { StepGone(m, events[0], u, idem); }
      assert Inv(n, u) by { StepKeepsInv(m, events[0], u); }
      RunGone(n, events[1..], u, idem);
      AddedTwice(m.answers, n.answers, Run(m, events, u).answers, idem);
    }
  }

  /**
   Once a bound key is gone from disk, every later answer for its idempotency key, in every continuation, is a
   conflict.
   */
  lemma {:induction false} DeletedKeyConflicts(before: seq<Event>, after: seq<Event>, u: Setup, idem: string, i: nat)
    requires u.config.initial >= 0
    requires var d := Run(Fresh(), before, u).disk; d.Some? && KeyGone(d.value, idem)
    requires |Run(Fresh(), before, u).answers| <= i < |Run(Fresh(), before + after, u).answers|
    ensures Conflicts(Run(Fresh(), before + after, u).answers[i], idem)
  {
    RunSplit(Fresh(), before, after, u);
    RunKeepsInv(Fresh(), before, u);
    var m := Run(Fresh(), before, u);
    if m.process.Up? && m.process.phase.Renamed? {
      PerformGone(m.process.mem, m.process.phase.job, u.hashes, m.process.phase.now, idem, u.config);
    }
    RunGone(m, after, u, idem);
  }

  /******* Names every object inherits *******/

  /**
   The first create ever sent, well formed but named "constructor", is stored as nothing and answered with a
   conflict.
   */
  lemma {:induction false} ConstructorConflicts(u: Setup, input: KeyInput)
    requires AdmittedKey("constructor", input)
    ensures var create := [Arrive(CreateRequest("constructor", input))] + [Start(0), Rename, Swap];
      Run(Fresh(), [Boot(0, false)] + create, u).answers == [KeyAnswer("constructor", input, KeyConflict)]
  {
    var s0 := InitialState(u.config, 0);
    var m0 := Machine(Some(s0), Up(s0, [], Idle), [], false);
    RunCons(Fresh(), Boot(0, false), [Arrive(CreateRequest("constructor", input))] + [Start(0), Rename, Swap], u);
    OneJob(m0, CreateRequest("constructor", input), u, 0);
  }

  /******* Short runs *******/

  lemma {:induction false} RunOne(m: Machine, e: Event, u: Setup)
    ensures Run(m, [e], u) == Step(m, e, u)
  {
    assert [e][1..] == [];
  }

  lemma {:induction false} RunTwo(m: Machine, e: Event, f: Event, u: Setup)
    ensures Run(m, [e, f], u) == Step(Step(m, e, u), f, u)
  {
    assert [e, f][1..] == [f];
    RunOne(Step(m, e, u), f, u);
  }

  // A queued job whose write meets no failure is applied, stored unless its callback threw, and answered.
  lemma {:induction false} QueuedJob(m: Machine, u: Setup, now: nat)
    requires m.process.Up? && m.process.phase.Idle? && m.process.queue != []
    ensures var (t, a) := Perform(m.process.mem, m.process.queue[0], u.hashes, now);
      Run(m, [Start(now), Rename, Swap], u)
        == Machine(if Throws(a) then m.disk else Some(t), Up(t, m.process.queue[1..], Idle), m.answers + [a], m.refused)
  {
    assert [Start(now), Rename, Swap][1..] == [Rename, Swap];
    RunTwo(Step(m, Start(now), u), Rename, Swap, u);
  }

  // One whose write fails leaves both copies alone and is answered with an outcome only if its callback threw first.
  lemma {:induction false} FailedJob(m: Machine, u: Setup, now: nat)
    requires m.process.Up? && m.process.phase.Idle? && m.process.queue != []
    ensures var a := Perform(m.process.mem, m.process.queue[0], u.hashes, now).1;
      Run(m, [Start(now), WriteFails], u)
        == m.(process := Up(m.process.mem, m.process.queue[1..], Idle),
              answers := m.answers + if Throws(a) then [a] else [])
  {
    RunTwo(m, Start(now), WriteFails, u);
  }

  lemma {:induction false} RunCons(m: Machine, e: Event, rest: seq<Event>, u: Setup)
    ensures Run(m, [e] + rest, u) == Run(Step(m, e, u), rest, u)
  {
    assert ([e] + rest)[1..] == rest;
  }

  lemma {:induction false} ArriveOnIdle(m: Machine, r: Request, u: Setup)
    requires m.process.Up? && m.process.phase.Idle? && m.process.queue == [] && Admit(r).Some? && !r.DeleteRequest?
    ensures Step(m, Arrive(r), u) == m.(process := Up(m.process.mem, [Admit(r).value], Idle))
  {
    assert m.process.queue + [Admit(r).value] == [Admit(r).value];
  }

  lemma {:induction false} OneJob(m: Machine, r: Request, u: Setup, now: nat)
    requires m.process.Up? && m.process.phase.Idle? && m.process.queue == [] && Admit(r).Some? && !r.DeleteRequest?
    ensures var (t, a) := Perform(m.process.mem, Admit(r).value, u.hashes, now);
      Run(m, [Arrive(r)] + [Start(now), Rename, Swap], u)
        == Machine(if Throws(a) then m.disk else Some(t), Up(t, [], Idle), m.answers + [a], m.refused)
  {
    ArriveOnIdle(m, r, u);
    RunCons(m, Arrive(r), [Start(now), Rename, Swap], u);
    var n := Step(m, Arrive(r), u);
    QueuedJob(n, u, now);
    assert n.process.queue[1..] == [];
  }
}
