/**
 The authority's schedules as a serial history: clients are told what the committed jobs, run one after the other,
 make of their requests, and jobs are committed in the order in which they arrived.
 */
module AuthorityHistory {
  import opened Wrappers
  import opened Authority
  import opened AuthorityMachine

  /******* Answers *******/

  // What an answer was given for, and how many jobs were committed in the state it was worked out in: a job that ran,
  // or a DELETE that found no key and never became one.
  datatype Service = Ran(job: Job, now: nat, before: int) | Missing(id: int, before: int)

  // Memory is one job behind the disk between the rename and the swap.
  function Behind(p: Process): nat { if p.Up? && p.phase.Renamed? then 1 else 0 }

  // What a step answers, after `done` commits.
  function ServiceOf(m: Machine, e: Event, done: nat, u: Setup): seq<Service> {
    if m.process.Down? then [] else ServedUp(m.process, e, done - Behind(m.process), u)
  }

  function ServedUp(p: Process, e: Event, before: int, u: Setup): seq<Service>
    requires p.Up?
  {
    if e.Arrive? && Admit(e.request).Some? then
      var job := Admit(e.request).value;
      if job.DeleteJob? && FindKey(p.mem.keys, job.id).None? then [Missing(job.id, before)] else []
    else if e.Start? && p.phase.Idle? && p.queue != [] then
      if Throws(Perform(p.mem, p.queue[0], u.hashes, e.now).1) then [Ran(p.queue[0], e.now, before)] else []
    else if e.Swap? && p.phase.Renamed? then [Ran(p.phase.job, p.phase.now, before)]
    else []
  }

  function Services(m: Machine, done: nat, events: seq<Event>, u: Setup): seq<Service>
    decreases |events|
  {
    if events == [] then []
    else
      ServiceOf(m, events[0], done, u)
      + Services(Step(m, events[0], u), done + |CommitOf(m, events[0])|, events[1..], u)
  }

  // The answer is what the job makes of the first file after the commits before it, and unless its callback threw the
  // job is the next commit.
  ghost predicate ServedBy(a: Answer, v: Service, s0: State, commits: seq<Commit>, h: Hashes) {
    && 0 <= v.before <= |commits|
    && var s := Replay(s0, commits[..v.before], h);
       match v
       case Missing(id, _) => a == DeleteAnswer(id) && !HasId(s.keys, id)
       case Ran(job, now, before) =>
         && a == Perform(s, job, h, now).1
         && (!Throws(a) ==> before < |commits| && commits[before] == Commit(job, now))
  }

  ghost predicate AllServed(answers: seq<Answer>, services: seq<Service>, s0: State, commits: seq<Commit>, h: Hashes) {
    && |answers| == |services|
    && forall i :: 0 <= i < |answers| ==> ServedBy(answers[i], services[i], s0, commits, h)
  }

  lemma {:induction false} ServedLater(
    a: Answer, v: Service, s0: State, commits: seq<Commit>, more: seq<Commit>, h: Hashes)
    requires ServedBy(a, v, s0, commits, h)
    ensures ServedBy(a, v, s0, commits + more, h)
  {
    assert (commits + more)[..v.before] == commits[..v.before];
  }

  lemma {:induction false} AllServedLater(
    answers: seq<Answer>, services: seq<Service>, s0: State, commits: seq<Commit>, more: seq<Commit>, h: Hashes)
    requires AllServed(answers, services, s0, commits, h)
    ensures AllServed(answers, services, s0, commits + more, h)
  {
    forall i | 0 <= i < |answers| ensures ServedBy(answers[i], services[i], s0, commits + more, h) {
      ServedLater(answers[i], services[i], s0, commits, more, h);
    }
  }

  // The disk replays the commits, and memory all of them but the one about to be swapped in.
  ghost predicate Tracked(m: Machine, s0: State, done: seq<Commit>, u: Setup) {
    && Inv(m, u) && m.disk == Some(Replay(s0, done, u.hashes))
    && (m.process.Up? && m.process.phase.Renamed? ==> AboutToSwap(m.process, s0, done, u.hashes))
  }

  ghost predicate AboutToSwap(p: Process, s0: State, done: seq<Commit>, h: Hashes)
    requires p.Up? && p.phase.Renamed?
  {
    && done != [] && p.mem == Replay(s0, done[..|done| - 1], h)
    && done[|done| - 1] == Commit(p.phase.job, p.phase.now)
  }

  lemma {:induction false} MemoryReplays(m: Machine, s0: State, done: seq<Commit>, u: Setup)
    requires Tracked(m, s0, done, u) && m.process.Up?
    ensures Behind(m.process) <= |done|
    ensures m.process.mem == Replay(s0, done[..|done| - Behind(m.process)], u.hashes)
  {
    assert done[..|done|] == done;
  }

  lemma {:induction false} StepTracked(m: Machine, s0: State, done: seq<Commit>, e: Event, u: Setup)
    requires Tracked(m, s0, done, u) && u.config.initial >= 0
    ensures Tracked(Step(m, e, u), s0, done + CommitOf(m, e), u)
  {
    assert Inv(Step(m, e, u), u) by { StepKeepsInv(m, e, u); }
    HistoryStep(m, s0, done, e, u);
    StepRenamed(m, s0, done, e, u);
  }

  lemma {:induction false} StepRenamed(m: Machine, s0: State, done: seq<Commit>, e: Event, u: Setup)
    requires m.process.Up? && m.process.phase.Writing? ==> m.process.mem == Replay(s0, done, u.hashes)
    requires m.process.Up? && m.process.phase.Renamed? ==> AboutToSwap(m.process, s0, done, u.hashes)
    ensures var p := Step(m, e, u).process;
      p.Up? && p.phase.Renamed? ==> AboutToSwap(p, s0, done + CommitOf(m, e), u.hashes)
  {
    if e.Rename? {
      assert CommitOf(m, e) != [] ==> (done + CommitOf(m, e))[..|done|] == done;
    }
    assert done + [] == done;
  }

  // What a step adds to the answers is what its service says.
  lemma {:induction false} StepServed(m: Machine, s0: State, done: seq<Commit>, e: Event, u: Setup)
    requires Tracked(m, s0, done, u)
    ensures m.answers <= Step(m, e, u).answers
    ensures AllServed(Step(m, e, u).answers[|m.answers|..], ServiceOf(m, e, |done|, u), s0, done, u.hashes)
  {
    if m.process.Up? {
      MemoryReplays(m, s0, done, u);
      UpServed(m, s0, done, e, u);
    }
  }

  lemma {:induction false} UpServed(m: Machine, s0: State, done: seq<Commit>, e: Event, u: Setup)
    requires m.process.Up? && Behind(m.process) <= |done| && InProgress(m.process.phase, m.process.mem, u.hashes)
    requires m.process.mem == Replay(s0, done[..|done| - Behind(m.process)], u.hashes)
    requires m.process.phase.Renamed? ==> AboutToSwap(m.process, s0, done, u.hashes)
    ensures m.answers <= Step(m, e, u).answers
    ensures AllServed(Step(m, e, u).answers[|m.answers|..], ServiceOf(m, e, |done|, u), s0, done, u.hashes)
  {
    var p, v := m.process, ServiceOf(m, e, |done|, u);
    UpAnswers(m, e, |done|, u);
    if v != [] {
      match v[0]
      case Missing(id, before) => FindKeyIff(p.mem.keys, id);
      case Ran(job, now, before) =>
        if p.phase.Renamed? { assert done[before] == Commit(job, now); }
    }
  }

  // A step answers at most one service: the pending one, a throwing job's, or a DELETE's without a key.
  lemma {:induction false} UpAnswers(m: Machine, e: Event, done: nat, u: Setup)
    requires m.process.Up?
    ensures m.answers <= Step(m, e, u).answers
    ensures var p, a, v := m.process, Step(m, e, u).answers[|m.answers|..], ServiceOf(m, e, done, u);
      |a| == |v| <= 1 && (v != [] ==> AnswersNow(p, a[0], v[0], done, u))
  {
  }

  predicate AnswersNow(p: Process, a: Answer, v: Service, done: nat, u: Setup)
    requires p.Up?
  {
    && v.before == done - Behind(p)
    && match v
       case Missing(id, _) => a == DeleteAnswer(id) && FindKey(p.mem.keys, id).None?
       case Ran(job, now, _) =>
         if p.phase.Renamed? then a == p.phase.answer && job == p.phase.job && now == p.phase.now
         else a == Perform(p.mem, job, u.hashes, now).1 && Throws(a)
  }

  lemma {:induction false} JoinServed(
    a: seq<Answer>, b: seq<Answer>, v: seq<Service>, w: seq<Service>, s0: State, commits: seq<Commit>, h: Hashes)
    requires AllServed(a, v, s0, commits, h) && a <= b && AllServed(b[|a|..], w, s0, commits, h)
    ensures AllServed(b, v + w, s0, commits, h)
  {
    forall i | 0 <= i < |b| ensures ServedBy(b[i], (v + w)[i], s0, commits, h) {
      if i >= |a| { assert b[i] == b[|a|..][i - |a|]; }
    }
  }

  ghost predicate SoFar(m: Machine, services: seq<Service>, s0: State, done: seq<Commit>, u: Setup) {
    Tracked(m, s0, done, u) && AllServed(m.answers, services, s0, done, u.hashes)
  }

  lemma {:induction false} StepSoFar(
    m: Machine, services: seq<Service>, s0: State, done: seq<Commit>, e: Event, u: Setup)
    requires SoFar(m, services, s0, done, u) && u.config.initial >= 0
    ensures SoFar(Step(m, e, u), services + ServiceOf(m, e, |done|, u), s0, done + CommitOf(m, e), u)
  {
    var n, v := Step(m, e, u), ServiceOf(m, e, |done|, u);
    assert Tracked(n, s0, done + CommitOf(m, e), u) by { StepTracked(m, s0, done, e, u); }
    StepServed(m, s0, done, e, u);
    JoinServed(m.answers, n.answers, services, v, s0, done, u.hashes);
    AllServedLater(n.answers, services + v, s0, done, CommitOf(m, e), u.hashes);
  }

  // What every step keeps about the machine, the services and the commits so far, every run keeps.
  lemma {:induction false} RunKeeps(
    kept: (Machine, seq<Service>, seq<Commit>) -> bool, m: Machine, services: seq<Service>, done: seq<Commit>,
    events: seq<Event>, u: Setup)
    requires kept(m, services, done)
    requires forall n, v, c, e ::
      kept(n, v, c) ==> kept(Step(n, e, u), v + ServiceOf(n, e, |c|, u), c + CommitOf(n, e))
    ensures kept(Run(m, events, u), services + Services(m, |done|, events, u), done + Committed(m, events, u))
    decreases |events|
  {
    if events == [] {
      assert done + [] == done && services + [] == services;
    } else {
      var n, c, v := Step(m, events[0], u), CommitOf(m, events[0]), ServiceOf(m, events[0], |done|, u);
      RunKeeps(kept, n, services + v, done + c, events[1..], u);
      Joined(done, c, Committed(n, events[1..], u));
      JoinedServices(services, v, Services(n, |done + c|, events[1..], u));
    }
  }

  lemma {:induction false} RunServed(
    m: Machine, services: seq<Service>, s0: State, done: seq<Commit>, events: seq<Event>, u: Setup)
    requires SoFar(m, services, s0, done, u) && u.config.initial >= 0
    ensures SoFar(Run(m, events, u), services + Services(m, |done|, events, u), s0, done + Committed(m, events, u), u)
  {
    var kept := (n: Machine, v: seq<Service>, c: seq<Commit>) => SoFar(n, v, s0, c, u);
    forall n, v, c, e | kept(n, v, c)
      ensures kept(Step(n, e, u), v + ServiceOf(n, e, |c|, u), c + CommitOf(n, e))
    {
      StepSoFar(n, v, s0, c, e, u);
    }
    RunKeeps(kept, m, services, done, events, u);
  }

  lemma {:induction false} JoinedServices(a: seq<Service>, b: seq<Service>, c: seq<Service>)
    ensures a + (b + c) == a + b + c
  {
  }

  // The first start: an empty history, from which every answer is served.
  lemma {:induction false} ServedFromCreation(m: Machine, e: Event, events: seq<Event>, u: Setup)
    requires Inv(m, u) && u.config.initial >= 0 && m.answers == [] && Creates(m, e)
    ensures var n, s0 := Step(m, e, u), InitialState(u.config, e.now);
      AllServed(Run(n, events, u).answers, Services(n, 0, events, u), s0, Committed(n, events, u), u.hashes)
  {
    var n, s0 := Step(m, e, u), InitialState(u.config, e.now);
    StepKeepsInv(m, e, u);
    assert SoFar(n, [], s0, [], u);
    RunServed(n, [], s0, [], events, u);
    assert [] + Committed(n, events, u) == Committed(n, events, u);
    assert [] + Services(n, 0, events, u) == Services(n, 0, events, u);
  }

  ghost predicate ServedFrom(first: Option<nat>, m: Machine, v: seq<Service>, c: seq<Commit>, u: Setup) {
    match first
    case None => m.answers == []
    case Some(now) => AllServed(m.answers, v, InitialState(u.config, now), c, u.hashes)
  }

  lemma {:induction false} StillEmpty(m: Machine, e: Event, u: Setup)
    requires Inv(m, u) && u.config.initial >= 0 && m.disk.None? && m.process.Down? && m.answers == []
    requires !Creates(m, e)
    ensures var n := Step(m, e, u); Inv(n, u) && n.disk.None? && n.process.Down? && n.answers == []
  {
    StepKeepsInv(m, e, u);
  }

  lemma {:induction false} ServedFromStart(m: Machine, events: seq<Event>, u: Setup)
    requires Inv(m, u) && u.config.initial >= 0 && m.disk.None? && m.process.Down? && m.answers == []
    ensures ServedFrom(
      FirstStart(m, events, u), Run(m, events, u), Services(m, 0, events, u), Committed(m, events, u), u)
    decreases |events|
  {
    if events != [] {
      var n := Step(m, events[0], u);
      assert CommitOf(m, events[0]) == [] && ServiceOf(m, events[0], 0, u) == [];
      assert [] + Committed(n, events[1..], u) == Committed(n, events[1..], u);
      assert [] + Services(n, 0, events[1..], u) == Services(n, 0, events[1..], u);
      if Creates(m, events[0]) {
        ServedFromCreation(m, events[0], events[1..], u);
      } else {
        StillEmpty(m, events[0], u);
        ServedFromStart(n, events[1..], u);
      }
    }
  }

  /**
   Every schedule answers like a serial execution: answer i is what its job makes of the first file after the jobs
   committed before it, and the job is the next commit unless its callback threw.
   */
  lemma {:induction false} AnswersAreSerial(events: seq<Event>, u: Setup)
    requires u.config.initial >= 0
    ensures ServedFrom(FirstStart(Fresh(), events, u), Run(Fresh(), events, u), Services(Fresh(), 0, events, u),
                       Committed(Fresh(), events, u), u)
  {
    ServedFromStart(Fresh(), events, u);
  }

  // Each job ran at the time some event started it.
  ghost predicate Started(services: seq<Service>, events: seq<Event>) {
    forall i :: 0 <= i < |services| && services[i].Ran? ==> Start(services[i].now) in events
  }

  ghost predicate PhaseStarted(p: Process, seen: seq<Event>) {
    p.Up? && !p.phase.Idle? ==> Start(p.phase.now) in seen
  }

  lemma {:induction false} RunStarted(m: Machine, done: nat, events: seq<Event>, u: Setup, seen: seq<Event>)
    requires PhaseStarted(m.process, seen)
    ensures Started(Services(m, done, events, u), seen + events)
    decreases |events|
  {
    if events != [] {
      var n, v := Step(m, events[0], u), ServiceOf(m, events[0], done, u);
      assert seen + events == seen + [events[0]] + events[1..];
      assert Started(v, seen + events);
      RunStarted(n, done + |CommitOf(m, events[0])|, events[1..], u, seen + [events[0]]);
    }
  }

  /******* Creates *******/

  /**
   Along every schedule, a create that is answered succeeds exactly when, in the state it started from, its name is
   bound to a live key under the same hash, or is unbound and not inherited and the expiry is a date at that time; and
   each way of succeeding or failing is answered exactly in its own case.
   */
  lemma {:induction false} CreateSucceedsIff(events: seq<Event>, u: Setup, i: nat)
    requires u.config.initial >= 0
    requires i < |Run(Fresh(), events, u).answers| && Run(Fresh(), events, u).answers[i].KeyAnswer?
    ensures var a, first := Run(Fresh(), events, u).answers[i], FirstStart(Fresh(), events, u);
      first.Some? && i < |Services(Fresh(), 0, events, u)|
      && StartedAs(a, Services(Fresh(), 0, events, u)[i], InitialState(u.config, first.value),
                   Committed(Fresh(), events, u), events, u.hashes)
  {
    AnswersAreSerial(events, u);
    RunStarted(Fresh(), 0, events, u, []);
    assert [] + events == events;
    var a, v := Run(Fresh(), events, u).answers[i], Services(Fresh(), 0, events, u)[i];
    var s0 := InitialState(u.config, FirstStart(Fresh(), events, u).value);
    var commits := Committed(Fresh(), events, u);
    assert ServedBy(a, v, s0, commits, u.hashes);
    CreateServed(a, v, s0, commits, u.hashes);
  }

  lemma {:induction false} CreateServed(a: Answer, v: Service, s0: State, commits: seq<Commit>, h: Hashes)
    requires ServedBy(a, v, s0, commits, h) && a.KeyAnswer?
    ensures v.Ran? && v.job == CreateJob(a.idem, a.input) && 0 <= v.before <= |commits|
    ensures KeyOutcomeFits(Replay(s0, commits[..v.before], h), a.idem, a.input, h, v.now, a.result)
    ensures !a.result.BadExpiry? ==> v.before < |commits| && commits[v.before] == Commit(v.job, v.now)
    ensures !a.result.BadExpiry? ==>
      KeyStores(Replay(s0, commits[..v.before], h), a.idem, a.input, h, Replay(s0, commits[..v.before + 1], h),
                a.result)
  {
    var before := commits[..v.before];
    KeyOutcomeIff(Replay(s0, before, h), a.idem, a.input, h, v.now);
    if !a.result.BadExpiry? {
      assert commits[..v.before + 1] == before + [Commit(v.job, v.now)];
      ReplayOne(s0, before, Commit(v.job, v.now), h);
    }
  }

  // The create was started by an event of the schedule after `before` commits; its answer is decided there, and the
  // next state of the history holds what it stored.
  ghost predicate StartedAs(
    a: Answer, v: Service, s0: State, commits: seq<Commit>, events: seq<Event>, h: Hashes)
    requires a.KeyAnswer?
  {
    && v.Ran? && v.job == CreateJob(a.idem, a.input) && Start(v.now) in events && 0 <= v.before <= |commits|
    && (a.result.Success() <==> Creatable(Replay(s0, commits[..v.before], h), a.idem, a.input, h, v.now))
    && KeyOutcomeFits(Replay(s0, commits[..v.before], h), a.idem, a.input, h, v.now, a.result)
    && (!a.result.BadExpiry? ==>
      && v.before < |commits| && commits[v.before] == Commit(v.job, v.now)
      && KeyStores(Replay(s0, commits[..v.before], h), a.idem, a.input, h, Replay(s0, commits[..v.before + 1], h),
                   a.result))
  }

  // The redeem was started by an event of the schedule after `before` commits, and its outcome is decided there.
  ghost predicate RedeemStartedAs(
    a: Answer, v: Service, s0: State, commits: seq<Commit>, events: seq<Event>, h: Hashes)
    requires a.RedeemAnswer?
  {
    && v.Ran? && v.job == RedeemJob(a.redeem) && Start(v.now) in events && 0 <= v.before < |commits|
    && OutcomeFits(Replay(s0, commits[..v.before], h), a.redeem, h, a.outcome)
    && commits[v.before] == Commit(v.job, v.now)
    && Stores(Replay(s0, commits[..v.before], h), a.redeem, h, v.now, Replay(s0, commits[..v.before + 1], h), a.outcome)
  }

  /**
   Along every schedule, a redeem that is answered was created, replayed or refused exactly as the state it started from
   demands, and the next state of the history holds exactly what it stored.
   */
  lemma {:induction false} RedeemAnsweredIff(events: seq<Event>, u: Setup, i: nat)
    requires u.config.initial >= 0
    requires i < |Run(Fresh(), events, u).answers| && Run(Fresh(), events, u).answers[i].RedeemAnswer?
    ensures var a, first := Run(Fresh(), events, u).answers[i], FirstStart(Fresh(), events, u);
      first.Some? && i < |Services(Fresh(), 0, events, u)|
      && RedeemStartedAs(a, Services(Fresh(), 0, events, u)[i], InitialState(u.config, first.value),
                         Committed(Fresh(), events, u), events, u.hashes)
  {
    AnswersAreSerial(events, u);
    RunStarted(Fresh(), 0, events, u, []);
    assert [] + events == events;
    CommitsAdmitted(Fresh(), events, u);
    var s0 := InitialState(u.config, FirstStart(Fresh(), events, u).value);
    RedeemServed(Run(Fresh(), events, u).answers[i], Services(Fresh(), 0, events, u)[i], s0,
                 Committed(Fresh(), events, u), u);
  }

  lemma {:induction false} RedeemServed(a: Answer, v: Service, s0: State, commits: seq<Commit>, u: Setup)
    requires ServedBy(a, v, s0, commits, u.hashes) && a.RedeemAnswer?
    requires Good(s0, u.config, u.hashes) && AllAdmitted(commits)
    ensures v.Ran? && v.job == RedeemJob(a.redeem) && 0 <= v.before < |commits|
    ensures commits[v.before] == Commit(v.job, v.now)
    ensures var s, t := Replay(s0, commits[..v.before], u.hashes), Replay(s0, commits[..v.before + 1], u.hashes);
      OutcomeFits(s, a.redeem, u.hashes, a.outcome) && Stores(s, a.redeem, u.hashes, v.now, t, a.outcome)
  {
    var before := commits[..v.before];
    ReplayGood(s0, before, u);
    RedeemOutcomeIff(Replay(s0, before, u.hashes), a.redeem, u.hashes, v.now, u.config);
    assert commits[..v.before + 1] == before + [Commit(v.job, v.now)];
    ReplayOne(s0, before, Commit(v.job, v.now), u.hashes);
  }

  ghost predicate AllAdmitted(commits: seq<Commit>) { forall i :: 0 <= i < |commits| ==> Admitted(commits[i].job) }

  lemma {:induction false} ReplayGood(s0: State, commits: seq<Commit>, u: Setup)
    requires Good(s0, u.config, u.hashes) && AllAdmitted(commits)
    ensures Good(Replay(s0, commits, u.hashes), u.config, u.hashes)
  {
    if commits != [] {
      var init, last := commits[..|commits| - 1], commits[|commits| - 1];
      ReplayGood(s0, init, u);
      PerformKeeps(Replay(s0, init, u.hashes), last.job, u.hashes, last.now, u.config);
    }
  }

  // Only admitted jobs are ever committed, and there is something to commit to only from a sound first file.
  lemma {:induction false} CommitsAdmitted(m: Machine, events: seq<Event>, u: Setup)
    requires Inv(m, u) && u.config.initial >= 0
    ensures AllAdmitted(Committed(m, events, u))
    ensures forall now :: Good(InitialState(u.config, now), u.config, u.hashes)
    decreases |events|
  {
    forall now ensures Good(InitialState(u.config, now), u.config, u.hashes) { InitialGood(u.config, u.hashes, now); }
    if events != [] {
      StepKeepsInv(m, events[0], u);
      CommitsAdmitted(Step(m, events[0], u), events[1..], u);
    }
  }

  /******* Where keys come from *******/

  // The commit created this key: same name, input and time.
  predicate Made(c: Commit, k: Key, s: State) {
    && c.job.CreateJob? && c.job.input == k.input && c.now == k.createdAt
    && c.job.idem in s.keyRequests && s.keyRequests[c.job.idem].keyId == k.id
  }

  ghost predicate MadeBy(k: Key, s: State, commits: seq<Commit>) {
    exists j :: 0 <= j < |commits| && Made(commits[j], k, s)
  }

  ghost predicate AllMade(s: State, commits: seq<Commit>) {
    forall i :: 0 <= i < |s.keys| ==> MadeBy(s.keys[i], s, commits)
  }

  lemma {:induction false} MadeLater(k: Key, s: State, t: State, commits: seq<Commit>, c: Commit)
    requires MadeBy(k, s, commits)
    requires forall idem :: idem in s.keyRequests ==>
      idem in t.keyRequests && t.keyRequests[idem] == s.keyRequests[idem]
    ensures MadeBy(k, t, commits + [c])
  {
    var j :| 0 <= j < |commits| && Made(commits[j], k, s);
    assert Made((commits + [c])[j], k, t);
  }

  /** Every key of every history has the input and the creation time of the committed create that is bound to it. */
  lemma {:induction false} KeysWereCreated(s0: State, commits: seq<Commit>, u: Setup)
    requires Good(s0, u.config, u.hashes) && s0.keys == [] && AllAdmitted(commits)
    ensures AllMade(Replay(s0, commits, u.hashes), commits)
  {
    if commits != [] {
      var init, last := commits[..|commits| - 1], commits[|commits| - 1];
      KeysWereCreated(s0, init, u);
      ReplayGood(s0, init, u);
      assert commits == init + [last];
      CommitMakes(Replay(s0, init, u.hashes), init, last, u);
    }
  }

  lemma {:induction false} CommitMakes(s: State, commits: seq<Commit>, c: Commit, u: Setup)
    requires Good(s, u.config, u.hashes) && AllMade(s, commits) && Admitted(c.job)
    ensures AllMade(Perform(s, c.job, u.hashes, c.now).0, commits + [c])
  {
    var t := Perform(s, c.job, u.hashes, c.now).0;
    PerformKeeps(s, c.job, u.hashes, c.now, u.config);
    forall i | 0 <= i < |t.keys| ensures MadeBy(t.keys[i], t, commits + [c]) {
      if t.keys[i] in s.keys {
        var j :| 0 <= j < |s.keys| && s.keys[j] == t.keys[i];
        MadeLater(s.keys[j], s, t, commits, c);
      } else {
        NewKey(s, c, t.keys[i], u);
        assert Made((commits + [c])[|commits|], t.keys[i], t);
      }
    }
  }

  lemma {:induction false} NewKey(s: State, c: Commit, k: Key, u: Setup)
    requires k in Perform(s, c.job, u.hashes, c.now).0.keys && k !in s.keys
    ensures Made(c, k, Perform(s, c.job, u.hashes, c.now).0)
  {
    match c.job
    case DeleteJob(id) => RemoveKeyMembers(s.keys, id);
    case RedeemJob(r) => RedeemSparesKeys(s, r, u.hashes, c.now);
    case CreateJob(idem, input) =>
  }

  // A create under that idempotency key, with the key's input and at its creation time, was committed.
  ghost predicate CreatedUnder(idem: string, k: Key, commits: seq<Commit>) {
    exists j :: 0 <= j < |commits| && commits[j] == Commit(CreateJob(idem, k.input), k.createdAt)
  }

  /**
   Whatever key a create is answered with was made by a committed create under the same idempotency key, with the key's
   input and at its creation time: this one, or, when it is replayed, one committed before.
   */
  lemma {:induction false} AnsweredKeyWasCreated(events: seq<Event>, u: Setup, i: nat)
    requires u.config.initial >= 0 && i < |Run(Fresh(), events, u).answers|
    requires var a := Run(Fresh(), events, u).answers[i]; a.KeyAnswer? && a.result.Success()
    ensures var a := Run(Fresh(), events, u).answers[i];
      CreatedUnder(a.idem, a.result.key, Committed(Fresh(), events, u))
  {
    AnswersAreSerial(events, u);
    CommitsAdmitted(Fresh(), events, u);
    var s0 := InitialState(u.config, FirstStart(Fresh(), events, u).value);
    ServedKey(Run(Fresh(), events, u).answers[i], Services(Fresh(), 0, events, u)[i], s0,
              Committed(Fresh(), events, u), u);
  }

  lemma {:induction false} ServedKey(a: Answer, v: Service, s0: State, commits: seq<Commit>, u: Setup)
    requires ServedBy(a, v, s0, commits, u.hashes) && a.KeyAnswer? && a.result.Success()
    requires Good(s0, u.config, u.hashes) && s0.keys == [] && AllAdmitted(commits)
    ensures CreatedUnder(a.idem, a.result.key, commits)
  {
    CreateServed(a, v, s0, commits, u.hashes);
    if a.result.KeyReplayed? {
      var before := commits[..v.before];
      assert KeyGood(Replay(s0, before, u.hashes)) by { ReplayGood(s0, before, u); }
      KeysWereCreated(s0, before, u);
      ReplayedKey(Replay(s0, before, u.hashes), a.idem, a.result.key, before);
      var j :| 0 <= j < |before| && before[j] == Commit(CreateJob(a.idem, a.result.key.input), a.result.key.createdAt);
      assert commits[j] == before[j];
    } else {
      assert commits[v.before] == Commit(CreateJob(a.idem, a.result.key.input), a.result.key.createdAt);
    }
  }

  lemma {:induction false} ReplayedKey(s: State, idem: string, k: Key, commits: seq<Commit>)
    requires KeyGood(s) && AllMade(s, commits) && k in s.keys
    requires idem in s.keyRequests && s.keyRequests[idem].keyId == k.id
    ensures CreatedUnder(idem, k, commits)
  {
    var i :| 0 <= i < |s.keys| && s.keys[i] == k;
    assert MadeBy(s.keys[i], s, commits);
    var j :| 0 <= j < |commits| && Made(commits[j], k, s);
    assert commits[j] == Commit(CreateJob(idem, k.input), k.createdAt);
  }

  /** Over every schedule no inherited name is ever bound, and every answer for one is a conflict. */
  lemma {:induction false} InheritedNamesConflict(events: seq<Event>, u: Setup)
    requires u.config.initial >= 0
    ensures var m := Run(Fresh(), events, u);
      && (m.disk.Some? ==> m.disk.value.keyRequests.Keys !! INHERITED)
      && forall i :: 0 <= i < |m.answers| && m.answers[i].KeyAnswer? && m.answers[i].idem in INHERITED ==>
        m.answers[i].result == KeyConflict
  {
    RunKeepsInv(Fresh(), events, u);
    var m := Run(Fresh(), events, u);
    forall i | 0 <= i < |m.answers| && m.answers[i].KeyAnswer? && m.answers[i].idem in INHERITED
      ensures m.answers[i].result == KeyConflict
    {
      InheritedAnswer(events, u, i);
    }
  }

  lemma {:induction false} InheritedAnswer(events: seq<Event>, u: Setup, i: nat)
    requires u.config.initial >= 0 && i < |Run(Fresh(), events, u).answers|
    requires var a := Run(Fresh(), events, u).answers[i]; a.KeyAnswer? && a.idem in INHERITED
    ensures Run(Fresh(), events, u).answers[i].result == KeyConflict
  {
    RunKeepsInv(Fresh(), events, u);
    AnswersAreSerial(events, u);
    var m := Run(Fresh(), events, u);
    assert AnswerBacked(m.answers[i], m.disk, u.hashes);
    assert !m.answers[i].result.Success();
    var s0 := InitialState(u.config, FirstStart(Fresh(), events, u).value);
    assert ServedBy(m.answers[i], Services(Fresh(), 0, events, u)[i], s0, Committed(Fresh(), events, u), u.hashes);
  }

  /**
   A create that only asks to expire in 10^12 days, well formed, unbound and not inherited, is answered with a failure
   and leaves the first file as it was.
   */
  lemma {:induction false} FarExpiryFails(u: Setup, idem: string, input: KeyInput, now: nat)
    requires AdmittedKey(idem, input) && idem !in INHERITED && input.expiresInDays == Some(1_000_000_000_000)
    ensures var m := Run(Fresh(), [Boot(0, false), Arrive(CreateRequest(idem, input)), Start(now)], u);
      m.answers == [KeyAnswer(idem, input, BadExpiry)] && m.disk == Some(InitialState(u.config, 0))
  {
    var m := Step(Fresh(), Boot(0, false), u);
    var events := [Boot(0, false), Arrive(CreateRequest(idem, input)), Start(now)];
    assert events[1..] == [Arrive(CreateRequest(idem, input)), Start(now)];
    RunTwo(m, Arrive(CreateRequest(idem, input)), Start(now), u);
    ArriveOnIdle(m, CreateRequest(idem, input), u);
  }

  /******* Arrivals *******/

  // a is b with some elements left out, the rest in order.
  predicate Subsequence(a: seq<Job>, b: seq<Job>) {
    a == [] || (b != [] && ((a[0] == b[0] && Subsequence(a[1..], b[1..])) || Subsequence(a, b[1..])))
  }

  function JobsOf(commits: seq<Commit>): seq<Job> {
    if commits == [] then [] else [commits[0].job] + JobsOf(commits[1..])
  }

  // The admitted request that an event puts on the queue.
  function QueuedBy(m: Machine, e: Event): seq<Job> {
    if m.process.Up? && e.Arrive? && Admit(e.request).Some? then
      var job := Admit(e.request).value;
      if job.DeleteJob? && FindKey(m.process.mem.keys, job.id).None? then [] else [job]
    else []
  }

  function Queued(m: Machine, events: seq<Event>, u: Setup): seq<Job>
    decreases |events|
  {
    if events == [] then [] else QueuedBy(m, events[0]) + Queued(Step(m, events[0], u), events[1..], u)
  }

  // What the process has taken on and not committed.
  function Pending(p: Process): seq<Job> {
    if p.Down? then [] else (if p.phase.Writing? then [p.phase.job] else []) + p.queue
  }

  lemma {:induction false} SubsequenceAfter(a: seq<Job>, skipped: seq<Job>, b: seq<Job>)
    requires Subsequence(a, b)
    ensures Subsequence(a, skipped + b)
    decreases |skipped|
  {
    if skipped == [] {
      assert skipped + b == b;
    } else {
      SubsequenceAfter(a, skipped[1..], b);
      assert (skipped + b)[1..] == skipped[1..] + b;
    }
  }

  lemma {:induction false} SubsequenceCons(job: Job, a: seq<Job>, b: seq<Job>)
    requires Subsequence(a, b)
    ensures Subsequence([job] + a, [job] + b)
  {
    assert ([job] + a)[1..] == a && ([job] + b)[1..] == b;
  }

  // A step commits the head of what is pending, drops it, adds to its end, or loses all of it.
  predicate Advances(p: seq<Job>, q: seq<Job>, c: seq<Commit>, n: seq<Job>) {
    || (|c| <= 1 && JobsOf(c) + n == p + q)
    || (c == [] && p != [] && n == p[1..] && q == [])
    || (c == [] && n == [] && q == [])
  }

  lemma {:induction false} StepPending(m: Machine, e: Event, u: Setup)
    ensures Advances(Pending(m.process), QueuedBy(m, e), CommitOf(m, e), Pending(Step(m, e, u).process))
  {
    match e
    case Rename => RenamePending(m, u);
    case Arrive(r) => ArrivePending(m, r, u);
    case _ => OtherPending(m, e, u);
  }

  lemma {:induction false} RenamePending(m: Machine, u: Setup)
    ensures Advances(Pending(m.process), [], CommitOf(m, Rename), Pending(Step(m, Rename, u).process))
  {
    var p, c, n := Pending(m.process), CommitOf(m, Rename), Pending(Step(m, Rename, u).process);
    if c != [] {
      assert JobsOf(c) == [c[0].job] && n == m.process.queue && p + [] == p;
    } else {
      assert n == p && JobsOf(c) + n == p + [];
    }
  }

  lemma {:induction false} ArrivePending(m: Machine, r: Request, u: Setup)
    ensures Advances(Pending(m.process), QueuedBy(m, Arrive(r)), [], Pending(Step(m, Arrive(r), u).process))
  {
    var p, q, n := Pending(m.process), QueuedBy(m, Arrive(r)), Pending(Step(m, Arrive(r), u).process);
    assert n == p + q && JobsOf([]) + n == n;
  }

  lemma {:induction false} OtherPending(m: Machine, e: Event, u: Setup)
    requires !e.Rename? && !e.Arrive?
    ensures Advances(Pending(m.process), [], [], Pending(Step(m, e, u).process))
  {
    var p, n := Pending(m.process), Pending(Step(m, e, u).process);
    if n == p { assert JobsOf([]) + n == p + []; }
  }

  /**
   Jobs are committed in the order in which they arrived, each arrival at most once: from any machine, what a
   schedule commits is a subsequence of what was pending and what it queued.  From a process that is down only what
   arrives later is committed.
   */
  lemma {:induction false} CommitsFollowArrivals(m: Machine, events: seq<Event>, u: Setup)
    ensures Subsequence(JobsOf(Committed(m, events, u)), Pending(m.process) + Queued(m, events, u))
    ensures m.process.Down? ==> Subsequence(JobsOf(Committed(m, events, u)), Queued(m, events, u))
    decreases |events|
  {
    if events != [] {
      var n, c, later := Step(m, events[0], u), CommitOf(m, events[0]), Queued(Step(m, events[0], u), events[1..], u);
      CommitsFollowArrivals(n, events[1..], u);
      StepPending(m, events[0], u);
      NextCommits(Pending(m.process), QueuedBy(m, events[0]), Pending(n.process), later,
                  c, Committed(n, events[1..], u));
    }
    assert [] + Queued(m, events, u) == Queued(m, events, u);
  }

  lemma {:induction false} NextCommits(
    p: seq<Job>, q: seq<Job>, n: seq<Job>, later: seq<Job>, c: seq<Commit>, rest: seq<Commit>)
    requires Advances(p, q, c, n) && Subsequence(JobsOf(rest), n + later)
    ensures Subsequence(JobsOf(c + rest), p + (q + later))
  {
    assert p + (q + later) == p + q + later;
    if c != [] {
      assert (c + rest)[1..] == rest && c[1..] == [];
      assert JobsOf(c) == [c[0].job];
      assert p + q + later == [c[0].job] + (n + later);
      SubsequenceCons(c[0].job, JobsOf(rest), n + later);
    } else if n == p + q {
      assert c + rest == rest;
    } else if n == [] {
      assert c + rest == rest && [] + later == later && p + q == p;
      SubsequenceAfter(JobsOf(rest), p, later);
    } else {
      assert c + rest == rest && p + q + later == [p[0]] + (n + later);
      SubsequenceAfter(JobsOf(rest), [p[0]], n + later);
    }
  }

  // The admitted requests of a schedule, in order.
  function Arrivals(events: seq<Event>): seq<Job> {
    if events == [] then []
    else
      var e := events[0];
      (if e.Arrive? && Admit(e.request).Some? then [Admit(e.request).value] else []) + Arrivals(events[1..])
  }

  /** And what is queued is a subsequence of the admitted requests. */
  lemma {:induction false} QueuedFollowsArrivals(m: Machine, events: seq<Event>, u: Setup)
    ensures Subsequence(Queued(m, events, u), Arrivals(events))
    decreases |events|
  {
    if events != [] {
      var n, rest := Step(m, events[0], u), Arrivals(events[1..]);
      QueuedFollowsArrivals(n, events[1..], u);
      var later := Queued(n, events[1..], u);
      if QueuedBy(m, events[0]) != [] {
        SubsequenceCons(QueuedBy(m, events[0])[0], later, rest);
      } else {
        assert [] + later == later;
        var e := events[0];
        SubsequenceAfter(later, if e.Arrive? && Admit(e.request).Some? then [Admit(e.request).value] else [], rest);
      }
    }
  }

  lemma {:induction false} SubsequenceMember(a: seq<Job>, b: seq<Job>, job: Job)
    requires Subsequence(a, b) && job in a
    ensures job in b
    decreases |b|
  {
    if a[0] == b[0] && Subsequence(a[1..], b[1..]) {
      if job != a[0] { SubsequenceMember(a[1..], b[1..], job); }
    } else {
      SubsequenceMember(a, b[1..], job);
    }
  }

  lemma {:induction false} JobsOfMember(commits: seq<Commit>, j: nat)
    requires j < |commits|
    ensures commits[j].job in JobsOf(commits)
  {
    if j > 0 { JobsOfMember(commits[1..], j - 1); }
  }

  lemma {:induction false} ArrivalOf(events: seq<Event>, job: Job)
    requires job in Arrivals(events)
    ensures exists e :: e in events && e.Arrive? && Admit(e.request) == Some(job)
  {
    var e := events[0];
    if e.Arrive? && Admit(e.request) == Some(job) {
      assert e in events;
    } else {
      ArrivalOf(events[1..], job);
      var f :| f in events[1..] && f.Arrive? && Admit(f.request) == Some(job);
      assert f in events;
    }
  }

  /** Every committed job was asked for by a request that arrived. */
  lemma {:induction false} CommittedWasAsked(events: seq<Event>, u: Setup, j: nat)
    requires j < |Committed(Fresh(), events, u)|
    ensures exists e :: e in events && e.Arrive? && Admit(e.request) == Some(Committed(Fresh(), events, u)[j].job)
  {
    var commits := Committed(Fresh(), events, u);
    CommitsFollowArrivals(Fresh(), events, u);
    QueuedFollowsArrivals(Fresh(), events, u);
    JobsOfMember(commits, j);
    SubsequenceMember(JobsOf(commits), Queued(Fresh(), events, u), commits[j].job);
    SubsequenceMember(Queued(Fresh(), events, u), Arrivals(events), commits[j].job);
    ArrivalOf(events, commits[j].job);
  }

  // The request asked for this key.
  predicate AsksForKey(e: Event, k: Key) {
    && e.Arrive? && e.request.CreateRequest? && e.request.idem != "" && e.request.input == k.input
    && k.input.name != "" && k.input.groupId == 7
    && k.input.quota >= 0 && k.input.limit5h >= 0 && k.input.limit1d >= 0 && k.input.limit7d >= 0
  }

  /**
   After every schedule each stored key has the input of a create request that arrived, well formed as handlers
   ask.
   */
  lemma {:induction false} KeysWereRequested(events: seq<Event>, u: Setup, k: Key)
    requires u.config.initial >= 0
    requires Run(Fresh(), events, u).disk.Some? && k in Run(Fresh(), events, u).disk.value.keys
    ensures exists e :: e in events && AsksForKey(e, k)
  {
    DiskIsSerialHistory(events, u);
    CommitsAdmitted(Fresh(), events, u);
    var s0, commits := InitialState(u.config, FirstStart(Fresh(), events, u).value), Committed(Fresh(), events, u);
    KeysWereCreated(s0, commits, u);
    var s := Replay(s0, commits, u.hashes);
    var i :| 0 <= i < |s.keys| && s.keys[i] == k;
    assert MadeBy(s.keys[i], s, commits);
    var j :| 0 <= j < |commits| && Made(commits[j], k, s);
    CommittedWasAsked(events, u, j);
    var e :| e in events && e.Arrive? && Admit(e.request) == Some(commits[j].job);
    AdmitIff(e.request);
    assert AsksForKey(e, k);
  }
}
