/** The authority's mutable side: the cloned candidate each callback changes in place, and `mutate` around it. */
module AuthorityServer {
  import opened Wrappers
  import opened Authority
  import opened AuthorityMachine

  // structuredClone(state): a callback changes its fields, the server's own state stays as it was.
  class Candidate {
    var email: string
    var initial: int
    var wallet: int
    var updatedAt: nat
    var keys: seq<Key>
    var keyRequests: map<string, KeyRequest>
    var adjustments: seq<Adjustment>
    var counts: Counts
    var nextKeyId: int

    function Snapshot(): State
      reads this
    {
      State(email, initial, wallet, updatedAt, keys, keyRequests, adjustments, counts, nextKeyId)
    }

    constructor (s: State)
      ensures Snapshot() == s
    {
      email, initial, wallet, updatedAt := s.email, s.initial, s.wallet, s.updatedAt;
      keys, keyRequests, adjustments := s.keys, s.keyRequests, s.adjustments;
      counts, nextKeyId := s.counts, s.nextKeyId;
    }

    // When the expiry has no text the callback throws half way through; its candidate is then thrown away.
    method CreateKey(idem: string, input: KeyInput, h: Hashes, now: nat) returns (out: KeyOutcome)
      modifies this
      ensures out == KeyApply(old(Snapshot()), idem, input, h, now).1
      ensures out != BadExpiry ==> Snapshot() == KeyApply(old(Snapshot()), idem, input, h, now).0
      ensures out == BadExpiry ==> Snapshot() == old(Snapshot()).(nextKeyId := old(nextKeyId) + 1)
    {
      if idem in keyRequests {
        var prior := keyRequests[idem];
        var replayed := FindKey(keys, prior.keyId);
        if prior.requestHash == h.key(input) && replayed.Some? {
          return KeyReplayed(replayed.value);
        }
        return KeyConflict;
      }
      if idem in INHERITED { return KeyConflict; }
      nextKeyId := nextKeyId + 1;
      if !Dated(input, now) { return BadExpiry; }
      var created := Key(nextKeyId, input, now);
      keys := keys + [created];
      keyRequests := keyRequests[idem := KeyRequest(h.key(input), created.id)];
      counts := counts.(keyCreates := counts.keyCreates + 1);
      return KeyCreated(created);
    }

    // current.keys.filter(...)
    method DeleteKey(id: int)
      modifies this
      ensures Snapshot() == DeleteApply(old(Snapshot()), id)
    {
      keys := Filtered(keys, id);
      counts := counts.(keyDeletes := counts.keyDeletes + 1);
    }

    method Redeem(r: Redeem, h: Hashes, now: nat) returns (out: RedeemOutcome)
      modifies this
      ensures (Snapshot(), out) == RedeemApply(old(Snapshot()), r, h, now)
    {
      var prior := FindAdjustment(adjustments, r.code);
      if prior.Some? {
        return if prior.value.requestHash == h.redeem(r) then Replayed(prior.value) else PayloadConflict;
      }
      var debit := IsDebit(r.value);
      if HasKind(adjustments, debit) {
        return IdentityConflict(if debit then "debit_identity_conflict" else "refund_identity_conflict");
      }
      if wallet + r.value < 0 { return InsufficientBalance; }
      var created := Adjustment(r.code, r.value, r.notes, now, h.redeem(r));
      wallet := wallet + r.value;
      updatedAt := now;
      adjustments := adjustments + [created];
      if debit {
        counts := counts.(debits := counts.debits + 1);
      } else {
        counts := counts.(refunds := counts.refunds + 1);
      }
      return Created(created);
    }
  }

  // keys.filter((candidate) => candidate.id !== id)
  method Filtered(keys: seq<Key>, id: int) returns (kept: seq<Key>)
    ensures kept == RemoveKey(keys, id)
  {
    kept := [];
    for i := 0 to |keys|
      invariant kept + RemoveKey(keys[i..], id) == RemoveKey(keys, id)
    {
      RemoveFirst(keys, i, id);
      if keys[i].id != id { kept := kept + [keys[i]]; }
    }
  }

  lemma {:induction false} RemoveFirst(keys: seq<Key>, i: nat, id: int)
    requires i < |keys|
    ensures RemoveKey(keys[i..], id) == (if keys[i].id == id then [] else [keys[i]]) + RemoveKey(keys[i + 1..], id)
  {
    assert keys[i..][1..] == keys[i + 1..];
  }

  class Server {
    var state: State
    var disk: Option<State>

    constructor (s: State)
      ensures state == s && disk == Some(s)
    {
      state, disk := s, Some(s);
    }

    // This server between two mutations, with jobs waiting, as a state of the machine.
    ghost function Waiting(queue: seq<Job>): Machine
      reads this
    {
      Machine(disk, Up(state, queue, Idle), [], false)
    }

    ghost predicate Sound(u: Setup)
      reads this
    {
      disk == Some(state) && Good(state, u.config, u.hashes)
    }

    // persistState then swap: a failed write leaves both copies alone, a finished one moves both.
    method Commit(candidate: Candidate, writeFails: bool) returns (ok: bool)
      modifies this
      ensures ok == !writeFails
      ensures state == (if ok then candidate.Snapshot() else old(state))
      ensures disk == (if ok then Some(state) else old(disk))
    {
      if writeFails { return false; }
      var saved := candidate.Snapshot();
      disk := Some(saved);
      state := saved;
      return true;
    }

    /**
     One redeem at the head of the queue is exactly the machine's start, rename and swap, or its start and failed
     write; the server stays sound and loses nothing either way.
     */
    method MutateRedeem(
      r: Redeem, now: nat, writeFails: bool, u: Setup, ghost queue: seq<Job>) returns (answer: Option<RedeemOutcome>)
      requires Sound(u) && AdmittedRedeem(r)
      modifies this
      ensures answer.None? <==> writeFails
      ensures Run(old(Waiting([RedeemJob(r)] + queue)), Mutation(now, writeFails), u)
        == Waiting(queue).(answers := if answer.Some? then [RedeemAnswer(r, answer.value)] else [])
      ensures Sound(u) && Later(old(state), state)
    {
      HeadJob(Waiting([RedeemJob(r)] + queue), RedeemJob(r), queue, now, writeFails, u);
      var candidate := new Candidate(state);
      var outcome := candidate.Redeem(r, u.hashes, now);
      assert Good(candidate.Snapshot(), u.config, u.hashes) && Later(state, candidate.Snapshot()) by {
        RedeemKeeps(state, r, u.hashes, now, u.config);
      }
      LaterReflexive(state);
      var ok := Commit(candidate, writeFails);
      return if ok then Some(outcome) else None;
    }

    /** The same for key creation, where a callback that throws is answered at once and changes neither copy. */
    method MutateCreateKey(idem: string, input: KeyInput, now: nat, writeFails: bool, u: Setup, ghost queue: seq<Job>)
      returns (answer: Option<KeyOutcome>)
      requires Sound(u) && AdmittedKey(idem, input)
      modifies this
      ensures answer.None? <==> writeFails && KeyApply(old(state), idem, input, u.hashes, now).1 != BadExpiry
      ensures answer == Some(BadExpiry) ==> state == old(state) && disk == old(disk)
      ensures Run(old(Waiting([CreateJob(idem, input)] + queue)), Mutation(now, writeFails), u)
        == Waiting(queue).(answers := if answer.Some? then [KeyAnswer(idem, input, answer.value)] else [])
      ensures Sound(u) && Later(old(state), state)
    {
      HeadJob(Waiting([CreateJob(idem, input)] + queue), CreateJob(idem, input), queue, now, writeFails, u);
      var candidate := new Candidate(state);
      var outcome := candidate.CreateKey(idem, input, u.hashes, now);
      LaterReflexive(state);
      if outcome.BadExpiry? { return Some(outcome); }
      assert Good(candidate.Snapshot(), u.config, u.hashes) && Later(state, candidate.Snapshot()) by {
        KeyKeeps(state, idem, input, u.hashes, now, u.config);
      }
      var ok := Commit(candidate, writeFails);
      return if ok then Some(outcome) else None;
    }

    /**
     DELETE from arrival to answer, with nothing else queued: a missing key is a success without a mutation, a
     present one is removed and counted once, and the whole is the machine's run of the request.
     */
    method HandleDelete(id: int, now: nat, writeFails: bool, u: Setup) returns (ok: bool)
      requires Sound(u)
      modifies this
      ensures ok <==> !(HasId(old(state).keys, id) && writeFails)
      ensures Run(old(Waiting([])), [Arrive(DeleteRequest(id))] + Mutation(now, writeFails), u)
        == Waiting([]).(answers := if ok then [DeleteAnswer(id)] else [])
      ensures ok ==> !HasId(state.keys, id)
      ensures Sound(u) && Later(old(state), state)
    {
      FindKeyIff(state.keys, id);
      LaterReflexive(state);
      WholeDelete(Waiting([]), id, now, writeFails, u);
      if FindKey(state.keys, id).None? { return true; }
      var candidate := new Candidate(state);
      candidate.DeleteKey(id);
      DeleteKeeps(state, id, u.config, u.hashes);
      ok := Commit(candidate, writeFails);
    }
  }

  // The machine events of one mutation.
  function Mutation(now: nat, writeFails: bool): seq<Event> {
    if writeFails then [Start(now), WriteFails] else [Start(now), Rename, Swap]
  }

  lemma {:induction false} HeadJob(m: Machine, job: Job, queue: seq<Job>, now: nat, writeFails: bool, u: Setup)
    requires m.process.Up? && m.process.phase.Idle? && m.process.queue == [job] + queue
    ensures var (t, a) := Perform(m.process.mem, job, u.hashes, now);
      Run(m, Mutation(now, writeFails), u)
        == if Throws(a) then m.(process := Up(m.process.mem, queue, Idle), answers := m.answers + [a])
           else if writeFails then m.(process := Up(m.process.mem, queue, Idle))
           else Machine(Some(t), Up(t, queue, Idle), m.answers + [a], m.refused)
  {
    assert m.process.queue[1..] == queue;
    if writeFails { FailedJob(m, u, now); } else { QueuedJob(m, u, now); }
  }

  // A DELETE with nothing else queued: answered at once, or queued and run.
  lemma {:induction false} WholeDelete(m: Machine, id: int, now: nat, writeFails: bool, u: Setup)
    requires m.process.Up? && m.process.phase.Idle? && m.process.queue == [] && m.answers == []
    ensures var s, n := m.process.mem, Run(m, [Arrive(DeleteRequest(id))] + Mutation(now, writeFails), u);
      if FindKey(s.keys, id).None? then n == m.(answers := [DeleteAnswer(id)])
      else if writeFails then n == m
      else n == Machine(Some(DeleteApply(s, id)), Up(DeleteApply(s, id), [], Idle), [DeleteAnswer(id)], m.refused)
  {
    var next := Step(m, Arrive(DeleteRequest(id)), u);
    RunCons(m, Arrive(DeleteRequest(id)), Mutation(now, writeFails), u);
    if FindKey(m.process.mem.keys, id).None? {
      NothingQueued(next, now, writeFails, u);
    } else {
      assert next.process.queue == [DeleteJob(id)] + [];
      HeadJob(next, DeleteJob(id), [], now, writeFails, u);
    }
  }

  lemma {:induction false} NothingQueued(m: Machine, now: nat, writeFails: bool, u: Setup)
    requires m.process.Up? && m.process.phase.Idle? && m.process.queue == []
    ensures Run(m, Mutation(now, writeFails), u) == m
  {
    if writeFails {
      RunTwo(m, Start(now), WriteFails, u);
    } else {
      RunCons(m, Start(now), [Rename, Swap], u);
      assert [Start(now)] + [Rename, Swap] == [Start(now), Rename, Swap];
      RunTwo(m, Rename, Swap, u);
    }
  }
}
