/** The launch results per account and idempotency key, which the fixture joins with a colon. */
module ConsoleAccounts {
  import opened Console

  ghost predicate Colonless(requests: seq<Request>) {
    forall i :: 0 <= i < |requests| ==> ':' !in requests[i].account
  }

  function PairOf(r: Request): set<(string, string)> { if r.Launch? && r.key != "" then {(r.account, r.key)} else {} }

  // The accounts and idempotency keys a run launches under.
  function Pairs(requests: seq<Request>): set<(string, string)> {
    if requests == [] then {} else PairOf(requests[0]) + Pairs(requests[1..])
  }

  lemma {:induction false} SameMembers(requests: seq<Request>, account: string, key: string)
    requires Colonless(requests) && ':' !in account
    ensures (account, key) in Pairs(requests) <==> Identity(account, key) in Identities(requests)
  {
    if requests != [] {
      var r := requests[0];
      SameMembers(requests[1..], account, key);
      if Identity(account, key) == Identity(r.account, r.key) { IdentityInjective(account, key, r.account, r.key); }
    }
  }

  lemma {:induction false} SameCount(requests: seq<Request>)
    requires Colonless(requests)
    ensures |Pairs(requests)| == |Identities(requests)|
  {
    if requests != [] {
      var r := requests[0];
      SameCount(requests[1..]);
      SameMembers(requests[1..], r.account, r.key);
    }
  }

  /** Workspaces are the two initial ones and exactly one for each account and idempotency key launched under. */
  lemma {:induction false} OneWorkspacePerAccountAndKey(
    faultInjection: bool, seedDemoData: bool, requests: seq<Request>)
    requires Colonless(requests)
    ensures |Run(Initial(faultInjection, seedDemoData), requests).desk.workspaces| == 2 + |Pairs(requests)|
  {
    OneWorkspacePerWrite(faultInjection, seedDemoData, requests);
    SameCount(requests);
  }

  // The operation stored under a write identity is its account's.
  predicate Owned(w: string, o: Operation) {
    ':' !in o.account && |w| > |o.account| && w == Identity(o.account, w[|o.account| + 1..])
  }

  ghost predicate AllOwned(d: Desk) { forall w :: w in d.results ==> Owned(w, d.results[w]) }

  lemma {:induction false} IdentityOwned(account: string, key: string, o: Operation)
    requires ':' !in account && o.account == account
    ensures Owned(Identity(account, key), o)
  {
    assert Identity(account, key)[|account| + 1..] == key;
  }

  lemma {:induction false} OwnedStep(s: State, r: Request)
    requires AllOwned(s.desk) && ':' !in r.account
    ensures AllOwned(After(s, r).desk)
  {
    if r.Launch? && r.key != "" {
      var w, d := Identity(r.account, r.key), After(s, r).desk;
      if w !in s.desk.results { IdentityOwned(r.account, r.key, d.results[w]); }
    }
  }

  lemma {:induction false} OwnedRun(s: State, requests: seq<Request>)
    requires AllOwned(s.desk) && Colonless(requests)
    ensures AllOwned(Run(s, requests).desk)
    decreases |requests|
  {
    if requests != [] {
      OwnedStep(s, requests[0]);
      OwnedRun(After(s, requests[0]), requests[1..]);
    }
  }

  /** Every answered launch gives the requesting account an operation of its own, on a workspace of its own. */
  lemma {:induction false} AnsweredLaunchIsOwn(faultInjection: bool, seedDemoData: bool, requests: seq<Request>, i: nat)
    requires Colonless(requests) && i < |requests| && requests[i].Launch? && requests[i].key != ""
    ensures var s := Initial(faultInjection, seedDemoData);
      var response := ResponseAt(s, requests, i);
      response == Lost
      || (response.Launched? && response.operation.account == requests[i].account
          && PointsAt(Run(s, requests).desk, response.operation))
  {
    var s := Initial(faultInjection, seedDemoData);
    var account, key, d := requests[i].account, requests[i].key, Run(s, requests).desk;
    AnsweredRetriesAgree(s, requests, i);
    OwnedRun(s, requests);
    WorkspacesRun(s, requests);
    var w := Identity(account, key);
    var o := d.results[w];
    assert Owned(w, o) && PointsAt(d, o);
    IdentityInjective(o.account, w[|o.account| + 1..], account, key);
  }
}
