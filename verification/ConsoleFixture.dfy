/** The console fixture as it runs: one mutable state that each write branch changes in place. */
module ConsoleFixture {
  import opened Console
  import Decimal

  class Fixture {
    const faultInjection: bool
    var keys: seq<GatewayKey>
    var workspaceKeys: seq<GatewayKey>
    var nextKeyId: nat
    var gatewayWriteResults: map<string, nat>
    var lostGatewayResponses: set<string>
    var workspaces: seq<Workspace>
    var launchWriteResults: map<string, Operation>
    var lostLaunchResponses: set<string>
    var announcements: seq<Announcement>
    var createWriteResults: map<string, string>
    var lostCreateResponses: set<string>
    var publishWriteResults: map<string, Announcement>
    var lostPublishResponses: set<string>
    var withdrawWriteResults: map<string, Announcement>
    var lostWithdrawResponses: set<string>

    constructor (faultInjection: bool, seedDemoData: bool)
      ensures Now() == Initial(faultInjection, seedDemoData)
    {
      this.faultInjection := faultInjection;
      keys := if seedDemoData then [GENERAL_11] else [];
      workspaceKeys, nextKeyId := [WORKSPACE_9, WORKSPACE_19], 12;
      gatewayWriteResults, lostGatewayResponses := map[], {};
      workspaces := [WORKSPACE_1, WORKSPACE_2];
      launchWriteResults, lostLaunchResponses := map[], {};
      announcements := if seedDemoData then [DEMO_ANNOUNCEMENT] else [];
      createWriteResults, lostCreateResponses := map[], {};
      publishWriteResults, lostPublishResponses := map[], {};
      withdrawWriteResults, lostWithdrawResponses := map[], {};
    }

    function GatewayNow(): Gateway
      reads this
    {
      Gateway(keys, workspaceKeys, nextKeyId, gatewayWriteResults, lostGatewayResponses)
    }

    function DeskNow(): Desk
      reads this
    {
      Desk(workspaces, launchWriteResults, lostLaunchResponses)
    }

    function BoardNow(): Board
      reads this
    {
      Board(announcements, createWriteResults, lostCreateResponses, publishWriteResults, lostPublishResponses,
            withdrawWriteResults, lostWithdrawResponses)
    }

    function Now(): State
      reads this
    {
      State(faultInjection, GatewayNow(), DeskNow(), BoardNow())
    }

    /** Skips every id in use, so the id is the first free one, and moves the counter past it. */
    method AllocateGatewayKeyId() returns (number: nat)
      modifies this`nextKeyId
      ensures number == NextFree(old(Taken(GatewayNow())), old(nextKeyId)) && nextKeyId == number + 1
    {
      ghost var taken := Taken(GatewayNow());
      ghost var left := taken;
      var ids := Ids(keys + workspaceKeys);
      while Decimal.NatText(nextKeyId) in ids
        invariant nextKeyId >= old(nextKeyId)
        invariant forall k :: old(nextKeyId) <= k < nextKeyId ==> k in taken
        invariant forall k :: k >= nextKeyId ==> (k in left <==> k in taken)
        invariant left <= taken
        decreases |left|
      {
        IdIffNumber(keys + workspaceKeys, nextKeyId);
        left := left - {nextKeyId};
        nextKeyId := nextKeyId + 1;
      }
      IdIffNumber(keys + workspaceKeys, nextKeyId);
      NextFreeUnique(taken, old(nextKeyId), nextKeyId);
      number := nextKeyId;
      nextKeyId := nextKeyId + 1;
    }

    // The part of the launch branch that runs once per write identity.
    method OpenWorkspace(account: string, writeIdentity: string, name: string, packageId: string)
      requires writeIdentity !in launchWriteResults
      modifies this`nextKeyId, this`workspaceKeys, this`workspaces, this`launchWriteResults
      ensures var number := NextFree(old(Taken(GatewayNow())), old(nextKeyId));
        DeskNow() == Opened(old(DeskNow()), account, writeIdentity, name, packageId, number)
        && GatewayNow() == WithWorkspaceKey(old(GatewayNow()), GatewayKey(number, account, "Workspace Key"))
    {
      var workspaceId := DemoId(|workspaces| + 1);
      var plan := if packageId == "pro" then "pro" else "basic";
      var keyNumber := AllocateGatewayKeyId();
      workspaceKeys := workspaceKeys + [GatewayKey(keyNumber, account, "Workspace Key")];
      workspaces := workspaces + [Workspace(workspaceId, account, name, plan, Decimal.NatText(keyNumber))];
      var operation := Operation("launch-" + workspaceId, account, workspaceId, name, plan);
      launchWriteResults := launchWriteResults[writeIdentity := operation];
    }

    method PostLaunch(
      account: string, idempotencyKey: string, name: string, packageId: string) returns (response: Response)
      modifies this
      ensures (Now(), response) == HandleLaunch(old(Now()), account, idempotencyKey, name, packageId)
    {
      if idempotencyKey == "" { return Rejected("idempotency_key_required"); }
      var writeIdentity := Identity(account, idempotencyKey);
      if writeIdentity !in launchWriteResults {
        OpenWorkspace(account, writeIdentity, name, packageId);
      }
      if faultInjection && writeIdentity !in lostLaunchResponses {
        lostLaunchResponses := lostLaunchResponses + {writeIdentity};
        return Lost;
      }
      return Launched(launchWriteResults[writeIdentity]);
    }

    method IndexOfKey(id: string, owner: string) returns (index: nat)
      ensures index == FindKey(keys, id, owner)
    {
      index := 0;
      while index < |keys| && !(keys[index].Id() == id && keys[index].owner == owner)
        invariant index <= |keys|
        invariant forall j :: 0 <= j < index ==> !(keys[j].Id() == id && keys[j].owner == owner)
      {
        index := index + 1;
      }
    }

    method IndexOfAnnouncement(id: string) returns (index: nat)
      ensures index == FindAnnouncement(announcements, id)
    {
      index := 0;
      while index < |announcements| && announcements[index].id != id
        invariant index <= |announcements|
        invariant forall j :: 0 <= j < index ==> announcements[j].id != id
      {
        index := index + 1;
      }
    }

    // The part of the key branch that runs when no live key is recorded.
    method IssueKey(account: string, writeIdentity: string, name: string)
      modifies this`nextKeyId, this`keys, this`gatewayWriteResults
      ensures GatewayNow() == WithKey(old(GatewayNow()), writeIdentity,
        GatewayKey(NextFree(old(Taken(GatewayNow())), old(nextKeyId)), account, name))
    {
      var keyNumber := AllocateGatewayKeyId();
      keys := keys + [GatewayKey(keyNumber, account, name)];
      gatewayWriteResults := gatewayWriteResults[writeIdentity := keyNumber];
    }

    method PostKey(account: string, operation: string, name: string) returns (response: Response)
      modifies this
      ensures (Now(), response) == OnGateway(old(Now()),
        HandleCreateKey(old(GatewayNow()), faultInjection, account, operation, name))
    {
      if operation == "" { return Rejected("idempotency_key_required"); }
      var writeIdentity := Identity(account, operation);
      var index := |keys|;
      if writeIdentity in gatewayWriteResults {
        index := IndexOfKey(Decimal.NatText(gatewayWriteResults[writeIdentity]), account);
      }
      if index == |keys| {
        IssueKey(account, writeIdentity, name);
      }
      if faultInjection && operation !in lostGatewayResponses {
        lostGatewayResponses := lostGatewayResponses + {operation};
        return Lost;
      }
      return KeyAnswer(keys[index]);
    }

    method DeleteKey(account: string, operation: string, id: string) returns (response: Response)
      modifies this
      ensures (Now(), response) == OnGateway(old(Now()), HandleDeleteKey(old(GatewayNow()), account, operation, id))
    {
      if operation == "" { return Rejected("idempotency_key_required"); }
      var index := IndexOfKey(id, account);
      if index == |keys| { return Rejected("gateway_key_not_found"); }
      keys := keys[..index] + keys[index + 1..];
      return Deleted;
    }

    method PostAnnouncement(
      account: string, idempotencyKey: string, title: string, body: string, startsAt: string, endsAt: string)
      returns (response: Response)
      modifies this
      ensures (Now(), response) == OnBoard(old(Now()),
        HandleAnnounce(old(BoardNow()), faultInjection, account, idempotencyKey, title, body, startsAt, endsAt))
    {
      if idempotencyKey == "" { return Rejected("idempotency_key_required"); }
      var writeIdentity := Identity(account, idempotencyKey);
      var index := |announcements|;
      if writeIdentity in createWriteResults {
        index := IndexOfAnnouncement(createWriteResults[writeIdentity]);
      }
      if index == |announcements| {
        var id := AnnouncementId(|announcements| + 1);
        var announcement := Announcement(id, title, body, "draft", startsAt, endsAt, "");
        announcements := announcements + [announcement];
        createWriteResults := createWriteResults[writeIdentity := announcement.id];
      }
      if faultInjection && writeIdentity !in lostCreateResponses {
        lostCreateResponses := lostCreateResponses + {writeIdentity};
        return Lost;
      }
      return Posted(announcements[index]);
    }

    method Publish(
      account: string, idempotencyKey: string, id: string, startsAt: string, endsAt: string)
      returns (response: Response)
      modifies this
      ensures (Now(), response) == OnBoard(old(Now()),
        HandlePublish(old(BoardNow()), faultInjection, account, idempotencyKey, id, startsAt, endsAt))
    {
      if idempotencyKey == "" { return Rejected("idempotency_key_required"); }
      var index := IndexOfAnnouncement(id);
      if index == |announcements| { return Rejected("announcement_not_found"); }
      var writeIdentity := Identity(account, idempotencyKey);
      if writeIdentity !in publishWriteResults {
        var announcement := PublishedForm(announcements[index], startsAt, endsAt);
        announcements := announcements[index := announcement];
        publishWriteResults := publishWriteResults[writeIdentity := announcement];
      }
      if faultInjection && writeIdentity !in lostPublishResponses {
        lostPublishResponses := lostPublishResponses + {writeIdentity};
        return Lost;
      }
      return Posted(publishWriteResults[writeIdentity]);
    }

    method Withdraw(account: string, idempotencyKey: string, id: string) returns (response: Response)
      modifies this
      ensures (Now(), response) == OnBoard(old(Now()),
        HandleWithdraw(old(BoardNow()), faultInjection, account, idempotencyKey, id))
    {
      if idempotencyKey == "" { return Rejected("idempotency_key_required"); }
      var index := IndexOfAnnouncement(id);
      if index == |announcements| { return Rejected("announcement_not_found"); }
      var writeIdentity := Identity(account, idempotencyKey);
      if writeIdentity !in withdrawWriteResults {
        var announcement := announcements[index].(status := "withdrawn");
        announcements := announcements[index := announcement];
        withdrawWriteResults := withdrawWriteResults[writeIdentity := announcement];
      }
      if faultInjection && writeIdentity !in lostWithdrawResponses {
        lostWithdrawResponses := lostWithdrawResponses + {writeIdentity};
        return Lost;
      }
      return Posted(withdrawWriteResults[writeIdentity]);
    }

    method Serve(r: Request) returns (response: Response)
      modifies this
      ensures (Now(), response) == Handle(old(Now()), r)
    {
      match r
      case Launch(account, key, name, packageId) => response := PostLaunch(account, key, name, packageId);
      case CreateKey(account, key, name) => response := PostKey(account, key, name);
      case DeleteKey(account, key, id) => response := DeleteKey(account, key, id);
      case Announce(account, key, title, body, startsAt, endsAt) =>
        response := PostAnnouncement(account, key, title, body, startsAt, endsAt);
      case Publish(account, key, id, startsAt, endsAt) => response := Publish(account, key, id, startsAt, endsAt);
      case Withdraw(account, key, id) => response := Withdraw(account, key, id);
    }
  }

  lemma {:induction false} IdIffNumber(keys: seq<GatewayKey>, n: nat)
    ensures Decimal.NatText(n) in Ids(keys) <==> n in Numbers(keys)
  {
    if Decimal.NatText(n) in Ids(keys) {
      var k :| k in keys && k.Id() == Decimal.NatText(n);
      Decimal.NatTextInjective(k.number, n);
    }
    if n in Numbers(keys) {
      var k :| k in keys && k.number == n;
      assert k.Id() == Decimal.NatText(n);
    }
  }

  /** A whole session: the state and the responses are those of the run. */
  method ServeAll(
    faultInjection: bool, seedDemoData: bool, requests: seq<Request>)
    returns (responses: seq<Response>, workspaceCount: nat)
    ensures |responses| == |requests|
    ensures forall i :: 0 <= i < |requests| ==>
      responses[i] == ResponseAt(Initial(faultInjection, seedDemoData), requests, i)
    ensures workspaceCount == 2 + |Identities(requests)|
  {
    var fixture := new Fixture(faultInjection, seedDemoData);
    ghost var start := fixture.Now();
    responses := [];
    for i := 0 to |requests|
      invariant fresh(fixture) && fixture.Now() == Run(start, requests[..i])
      invariant responses == Responses(start, requests, i)
    {
      RunExtends(start, requests, i);
      var response := ServeOne(fixture, requests[i]);
      responses := responses + [response];
    }
    assert requests[..|requests|] == requests;
    forall i | 0 <= i < |requests| ensures responses[i] == ResponseAt(start, requests, i) {
      ResponsesAt(start, requests, |requests|, i);
    }
    OneWorkspacePerWrite(faultInjection, seedDemoData, requests);
    workspaceCount := |fixture.workspaces|;
  }

  // Serving one request, told apart into the state after it and the answer.
  method ServeOne(fixture: Fixture, r: Request) returns (response: Response)
    modifies fixture
    ensures fixture.Now() == After(old(fixture.Now()), r) && response == Handle(old(fixture.Now()), r).1
  {
    response := fixture.Serve(r);
  }

  // The first n responses of a run.
  function Responses(s: State, requests: seq<Request>, n: nat): (r: seq<Response>)
    requires n <= |requests|
    ensures |r| == n
  {
    if n == 0 then [] else Responses(s, requests, n - 1) + [ResponseAt(s, requests, n - 1)]
  }

  lemma {:induction false} ResponsesAt(s: State, requests: seq<Request>, n: nat, i: nat)
    requires i < n <= |requests|
    ensures Responses(s, requests, n)[i] == ResponseAt(s, requests, i)
  {
    if i < n - 1 { ResponsesAt(s, requests, n - 1, i); }
  }

  lemma {:induction false} RunExtends(s: State, requests: seq<Request>, i: nat)
    requires i < |requests|
    ensures Run(s, requests[..i + 1]) == After(Run(s, requests[..i]), requests[i])
    ensures ResponseAt(s, requests, i) == Handle(Run(s, requests[..i]), requests[i]).1
    decreases i
  {
    if i == 0 {
      assert requests[..1] == [requests[0]] && requests[..0] == [];
      assert Run(After(s, requests[0]), []) == After(s, requests[0]);
    } else {
      RunExtends(After(s, requests[0]), requests[1..], i - 1);
      assert requests[..i + 1][1..] == requests[1..][..i] && requests[..i][1..] == requests[1..][..i - 1];
    }
  }
}
