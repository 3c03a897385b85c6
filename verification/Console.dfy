/**
 The write tables of the console fixture: idempotent launches, keys and announcements whose first responses
 may be lost.  A key's id is the decimal text of its number.
 */
module Console {
  import Decimal

  datatype GatewayKey = GatewayKey(number: nat, owner: string, name: string) {
    function Id(): string { Decimal.NatText(number) }
  }
  datatype Workspace = Workspace(id: string, owner: string, name: string, packageId: string, apiKeyId: string)
  datatype Operation = Operation(operationId: string, account: string, workspaceId: string, name: string,
    packageId: string)
  datatype Announcement = Announcement(id: string, title: string, body: string, status: string, startsAt: string,
    endsAt: string, publishedAt: string)

  datatype Gateway = Gateway(
    keys: seq<GatewayKey>, workspaceKeys: seq<GatewayKey>, nextKeyId: nat, results: map<string, nat>, lost: set<string>)
  datatype Desk = Desk(workspaces: seq<Workspace>, results: map<string, Operation>, lost: set<string>)
  datatype Board = Board(
    announcements: seq<Announcement>, created: map<string, string>, lostCreates: set<string>,
    published: map<string, Announcement>, lostPublishes: set<string>,
    withdrawn: map<string, Announcement>, lostWithdraws: set<string>)
  datatype State = State(faultInjection: bool, gateway: Gateway, desk: Desk, board: Board)

  datatype Request =
    | Launch(account: string, key: string, name: string, packageId: string)
    | CreateKey(account: string, key: string, name: string)
    | DeleteKey(account: string, key: string, id: string)
    | Announce(account: string, key: string, title: string, body: string, startsAt: string, endsAt: string)
    | Publish(account: string, key: string, id: string, startsAt: string, endsAt: string)
    | Withdraw(account: string, key: string, id: string)

  datatype Response =
    | Lost
    | Rejected(error: string)
    | Launched(operation: Operation)
    | KeyAnswer(issued: GatewayKey)
    | Deleted
    | Posted(announcement: Announcement)

  const NOW := "2026-07-19T12:00:00Z"

  function Identity(account: string, key: string): string { account + ":" + key }

  lemma {:induction false} IdentityInjective(a: string, k: string, b: string, l: string)
    requires ':' !in a && ':' !in b && Identity(a, k) == Identity(b, l)
    ensures a == b && k == l
  {
    FirstColon(a, k);
    FirstColon(b, l);
    var w := Identity(a, k);
    assert a == w[..|a|] && b == w[..|b|] && k == w[|a| + 1..] && l == w[|b| + 1..];
  }

  lemma {:induction false} FirstColon(a: string, k: string)
    requires ':' !in a
    ensures |Identity(a, k)| > |a| && Identity(a, k)[|a|] == ':'
    ensures forall i :: 0 <= i < |a| ==> Identity(a, k)[i] != ':'
  {
    forall i | 0 <= i < |a| ensures Identity(a, k)[i] != ':' {
      assert Identity(a, k)[i] == a[i];
    }
  }

  /******* Key ids *******/

  function Numbers(keys: seq<GatewayKey>): set<nat> { set k | k in keys :: k.number }
  function Ids(keys: seq<GatewayKey>): set<string> { set k | k in keys :: k.Id() }

  function Taken(g: Gateway): set<nat> { Numbers(g.keys + g.workspaceKeys) }

  // The first number from n on that is not taken.
  function NextFree(taken: set<nat>, n: nat): (m: nat)
    ensures m >= n && m !in taken
    ensures forall k :: n <= k < m ==> k in taken
    decreases |taken|
  {
    if n in taken then
      var m := NextFree(taken - {n}, n + 1);
      RangeTaken(taken, n, m);
      m
    else n
  }

  lemma {:induction false} RangeTaken(taken: set<nat>, n: nat, m: nat)
    requires n in taken && m > n && m !in taken - {n} && forall k :: n + 1 <= k < m ==> k in taken - {n}
    ensures m !in taken && forall k :: n <= k < m ==> k in taken
  {
    forall k | n <= k < m ensures k in taken {
      if k > n { assert k in taken - {n}; }
    }
  }

  lemma {:induction false} NextFreeUnique(taken: set<nat>, n: nat, m: nat)
    requires n <= m && m !in taken && forall k :: n <= k < m ==> k in taken
    ensures m == NextFree(taken, n)
  {
    var f := NextFree(taken, n);
    assert m < f ==> m in taken;
    assert f < m ==> f in taken;
  }

  function FindKey(keys: seq<GatewayKey>, id: string, owner: string): (i: nat)
    ensures i <= |keys|
    ensures i < |keys| ==> keys[i].Id() == id && keys[i].owner == owner
    ensures forall j :: 0 <= j < i ==> !(keys[j].Id() == id && keys[j].owner == owner)
  {
    if keys == [] || (keys[0].Id() == id && keys[0].owner == owner) then 0 else 1 + FindKey(keys[1..], id, owner)
  }

  function FindAnnouncement(items: seq<Announcement>, id: string): (i: nat)
    ensures i <= |items|
    ensures i < |items| ==> items[i].id == id
    ensures forall j :: 0 <= j < i ==> items[j].id != id
  {
    if items == [] || items[0].id == id then 0 else 1 + FindAnnouncement(items[1..], id)
  }

  /******* The requests *******/

  function DemoId(n: nat): string { "ws-demo-" + Decimal.NatText(n) }
  function AnnouncementId(n: nat): string { "announcement-" + Decimal.NatText(n) }

  // A launch under identity w, with the number its workspace key gets if the launch is new.
  function Opened(d: Desk, account: string, w: string, name: string, packageId: string, number: nat): Desk {
    if w in d.results then d
    else
      var workspaceId := DemoId(|d.workspaces| + 1);
      var plan := if packageId == "pro" then "pro" else "basic";
      d.(workspaces := d.workspaces + [Workspace(workspaceId, account, name, plan, Decimal.NatText(number))],
         results := d.results[w := Operation("launch-" + workspaceId, account, workspaceId, name, plan)])
  }

  function HandleLaunch(s: State, account: string, key: string, name: string, packageId: string): (State, Response) {
    if key == "" then (s, Rejected("idempotency_key_required"))
    else
      var w := Identity(account, key);
      var number := NextFree(Taken(s.gateway), s.gateway.nextKeyId);
      var d := Opened(s.desk, account, w, name, packageId, number);
      var g := if w in s.desk.results then s.gateway
        else WithWorkspaceKey(s.gateway, GatewayKey(number, account, "Workspace Key"));
      if s.faultInjection && w !in d.lost then (s.(desk := d.(lost := d.lost + {w}), gateway := g), Lost)
      else (s.(desk := d, gateway := g), Launched(d.results[w]))
  }

  function WithWorkspaceKey(g: Gateway, k: GatewayKey): Gateway {
    g.(workspaceKeys := g.workspaceKeys + [k], nextKeyId := k.number + 1)
  }

  // Where the key recorded for w still is, or the number of keys.
  function LiveKey(g: Gateway, w: string, account: string): (i: nat)
    ensures i <= |g.keys|
  {
    if w in g.results then FindKey(g.keys, Decimal.NatText(g.results[w]), account) else |g.keys|
  }

  function WithKey(g: Gateway, w: string, k: GatewayKey): Gateway {
    g.(keys := g.keys + [k], nextKeyId := k.number + 1, results := g.results[w := k.number])
  }

  // The response is remembered as lost under the bare idempotency key.
  function HandleCreateKey(g: Gateway, fault: bool, account: string, key: string, name: string): (Gateway, Response) {
    if key == "" then (g, Rejected("idempotency_key_required"))
    else
      var w := Identity(account, key);
      var i := LiveKey(g, w, account);
      var h := if i < |g.keys| then g else WithKey(g, w, GatewayKey(NextFree(Taken(g), g.nextKeyId), account, name));
      if fault && key !in h.lost then (h.(lost := h.lost + {key}), Lost) else (h, KeyAnswer(h.keys[i]))
  }

  function HandleDeleteKey(g: Gateway, account: string, key: string, id: string): (Gateway, Response) {
    if key == "" then (g, Rejected("idempotency_key_required"))
    else
      var i := FindKey(g.keys, id, account);
      if i == |g.keys| then (g, Rejected("gateway_key_not_found"))
      else (g.(keys := g.keys[..i] + g.keys[i + 1..]), Deleted)
  }

  function LiveAnnouncement(b: Board, w: string): (i: nat)
    ensures i <= |b.announcements|
  {
    if w in b.created then FindAnnouncement(b.announcements, b.created[w]) else |b.announcements|
  }

  function Drafted(b: Board, w: string, title: string, body: string, startsAt: string, endsAt: string): Board {
    var item := Announcement(AnnouncementId(|b.announcements| + 1), title, body, "draft", startsAt, endsAt, "");
    b.(announcements := b.announcements + [item], created := b.created[w := item.id])
  }

  function HandleAnnounce(
    b: Board, fault: bool, account: string, key: string, title: string, body: string, startsAt: string, endsAt: string)
    : (Board, Response)
  {
    if key == "" then (b, Rejected("idempotency_key_required"))
    else
      var w := Identity(account, key);
      var i := LiveAnnouncement(b, w);
      var c := if i < |b.announcements| then b else Drafted(b, w, title, body, startsAt, endsAt);
      if fault && w !in c.lostCreates then (c.(lostCreates := c.lostCreates + {w}), Lost)
      else (c, Posted(c.announcements[i]))
  }

  function PublishedForm(a: Announcement, startsAt: string, endsAt: string): Announcement {
    a.(status := "published", startsAt := if startsAt == "" then NOW else startsAt,
      endsAt := if endsAt == "" then a.endsAt else endsAt, publishedAt := NOW)
  }

  function HandlePublish(
    b: Board, fault: bool, account: string, key: string, id: string, startsAt: string, endsAt: string)
    : (Board, Response)
  {
    if key == "" then (b, Rejected("idempotency_key_required"))
    else
      var i := FindAnnouncement(b.announcements, id);
      if i == |b.announcements| then (b, Rejected("announcement_not_found"))
      else
        var w := Identity(account, key);
        var c := if w in b.published then b
          else WithPublished(b, i, w, PublishedForm(b.announcements[i], startsAt, endsAt));
        if fault && w !in c.lostPublishes then (c.(lostPublishes := c.lostPublishes + {w}), Lost)
        else (c, Posted(c.published[w]))
  }

  function WithPublished(b: Board, i: nat, w: string, result: Announcement): Board
    requires i < |b.announcements|
  {
    b.(announcements := b.announcements[i := result], published := b.published[w := result])
  }

  function HandleWithdraw(b: Board, fault: bool, account: string, key: string, id: string): (Board, Response) {
    if key == "" then (b, Rejected("idempotency_key_required"))
    else
      var i := FindAnnouncement(b.announcements, id);
      if i == |b.announcements| then (b, Rejected("announcement_not_found"))
      else
        var w := Identity(account, key);
        var c := if w in b.withdrawn then b else WithWithdrawn(b, i, w, b.announcements[i].(status := "withdrawn"));
        if fault && w !in c.lostWithdraws then (c.(lostWithdraws := c.lostWithdraws + {w}), Lost)
        else (c, Posted(c.withdrawn[w]))
  }

  function WithWithdrawn(b: Board, i: nat, w: string, result: Announcement): Board
    requires i < |b.announcements|
  {
    b.(announcements := b.announcements[i := result], withdrawn := b.withdrawn[w := result])
  }

  function OnGateway(s: State, r: (Gateway, Response)): (State, Response) { (s.(gateway := r.0), r.1) }
  function OnBoard(s: State, r: (Board, Response)): (State, Response) { (s.(board := r.0), r.1) }

  function Handle(s: State, r: Request): (State, Response) {
    match r
    case Launch(account, key, name, packageId) => HandleLaunch(s, account, key, name, packageId)
    case CreateKey(account, key, name) => OnGateway(s, HandleCreateKey(s.gateway, s.faultInjection, account, key, name))
    case DeleteKey(account, key, id) => OnGateway(s, HandleDeleteKey(s.gateway, account, key, id))
    case Announce(account, key, title, body, startsAt, endsAt) =>
      OnBoard(s, HandleAnnounce(s.board, s.faultInjection, account, key, title, body, startsAt, endsAt))
    case Publish(account, key, id, startsAt, endsAt) =>
      OnBoard(s, HandlePublish(s.board, s.faultInjection, account, key, id, startsAt, endsAt))
    case Withdraw(account, key, id) => OnBoard(s, HandleWithdraw(s.board, s.faultInjection, account, key, id))
  }

  function After(s: State, r: Request): State { Handle(s, r).0 }

  function Run(s: State, requests: seq<Request>): State
    decreases |requests|
  {
    if requests == [] then s else Run(After(s, requests[0]), requests[1..])
  }

  // The response to request i of a run.
  function ResponseAt(s: State, requests: seq<Request>, i: nat): Response
    requires i < |requests|
    decreases i
  {
    if i == 0 then Handle(s, requests[0]).1 else ResponseAt(After(s, requests[0]), requests[1..], i - 1)
  }

  const WORKSPACE_9 := GatewayKey(9, "acct-1", "Workspace Key")
  const WORKSPACE_19 := GatewayKey(19, "acct-1", "Workspace Key")
  const GENERAL_11 := GatewayKey(11, "acct-1", "General fixture key")
  const WORKSPACE_1 := Workspace("ws-1", "acct-1", "Pilot Workspace", "basic", "9")
  const WORKSPACE_2 := Workspace("ws-2", "acct-1", "Second Workspace", "pro", "19")
  const DEMO_ANNOUNCEMENT := Announcement("announcement-demo-1", "", "", "published", NOW, "", NOW)

  function Initial(faultInjection: bool, seedDemoData: bool): State {
    State(faultInjection,
          Gateway(if seedDemoData then [GENERAL_11] else [], [WORKSPACE_9, WORKSPACE_19], 12, map[], {}),
          Desk([WORKSPACE_1, WORKSPACE_2], map[], {}),
          Board(if seedDemoData then [DEMO_ANNOUNCEMENT] else [], map[], {}, map[], {}, map[], {}))
  }

  /******* Launches *******/

  function IdentityOf(r: Request): set<string> {
    if r.Launch? && r.key != "" then {Identity(r.account, r.key)} else {}
  }

  // The write identities a run launches under.
  function Identities(requests: seq<Request>): set<string> {
    if requests == [] then {} else IdentityOf(requests[0]) + Identities(requests[1..])
  }

  // Every stored result is still there.
  ghost predicate Keeps(d: Desk, e: Desk) {
    forall w :: w in d.results ==> w in e.results && e.results[w] == d.results[w]
  }

  // Only a launch under a new identity touches workspaces and launch results, and then it adds one of each.
  ghost predicate DeskStep(d: Desk, e: Desk, launched: set<string>, fault: bool) {
    && e.results.Keys == d.results.Keys + launched && Keeps(d, e)
    && |e.workspaces| - |d.workspaces| == |e.results| - |d.results|
    && e.lost == if fault then d.lost + launched else d.lost
  }

  lemma {:induction false} OpenedStep(d: Desk, account: string, w: string, name: string, packageId: string, number: nat)
    ensures DeskStep(d, Opened(d, account, w, name, packageId, number), {w}, false)
  {
    var e := Opened(d, account, w, name, packageId, number);
    if w !in d.results {
      assert e.results.Keys == d.results.Keys + {w};
    }
  }

  lemma {:induction false} LaunchStep(s: State, r: Request)
    ensures After(s, r).faultInjection == s.faultInjection
    ensures DeskStep(s.desk, After(s, r).desk, IdentityOf(r), s.faultInjection)
  {
    if r.Launch? && r.key != "" {
      var w, number := Identity(r.account, r.key), NextFree(Taken(s.gateway), s.gateway.nextKeyId);
      OpenedStep(s.desk, r.account, w, r.name, r.packageId, number);
      LostStep(s.desk, Opened(s.desk, r.account, w, r.name, r.packageId, number), w, s.faultInjection);
    } else {
      NothingLaunched(s.desk, s.faultInjection);
    }
  }

  lemma {:induction false} NothingLaunched(d: Desk, fault: bool)
    ensures DeskStep(d, d, {}, fault)
  {
  }

  lemma {:induction false} LostStep(d: Desk, e: Desk, w: string, fault: bool)
    requires DeskStep(d, e, {w}, false)
    ensures DeskStep(d, if fault && w !in e.lost then e.(lost := e.lost + {w}) else e, {w}, fault)
  {
  }

  /**
   Whatever was stored for an identity stays, and a run stores results for exactly the identities it launches
   under.
   */
  lemma {:induction false} LaunchesAreKept(s: State, requests: seq<Request>)
    ensures Run(s, requests).faultInjection == s.faultInjection
    ensures DeskStep(s.desk, Run(s, requests).desk, Identities(requests), s.faultInjection)
    decreases |requests|
  {
    if requests != [] {
      LaunchStep(s, requests[0]);
      LaunchesAreKept(After(s, requests[0]), requests[1..]);
      DeskSteps(s.desk, After(s, requests[0]).desk, Run(s, requests).desk, IdentityOf(requests[0]),
        Identities(requests[1..]), s.faultInjection);
    }
  }

  lemma {:induction false} DeskSteps(a: Desk, b: Desk, c: Desk, v: set<string>, w: set<string>, fault: bool)
    requires DeskStep(a, b, v, fault) && DeskStep(b, c, w, fault)
    ensures DeskStep(a, c, v + w, fault)
  {
  }

  /**
   From the initial state, workspaces grow by exactly one per distinct write identity, however often it is
   retried.
   */
  lemma {:induction false} OneWorkspacePerWrite(faultInjection: bool, seedDemoData: bool, requests: seq<Request>)
    ensures |Run(Initial(faultInjection, seedDemoData), requests).desk.workspaces| == 2 + |Identities(requests)|
  {
    var s := Initial(faultInjection, seedDemoData);
    LaunchesAreKept(s, requests);
    var results := Run(s, requests).desk.results;
    assert s.desk.results.Keys == {};
    assert results.Keys == Identities(requests);
    assert |results| == |results.Keys|;
  }

  // The first answer of an identity is lost when faults are injected.
  predicate LosesLaunch(s: State, earlier: seq<Request>, w: string) {
    s.faultInjection && w !in s.desk.lost && w !in Identities(earlier)
  }

  lemma {:induction false} FirstAnswer(s: State, r: Request)
    requires r.Launch? && r.key != ""
    ensures var w := Identity(r.account, r.key);
      w in After(s, r).desk.results
      && Handle(s, r).1 == if s.faultInjection && w !in s.desk.lost then Lost else Launched(After(s, r).desk.results[w])
  {
  }

  /** Every answer to an identity is the operation its run ends up with; only the first may be lost instead. */
  lemma {:induction false} AnsweredRetriesAgree(s: State, requests: seq<Request>, i: nat)
    requires i < |requests| && requests[i].Launch? && requests[i].key != ""
    ensures var w := Identity(requests[i].account, requests[i].key);
      w in Run(s, requests).desk.results
      && ResponseAt(s, requests, i) == if LosesLaunch(s, requests[..i], w) then Lost
        else Launched(Run(s, requests).desk.results[w])
    decreases i
  {
    var t := After(s, requests[0]);
    LaunchStep(s, requests[0]);
    if i > 0 {
      AnsweredRetriesAgree(t, requests[1..], i - 1);
      EarlierIdentities(requests, i);
    } else {
      FirstAnswer(s, requests[0]);
      LaunchesAreKept(t, requests[1..]);
      assert requests[..0] == [];
    }
  }

  lemma {:induction false} EarlierIdentities(requests: seq<Request>, i: nat)
    requires 1 <= i <= |requests|
    ensures Identities(requests[..i]) == IdentityOf(requests[0]) + Identities(requests[1..][..i - 1])
  {
    assert requests[..i][1..] == requests[1..][..i - 1];
  }

  /******* Workspace ids *******/

  ghost predicate WorkspaceIds(d: Desk) {
    && |d.workspaces| >= 2 && d.workspaces[0].id == "ws-1" && d.workspaces[1].id == "ws-2"
    && forall i :: 2 <= i < |d.workspaces| ==> d.workspaces[i].id == DemoId(i + 1)
  }

  ghost predicate ResultsPointAt(d: Desk) {
    forall w :: w in d.results ==> PointsAt(d, d.results[w])
  }

  predicate PointsAt(d: Desk, o: Operation) {
    exists i :: 2 <= i < |d.workspaces| && Names(o, d.workspaces[i])
  }

  predicate Names(o: Operation, w: Workspace) {
    w.id == o.workspaceId && w.owner == o.account && w.name == o.name && w.packageId == o.packageId
  }

  lemma {:induction false} DemoIdInjective(m: nat, n: nat)
    requires DemoId(m) == DemoId(n)
    ensures m == n
  {
    assert DemoId(m)[8..] == Decimal.NatText(m) && DemoId(n)[8..] == Decimal.NatText(n);
    Decimal.NatTextInjective(m, n);
  }

  lemma {:induction false} OpenedIds(d: Desk, account: string, w: string, name: string, packageId: string, number: nat)
    requires WorkspaceIds(d) && ResultsPointAt(d)
    ensures WorkspaceIds(Opened(d, account, w, name, packageId, number))
      && ResultsPointAt(Opened(d, account, w, name, packageId, number))
  {
    if w !in d.results {
      var e, n := Opened(d, account, w, name, packageId, number), |d.workspaces|;
      forall v | v in e.results ensures PointsAt(e, e.results[v]) {
        if v == w {
          assert Names(e.results[w], e.workspaces[n]);
        } else {
          var i :| 2 <= i < n && Names(d.results[v], d.workspaces[i]);
          assert Names(e.results[v], e.workspaces[i]);
        }
      }
    }
  }

  lemma {:induction false} WorkspacesRun(s: State, requests: seq<Request>)
    requires WorkspaceIds(s.desk) && ResultsPointAt(s.desk)
    ensures WorkspaceIds(Run(s, requests).desk) && ResultsPointAt(Run(s, requests).desk)
    decreases |requests|
  {
    if requests != [] {
      WorkspacesStep(s, requests[0]);
      WorkspacesRun(After(s, requests[0]), requests[1..]);
    }
  }

  lemma {:induction false} WorkspacesStep(s: State, r: Request)
    requires WorkspaceIds(s.desk) && ResultsPointAt(s.desk)
    ensures WorkspaceIds(After(s, r).desk) && ResultsPointAt(After(s, r).desk)
  {
    if r.Launch? && r.key != "" {
      var w, number := Identity(r.account, r.key), NextFree(Taken(s.gateway), s.gateway.nextKeyId);
      OpenedIds(s.desk, r.account, w, r.name, r.packageId, number);
      SameWorkspaces(Opened(s.desk, r.account, w, r.name, r.packageId, number), After(s, r).desk);
    }
  }

  lemma {:induction false} SameWorkspaces(d: Desk, e: Desk)
    requires WorkspaceIds(d) && ResultsPointAt(d) && e.workspaces == d.workspaces && e.results == d.results
    ensures WorkspaceIds(e) && ResultsPointAt(e)
  {
    forall w | w in e.results ensures PointsAt(e, e.results[w]) {
      assert PointsAt(d, d.results[w]);
    }
  }

  /** Workspace ids are pairwise distinct in every run, and every stored operation names a workspace of its account. */
  lemma {:induction false} WorkspaceIdsDistinct(faultInjection: bool, seedDemoData: bool, requests: seq<Request>)
    ensures var d := Run(Initial(faultInjection, seedDemoData), requests).desk;
      ResultsPointAt(d) && forall i, j :: 0 <= i < j < |d.workspaces| ==> d.workspaces[i].id != d.workspaces[j].id
  {
    WorkspacesRun(Initial(faultInjection, seedDemoData), requests);
    var d := Run(Initial(faultInjection, seedDemoData), requests).desk;
    forall i, j | 0 <= i < j < |d.workspaces| ensures d.workspaces[i].id != d.workspaces[j].id {
      DistinctPair(d, i, j);
    }
  }

  lemma {:induction false} DistinctPair(d: Desk, i: nat, j: nat)
    requires WorkspaceIds(d) && i < j < |d.workspaces|
    ensures d.workspaces[i].id != d.workspaces[j].id
  {
    if j >= 2 {
      assert d.workspaces[j].id == DemoId(j + 1) && DemoId(j + 1)[3] == 'd';
      if i >= 2 && DemoId(i + 1) == DemoId(j + 1) { DemoIdInjective(i + 1, j + 1); }
    }
  }

  /******* Key ids *******/

  // The number a request issues, if it issues one.
  function Issues(s: State, r: Request): seq<nat> {
    var g := s.gateway;
    if r.Launch? && r.key != "" && Identity(r.account, r.key) !in s.desk.results then [NextFree(Taken(g), g.nextKeyId)]
    else if r.CreateKey? && r.key != "" && LiveKey(g, Identity(r.account, r.key), r.account) == |g.keys| then
      [NextFree(Taken(g), g.nextKeyId)]
    else []
  }

  function AllIssued(s: State, requests: seq<Request>): seq<nat>
    decreases |requests|
  {
    if requests == [] then [] else Issues(s, requests[0]) + AllIssued(After(s, requests[0]), requests[1..])
  }

  // Keys that exist are behind the counter, or were there from the start and can never be deleted.
  ghost predicate Behind(g: Gateway) {
    && (forall k :: k in g.keys ==> k.number < g.nextKeyId)
    && (forall k :: k in g.workspaceKeys ==> k.number < g.nextKeyId || k == WORKSPACE_19)
    && WORKSPACE_19 in g.workspaceKeys
  }

  // What one request does to the ids in use.
  ghost predicate IssueOk(g: Gateway, h: Gateway, issued: seq<nat>) {
    && Behind(h) && g.nextKeyId <= h.nextKeyId && |issued| <= 1
    && (forall n :: n in issued ==> g.nextKeyId <= n < h.nextKeyId && n !in Taken(g) && n in Taken(h))
    && (forall n :: n in Taken(h) ==> n in Taken(g) || n in issued)
  }

  lemma {:induction false} TakenAppend(g: Gateway, h: Gateway, k: GatewayKey)
    requires (h.keys == g.keys + [k] && h.workspaceKeys == g.workspaceKeys)
      || (h.keys == g.keys && h.workspaceKeys == g.workspaceKeys + [k])
    ensures Taken(h) == Taken(g) + {k.number}
  {
    assert forall x :: x in h.keys + h.workspaceKeys <==> x in g.keys + g.workspaceKeys || x == k;
    assert k in h.keys + h.workspaceKeys;
  }

  lemma {:induction false} WorkspaceKeyStep(g: Gateway, account: string)
    requires Behind(g)
    ensures var n := NextFree(Taken(g), g.nextKeyId);
      IssueOk(g, WithWorkspaceKey(g, GatewayKey(n, account, "Workspace Key")), [n])
  {
    var k := GatewayKey(NextFree(Taken(g), g.nextKeyId), account, "Workspace Key");
    TakenAppend(g, WithWorkspaceKey(g, k), k);
  }

  lemma {:induction false} KeyStep(g: Gateway, fault: bool, account: string, key: string, name: string)
    requires Behind(g) && key != ""
    ensures var n := NextFree(Taken(g), g.nextKeyId);
      IssueOk(g, HandleCreateKey(g, fault, account, key, name).0,
        if LiveKey(g, Identity(account, key), account) == |g.keys| then [n] else [])
  {
    var k := GatewayKey(NextFree(Taken(g), g.nextKeyId), account, name);
    var h := HandleCreateKey(g, fault, account, key, name).0;
    if LiveKey(g, Identity(account, key), account) == |g.keys| {
      TakenAppend(g, h, k);
    }
  }

  lemma {:induction false} DeleteStep(g: Gateway, account: string, key: string, id: string)
    requires Behind(g)
    ensures IssueOk(g, HandleDeleteKey(g, account, key, id).0, [])
  {
    var h := HandleDeleteKey(g, account, key, id).0;
    assert forall k :: k in h.keys ==> k in g.keys;
    assert forall k :: k in h.keys + h.workspaceKeys ==> k in g.keys + g.workspaceKeys;
  }

  lemma {:induction false} IssueStep(s: State, r: Request)
    requires Behind(s.gateway)
    ensures IssueOk(s.gateway, After(s, r).gateway, Issues(s, r))
  {
    match r
    case Launch(account, key, name, packageId) => WorkspaceKeyStep(s.gateway, account);
    case CreateKey(account, key, name) => if key != "" { KeyStep(s.gateway, s.faultInjection, account, key, name); }
    case DeleteKey(account, key, id) => DeleteStep(s.gateway, account, key, id);
    case _ =>
  }

  ghost predicate Increasing(ns: seq<nat>, from: nat) {
    && (forall i :: 0 <= i < |ns| ==> from <= ns[i] && ns[i] != 19)
    && (forall i, j :: 0 <= i < j < |ns| ==> ns[i] < ns[j])
  }

  lemma {:induction false} IncreasingJoin(a: seq<nat>, b: seq<nat>, from: nat, mid: nat)
    requires |a| <= 1 && from <= mid && (forall n :: n in a ==> from <= n < mid && n != 19) && Increasing(b, mid)
    ensures Increasing(a + b, from)
  {
    if a == [] {
      assert a + b == b;
    } else {
      assert a[0] in a;
    }
  }

  lemma {:induction false} NineteenTaken(g: Gateway)
    requires Behind(g)
    ensures 19 in Taken(g)
  {
    assert WORKSPACE_19 in g.keys + g.workspaceKeys && WORKSPACE_19.number == 19;
  }

  /** Numbers issued along a run strictly increase from the counter, so none is issued twice, deletes or not. */
  lemma {:induction false} IssuedIncrease(s: State, requests: seq<Request>)
    requires Behind(s.gateway)
    ensures Increasing(AllIssued(s, requests), s.gateway.nextKeyId)
    decreases |requests|
  {
    if requests != [] {
      var t := After(s, requests[0]);
      IssueStep(s, requests[0]);
      IssuedIncrease(t, requests[1..]);
      NineteenTaken(s.gateway);
      IncreasingJoin(Issues(s, requests[0]), AllIssued(t, requests[1..]), s.gateway.nextKeyId, t.gateway.nextKeyId);
    }
  }

  /** All key ids ever issued are distinct, from each other and from the ids present at the start. */
  lemma {:induction false} KeyIdsEverDistinct(faultInjection: bool, seedDemoData: bool, requests: seq<Request>)
    ensures var ns := AllIssued(Initial(faultInjection, seedDemoData), requests);
      && (forall i, j :: 0 <= i < j < |ns| ==> Decimal.NatText(ns[i]) != Decimal.NatText(ns[j]))
      && (forall i :: 0 <= i < |ns| ==> Decimal.NatText(ns[i]) !in {"9", "11", "19"})
  {
    var s := Initial(faultInjection, seedDemoData);
    assert s.gateway.workspaceKeys[1] == WORKSPACE_19;
    IssuedIncrease(s, requests);
    var ns := AllIssued(s, requests);
    forall i, j | 0 <= i < j < |ns| ensures Decimal.NatText(ns[i]) != Decimal.NatText(ns[j]) {
      if Decimal.NatText(ns[i]) == Decimal.NatText(ns[j]) { Decimal.NatTextInjective(ns[i], ns[j]); }
    }
    forall i | 0 <= i < |ns| ensures Decimal.NatText(ns[i]) !in {"9", "11", "19"} {
      NotInitialId(ns[i]);
    }
  }

  lemma {:induction false} NotInitialId(n: nat)
    requires n >= 12 && n != 19
    ensures Decimal.NatText(n) !in {"9", "11", "19"}
  {
    assert Decimal.NatText(9) == "9";
    assert Decimal.NatText(11) == Decimal.NatText(1) + "1" && Decimal.NatText(1) == "1";
    assert Decimal.NatText(19) == Decimal.NatText(1) + "9";
    if Decimal.NatText(n) == "9" { Decimal.NatTextInjective(n, 9); }
    if Decimal.NatText(n) == "11" { Decimal.NatTextInjective(n, 11); }
    if Decimal.NatText(n) == "19" { Decimal.NatTextInjective(n, 19); }
  }

  /**
   A key request leaves the live key recorded for its identity alone, and records a new one exactly when there is
   none.
   */
  lemma {:induction false} KeyRetry(g: Gateway, fault: bool, account: string, key: string, name: string)
    requires key != "" && Behind(g)
    ensures var w, h := Identity(account, key), HandleCreateKey(g, fault, account, key, name).0;
      var n := NextFree(Taken(g), g.nextKeyId);
      && (LiveKey(g, w, account) < |g.keys| ==> h.(lost := g.lost) == g)
      && (LiveKey(g, w, account) == |g.keys| ==>
        && h.keys == g.keys + [GatewayKey(n, account, name)]
        && h.results == g.results[w := n]
        && LiveKey(h, w, account) == |g.keys|)
  {
    var w, h := Identity(account, key), HandleCreateKey(g, fault, account, key, name).0;
    var n := NextFree(Taken(g), g.nextKeyId);
    if LiveKey(g, w, account) == |g.keys| {
      var i := FindKey(h.keys, Decimal.NatText(n), account);
      assert h.keys[|g.keys|] == GatewayKey(n, account, name);
      if i < |g.keys| {
        assert h.keys[i] == g.keys[i] && g.keys[i] in g.keys;
        Decimal.NatTextInjective(g.keys[i].number, n);
      }
    }
  }

  /******* Publish and withdraw *******/

  // Not a publish under an identity that has not published before.
  predicate Replay(b: Board, r: Request) {
    r.Publish? && r.key != "" ==> Identity(r.account, r.key) in b.published
  }

  predicate IsWithdrawn(b: Board, i: nat) { i < |b.announcements| && b.announcements[i].status == "withdrawn" }

  lemma {:induction false} WithdrawnStep(s: State, r: Request, i: nat)
    requires IsWithdrawn(s.board, i) && Replay(s.board, r)
    ensures IsWithdrawn(After(s, r).board, i) && After(s, r).board.announcements[i] == s.board.announcements[i]
  {
  }

  ghost predicate KeepsPublished(b: Board, c: Board) {
    forall w :: w in b.published ==> w in c.published && c.published[w] == b.published[w]
  }

  lemma {:induction false} PublishKept(s: State, r: Request)
    ensures KeepsPublished(s.board, After(s, r).board)
  {
    match r
    case Publish(account, key, id, startsAt, endsAt) =>
      PublishKeeps(s.board, s.faultInjection, account, key, id, startsAt, endsAt);
    case _ => assert After(s, r).board.published == s.board.published;
  }

  lemma {:induction false} PublishKeeps(
    b: Board, fault: bool, account: string, key: string, id: string, startsAt: string, endsAt: string)
    ensures KeepsPublished(b, HandlePublish(b, fault, account, key, id, startsAt, endsAt).0)
  {
  }

  /** Once withdrawn, an announcement stays as it is through any run whose publishes are all replays. */
  lemma {:induction false} ReplaysNeverUndoWithdraw(s: State, requests: seq<Request>, i: nat)
    requires IsWithdrawn(s.board, i) && forall j :: 0 <= j < |requests| ==> Replay(s.board, requests[j])
    ensures IsWithdrawn(Run(s, requests).board, i)
      && Run(s, requests).board.announcements[i] == s.board.announcements[i]
    decreases |requests|
  {
    if requests != [] {
      WithdrawnStep(s, requests[0], i);
      PublishKept(s, requests[0]);
      forall j | 0 <= j < |requests[1..]| ensures Replay(After(s, requests[0]).board, requests[1..][j]) {
        assert Replay(s.board, requests[j + 1]);
      }
      ReplaysNeverUndoWithdraw(After(s, requests[0]), requests[1..], i);
    }
  }

  /**
   A publish replay answers with the snapshot of the first publish and changes no announcement, even a withdrawn
   one.
   */
  lemma {:induction false} PublishReplay(s: State, requests: seq<Request>, r: Request)
    requires r.Publish? && r.key != "" && Identity(r.account, r.key) in s.board.published
    requires FindAnnouncement(Run(s, requests).board.announcements, r.id) < |Run(s, requests).board.announcements|
    ensures var t := Run(s, requests);
      After(t, r).board.announcements == t.board.announcements
      && (Handle(t, r).1 == Lost || Handle(t, r).1 == Posted(s.board.published[Identity(r.account, r.key)]))
  {
    PublishesKept(s, requests);
  }

  lemma {:induction false} PublishesKept(s: State, requests: seq<Request>)
    ensures KeepsPublished(s.board, Run(s, requests).board)
    decreases |requests|
  {
    if requests != [] {
      PublishKept(s, requests[0]);
      PublishesKept(After(s, requests[0]), requests[1..]);
    }
  }
}
