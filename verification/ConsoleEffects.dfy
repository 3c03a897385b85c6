/** What each write of the console does the first time, what it refuses, and which responses are lost. */
module ConsoleEffects {
  import opened Console
  import Decimal

  // A response is lost exactly when faults are injected and none was lost under that name before.
  predicate Replies(fault: bool, lostBefore: bool, response: Response, answer: Response) {
    response == if fault && !lostBefore then Lost else answer
  }

  predicate OnlyDeskAndGateway(s: State, t: State) { t.board == s.board && t.faultInjection == s.faultInjection }

  /** No write without an idempotency key is carried out. */
  lemma {:induction false} KeylessIsRejected(s: State, r: Request)
    requires r.key == ""
    ensures Handle(s, r) == (s, Rejected("idempotency_key_required"))
  {
  }

  // The workspace, its operation and its key, as asked for: anything but the pro package is basic.
  ghost predicate LaunchedAs(s: State, r: Request, t: State)
    requires r.Launch?
  {
    var id := "ws-demo-" + Decimal.NatText(|s.desk.workspaces| + 1);
    var plan := if r.packageId == "pro" then "pro" else "basic";
    var number := NextFree(Taken(s.gateway), s.gateway.nextKeyId);
    && t.desk.workspaces == s.desk.workspaces + [Workspace(id, r.account, r.name, plan, Decimal.NatText(number))]
    && t.desk.results
      == s.desk.results[Identity(r.account, r.key) := Operation("launch-" + id, r.account, id, r.name, plan)]
    && t.gateway == s.gateway.(
        workspaceKeys := s.gateway.workspaceKeys + [GatewayKey(number, r.account, "Workspace Key")],
        nextKeyId := number + 1)
  }

  /**
   A first launch under an identity opens one workspace of the requesting account with the name and plan asked for; a
   launch under a known one changes neither workspaces nor keys.  The answer is the stored operation, unless it is lost.
   */
  lemma {:induction false} LaunchTakesEffect(s: State, r: Request)
    requires r.Launch? && r.key != ""
    ensures var t, w := After(s, r), Identity(r.account, r.key);
      && OnlyDeskAndGateway(s, t)
      && (w !in s.desk.results ==> LaunchedAs(s, r, t))
      && (w in s.desk.results ==>
        t.desk.workspaces == s.desk.workspaces && t.desk.results == s.desk.results && t.gateway == s.gateway)
      && Replies(s.faultInjection, w in s.desk.lost, Handle(s, r).1, Launched(t.desk.results[w]))
      && t.desk.lost == s.desk.lost + (if s.faultInjection then {w} else {})
  {
  }

  /**
   Deleting a key removes the account's first key of that id, and nothing else; an id the account has no key of is
   refused and changes nothing.
   */
  lemma {:induction false} DeleteTakesEffect(s: State, r: Request)
    requires r.DeleteKey? && r.key != ""
    ensures var t, keys := After(s, r), s.gateway.keys;
      if exists i :: 0 <= i < |keys| && Owns(keys[i], r) then
        && (exists i: nat ::
          FirstOwned(keys, r, i) && t == s.(gateway := s.gateway.(keys := keys[..i] + keys[i + 1..])))
        && Handle(s, r).1 == Deleted
      else t == s && Handle(s, r).1 == Rejected("gateway_key_not_found")
  {
    var keys := s.gateway.keys;
    var i := FindKey(keys, r.id, r.account);
    if i < |keys| { assert Owns(keys[i], r) && FirstOwned(keys, r, i); }
  }

  predicate Owns(k: GatewayKey, r: Request)
    requires r.DeleteKey?
  {
    Decimal.NatText(k.number) == r.id && k.owner == r.account
  }

  ghost predicate FirstOwned(keys: seq<GatewayKey>, r: Request, i: nat)
    requires r.DeleteKey?
  {
    i < |keys| && Owns(keys[i], r) && forall j :: 0 <= j < i ==> !Owns(keys[j], r)
  }

  /** A key is answered as it is recorded for the identity, unless the response is lost, once per idempotency key. */
  lemma {:induction false} KeyIsAnswered(s: State, r: Request)
    requires r.CreateKey? && r.key != ""
    ensures var t, w := After(s, r), Identity(r.account, r.key);
      && t.desk == s.desk && t.board == s.board && t.gateway.workspaceKeys == s.gateway.workspaceKeys
      && LiveKey(t.gateway, w, r.account) < |t.gateway.keys|
      && Replies(s.faultInjection, r.key in s.gateway.lost, Handle(s, r).1,
                 KeyAnswer(t.gateway.keys[LiveKey(t.gateway, w, r.account)]))
      && t.gateway.lost == s.gateway.lost + (if s.faultInjection then {r.key} else {})
  {
    var g, w := s.gateway, Identity(r.account, r.key);
    var n := NextFree(Taken(g), g.nextKeyId);
    if LiveKey(g, w, r.account) == |g.keys| {
      var keys := g.keys + [GatewayKey(n, r.account, r.name)];
      assert keys[|g.keys|].Id() == Decimal.NatText(n);
      forall j | 0 <= j < |g.keys| ensures g.keys[j].Id() != Decimal.NatText(n) {
        assert g.keys[j] in g.keys + g.workspaceKeys;
        if Decimal.NatText(g.keys[j].number) == Decimal.NatText(n) { Decimal.NatTextInjective(g.keys[j].number, n); }
      }
    }
  }

  /** A first announcement under an identity puts one draft with the texts asked for at the end of the board. */
  lemma {:induction false} DraftTakesEffect(s: State, r: Request)
    requires r.Announce? && r.key != ""
    requires LiveAnnouncement(s.board, Identity(r.account, r.key)) == |s.board.announcements|
    ensures var t, w, before := After(s, r), Identity(r.account, r.key), s.board.announcements;
      var id := "announcement-" + Decimal.NatText(|before| + 1);
      var draft := Announcement(id, r.title, r.body, "draft", r.startsAt, r.endsAt, "");
      && t.board.announcements == before + [draft] && t.board.created == s.board.created[w := id]
      && t.board.published == s.board.published && t.board.withdrawn == s.board.withdrawn
      && t.desk == s.desk && t.gateway == s.gateway
      && Replies(s.faultInjection, w in s.board.lostCreates, Handle(s, r).1, Posted(draft))
  {
  }

  // Published as asked for: from now unless a start is given, to the end given or else the one it had.
  predicate PublishedAs(a: Announcement, r: Request, p: Announcement)
    requires r.Publish?
  {
    && p.id == a.id && p.title == a.title && p.body == a.body && p.status == "published"
    && p.startsAt == (if r.startsAt != "" then r.startsAt else NOW)
    && p.endsAt == (if r.endsAt != "" then r.endsAt else a.endsAt)
    && p.publishedAt == NOW
  }

  /**
   A first publish under an identity publishes exactly the named announcement, and keeps what it then looks like as the
   snapshot every answer gives.
   */
  lemma {:induction false} PublishTakesEffect(s: State, r: Request)
    requires r.Publish? && r.key != "" && Identity(r.account, r.key) !in s.board.published
    requires FindAnnouncement(s.board.announcements, r.id) < |s.board.announcements|
    ensures var t, w, before := After(s, r), Identity(r.account, r.key), s.board.announcements;
      var i := FindAnnouncement(before, r.id);
      && |t.board.announcements| == |before| && PublishedAs(before[i], r, t.board.announcements[i])
      && (forall j :: 0 <= j < |before| && j != i ==> t.board.announcements[j] == before[j])
      && t.board.published == s.board.published[w := t.board.announcements[i]]
      && t.board.created == s.board.created && t.board.withdrawn == s.board.withdrawn
      && t.desk == s.desk && t.gateway == s.gateway
      && Replies(s.faultInjection, w in s.board.lostPublishes, Handle(s, r).1, Posted(t.board.announcements[i]))
  {
  }

  /** Publishing or withdrawing what is not on the board is refused and changes nothing. */
  lemma {:induction false} UnknownAnnouncementIsRejected(s: State, r: Request)
    requires (r.Publish? || r.Withdraw?) && r.key != ""
    requires forall i :: 0 <= i < |s.board.announcements| ==> s.board.announcements[i].id != r.id
    ensures Handle(s, r) == (s, Rejected("announcement_not_found"))
  {
  }
}
