/** What a run does to the announcements: one draft per write, distinct ids, and withdrawals that take effect. */
module ConsoleBoard {
  import opened Console
  import Decimal

  function BoardAfter(b: Board, fault: bool, r: Request): Board {
    match r
    case Announce(account, key, title, body, startsAt, endsAt) =>
      HandleAnnounce(b, fault, account, key, title, body, startsAt, endsAt).0
    case Publish(account, key, id, startsAt, endsAt) => HandlePublish(b, fault, account, key, id, startsAt, endsAt).0
    case Withdraw(account, key, id) => HandleWithdraw(b, fault, account, key, id).0
    case _ => b
  }

  lemma {:induction false} AfterBoard(s: State, r: Request)
    ensures After(s, r).board == BoardAfter(s.board, s.faultInjection, r)
      && After(s, r).faultInjection == s.faultInjection
  {
  }

  /******* Ids *******/

  const DEMO_ID := "announcement-demo-1"

  // Numbered by position, but for the demo announcement, which may come first.
  ghost predicate Numbered(items: seq<Announcement>) {
    forall i :: 0 <= i < |items| ==> items[i].id == AnnouncementId(i + 1) || (i == 0 && items[i].id == DEMO_ID)
  }

  lemma {:induction false} IdsDiffer(m: nat, n: nat)
    requires m != n
    ensures AnnouncementId(m) != AnnouncementId(n) && AnnouncementId(n) != DEMO_ID
  {
    assert AnnouncementId(m)[13..] == Decimal.NatText(m) && AnnouncementId(n)[13..] == Decimal.NatText(n);
    assert Decimal.IsDigit(AnnouncementId(n)[13]) && !Decimal.IsDigit(DEMO_ID[13]);
    if Decimal.NatText(m) == Decimal.NatText(n) { Decimal.NatTextInjective(m, n); }
  }

  lemma {:induction false} NumberedDistinct(items: seq<Announcement>, i: nat, j: nat)
    requires Numbered(items) && i < j < |items|
    ensures items[i].id != items[j].id
  {
    IdsDiffer(i + 1, j + 1);
  }

  // Only statuses and dates of an announcement ever change, and drafts are added at the end.
  ghost predicate SameIds(a: seq<Announcement>, b: seq<Announcement>) {
    |a| <= |b| && forall i :: 0 <= i < |a| ==> a[i].id == b[i].id
  }

  ghost predicate OnBoard(items: seq<Announcement>, id: string) { exists i :: 0 <= i < |items| && items[i].id == id }

  lemma {:induction false} FoundIff(items: seq<Announcement>, id: string)
    ensures FindAnnouncement(items, id) < |items| <==> OnBoard(items, id)
  {
    if FindAnnouncement(items, id) < |items| { assert items[FindAnnouncement(items, id)].id == id; }
  }

  lemma {:induction false} StaysOnBoard(a: seq<Announcement>, b: seq<Announcement>, id: string)
    requires SameIds(a, b) && OnBoard(a, id)
    ensures OnBoard(b, id)
  {
    var i :| 0 <= i < |a| && a[i].id == id;
    assert b[i].id == id;
  }

  lemma {:induction false} SameIdsTransitive(a: seq<Announcement>, b: seq<Announcement>, c: seq<Announcement>)
    requires SameIds(a, b) && SameIds(b, c)
    ensures SameIds(a, c)
  {
    forall i | 0 <= i < |a| ensures a[i].id == c[i].id { assert a[i].id == b[i].id; }
  }

  /******* One draft per write *******/

  // Every recorded draft is on the board.
  ghost predicate DraftsLive(b: Board) {
    forall w :: w in b.created ==> OnBoard(b.announcements, b.created[w])
  }

  ghost predicate BoardOk(b: Board) { Numbered(b.announcements) && DraftsLive(b) }

  function AnnounceOf(r: Request): set<string> {
    if r.Announce? && r.key != "" then {Identity(r.account, r.key)} else {}
  }

  // The write identities a run announces under.
  function Announces(requests: seq<Request>): set<string> {
    if requests == [] then {} else AnnounceOf(requests[0]) + Announces(requests[1..])
  }

  // The table of drafts gains exactly these identities and keeps every entry.
  ghost predicate TableStep(m: map<string, string>, n: map<string, string>, announced: set<string>) {
    n.Keys == m.Keys + announced && forall w :: w in m ==> w in n && n[w] == m[w]
  }

  lemma {:induction false} PutStep(m: map<string, string>, w: string, id: string)
    requires w !in m
    ensures TableStep(m, m[w := id], {w}) && |m[w := id]| == |m| + 1
  {
    assert m[w := id].Keys == m.Keys + {w};
  }

  lemma {:induction false} TableSteps(
    a: map<string, string>, b: map<string, string>, c: map<string, string>, v: set<string>, w: set<string>)
    requires TableStep(a, b, v) && TableStep(b, c, w)
    ensures TableStep(a, c, v + w)
  {
  }

  ghost predicate DraftStep(b: Board, c: Board, announced: set<string>, fault: bool) {
    && TableStep(b.created, c.created, announced)
    && |c.announcements| - |b.announcements| == |c.created| - |b.created|
    && SameIds(b.announcements, c.announcements)
    && c.lostCreates == if fault then b.lostCreates + announced else b.lostCreates
  }

  lemma {:induction false} DraftsStayLive(b: Board, c: Board)
    requires DraftsLive(b) && SameIds(b.announcements, c.announcements)
    ensures forall w :: w in b.created ==> OnBoard(c.announcements, b.created[w])
  {
    forall w | w in b.created ensures OnBoard(c.announcements, b.created[w]) {
      StaysOnBoard(b.announcements, c.announcements, b.created[w]);
    }
  }

  lemma {:induction false} DraftedIds(items: seq<Announcement>, a: Announcement)
    requires Numbered(items) && a.id == AnnouncementId(|items| + 1)
    ensures Numbered(items + [a]) && SameIds(items, items + [a]) && OnBoard(items + [a], a.id)
  {
    assert (items + [a])[|items|] == a;
  }

  lemma {:induction false} DraftedStep(
    b: Board, w: string, title: string, body: string, startsAt: string, endsAt: string)
    requires BoardOk(b) && w !in b.created
    ensures var c := Drafted(b, w, title, body, startsAt, endsAt); DraftStep(b, c, {w}, false) && BoardOk(c)
  {
    var c := Drafted(b, w, title, body, startsAt, endsAt);
    var a := c.announcements[|b.announcements|];
    DraftedIds(b.announcements, a);
    DraftRecorded(b, c, w, a);
  }

  lemma {:induction false} DraftRecorded(b: Board, c: Board, w: string, a: Announcement)
    requires DraftsLive(b) && w !in b.created && c.announcements == b.announcements + [a]
      && c.lostCreates == b.lostCreates
    requires c.created == b.created[w := a.id] && SameIds(b.announcements, c.announcements)
      && OnBoard(c.announcements, a.id)
    ensures DraftStep(b, c, {w}, false) && DraftsLive(c)
  {
    PutStep(b.created, w, a.id);
    assert DraftsLive(c) by { DraftsStayLive(b, c); }
  }

  // An identity that already has its draft changes nothing on the board.
  lemma {:induction false} RepeatedDraft(b: Board, w: string)
    requires BoardOk(b) && w in b.created
    ensures LiveAnnouncement(b, w) < |b.announcements| && DraftStep(b, b, {w}, false)
  {
    FoundIff(b.announcements, b.created[w]);
    assert b.created.Keys == b.created.Keys + {w};
  }

  lemma {:induction false} LostDraft(b: Board, c: Board, w: string, fault: bool)
    requires DraftStep(b, c, {w}, false) && BoardOk(c)
    ensures var d := if fault && w !in c.lostCreates then c.(lostCreates := c.lostCreates + {w}) else c;
      DraftStep(b, d, {w}, fault) && BoardOk(d)
  {
  }

  lemma {:induction false} AnnounceStep(b: Board, fault: bool, r: Request)
    requires BoardOk(b) && r.Announce? && r.key != ""
    ensures DraftStep(b, BoardAfter(b, fault, r), AnnounceOf(r), fault) && BoardOk(BoardAfter(b, fault, r))
  {
    var w := Identity(r.account, r.key);
    var c := if w in b.created then b else Drafted(b, w, r.title, r.body, r.startsAt, r.endsAt);
    if w in b.created { RepeatedDraft(b, w); } else { DraftedStep(b, w, r.title, r.body, r.startsAt, r.endsAt); }
    LostDraft(b, c, w, fault);
    AnnounceResult(b, fault, r, w, c);
  }

  // What a draft request leaves on the board, told apart from who was told.
  lemma {:induction false} AnnounceResult(b: Board, fault: bool, r: Request, w: string, c: Board)
    requires r.Announce? && r.key != "" && w == Identity(r.account, r.key)
    requires w in b.created ==> LiveAnnouncement(b, w) < |b.announcements|
    requires c == if w in b.created then b else Drafted(b, w, r.title, r.body, r.startsAt, r.endsAt)
    ensures BoardAfter(b, fault, r) ==
      if fault && w !in c.lostCreates then c.(lostCreates := c.lostCreates + {w}) else c
  {
  }

  lemma {:induction false} RelabelStep(b: Board, c: Board, fault: bool)
    requires BoardOk(b) && Relabelled(b, c)
    ensures DraftStep(b, c, {}, fault) && BoardOk(c)
  {
    DraftsStayLive(b, c);
    assert Numbered(c.announcements) by {
      forall i | 0 <= i < |c.announcements|
        ensures c.announcements[i].id == AnnouncementId(i + 1) || (i == 0 && c.announcements[i].id == DEMO_ID)
      {
        assert b.announcements[i].id == c.announcements[i].id;
      }
    }
  }

  ghost predicate Relabelled(b: Board, c: Board) {
    && SameIds(b.announcements, c.announcements) && |c.announcements| == |b.announcements|
    && c.created == b.created && c.lostCreates == b.lostCreates
  }

  lemma {:induction false} ReplacedIds(items: seq<Announcement>, i: nat, a: Announcement)
    requires i < |items| && a.id == items[i].id
    ensures SameIds(items, items[i := a])
  {
  }

  lemma {:induction false} PublishRelabels(b: Board, fault: bool, r: Request)
    requires r.Publish?
    ensures Relabelled(b, HandlePublish(b, fault, r.account, r.key, r.id, r.startsAt, r.endsAt).0)
  {
    var i := FindAnnouncement(b.announcements, r.id);
    if i < |b.announcements| {
      ReplacedIds(b.announcements, i, PublishedForm(b.announcements[i], r.startsAt, r.endsAt));
    }
  }

  lemma {:induction false} WithdrawRelabels(b: Board, fault: bool, r: Request)
    requires r.Withdraw?
    ensures Relabelled(b, HandleWithdraw(b, fault, r.account, r.key, r.id).0)
  {
    var i := FindAnnouncement(b.announcements, r.id);
    if i < |b.announcements| {
      ReplacedIds(b.announcements, i, b.announcements[i].(status := "withdrawn"));
    }
  }

  // Publishing and withdrawing change no id and no draft record.
  lemma {:induction false} OtherRequests(b: Board, fault: bool, r: Request)
    requires !r.Announce? || r.key == ""
    ensures Relabelled(b, BoardAfter(b, fault, r))
  {
    if r.Publish? {
      PublishRelabels(b, fault, r);
    } else if r.Withdraw? {
      WithdrawRelabels(b, fault, r);
    }
  }

  lemma {:induction false} BoardStep(b: Board, fault: bool, r: Request)
    requires BoardOk(b)
    ensures DraftStep(b, BoardAfter(b, fault, r), AnnounceOf(r), fault) && BoardOk(BoardAfter(b, fault, r))
  {
    if r.Announce? && r.key != "" {
      AnnounceStep(b, fault, r);
    } else {
      OtherRequests(b, fault, r);
      RelabelStep(b, BoardAfter(b, fault, r), fault);
    }
  }

  lemma {:induction false} DraftSteps(a: Board, b: Board, c: Board, v: set<string>, w: set<string>, fault: bool)
    requires DraftStep(a, b, v, fault) && DraftStep(b, c, w, fault)
    ensures DraftStep(a, c, v + w, fault)
  {
    assert SameIds(a.announcements, c.announcements) by {
      SameIdsTransitive(a.announcements, b.announcements, c.announcements);
    }
    assert TableStep(a.created, c.created, v + w) by { TableSteps(a.created, b.created, c.created, v, w); }
  }

  lemma {:induction false} BoardRun(s: State, requests: seq<Request>)
    requires BoardOk(s.board)
    ensures DraftStep(s.board, Run(s, requests).board, Announces(requests), s.faultInjection)
      && BoardOk(Run(s, requests).board)
    decreases |requests|
  {
    if requests != [] {
      var t := After(s, requests[0]);
      AfterBoard(s, requests[0]);
      BoardStep(s.board, s.faultInjection, requests[0]);
      BoardRun(t, requests[1..]);
      DraftSteps(s.board, t.board, Run(t, requests[1..]).board, AnnounceOf(requests[0]), Announces(requests[1..]),
        s.faultInjection);
    }
  }

  lemma {:induction false} InitialBoard(faultInjection: bool, seedDemoData: bool)
    ensures BoardOk(Initial(faultInjection, seedDemoData).board)
  {
  }

  /**
   In every run, the demo announcement included, announcement ids are pairwise distinct, and the board grows by
   exactly one draft per write identity announced under, however often it is retried.
   */
  lemma {:induction false} OneDraftPerWrite(faultInjection: bool, seedDemoData: bool, requests: seq<Request>)
    ensures var items := Run(Initial(faultInjection, seedDemoData), requests).board.announcements;
      && |items| == (if seedDemoData then 1 else 0) + |Announces(requests)|
      && forall i, j :: 0 <= i < j < |items| ==> items[i].id != items[j].id
  {
    var s := Initial(faultInjection, seedDemoData);
    InitialBoard(faultInjection, seedDemoData);
    BoardRun(s, requests);
    var b := Run(s, requests).board;
    assert b.created.Keys == Announces(requests) by { assert s.board.created.Keys == {}; }
    assert |b.created| == |b.created.Keys|;
    forall i, j | 0 <= i < j < |b.announcements| ensures b.announcements[i].id != b.announcements[j].id {
      NumberedDistinct(b.announcements, i, j);
    }
  }

  lemma {:induction false} FirstDraft(s: State, r: Request)
    requires BoardOk(s.board) && r.Announce? && r.key != ""
    ensures var w, c := Identity(r.account, r.key), After(s, r).board;
      && w in c.created
      && (if s.faultInjection && w !in s.board.lostCreates then Handle(s, r).1 == Lost
          else Handle(s, r).1.Posted? && Handle(s, r).1.announcement.id == c.created[w])
  {
    var w := Identity(r.account, r.key);
    if w in s.board.created { RepeatedDraft(s.board, w); }
  }

  lemma {:induction false} EarlierAnnounces(requests: seq<Request>, i: nat)
    requires 1 <= i <= |requests|
    ensures Announces(requests[..i]) == AnnounceOf(requests[0]) + Announces(requests[1..][..i - 1])
  {
    assert requests[..i][1..] == requests[1..][..i - 1];
  }

  // How a draft request is answered: not at all the first time when faults are injected, and with the draft otherwise.
  predicate DraftAnswered(response: Response, lost: bool, w: string, b: Board) {
    && w in b.created
    && if lost then response == Lost else response.Posted? && response.announcement.id == b.created[w]
  }

  predicate LosesDraft(s: State, earlier: seq<Request>, w: string) {
    s.faultInjection && w !in s.board.lostCreates && w !in Announces(earlier)
  }

  lemma {:induction false} FirstDraftAnswered(s: State, requests: seq<Request>)
    requires BoardOk(s.board) && requests != [] && requests[0].Announce? && requests[0].key != ""
    ensures var w := Identity(requests[0].account, requests[0].key);
      DraftAnswered(Handle(s, requests[0]).1, LosesDraft(s, [], w), w, Run(s, requests).board)
  {
    AfterBoard(s, requests[0]);
    BoardStep(s.board, s.faultInjection, requests[0]);
    FirstDraft(s, requests[0]);
    BoardRun(After(s, requests[0]), requests[1..]);
  }

  lemma {:induction false} LostLater(s: State, requests: seq<Request>, i: nat, w: string)
    requires BoardOk(s.board) && 1 <= i <= |requests|
    ensures LosesDraft(s, requests[..i], w) <==> LosesDraft(After(s, requests[0]), requests[1..][..i - 1], w)
  {
    AfterBoard(s, requests[0]);
    BoardStep(s.board, s.faultInjection, requests[0]);
    EarlierAnnounces(requests, i);
  }

  /** Every answer to an announcing identity names the one draft its run ends up with; only the first may be lost. */
  lemma {:induction false} AnsweredDraftsAgree(s: State, requests: seq<Request>, i: nat)
    requires BoardOk(s.board) && i < |requests| && requests[i].Announce? && requests[i].key != ""
    ensures var w := Identity(requests[i].account, requests[i].key);
      DraftAnswered(ResponseAt(s, requests, i), LosesDraft(s, requests[..i], w), w, Run(s, requests).board)
    decreases i
  {
    if i > 0 {
      AfterBoard(s, requests[0]);
      BoardStep(s.board, s.faultInjection, requests[0]);
      AnsweredDraftsAgree(After(s, requests[0]), requests[1..], i - 1);
      LostLater(s, requests, i, Identity(requests[i].account, requests[i].key));
    } else {
      FirstDraftAnswered(s, requests);
      assert requests[..0] == [];
    }
  }

  /******* Withdrawals *******/

  ghost predicate KeepsWithdrawn(b: Board, c: Board) {
    forall w :: w in b.withdrawn ==> w in c.withdrawn && c.withdrawn[w] == b.withdrawn[w]
  }

  lemma {:induction false} WithdrawKept(b: Board, fault: bool, r: Request)
    ensures KeepsWithdrawn(b, BoardAfter(b, fault, r))
  {
    match r
    case Withdraw(account, key, id) => WithdrawKeeps(b, fault, account, key, id);
    case _ => assert BoardAfter(b, fault, r).withdrawn == b.withdrawn;
  }

  lemma {:induction false} WithdrawKeeps(b: Board, fault: bool, account: string, key: string, id: string)
    ensures KeepsWithdrawn(b, HandleWithdraw(b, fault, account, key, id).0)
  {
  }

  lemma {:induction false} WithdrawnKept(s: State, requests: seq<Request>)
    ensures KeepsWithdrawn(s.board, Run(s, requests).board)
    decreases |requests|
  {
    if requests != [] {
      AfterBoard(s, requests[0]);
      WithdrawKept(s.board, s.faultInjection, requests[0]);
      WithdrawnKept(After(s, requests[0]), requests[1..]);
    }
  }

  /**
   The first withdraw under an identity leaves exactly the named announcement withdrawn, and every answered
   withdraw under it, now or later in any run, is the snapshot taken then.
   */
  lemma {:induction false} WithdrawTakesEffect(s: State, r: Request, later: seq<Request>)
    requires r.Withdraw? && r.key != "" && Identity(r.account, r.key) !in s.board.withdrawn
    requires FindAnnouncement(s.board.announcements, r.id) < |s.board.announcements|
    ensures var w, before, t := Identity(r.account, r.key), s.board.announcements, After(s, r);
      var i := FindAnnouncement(before, r.id);
      && t.board.announcements == before[i := before[i].(status := "withdrawn")]
      && w in Run(t, later).board.withdrawn && Run(t, later).board.withdrawn[w] == before[i].(status := "withdrawn")
      && (Handle(s, r).1 == Lost || Handle(s, r).1 == Posted(before[i].(status := "withdrawn")))
  {
    WithdrawnKept(After(s, r), later);
  }

  /** A withdraw replay changes no announcement and answers with the snapshot of the first withdraw, or is lost. */
  lemma {:induction false} WithdrawReplay(s: State, requests: seq<Request>, r: Request)
    requires r.Withdraw? && r.key != "" && Identity(r.account, r.key) in s.board.withdrawn
    requires FindAnnouncement(Run(s, requests).board.announcements, r.id) < |Run(s, requests).board.announcements|
    ensures var t := Run(s, requests);
      After(t, r).board.announcements == t.board.announcements
      && (Handle(t, r).1 == Lost || Handle(t, r).1 == Posted(s.board.withdrawn[Identity(r.account, r.key)]))
  {
    WithdrawnKept(s, requests);
  }
}
