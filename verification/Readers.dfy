/** The paginated, cursor and bounded-retry readers of the qualification tool, against any server. */
module Readers {
  import opened Wrappers
  import Decimal
  import opened Recovery

  const PAGE_SIZE := 100

  // Math.max(1, Math.ceil(n / 100)): for safe integers the rounded quotient has the exact ceiling, because
  // below 2^47 rounding moves a quotient by at most 1/128 and a whole number of hundredths is never that close
  // to an integer without being one.
  function PageCount(n: nat): (p: nat)
    ensures p >= 1
    ensures (p - 1) * PAGE_SIZE < n <= p * PAGE_SIZE || (n == 0 && p == 1)
  {
    if n == 0 then 1 else (n + PAGE_SIZE - 1) / PAGE_SIZE
  }

  function Min(a: int, b: int): int { if a < b then a else b }

  /******* Balance history *******/

  datatype HistoryItem = HistoryItem(code: string, kind: string, value: string, status: string, usedBy: string,
    usedAt: string, createdAt: string)

  // `total` and `pages` are what Number(...) makes of the fields, None when that is not an integer.
  datatype HistoryReply = HistoryFailure
    | HistoryPage(items: seq<HistoryItem>, total: Option<int>, page: int, pageSize: int, pages: Option<int>)

  // The adjustment looked for: its code, and what is wrong with a candidate that carries it.
  datatype Wanted = Wanted(code: string, judge: HistoryItem -> Option<Fault>)

  // page(items, pageNumber, pageSize) of the authority.
  function AuthorityPage(list: seq<HistoryItem>, number: nat): HistoryReply
    requires number >= 1
  {
    var start := (number - 1) * PAGE_SIZE;
    var items := if start >= |list| then [] else list[start..Min(start + PAGE_SIZE, |list|)];
    HistoryPage(items, Some(|list|), number, PAGE_SIZE, Some(PageCount(|list|)))
  }

  predicate ValidPage(p: HistoryReply, number: nat) {
    && p.HistoryPage?
    && p.total.Some? && 0 <= p.total.value <= MAX_SAFE
    && p.pages == Some(PageCount(p.total.value))
    && p.page == number && p.pageSize == PAGE_SIZE
    && number <= PageCount(p.total.value)
    && |p.items| == if p.total.value > 0 then Min(PAGE_SIZE, p.total.value - (number - 1) * PAGE_SIZE) else 0
  }

  predicate Blank(s: string) { Decimal.Trim(s) == "" }

  datatype Fault = AmountInvalid | IdentityDiffers
  datatype ReadError = ReadbackFailed | PaginationInvalid | CardinalityInvalid | ItemInvalid(fault: Fault) | NotFound

  predicate WellFormed(c: HistoryItem, userId: string, valueUsdMicros: string) {
    c.kind == "balance" && c.status == "used" && c.usedBy == userId && !Blank(c.usedAt) && !Blank(c.createdAt)
    && Decimal.ParseLoose(c.value) == Some(valueUsdMicros)
  }

  function Expected(code: string, userId: string, valueUsdMicros: string): Wanted {
    Wanted(code, (c: HistoryItem) => if Decimal.ParseLoose(c.value).None? then Some(AmountInvalid)
                      else if !WellFormed(c, userId, valueUsdMicros) then Some(IdentityDiffers)
                      else None)
  }

  // The inner loop over candidates, carrying whether a match was seen.
  function Scan(items: seq<HistoryItem>, w: Wanted, found: bool): (r: Result<bool, ReadError>)
    ensures r != Err(NotFound)
  {
    if items == [] then Ok(found)
    else if items[0].code != w.code then Scan(items[1..], w, found)
    else if found then Err(CardinalityInvalid)
    else if w.judge(items[0]).Some? then Err(ItemInvalid(w.judge(items[0]).value))
    else Scan(items[1..], w, true)
  }

  lemma {:induction false} ScanJoin(a: seq<HistoryItem>, b: seq<HistoryItem>, w: Wanted, found: bool)
    ensures Scan(a + b, w, found) == match Scan(a, w, found) case Ok(f) => Scan(b, w, f) case Err(e) => Err(e)
  {
    if a == [] {
      assert a + b == b;
    } else {
      assert (a + b)[1..] == a[1..] + b;
      ScanJoin(a[1..], b, w, found);
      ScanJoin(a[1..], b, w, true);
    }
  }

  function Verdict(r: Result<bool, ReadError>): Result<bool, ReadError> {
    match r
    case Ok(true) => Ok(true)
    case Ok(false) => Err(NotFound)
    case Err(e) => Err(e)
  }

  function Pages(server: nat -> HistoryReply, n: nat): seq<HistoryItem> {
    if n == 0 then [] else Pages(server, n - 1) + if server(n - 1).HistoryPage? then server(n - 1).items else []
  }

  ghost predicate Serves(server: nat -> HistoryReply, list: seq<HistoryItem>) {
    forall k: nat :: server(k) == AuthorityPage(list, k + 1)
  }

  lemma {:induction false} ServedPage(server: nat -> HistoryReply, list: seq<HistoryItem>, k: nat)
    requires Serves(server, list) && |list| <= MAX_SAFE && k < PageCount(|list|)
    ensures ValidPage(server(k), k + 1)
    ensures k * PAGE_SIZE <= |list| && server(k).items == list[k * PAGE_SIZE..Min((k + 1) * PAGE_SIZE, |list|)]
  {
    assert server(k) == AuthorityPage(list, k + 1);
  }

  lemma {:induction false} ServedPagesValid(server: nat -> HistoryReply, list: seq<HistoryItem>, k: nat)
    requires Serves(server, list) && |list| <= MAX_SAFE && k < PageCount(|list|)
    ensures ValidPage(server(k), k + 1)
    ensures Pages(server, k + 1) == list[..Min((k + 1) * PAGE_SIZE, |list|)]
    decreases k
  {
    ServedPage(server, list, k);
    var from, to := k * PAGE_SIZE, Min((k + 1) * PAGE_SIZE, |list|);
    if k > 0 {
      ServedPagesValid(server, list, k - 1);
    } else {
      assert Pages(server, 0) == [];
    }
    assert list[..from] + list[from..to] == list[..to];
  }

  function HistoryTotal(p: HistoryReply): int { if p.HistoryPage? && p.total.Some? then p.total.value else -1 }

  // The page count announced on page 1.
  function Announced(server: nat -> HistoryReply): nat {
    if HistoryTotal(server(0)) < 0 then 1 else PageCount(HistoryTotal(server(0)))
  }

  // Page k + 1 is exactly what a list of as many items as page 1 says has there, whatever the items are.
  predicate PageAccepted(server: nat -> HistoryReply, k: nat) {
    var total := HistoryTotal(server(0));
    && 0 <= total <= MAX_SAFE && k < PageCount(total) && server(k).HistoryPage?
    && server(k) == HistoryPage(server(k).items, Some(total), k + 1, 100, Some(PageCount(total)))
    && |server(k).items| == if total - k * 100 < 100 then total - k * 100 else 100
  }

  // The first n pages are accepted.
  predicate AcceptedTo(server: nat -> HistoryReply, n: nat) {
    n == 0 || (AcceptedTo(server, n - 1) && PageAccepted(server, n - 1))
  }

  lemma {:induction false} AcceptedFirst(server: nat -> HistoryReply, n: nat)
    requires n > 0 && AcceptedTo(server, n)
    ensures PageAccepted(server, 0)
  {
    if n > 1 { AcceptedFirst(server, n - 1); }
  }

  // n pages read and more to come, all accepted, and scanned without an error.
  ghost predicate Progress(server: nat -> HistoryReply, w: Wanted, n: nat) {
    && Scan(Pages(server, n), w, false).Ok? && (n == 0 || n < Announced(server))
    && AcceptedTo(server, n)
  }

  // How the run ended at its n-th page, in terms of the replies alone.
  predicate EndsWith(server: nat -> HistoryReply, w: Wanted, n: nat, r: Result<bool, ReadError>)
    requires n >= 1
  {
    var scanned := Scan(Pages(server, n), w, false);
    if server(n - 1).HistoryFailure? then r == Err(ReadbackFailed)
    else if !PageAccepted(server, n - 1) then r == Err(PaginationInvalid)
    else if scanned.Err? then r == scanned
    else n == Announced(server) && r == Verdict(scanned)
  }

  ghost predicate Outcome(server: nat -> HistoryReply, w: Wanted, n: nat, r: Result<bool, ReadError>) {
    n >= 1 && Progress(server, w, n - 1) && EndsWith(server, w, n, r)
  }

  lemma {:induction false} StopsAtBadReply(server: nat -> HistoryReply, w: Wanted, n: nat)
    requires Progress(server, w, n)
    ensures server(n).HistoryFailure? ==> Outcome(server, w, n + 1, Err(ReadbackFailed))
    ensures server(n).HistoryPage? && !PageAccepted(server, n) ==> Outcome(server, w, n + 1, Err(PaginationInvalid))
  {
  }

  lemma {:induction false} NextPage(server: nat -> HistoryReply, w: Wanted, n: nat, found: bool)
    requires Progress(server, w, n) && Scan(Pages(server, n), w, false) == Ok(found) && PageAccepted(server, n)
    ensures var scanned := Scan(server(n).items, w, found);
      && scanned == Scan(Pages(server, n + 1), w, false)
      && (scanned.Err? ==> Outcome(server, w, n + 1, scanned))
      && (scanned.Ok? && n + 1 == Announced(server) ==> Outcome(server, w, n + 1, Verdict(scanned)))
      && (scanned.Ok? && n + 1 != Announced(server) ==> Progress(server, w, n + 1))
  {
    ScanJoin(Pages(server, n), server(n).items, w, false);
  }

  // The loop's own test against the totals it remembers from page 1.
  predicate PageOk(data: HistoryReply, page: nat, total: int, pages: int) {
    ValidPage(data, page) && (page == 1 || (data.total == Some(total) && data.pages == Some(pages)))
  }

  predicate Remembers(server: nat -> HistoryReply, n: nat, total: int, pages: int) {
    n == 0 || (total == HistoryTotal(server(0)) >= 0 && pages == Announced(server))
  }

  lemma {:induction false} PageOkIff(server: nat -> HistoryReply, n: nat, total: int, pages: int)
    requires Remembers(server, n, total, pages)
    ensures PageOk(server(n), n + 1, total, pages) <==> PageAccepted(server, n)
  {
  }

  // What the loop knows after n pages, none of them the last.
  ghost predicate HistorySoFar(server: nat -> HistoryReply, w: Wanted, n: nat, total: int, pages: int, found: bool) {
    && Progress(server, w, n) && Scan(Pages(server, n), w, false) == Ok(found)
    && Remembers(server, n, total, pages) && (n == 0 || n < pages)
  }

  // One iteration: either the run ends as the reply says, or one more page is behind us.
  lemma {:induction false} HistoryStep(
    server: nat -> HistoryReply, w: Wanted, n: nat, total: int, pages: int, found: bool, data: HistoryReply)
    requires HistorySoFar(server, w, n, total, pages, found) && data == server(n)
    ensures data.HistoryFailure? ==> Outcome(server, w, n + 1, Err(ReadbackFailed))
    ensures data.HistoryPage? && !PageOk(data, n + 1, total, pages) ==>
      Outcome(server, w, n + 1, Err(PaginationInvalid))
    ensures PageOk(data, n + 1, total, pages) ==> AfterPage(server, w, n + 1, data, Scan(data.items, w, found))
  {
    StopsAtBadReply(server, w, n);
    PageOkIff(server, n, total, pages);
    if PageOk(data, n + 1, total, pages) {
      NextPage(server, w, n, found);
    }
  }

  ghost predicate AfterPage(
    server: nat -> HistoryReply, w: Wanted, n: nat, data: HistoryReply, scanned: Result<bool, ReadError>)
    requires data.HistoryPage? && data.total.Some? && data.pages.Some?
  {
    && Remembers(server, n, data.total.value, data.pages.value)
    && (scanned.Err? ==> Outcome(server, w, n, scanned))
    && (scanned.Ok? && n == data.pages.value ==> Outcome(server, w, n, Verdict(scanned)))
    && (scanned.Ok? && n != data.pages.value ==>
      HistorySoFar(server, w, n, data.total.value, data.pages.value, scanned.value))
  }

  // The loop over the candidates of one page.
  method ScanPage(items: seq<HistoryItem>, w: Wanted, found: bool) returns (r: Result<bool, ReadError>)
    ensures r == Scan(items, w, found)
  {
    var seen := found;
    for i := 0 to |items|
      invariant Scan(items[i..], w, seen) == Scan(items, w, found)
    {
      var candidate := items[i];
      assert items[i..][0] == candidate && items[i..][1..] == items[i + 1..];
      if candidate.code != w.code { continue; }
      if seen { return Err(CardinalityInvalid); }
      var fault := w.judge(candidate);
      if fault.Some? { return Err(ItemInvalid(fault.value)); }
      seen := true;
    }
    return Ok(seen);
  }

  // What one request leads to: the end of the run, or the totals and the match to go on with.
  method ReadHistoryPage(server: nat -> HistoryReply, w: Wanted, n: nat, total: int, pages: int, found: bool)
    returns (ended: Option<Result<bool, ReadError>>, newTotal: int, newPages: int, newFound: bool)
    requires HistorySoFar(server, w, n, total, pages, found)
    ensures ended.Some? ==> Outcome(server, w, n + 1, ended.value)
    ensures ended.None? ==> HistorySoFar(server, w, n + 1, newTotal, newPages, newFound)
  {
    newTotal, newPages, newFound := total, pages, found;
    var data := server(n);
    HistoryStep(server, w, n, total, pages, found, data);
    if data.HistoryFailure? { return Some(Err(ReadbackFailed)), newTotal, newPages, newFound; }
    if !PageOk(data, n + 1, total, pages) { return Some(Err(PaginationInvalid)), newTotal, newPages, newFound; }
    newTotal, newPages := data.total.value, data.pages.value;
    var scanned := ScanPage(data.items, w, found);
    if scanned.Err? { return Some(scanned), newTotal, newPages, newFound; }
    newFound := scanned.value;
    ended := if n + 1 == newPages then Some(Verdict(scanned)) else None;
  }

  /**
   Reads page after page until a reply is bad, an item is bad, or the page count announced on page 1 is
   reached; the outcome is fixed by the replies alone.
   */
  method ReadHistory(server: nat -> HistoryReply, w: Wanted) returns (r: Result<bool, ReadError>, requests: nat)
    ensures Outcome(server, w, requests, r)
  {
    var total, pages := 0, 0;
    var found := false;
    requests := 0;
    assert Scan(Pages(server, 0), w, false) == Ok(false);
    while true
      invariant HistorySoFar(server, w, requests, total, pages, found)
      decreases if requests == 0 then 1 else 0, pages - requests
    {
      var ended;
      ended, total, pages, found := ReadHistoryPage(server, w, requests, total, pages, found);
      requests := requests + 1;
      if ended.Some? { return ended.value, requests; }
    }
  }

  lemma {:induction false} FullPages(server: nat -> HistoryReply, n: nat)
    requires AcceptedTo(server, n)
    requires n >= 1 ==> n <= Announced(server)
    ensures n >= 1 && n < Announced(server) ==> |Pages(server, n)| == n * PAGE_SIZE
    ensures n >= 1 && n == Announced(server) ==> |Pages(server, n)| == HistoryTotal(server(0))
  {
    if n > 0 {
      FullPages(server, n - 1);
      AcceptedFirst(server, n);
    }
  }

  /**
   Whatever the server answers, the reader stops within the page count announced on page 1, and a verdict means
   every announced page was read, exactly `total` items, and is the plain scan's verdict on them.
   */
  lemma {:induction false} HistoryReadIsComplete(
    server: nat -> HistoryReply, w: Wanted, n: nat, r: Result<bool, ReadError>)
    requires Outcome(server, w, n, r)
    ensures n == 1 || (PageAccepted(server, 0) && n <= Announced(server))
    ensures r.Ok? || r == Err(NotFound) ==>
      (AcceptedTo(server, n) && n == Announced(server)
       && |Pages(server, n)| == HistoryTotal(server(0)) && r == Verdict(Scan(Pages(server, n), w, false)))
  {
    if n > 1 { AcceptedFirst(server, n - 1); }
    if r.Ok? || r == Err(NotFound) {
      FullPages(server, n);
    }
  }

  ghost predicate FixedList(server: nat -> HistoryReply, list: seq<HistoryItem>) {
    Serves(server, list) && |list| <= MAX_SAFE
  }

  lemma {:induction false} ServedPageAccepted(server: nat -> HistoryReply, list: seq<HistoryItem>, k: nat)
    requires FixedList(server, list) && k < PageCount(|list|)
    ensures PageAccepted(server, k) && HistoryTotal(server(0)) == |list|
  {
    ServedPagesValid(server, list, k);
    assert server(0) == AuthorityPage(list, 1) && server(k) == AuthorityPage(list, k + 1);
  }

  // Scanning the list page by page: an error found on the way is the error of the whole scan.
  lemma {:induction false} ServedScan(server: nat -> HistoryReply, list: seq<HistoryItem>, w: Wanted, n: nat)
    requires FixedList(server, list) && 1 <= n <= PageCount(|list|)
    ensures Scan(Pages(server, n), w, false).Err? ==> Scan(list, w, false) == Scan(Pages(server, n), w, false)
    ensures n == PageCount(|list|) ==> Pages(server, n) == list
  {
    ServedPagesValid(server, list, n - 1);
    var read := Pages(server, n);
    assert list == read + list[|read|..];
    ScanJoin(read, list[|read|..], w, false);
  }

  /**
   Against the authority's own pages over any fixed list there is never a pagination error: the outcome is
   exactly the plain scan's verdict, and it takes max(1, ceil(n / 100)) requests unless an item stops it.
   */
  lemma {:induction false} HistoryReadRefinesScan(
    server: nat -> HistoryReply, list: seq<HistoryItem>, w: Wanted, n: nat, r: Result<bool, ReadError>)
    requires FixedList(server, list) && Outcome(server, w, n, r)
    ensures r == Verdict(Scan(list, w, false))
    ensures 1 <= n <= PageCount(|list|)
    ensures r.Ok? || r == Err(NotFound) ==> n == PageCount(|list|)
  {
    ServedPageAccepted(server, list, 0);
    ServedPageAccepted(server, list, n - 1);
    ServedScan(server, list, w, n);
  }

  function WithCode(items: seq<HistoryItem>, code: string): seq<HistoryItem> {
    if items == [] then []
    else (if items[0].code == code then [items[0]] else []) + WithCode(items[1..], code)
  }

  /** A plain scan succeeds exactly when one item carries the code and that item is well formed. */
  lemma {:induction false} ScanIff(items: seq<HistoryItem>, w: Wanted)
    ensures Verdict(Scan(items, w, false)).Ok? <==>
      |WithCode(items, w.code)| == 1 && w.judge(WithCode(items, w.code)[0]).None?
  {
    if items != [] {
      ScanIff(items[1..], w);
      ScanAfterMatch(items[1..], w);
    }
  }

  /**
   So a live debit is confirmed exactly when one item has its code and that item is the used balance item of that
   user and amount.
   */
  lemma {:induction false} ConfirmedIff(items: seq<HistoryItem>, code: string, userId: string, valueUsdMicros: string)
    ensures Verdict(Scan(items, Expected(code, userId, valueUsdMicros), false)).Ok? <==>
      |WithCode(items, code)| == 1 && Confirms(WithCode(items, code)[0], code, userId, valueUsdMicros)
  {
    ScanIff(items, Expected(code, userId, valueUsdMicros));
    WithCodeHasCode(items, code);
    if |WithCode(items, code)| == 1 {
      Decimal.TrimIff(WithCode(items, code)[0].usedAt);
      Decimal.TrimIff(WithCode(items, code)[0].createdAt);
    }
  }

  // The item reads, field by field, as the adjustment looked for.
  predicate Confirms(c: HistoryItem, code: string, userId: string, valueUsdMicros: string) {
    && c == HistoryItem(code, "balance", c.value, "used", userId, c.usedAt, c.createdAt)
    && Decimal.ParseLoose(c.value) == Some(valueUsdMicros)
    && (exists i :: 0 <= i < |c.usedAt| && !Decimal.IsTrimmed(c.usedAt[i]))
    && (exists i :: 0 <= i < |c.createdAt| && !Decimal.IsTrimmed(c.createdAt[i]))
  }

  lemma {:induction false} WithCodeHasCode(items: seq<HistoryItem>, code: string)
    ensures forall i :: 0 <= i < |WithCode(items, code)| ==> WithCode(items, code)[i].code == code
  {
    if items != [] { WithCodeHasCode(items[1..], code); }
  }

  lemma {:induction false} ScanAfterMatch(items: seq<HistoryItem>, w: Wanted)
    ensures Scan(items, w, true) == if WithCode(items, w.code) == [] then Ok(true) else Err(CardinalityInvalid)
  {
    if items != [] { ScanAfterMatch(items[1..], w); }
  }

  /******* Gateway keys *******/

  // An item is an opaque text here: the reader never looks inside.
  datatype KeyReply =
    | KeyFailure
    | KeyPage(items: seq<string>, total: Option<int>, page: int, pageSize: int, pages: Option<int>)

  predicate ValidKeyPage(p: KeyReply, number: nat) {
    && p.KeyPage?
    && p.total.Some? && 0 <= p.total.value <= MAX_SAFE
    && p.page == number && p.pageSize == PAGE_SIZE
    && p.pages == Some(PageCount(p.total.value))
  }

  function KeyPages(server: nat -> KeyReply, n: nat): seq<string> {
    if n == 0 then [] else KeyPages(server, n - 1) + if server(n - 1).KeyPage? then server(n - 1).items else []
  }

  function KeyTotal(p: KeyReply): int { if p.KeyPage? && p.total.Some? then p.total.value else -1 }

  // Page k + 1 says of itself what a page of as many keys as page 1 announces says, whatever keys it holds.
  predicate Agrees(server: nat -> KeyReply, k: nat) {
    var total := KeyTotal(server(0));
    && 0 <= total <= MAX_SAFE && server(k).KeyPage?
    && server(k) == KeyPage(server(k).items, Some(total), k + 1, 100, Some(PageCount(total)))
  }

  ghost predicate AllAgree(server: nat -> KeyReply, n: nat) {
    forall k: nat :: k < n ==> Agrees(server, k)
  }

  // The page count announced on page 1, or 1 when there is none.
  function KeyPageCount(server: nat -> KeyReply): nat {
    if KeyTotal(server(0)) < 0 then 1 else PageCount(KeyTotal(server(0)))
  }

  // How the run ended at its n-th request: every page before it agreed, and it disagreed or was the last announced.
  ghost predicate KeysEnd(server: nat -> KeyReply, n: nat, r: Option<seq<string>>) {
    && n >= 1 && AllAgree(server, n - 1) && (n == 1 || n <= KeyPageCount(server))
    && if !Agrees(server, n - 1) then r == None
       else
         n == KeyPageCount(server)
         && r == if |KeyPages(server, n)| == KeyTotal(server(0)) then Some(KeyPages(server, n)) else None
  }

  /** Reads page after page until one disagrees or the last announced one is read; the replies alone fix the outcome. */
  method ReadAllGatewayKeys(server: nat -> KeyReply) returns (r: Option<seq<string>>, requests: nat)
    ensures KeysEnd(server, requests, r)
  {
    var items: seq<string> := [];
    var total, pages := 0, 0;
    requests := 0;
    while true
      invariant items == KeyPages(server, requests)
      invariant KeysSoFar(server, requests, total, pages)
      decreases if requests == 0 then 1 else 0, pages - requests
    {
      var page := server(requests);
      KeysStep(server, requests, total, pages);
      requests := requests + 1;
      if !KeyPageOk(page, requests, total, pages) { return None, requests; }
      if requests == 1 {
        total, pages := page.total.value, page.pages.value;
      }
      items := items + page.items;
      if requests == pages { break; }
    }
    return if |items| == total then Some(items) else None, requests;
  }

  // The loop's own test against the totals it remembers from page 1.
  predicate KeyPageOk(page: KeyReply, number: nat, total: int, pages: int) {
    ValidKeyPage(page, number) && (number == 1 || (page.total == Some(total) && page.pages == Some(pages)))
  }

  ghost predicate KeysSoFar(server: nat -> KeyReply, n: nat, total: int, pages: int) {
    AllAgree(server, n) && (n == 0 || (total == KeyTotal(server(0)) >= 0 && pages == KeyPageCount(server) && n < pages))
  }

  lemma {:induction false} KeysStep(server: nat -> KeyReply, n: nat, total: int, pages: int)
    requires KeysSoFar(server, n, total, pages)
    ensures KeyPageOk(server(n), n + 1, total, pages) <==> Agrees(server, n)
    ensures Agrees(server, n) ==>
      (AllAgree(server, n + 1) && n + 1 <= KeyPageCount(server)
       && KeyTotal(server(0)) == server(n).total.value && KeyPageCount(server) == server(n).pages.value)
  {
    if n > 0 { assert Agrees(server, 0); }
  }

  /**
   Whatever the server answers, the run stops within the announced page count, and it succeeds exactly when every
   announced page agrees with page 1 and together they hold `total` items; then it returns them all in order.
   */
  lemma {:induction false} KeysReadIff(server: nat -> KeyReply, n: nat, r: Option<seq<string>>)
    requires KeysEnd(server, n, r)
    ensures 1 <= n <= KeyPageCount(server)
    ensures r.Some? <==>
      AllAgree(server, KeyPageCount(server)) && |KeyPages(server, KeyPageCount(server))| == KeyTotal(server(0))
    ensures r.Some? ==> n == KeyPageCount(server) && r.value == KeyPages(server, n)
  {
    var count := KeyPageCount(server);
    assert count >= 1;
    if Agrees(server, n - 1) {
      assert AllAgree(server, n) by {
        forall k: nat | k < n ensures Agrees(server, k) { if k < n - 1 { assert Agrees(server, k); } }
      }
    } else {
      assert n - 1 < count && !Agrees(server, n - 1);
    }
  }

  // One page of a list of keys, with its number, size, total and page count.
  function KeyListPage(list: seq<string>, number: nat): KeyReply
    requires number >= 1
  {
    var start := (number - 1) * 100;
    var items := if start >= |list| then [] else list[start..Min(start + 100, |list|)];
    KeyPage(items, Some(|list|), number, 100, Some(PageCount(|list|)))
  }

  ghost predicate ServesKeys(server: nat -> KeyReply, list: seq<string>) {
    |list| <= MAX_SAFE && forall k: nat :: server(k) == KeyListPage(list, k + 1)
  }

  lemma {:induction false} KeyListRead(server: nat -> KeyReply, list: seq<string>, n: nat)
    requires ServesKeys(server, list) && n <= PageCount(|list|)
    ensures KeyPages(server, n) == list[..Min(n * 100, |list|)]
  {
    if n > 0 {
      KeyListRead(server, list, n - 1);
      assert server(n - 1) == KeyListPage(list, n);
      var from, to := (n - 1) * 100, Min(n * 100, |list|);
      assert from <= |list| && list[..from] + list[from..to] == list[..to];
    }
  }

  /**
   Against the pages of any fixed list of keys the reader returns exactly that list, in max(1, ceil(n / 100))
   requests.
   */
  lemma {:induction false} KeyReadRefinesList(
    server: nat -> KeyReply, list: seq<string>, n: nat, r: Option<seq<string>>)
    requires ServesKeys(server, list) && KeysEnd(server, n, r)
    ensures r == Some(list) && n == PageCount(|list|)
  {
    assert server(0) == KeyListPage(list, 1);
    forall k: nat | k < PageCount(|list|) ensures Agrees(server, k) { assert server(k) == KeyListPage(list, k + 1); }
    KeysReadIff(server, n, r);
    KeyListRead(server, list, PageCount(|list|));
    assert list[..Min(PageCount(|list|) * 100, |list|)] == list;
  }

  /******* Billing receipts *******/

  // Reply k answers the request that carries the k-th cursor; the server may answer anything.
  datatype CursorReply = CursorFailure | CursorPage(receipts: seq<string>, hasMore: bool, nextCursor: string)

  function Received(replies: nat -> CursorReply, n: nat): seq<string> {
    if n == 0 then [] else Received(replies, n - 1) + if replies(n - 1).CursorPage? then replies(n - 1).receipts else []
  }

  ghost predicate Distinct(cursors: seq<string>) {
    forall i, j :: 0 <= i < j < |cursors| ==> cursors[i] != cursors[j]
  }

  ghost predicate CursorsFrom(replies: nat -> CursorReply, universe: set<string>) {
    forall k: nat :: replies(k).CursorPage? ==> replies(k).nextCursor in universe
  }

  predicate Continues(reply: CursorReply, cursor: string) {
    reply.CursorPage? && reply.hasMore && reply.nextCursor == cursor
  }

  // Every request after the first carries the cursor its predecessor's page handed out.
  ghost predicate Chained(replies: nat -> CursorReply, cursors: seq<string>) {
    && |cursors| >= 1 && cursors[0] == ""
    && forall k :: 1 <= k < |cursors| ==> Continues(replies(k - 1), cursors[k])
  }

  // Success exactly on a last page; otherwise a failure, or a cursor that was already followed.
  predicate InventoryEnds(
    replies: nat -> CursorReply, cursors: seq<string>, last: CursorReply, r: Option<seq<string>>) {
    && (r.Some? <==> last.CursorPage? && !last.hasMore)
    && (r.Some? ==> r.value == Received(replies, |cursors|))
    && (r.None? && last.CursorPage? ==> last.nextCursor in cursors)
  }

  /**
   Follows no cursor twice, so it stops on every server whose cursors come from a finite set; success
   returns every page received, in the order the cursors were followed, and the last page has no more.
   */
  method ReadAllBillingReceipts(replies: nat -> CursorReply, ghost universe: set<string>)
    returns (r: Option<seq<string>>, cursors: seq<string>)
    requires CursorsFrom(replies, universe)
    ensures Chained(replies, cursors) && Distinct(cursors) && |cursors| <= |universe| + 1
    ensures InventoryEnds(replies, cursors, replies(|cursors| - 1), r)
  {
    var receipts: seq<string> := [];
    var seen: set<string> := {};
    cursors := [""];
    while true
      invariant Collected(replies, cursors, seen, receipts) && seen <= universe
      invariant |cursors| <= |universe| + 1
      decreases |universe| + 1 - |cursors|
    {
      var page := replies(|cursors| - 1);
      CollectStep(replies, cursors, seen, receipts, page);
      if page.CursorFailure? { return None, cursors; }
      receipts := receipts + page.receipts;
      if !page.hasMore { return Some(receipts), cursors; }
      if page.nextCursor == "" || page.nextCursor in seen { return None, cursors; }
      FitsUniverse(cursors, seen, page.nextCursor, universe);
      seen := seen + {page.nextCursor};
      cursors := cursors + [page.nextCursor];
    }
  }

  // A ledger of several pages: each but the last hands out a cursor of its own to the next one.
  ghost predicate ServesReceipts(replies: nat -> CursorReply, pages: seq<seq<string>>, next: nat -> string) {
    && pages != []
    && (forall k :: 0 <= k < |pages| ==> replies(k) == CursorPage(pages[k], k + 1 < |pages|, next(k)))
    && (forall k: nat :: next(k) != "")
    && (forall i: nat, j: nat :: i < j ==> next(i) != next(j))
  }

  function Joined(pages: seq<seq<string>>): seq<string> {
    if pages == [] then [] else pages[0] + Joined(pages[1..])
  }

  lemma {:induction false} JoinedLast(pages: seq<seq<string>>, last: seq<string>)
    ensures Joined(pages + [last]) == Joined(pages) + last
  {
    if pages == [] {
      assert pages + [last] == [last] && [last][1..] == [];
    } else {
      assert (pages + [last])[1..] == pages[1..] + [last];
      JoinedLast(pages[1..], last);
    }
  }

  lemma {:induction false} ReceivedPages(
    replies: nat -> CursorReply, pages: seq<seq<string>>, next: nat -> string, n: nat)
    requires ServesReceipts(replies, pages, next) && n <= |pages|
    ensures Received(replies, n) == Joined(pages[..n])
  {
    if n > 0 {
      ReceivedPages(replies, pages, next, n - 1);
      assert pages[..n] == pages[..n - 1] + [pages[n - 1]];
      JoinedLast(pages[..n - 1], pages[n - 1]);
    }
  }

  /** Against any such ledger the reader returns all of its pages, in order, one request each. */
  lemma {:induction false} ReceiptReadRefinesLedger(
    replies: nat -> CursorReply, pages: seq<seq<string>>, next: nat -> string, cursors: seq<string>,
    r: Option<seq<string>>)
    requires ServesReceipts(replies, pages, next) && Chained(replies, cursors) && Distinct(cursors)
    requires InventoryEnds(replies, cursors, replies(|cursors| - 1), r)
    ensures |cursors| == |pages| && r == Some(Joined(pages))
  {
    WithinLedger(replies, pages, next, cursors, |cursors|);
    var m := |cursors|;
    assert m > 0 && next(m - 1) !in cursors by {
      forall k | 0 <= k < m ensures cursors[k] != next(m - 1) {
        if k > 0 { assert Continues(replies(k - 1), cursors[k]); }
      }
    }
    ReceivedPages(replies, pages, next, m);
    assert pages[..m] == pages;
  }

  lemma {:induction false} WithinLedger(
    replies: nat -> CursorReply, pages: seq<seq<string>>, next: nat -> string, cursors: seq<string>, n: nat)
    requires ServesReceipts(replies, pages, next) && Chained(replies, cursors) && n <= |cursors|
    ensures n <= |pages|
  {
    if n > 1 {
      WithinLedger(replies, pages, next, cursors, n - 1);
      assert Continues(replies(n - 2), cursors[n - 1]);
    }
  }

  ghost predicate Collected(
    replies: nat -> CursorReply, cursors: seq<string>, seen: set<string>, receipts: seq<string>) {
    Following(replies, cursors, seen) && receipts == Received(replies, |cursors| - 1)
  }

  // One iteration: either the run ends as the reply says, or one more cursor is followed.
  lemma {:induction false} CollectStep(
    replies: nat -> CursorReply, cursors: seq<string>, seen: set<string>, receipts: seq<string>, page: CursorReply)
    requires Collected(replies, cursors, seen, receipts) && page == replies(|cursors| - 1)
    ensures page.CursorFailure? ==> InventoryEnds(replies, cursors, page, None)
    ensures page.CursorPage? && !page.hasMore ==> InventoryEnds(replies, cursors, page, Some(receipts + page.receipts))
    ensures page.CursorPage? && page.hasMore && (page.nextCursor == "" || page.nextCursor in seen) ==>
      InventoryEnds(replies, cursors, page, None)
    ensures page.CursorPage? && page.hasMore && page.nextCursor != "" && page.nextCursor !in seen ==>
      Collected(replies, cursors + [page.nextCursor], seen + {page.nextCursor}, receipts + page.receipts)
  {
    if page.CursorPage? && page.hasMore && page.nextCursor != "" && page.nextCursor !in seen {
      CursorAppended(replies, cursors, seen, page.nextCursor);
      assert |cursors + [page.nextCursor]| - 1 == |cursors|;
    }
  }

  lemma {:induction false} FitsUniverse(cursors: seq<string>, seen: set<string>, c: string, universe: set<string>)
    requires |cursors| == |seen| + 1 && seen <= universe && c in universe && c !in seen
    ensures |cursors| + 1 <= |universe| + 1
  {
    SubsetSize(seen + {c}, universe);
  }

  ghost predicate Following(replies: nat -> CursorReply, cursors: seq<string>, seen: set<string>) {
    && Chained(replies, cursors) && Distinct(cursors) && |cursors| == |seen| + 1
    && "" !in seen && forall c :: c in cursors <==> c == "" || c in seen
  }

  lemma {:induction false} CursorAppended(
    replies: nat -> CursorReply, cursors: seq<string>, seen: set<string>, c: string)
    requires Following(replies, cursors, seen) && c != "" && c !in seen
    requires Continues(replies(|cursors| - 1), c)
    ensures Following(replies, cursors + [c], seen + {c})
  {
    assert c !in cursors;
    assert Chained(replies, cursors + [c]);
  }

  lemma {:induction false} SubsetSize(a: set<string>, b: set<string>)
    requires a <= b
    ensures |a| <= |b|
  {
    assert b == a + (b - a);
  }

  /******* Workspace DELETE continuation *******/

  datatype DeleteReply =
    | DeleteFailure
    | Done(payload: string)
    | Pending(
        status: string, phase: string, ownerStage: string, computeStatus: string, operationId: string,
        workspaceId: string, readback: Option<int>, maximum: Option<int>, retryAfter: string)

  datatype Continuation = Continuation(operationId: string, workspaceId: string, initialReadback: int,
    initialMaxReadbacks: int)

  predicate PendingOk(p: DeleteReply, e: Continuation, previous: int, maxReadbacks: int) {
    && p.Pending? && p.status == "pending" && p.phase == "storage_destroyed" && p.ownerStage == "compute"
    && p.computeStatus == "destroying" && p.operationId == e.operationId && p.workspaceId == e.workspaceId
    && p.readback.Some? && -MAX_SAFE <= p.readback.value <= MAX_SAFE && p.readback.value == previous + 1
    && p.maximum == Some(8) && (maxReadbacks == 0 || maxReadbacks == 8)
    && p.readback.value < 8 && p.retryAfter == "1"
  }

  function Max(a: int, b: int): int { if a < b then b else a }

  // The k-th reply is, field by field, the pending answer this loop goes on after: the next of at most seven readbacks.
  predicate AcceptedPending(server: nat -> DeleteReply, e: Continuation, k: nat) {
    var readback := e.initialReadback + k + 1;
    && server(k) == Pending("pending", "storage_destroyed", "compute", "destroying", e.operationId, e.workspaceId,
                            Some(readback), Some(8), "1")
    && -MAX_SAFE <= readback < 8 && (k == 0 ==> e.initialMaxReadbacks in {0, 8})
  }

  ghost predicate AllAccepted(server: nat -> DeleteReply, e: Continuation, n: nat) {
    forall k: nat :: k < n ==> AcceptedPending(server, e, k)
  }

  /**
   Ends on every response stream: from readback r at most max(1, 8 - r) requests go out, the accepted pendings
   are r + 1, r + 2, ... for the expected operation and workspace, and only a 200 payload is returned.
   */
  method ContinueWorkspaceDelete(server: nat -> DeleteReply, e: Continuation)
    returns (r: Option<string>, requests: nat)
    ensures 1 <= requests <= Max(1, 8 - e.initialReadback)
    ensures AllAccepted(server, e, requests - 1) && !AcceptedPending(server, e, requests - 1)
    ensures r == if server(requests - 1).Done? then Some(server(requests - 1).payload) else None
  {
    var previousReadback := e.initialReadback;
    var maxReadbacks := e.initialMaxReadbacks;
    requests := 0;
    while true
      invariant previousReadback == e.initialReadback + requests
      invariant maxReadbacks == if requests == 0 then e.initialMaxReadbacks else 8
      invariant requests > 0 ==> previousReadback < 8
      invariant AllAccepted(server, e, requests)
      decreases 8 - previousReadback
    {
      var reply := server(requests);
      assert AcceptedPending(server, e, requests) <==> PendingOk(reply, e, previousReadback, maxReadbacks);
      requests := requests + 1;
      if reply.DeleteFailure? { return None, requests; }
      if reply.Done? { return Some(reply.payload), requests; }
      if !PendingOk(reply, e, previousReadback, maxReadbacks) { return None, requests; }
      previousReadback := reply.readback.value;
      maxReadbacks := reply.maximum.value;
    }
  }
}
