/**
 The two ends of a debit: what the authority told its client, and what the qualification tool's live reader
 finds in the authority's balance history.
 */
module Confirmation {
  import opened Wrappers
  import opened Authority
  import opened AuthorityMachine
  import opened Readers
  import Decimal

  // How a page writes down times and amounts: `stamp` is the text of a time, and `shown` the text of the double that
  // Number(...) makes of a decimal text.
  datatype Display = Display(stamp: nat -> string, shown: string -> string)

  // One item of the balance history.
  function ItemOf(a: Adjustment, d: Display): HistoryItem {
    HistoryItem(a.code, "balance", d.shown(Decimal.UsdText(a.value)), "used", Decimal.NatText(QUALIFICATION_USER_ID),
      d.stamp(a.usedAt), d.stamp(a.usedAt))
  }

  // state.adjustments.slice().reverse().map(item)
  function Reversed(adjustments: seq<Adjustment>, item: Adjustment -> HistoryItem): seq<HistoryItem> {
    if adjustments == [] then []
    else [item(adjustments[|adjustments| - 1])] + Reversed(adjustments[..|adjustments| - 1], item)
  }

  function History(adjustments: seq<Adjustment>, d: Display): seq<HistoryItem> {
    Reversed(adjustments, a => ItemOf(a, d))
  }

  ghost predicate KeepsCode(item: Adjustment -> HistoryItem) { forall a :: item(a).code == a.code }

  ghost predicate OneCode(adjustments: seq<Adjustment>) {
    forall i, j :: 0 <= i < j < |adjustments| ==> adjustments[i].code != adjustments[j].code
  }

  lemma {:induction false} WithCodeCons(item: HistoryItem, rest: seq<HistoryItem>, code: string)
    ensures WithCode([item] + rest, code) == (if item.code == code then [item] else []) + WithCode(rest, code)
  {
    assert ([item] + rest)[1..] == rest;
  }

  lemma {:induction false} ReversedSize(adjustments: seq<Adjustment>, item: Adjustment -> HistoryItem)
    ensures |Reversed(adjustments, item)| == |adjustments|
  {
    if adjustments != [] { ReversedSize(adjustments[..|adjustments| - 1], item); }
  }

  lemma {:induction false} NotInReversed(adjustments: seq<Adjustment>, code: string, item: Adjustment -> HistoryItem)
    requires KeepsCode(item) && forall i :: 0 <= i < |adjustments| ==> adjustments[i].code != code
    ensures WithCode(Reversed(adjustments, item), code) == []
  {
    if adjustments != [] {
      var init, last := adjustments[..|adjustments| - 1], adjustments[|adjustments| - 1];
      WithCodeCons(item(last), Reversed(init, item), code);
      NotInReversed(init, code, item);
    }
  }

  // The history holds the one item of an adjustment under its code.
  lemma {:induction false} FoundInReversed(adjustments: seq<Adjustment>, k: nat, item: Adjustment -> HistoryItem)
    requires k < |adjustments| && OneCode(adjustments) && KeepsCode(item)
    ensures WithCode(Reversed(adjustments, item), adjustments[k].code) == [item(adjustments[k])]
  {
    var init, last, code := adjustments[..|adjustments| - 1], adjustments[|adjustments| - 1], adjustments[k].code;
    WithCodeCons(item(last), Reversed(init, item), code);
    if k < |init| {
      assert last.code != code && init[k] == adjustments[k];
      FoundInReversed(init, k, item);
    } else {
      NotInReversed(init, code, item);
    }
  }

  // The amount a page shows reads as the exact amount.
  predicate ReadsBack(value: int, d: Display) {
    Decimal.ParseLoose(d.shown(Decimal.UsdText(value))) == Some(Decimal.IntText(value))
  }

  // What the qualification tool looks for.
  function Looked(a: Adjustment): Wanted {
    Expected(a.code, Decimal.NatText(QUALIFICATION_USER_ID), Decimal.IntText(a.value))
  }

  /**
   End to end: after any schedule, take whatever redeem was answered with success and run the live reader against the
   authority's own pages of its history, looking for the adjustment's code, user and amount.  It ends after one
   request, and confirms if and only if the amount still reads back after the page turned it into a double.
   */
  lemma {:induction false} SuccessIsConfirmedIff(
    events: seq<Event>, u: Setup, i: nat, d: Display,
    server: nat -> HistoryReply, n: nat, r: Result<bool, ReadError>)
    requires u.config.initial >= 0 && forall t :: !Blank(d.stamp(t))
    requires var m := Run(Fresh(), events, u);
      i < |m.answers| && m.answers[i].RedeemAnswer? && m.answers[i].outcome.Success()
    requires var m := Run(Fresh(), events, u);
      m.disk.Some? ==> FixedList(server, History(m.disk.value.adjustments, d))
    requires Outcome(server, Looked(Run(Fresh(), events, u).answers[i].outcome.adjustment), n, r)
    ensures n == 1
    ensures r == Ok(true) <==> ReadsBack(Run(Fresh(), events, u).answers[i].outcome.adjustment.value, d)
  {
    RunKeepsInv(Fresh(), events, u);
    var m := Run(Fresh(), events, u);
    var a, all := m.answers[i].outcome.adjustment, m.disk.value.adjustments;
    assert AnswerBacked(m.answers[i], m.disk, u.hashes);
    var k :| 0 <= k < |all| && all[k] == a;
    GoodIsValidStored(m.disk.value, u.config, u.hashes);
    ReversedSize(all, a => ItemOf(a, d));
    FoundInReversed(all, k, a => ItemOf(a, d));
    ConfirmedHere(History(all, d), a, d, server, n, r);
  }

  lemma {:induction false} ItemConfirms(a: Adjustment, d: Display)
    requires !Blank(d.stamp(a.usedAt))
    ensures Confirms(ItemOf(a, d), a.code, Decimal.NatText(QUALIFICATION_USER_ID), Decimal.IntText(a.value))
      <==> ReadsBack(a.value, d)
  {
    Decimal.TrimIff(d.stamp(a.usedAt));
  }

  lemma {:induction false} ConfirmedHere(
    list: seq<HistoryItem>, a: Adjustment, d: Display,
    server: nat -> HistoryReply, n: nat, r: Result<bool, ReadError>)
    requires |list| <= 2 && FixedList(server, list) && WithCode(list, a.code) == [ItemOf(a, d)]
    requires !Blank(d.stamp(a.usedAt)) && Outcome(server, Looked(a), n, r)
    ensures n == 1 && (r == Ok(true) <==> ReadsBack(a.value, d))
  {
    ItemConfirms(a, d);
    ConfirmedIff(list, a.code, Decimal.NatText(QUALIFICATION_USER_ID), Decimal.IntText(a.value));
    HistoryReadRefinesScan(server, list, Looked(a), n, r);
    assert PageCount(|list|) == 1;
  }

  /** An amount shown as the decimal text of any amount is read back if and only if it is shown as itself. */
  lemma {:induction false} ShownAsIff(value: int, other: int, d: Display)
    requires other != 0 && d.shown(Decimal.UsdText(value)) == Decimal.UsdText(other)
    ensures ReadsBack(value, d) <==> value == other
  {
    Decimal.LooseReadsUsdText(other);
    if ReadsBack(value, d) { Decimal.IntTextInjective(value, other); }
  }

  const REFUND := 9_007_199_254_740_994

  // A start, and one refund request that meets no failure.
  function RefundRun(value: string): seq<Event> {
    [Boot(0, false)] + ([Arrive(RefundRequest(value))] + [Start(0), Rename, Swap])
  }

  function RefundRequest(value: string): Request {
    RedeemRequest(RedeemBody("r", "r", "balance", value, QUALIFICATION_USER_ID, ""))
  }

  /**
   A refund above the precision of doubles: it is applied and answered with success, but on a page that shows it as
   the neighbouring 9007199254.740993 it is not confirmed.
   */
  lemma {:induction false} RefundIsNotConfirmed(
    u: Setup, d: Display, server: nat -> HistoryReply, n: nat, r: Result<bool, ReadError>)
    requires u.config.initial >= 0 && forall t :: !Blank(d.stamp(t))
    requires d.shown("9007199254.740994") == "9007199254.740993"
    requires FixedList(server, History([RefundOf(u)], d)) && Outcome(server, Looked(RefundOf(u)), n, r)
    ensures Run(Fresh(), RefundRun("9007199254.740994"), u).answers
      == [RedeemAnswer(RefundRedeem(), Created(RefundOf(u)))]
    ensures r != Ok(true)
  {
    RefundTexts();
    RefundAnswered("9007199254.740994", u);
    ShownAsIff(REFUND, REFUND - 1, d);
    SuccessIsConfirmedIff(RefundRun("9007199254.740994"), u, 0, d, server, n, r);
  }

  function RefundRedeem(): Redeem { Redeem("r", "balance", REFUND, QUALIFICATION_USER_ID, "") }

  function RefundOf(u: Setup): Adjustment { Adjustment("r", REFUND, "", 0, u.hashes.redeem(RefundRedeem())) }

  lemma {:induction false} RefundTexts()
    ensures Decimal.UsdText(REFUND) == "9007199254.740994" && Decimal.UsdText(REFUND - 1) == "9007199254.740993"
  {
    WholeText();
    MicrosText();
    assert REFUND / Decimal.MICROS == (REFUND - 1) / Decimal.MICROS == 9_007_199_254;
    assert REFUND % Decimal.MICROS == 740_994 && (REFUND - 1) % Decimal.MICROS == 740_993;
  }

  lemma {:induction false} TwoDigits(n: nat, m: nat)
    requires n >= 1 && m < 100
    ensures Decimal.NatText(100 * n + m) == Decimal.NatText(n) + [Decimal.DigitOf(m / 10), Decimal.DigitOf(m % 10)]
  {
    assert (100 * n + m) / 10 == 10 * n + m / 10 && (100 * n + m) / 10 / 10 == n;
  }

  lemma {:induction false} WholeText()
    ensures Decimal.NatText(9_007_199_254) == "9007199254"
  {
    TwoDigits(90, 7);
    TwoDigits(9_007, 19);
    TwoDigits(900_719, 92);
    TwoDigits(90_071_992, 54);
  }

  lemma {:induction false} MicrosText()
    ensures Decimal.NatText(740_994) == "740994" && Decimal.NatText(740_993) == "740993"
  {
    TwoDigits(74, 9);
    TwoDigits(7_409, 94);
    TwoDigits(7_409, 93);
  }

  lemma {:induction false} RefundAdmitted(value: string)
    requires value == Decimal.UsdText(REFUND)
    ensures Admit(RefundRequest(value)) == Some(RedeemJob(RefundRedeem()))
  {
    Decimal.UsdTextRoundTrip(REFUND);
  }

  lemma {:induction false} RefundApplied(s: State, u: Setup)
    requires s.adjustments == [] && s.wallet >= 0
    ensures RedeemApply(s, RefundRedeem(), u.hashes, 0).1 == Created(RefundOf(u))
    ensures RedeemApply(s, RefundRedeem(), u.hashes, 0).0.adjustments == [RefundOf(u)]
  {
  }

  lemma {:induction false} RefundAnswered(value: string, u: Setup)
    requires u.config.initial >= 0 && value == Decimal.UsdText(REFUND)
    ensures var m := Run(Fresh(), RefundRun(value), u);
      && m.answers == [RedeemAnswer(RefundRedeem(), Created(RefundOf(u)))]
      && m.disk.Some? && m.disk.value.adjustments == [RefundOf(u)]
  {
    var s0 := InitialState(u.config, 0);
    var m0 := Machine(Some(s0), Up(s0, [], Idle), [], false);
    RefundAdmitted(value);
    RefundApplied(s0, u);
    RunCons(Fresh(), Boot(0, false), [Arrive(RefundRequest(value))] + [Start(0), Rename, Swap], u);
    OneJob(m0, RefundRequest(value), u, 0);
  }
}
