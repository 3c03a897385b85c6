/**
 The Sub2API authority fixture: its stored state, the three mutations, and the handler-side admission
 checks.  Times are milliseconds since the epoch and the request hash is an uninterpreted function.
 */
module Authority {
  import opened Wrappers
  import Decimal

  const QUALIFICATION_USER_ID := 41
  const GROUP_ID := 7
  const FIRST_KEY_ID := 700

  datatype KeyInput = KeyInput(
    name: string, groupId: int, quota: int, limit5h: int, limit1d: int, limit7d: int,
    ipWhitelist: seq<string>, ipBlacklist: seq<string>, expiresInDays: Option<int>)
  datatype Redeem = Redeem(code: string, kind: string, value: int, userId: int, notes: string)
  datatype Hashes = Hashes(key: KeyInput -> string, redeem: Redeem -> string)

  datatype Key = Key(id: int, input: KeyInput, createdAt: nat)
  datatype KeyRequest = KeyRequest(requestHash: string, keyId: int)
  datatype Adjustment = Adjustment(code: string, value: int, notes: string, usedAt: nat, requestHash: string)
  datatype Counts = Counts(keyCreates: int, keyDeletes: int, debits: int, refunds: int)
  datatype Config = Config(email: string, initial: int)

  datatype State = State(
    email: string, initial: int, wallet: int, updatedAt: nat,
    keys: seq<Key>, keyRequests: map<string, KeyRequest>, adjustments: seq<Adjustment>,
    counts: Counts, nextKeyId: int)

  datatype RedeemOutcome = Created(adjustment: Adjustment) | Replayed(adjustment: Adjustment)
    | PayloadConflict | IdentityConflict(code: string) | InsufficientBalance
  {
    predicate Success() { Created? || Replayed? }
  }

  // BadExpiry: the callback threw on a date without a text, so nothing is written.
  datatype KeyOutcome = KeyCreated(key: Key) | KeyReplayed(key: Key) | KeyConflict | BadExpiry {
    predicate Success() { KeyCreated? || KeyReplayed? }
  }

  function InitialState(c: Config, now: nat): State {
    State(c.email, c.initial, c.initial, now, [], map[], [], Counts(0, 0, 0, 0), FIRST_KEY_ID)
  }

  // validStoredState; the wallet is stored as its decimal text.
  predicate ValidStored(s: State, c: Config) {
    && s.email == c.email
    && s.initial == c.initial
    && Decimal.IntText(s.wallet) != "" && Decimal.AllDigits(Decimal.IntText(s.wallet))
    && |s.adjustments| <= 2
  }

  /******* Admission *******/

  // A create-and-redeem request after its body was parsed; `value` is the text of the JSON value.
  datatype RedeemBody = RedeemBody(idempotencyKey: string, code: string, kind: string, value: string, userId: int,
    notes: string)

  function AdmitRedeem(b: RedeemBody): (r: Result<Redeem, string>) {
    match Decimal.ParseStrict(b.value)
    case None => Err("invalid_redeem_value")
    case Some(micros) =>
      if b.code == "" || b.code != b.idempotencyKey || b.kind != "balance" || b.userId != QUALIFICATION_USER_ID
        || micros == 0
      then Err("invalid_redeem")
      else Ok(Redeem(b.code, b.kind, micros, b.userId, b.notes))
  }

  predicate AdmittedRedeem(r: Redeem) {
    r.code != "" && r.kind == "balance" && r.userId == QUALIFICATION_USER_ID && r.value != 0
  }

  /** Exactly the well-formed redeems are admitted, with the exact amount of the decimal text. */
  lemma {:induction false} AdmitRedeemIff(b: RedeemBody, r: Redeem)
    ensures AdmitRedeem(b) == Ok(r) <==>
      && AdmittedRedeem(r)
      && Decimal.ParseStrict(b.value) == Some(r.value)
      && b.idempotencyKey == r.code
      && b == RedeemBody(r.code, r.code, r.kind, b.value, r.userId, r.notes)
  {
  }

  predicate AdmittedKey(idempotencyKey: string, input: KeyInput) {
    && idempotencyKey != "" && input.name != "" && input.groupId == GROUP_ID
    && input.quota >= 0 && input.limit5h >= 0 && input.limit1d >= 0 && input.limit7d >= 0
  }

  /******* The mutations, as functions of the cloned state *******/

  // Names every plain JavaScript object answers to without having been given them.
  const INHERITED: set<string> := {
    "constructor", "hasOwnProperty", "isPrototypeOf", "propertyIsEnumerable", "toLocaleString", "toString", "valueOf",
    "__proto__", "__defineGetter__", "__defineSetter__", "__lookupGetter__", "__lookupSetter__"
  }

  const DAY_MS := 86_400_000
  const MAX_TIME := 8_640_000_000_000_000

  // The expiry date has a text.  For whole days the double arithmetic decides this exactly: a day is a multiple of
  // 2^10, so no product in question is rounded, and every integer up to the largest time is a double.
  predicate Dated(input: KeyInput, now: nat) {
    input.expiresInDays.Some? ==> -MAX_TIME <= now + input.expiresInDays.value * DAY_MS <= MAX_TIME
  }

  function FindKey(keys: seq<Key>, id: int): Option<Key> {
    if keys == [] then None else if keys[0].id == id then Some(keys[0]) else FindKey(keys[1..], id)
  }

  function KeyApply(s: State, idem: string, input: KeyInput, h: Hashes, now: nat): (State, KeyOutcome) {
    if idem in s.keyRequests then
      var prior := s.keyRequests[idem];
      match FindKey(s.keys, prior.keyId)
      case Some(k) => (s, if prior.requestHash == h.key(input) then KeyReplayed(k) else KeyConflict)
      case None => (s, KeyConflict)
    else if idem in INHERITED then (s, KeyConflict)
    else if !Dated(input, now) then (s, BadExpiry)
    else
      var id := s.nextKeyId + 1;
      var key := Key(id, input, now);
      (s.(nextKeyId := id, keys := s.keys + [key],
          keyRequests := s.keyRequests[idem := KeyRequest(h.key(input), id)],
          counts := s.counts.(keyCreates := s.counts.keyCreates + 1)),
       KeyCreated(key))
  }

  function RemoveKey(keys: seq<Key>, id: int): seq<Key> {
    if keys == [] then []
    else (if keys[0].id == id then [] else [keys[0]]) + RemoveKey(keys[1..], id)
  }

  function DeleteApply(s: State, id: int): State {
    s.(keys := RemoveKey(s.keys, id), counts := s.counts.(keyDeletes := s.counts.keyDeletes + 1))
  }

  function FindAdjustment(a: seq<Adjustment>, code: string): Option<Adjustment> {
    if a == [] then None else if a[0].code == code then Some(a[0]) else FindAdjustment(a[1..], code)
  }

  predicate IsDebit(value: int) { value < 0 }

  predicate HasKind(a: seq<Adjustment>, debit: bool) {
    exists i :: 0 <= i < |a| && IsDebit(a[i].value) == debit
  }

  function RedeemApply(s: State, r: Redeem, h: Hashes, now: nat): (State, RedeemOutcome) {
    match FindAdjustment(s.adjustments, r.code)
    case Some(prior) => (s, if prior.requestHash == h.redeem(r) then Replayed(prior) else PayloadConflict)
    case None =>
      var debit := IsDebit(r.value);
      if HasKind(s.adjustments, debit) then
        (s, IdentityConflict(if debit then "debit_identity_conflict" else "refund_identity_conflict"))
      else if s.wallet + r.value < 0 then (s, InsufficientBalance)
      else
        var a := Adjustment(r.code, r.value, r.notes, now, h.redeem(r));
        (s.(wallet := s.wallet + r.value, updatedAt := now, adjustments := s.adjustments + [a],
            counts := if debit then s.counts.(debits := s.counts.debits + 1)
              else s.counts.(refunds := s.counts.refunds + 1)),
         Created(a))
  }

  /******* What every state keeps *******/

  function Sum(a: seq<Adjustment>): int {
    if a == [] then 0 else Sum(a[..|a| - 1]) + a[|a| - 1].value
  }

  ghost predicate WalletGood(s: State, c: Config, h: Hashes) {
    && s.email == c.email && s.initial == c.initial
    && s.wallet == c.initial + Sum(s.adjustments)
    && s.wallet >= 0
    && (forall i, j :: 0 <= i < j < |s.adjustments| ==> s.adjustments[i].code != s.adjustments[j].code)
    && (forall i :: 0 <= i < |s.adjustments| ==> Recorded(s.adjustments[i], h))
    && s.counts.debits == (if HasKind(s.adjustments, true) then 1 else 0)
    && s.counts.refunds == (if HasKind(s.adjustments, false) then 1 else 0)
    && s.counts.debits + s.counts.refunds == |s.adjustments|
  }

  // The stored hash is the hash of the request the adjustment was made from.
  ghost predicate Recorded(a: Adjustment, h: Hashes) {
    a.requestHash == h.redeem(Redeem(a.code, "balance", a.value, QUALIFICATION_USER_ID, a.notes))
  }

  ghost predicate Increasing(keys: seq<Key>) {
    forall i, j :: 0 <= i < j < |keys| ==> keys[i].id < keys[j].id
  }

  ghost predicate KeyGood(s: State) {
    && s.nextKeyId == FIRST_KEY_ID + s.counts.keyCreates
    && s.counts.keyCreates == |s.keyRequests|
    && Increasing(s.keys)
    && (forall i :: 0 <= i < |s.keys| ==> FIRST_KEY_ID < s.keys[i].id <= s.nextKeyId)
    && (forall k :: k in s.keyRequests ==> FIRST_KEY_ID < s.keyRequests[k].keyId <= s.nextKeyId)
    && (forall k, l ::
      k in s.keyRequests && l in s.keyRequests && k != l ==> s.keyRequests[k].keyId != s.keyRequests[l].keyId)
    && s.keyRequests.Keys !! INHERITED
    && |s.keys| >= s.counts.keyCreates - s.counts.keyDeletes
  }

  ghost predicate Good(s: State, c: Config, h: Hashes) { WalletGood(s, c, h) && KeyGood(s) }

  ghost predicate HasId(keys: seq<Key>, id: int) {
    exists i :: 0 <= i < |keys| && keys[i].id == id
  }

  // t can come after s: nothing recorded is lost, and no key id at or below s.nextKeyId reappears.
  ghost predicate Later(s: State, t: State) {
    && s.adjustments <= t.adjustments
    && (forall k :: k in s.keyRequests ==> k in t.keyRequests && t.keyRequests[k] == s.keyRequests[k])
    && s.nextKeyId <= t.nextKeyId
    && (forall id :: id <= s.nextKeyId && HasId(t.keys, id) ==> HasId(s.keys, id))
    && s.counts.keyDeletes <= t.counts.keyDeletes
  }

  lemma {:induction false} LaterTransitive(s: State, t: State, u: State)
    requires Later(s, t) && Later(t, u)
    ensures Later(s, u)
  {
  }

  lemma {:induction false} LaterReflexive(s: State)
    ensures Later(s, s)
  {
  }

  lemma {:induction false} InitialGood(c: Config, h: Hashes, now: nat)
    requires c.initial >= 0
    ensures Good(InitialState(c, now), c, h)
  {
  }

  /** A state the machine can reach passes the check its own file gets at the next start. */
  lemma {:induction false} GoodIsValidStored(s: State, c: Config, h: Hashes)
    requires Good(s, c, h)
    ensures ValidStored(s, c)
  {
    Decimal.IntTextDigits(s.wallet);
  }

  /** A start takes a stored file exactly when it is its own: same owner and initial amount, and sound in itself. */
  lemma {:induction false} ValidStoredIff(s: State, c: Config)
    ensures ValidStored(s, c) <==>
      s.email == c.email && s.initial == c.initial && s.wallet >= 0 && |s.adjustments| <= 2
  {
    Decimal.IntTextDigits(s.wallet);
  }

  lemma {:induction false} FindAdjustmentIff(a: seq<Adjustment>, code: string)
    ensures FindAdjustment(a, code).None? <==> forall i :: 0 <= i < |a| ==> a[i].code != code
    ensures FindAdjustment(a, code).Some? ==>
      FindAdjustment(a, code).value in a && FindAdjustment(a, code).value.code == code
  {
    if a != [] {
      FindAdjustmentIff(a[1..], code);
      if a[0].code != code {
        assert forall i :: 0 <= i < |a| && a[i].code == code ==> i > 0 && a[1..][i - 1].code == code;
        assert forall i :: 0 <= i < |a[1..]| ==> a[1..][i] == a[i + 1];
      }
    }
  }

  lemma {:induction false} RedeemKeepsWallet(s: State, r: Redeem, h: Hashes, now: nat, c: Config)
    requires WalletGood(s, c, h) && AdmittedRedeem(r)
    ensures WalletGood(RedeemApply(s, r, h, now).0, c, h)
  {
    FindAdjustmentIff(s.adjustments, r.code);
    var t := RedeemApply(s, r, h, now).0;
    if t != s {
      assert t.adjustments[..|t.adjustments| - 1] == s.adjustments;
      AppendKind(s.adjustments, t.adjustments[|s.adjustments|], true);
      AppendKind(s.adjustments, t.adjustments[|s.adjustments|], false);
    }
  }

  lemma {:induction false} AppendKind(a: seq<Adjustment>, one: Adjustment, debit: bool)
    ensures HasKind(a + [one], debit) <==> HasKind(a, debit) || IsDebit(one.value) == debit
  {
    var all := a + [one];
    if HasKind(a, debit) {
      var i :| 0 <= i < |a| && IsDebit(a[i].value) == debit;
      assert IsDebit(all[i].value) == debit;
    }
    if IsDebit(one.value) == debit {
      assert IsDebit(all[|a|].value) == debit;
    }
  }

  lemma {:induction false} RedeemAnswers(s: State, r: Redeem, h: Hashes, now: nat)
    ensures var (t, out) := RedeemApply(s, r, h, now);
      out.Success() ==>
        out.adjustment in t.adjustments && out.adjustment.code == r.code && out.adjustment.requestHash == h.redeem(r)
  {
    FindAdjustmentIff(s.adjustments, r.code);
    var (t, out) := RedeemApply(s, r, h, now);
    if out.Created? {
      assert t.adjustments[|s.adjustments|] == out.adjustment;
    }
  }

  lemma {:induction false} RedeemSparesKeys(s: State, r: Redeem, h: Hashes, now: nat)
    ensures var t := RedeemApply(s, r, h, now).0;
      Later(s, t) && t.keys == s.keys && t.keyRequests == s.keyRequests && t.nextKeyId == s.nextKeyId
      && t.counts.keyCreates == s.counts.keyCreates && t.counts.keyDeletes == s.counts.keyDeletes
  {
  }

  /**
   A redeem keeps every invariant, loses nothing, and a success answer carries an adjustment on record for the
   request.
   */
  lemma {:induction false} RedeemKeeps(s: State, r: Redeem, h: Hashes, now: nat, c: Config)
    requires Good(s, c, h) && AdmittedRedeem(r)
    ensures var (t, out) := RedeemApply(s, r, h, now);
      Good(t, c, h) && Later(s, t) && t.keys == s.keys && t.counts.keyCreates == s.counts.keyCreates
      && t.counts.keyDeletes == s.counts.keyDeletes
      && (out.Success() ==>
        && out.adjustment in t.adjustments
        && out.adjustment.code == r.code
        && out.adjustment.requestHash == h.redeem(r))
  {
    var t := RedeemApply(s, r, h, now).0;
    RedeemAnswers(s, r, h, now);
    RedeemSparesKeys(s, r, h, now);
    assert WalletGood(t, c, h) by { RedeemKeepsWallet(s, r, h, now, c); }
    assert KeyGood(t) by { SameKeysGood(s, t); }
  }

  // What must be answered to a redeem in a state whose codes are distinct, in terms of the state alone.
  ghost predicate OutcomeFits(s: State, r: Redeem, h: Hashes, out: RedeemOutcome) {
    var stored := exists i :: 0 <= i < |s.adjustments| && s.adjustments[i].code == r.code;
    var sent := exists i :: 0 <= i < |s.adjustments| && SentBefore(s.adjustments[i], r, h);
    var taken := exists i :: 0 <= i < |s.adjustments| && SameSign(s.adjustments[i].value, r.value);
    && (out.Created? <==> !stored && !taken && s.wallet + r.value >= 0)
    && (out.Replayed? <==> sent)
    && (out.PayloadConflict? <==> stored && !sent)
    && (out.IdentityConflict? <==> !stored && taken)
    && (out.InsufficientBalance? <==> !stored && !taken && s.wallet + r.value < 0)
    && (out.Replayed? ==> out.adjustment in s.adjustments && out.adjustment.code == r.code)
    && (out.IdentityConflict? ==>
      out.code == if r.value < 0 then "debit_identity_conflict" else "refund_identity_conflict")
  }

  predicate SentBefore(a: Adjustment, r: Redeem, h: Hashes) { a.code == r.code && a.requestHash == h.redeem(r) }

  predicate SameSign(a: int, b: int) { a < 0 <==> b < 0 }

  // What a redeem stores: on a creation the request itself, otherwise nothing.
  ghost predicate Stores(s: State, r: Redeem, h: Hashes, now: nat, t: State, out: RedeemOutcome) {
    if out.Created? then
      && out.adjustment == Adjustment(r.code, r.value, r.notes, now, h.redeem(r))
      && t.adjustments == s.adjustments + [out.adjustment] && t.wallet == s.wallet + r.value && t.updatedAt == now
      && t.counts.debits - s.counts.debits == (if r.value < 0 then 1 else 0)
      && t.counts.refunds - s.counts.refunds == (if r.value < 0 then 0 else 1)
      && t.keys == s.keys && t.keyRequests == s.keyRequests && t.nextKeyId == s.nextKeyId
    else t == s
  }

  /**
   When a redeem succeeds: created exactly when its code is new, its side is free and the wallet covers it; replayed
   exactly when it was sent before; and each refusal exactly in its own case.
   */
  lemma {:induction false} RedeemOutcomeIff(s: State, r: Redeem, h: Hashes, now: nat, c: Config)
    requires WalletGood(s, c, h)
    ensures var (t, out) := RedeemApply(s, r, h, now); OutcomeFits(s, r, h, out) && Stores(s, r, h, now, t, out)
  {
    FindAdjustmentIff(s.adjustments, r.code);
    KindIff(s.adjustments, r.value);
    var found := FindAdjustment(s.adjustments, r.code);
    if found.Some? {
      var k :| 0 <= k < |s.adjustments| && s.adjustments[k] == found.value;
      assert forall i :: 0 <= i < |s.adjustments| && s.adjustments[i].code == r.code ==> i == k;
      if found.value.requestHash == h.redeem(r) { assert SentBefore(s.adjustments[k], r, h); }
    }
  }

  lemma {:induction false} KindIff(a: seq<Adjustment>, value: int)
    ensures HasKind(a, IsDebit(value)) <==> exists i :: 0 <= i < |a| && SameSign(a[i].value, value)
  {
    if HasKind(a, IsDebit(value)) {
      var i :| 0 <= i < |a| && IsDebit(a[i].value) == IsDebit(value);
      assert SameSign(a[i].value, value);
    }
    if i :| 0 <= i < |a| && SameSign(a[i].value, value) {
      assert IsDebit(a[i].value) == IsDebit(value);
    }
  }

  lemma {:induction false} SameKeysGood(s: State, t: State)
    requires KeyGood(s) && t.keys == s.keys && t.keyRequests == s.keyRequests && t.nextKeyId == s.nextKeyId
    requires t.counts.keyCreates == s.counts.keyCreates && t.counts.keyDeletes == s.counts.keyDeletes
    ensures KeyGood(t)
  {
  }

  lemma {:induction false} FindKeyIff(keys: seq<Key>, id: int)
    ensures FindKey(keys, id).Some? <==> HasId(keys, id)
    ensures FindKey(keys, id).Some? ==> FindKey(keys, id).value.id == id
  {
    if keys != [] {
      FindKeyIff(keys[1..], id);
      if HasId(keys[1..], id) {
        var i :| 0 <= i < |keys[1..]| && keys[1..][i].id == id;
        assert keys[i + 1].id == id;
      }
      if HasId(keys, id) && keys[0].id != id {
        var i :| 0 <= i < |keys| && keys[i].id == id;
        assert keys[1..][i - 1].id == id;
      }
    }
  }

  lemma {:induction false} AppendHasId(keys: seq<Key>, key: Key, id: int)
    ensures HasId(keys + [key], id) <==> HasId(keys, id) || key.id == id
  {
    var all := keys + [key];
    if HasId(keys, id) {
      var i :| 0 <= i < |keys| && keys[i].id == id;
      assert all[i].id == id;
    }
    if key.id == id {
      assert all[|keys|].id == id;
    }
    if HasId(all, id) && key.id != id {
      var i :| 0 <= i < |all| && all[i].id == id;
      assert keys[i].id == id;
    }
  }

  lemma {:induction false} RequestAdded(requests: map<string, KeyRequest>, idem: string, r: KeyRequest)
    requires idem !in requests && idem !in INHERITED && requests.Keys !! INHERITED
    ensures |requests[idem := r]| == |requests| + 1 && requests[idem := r].Keys !! INHERITED
  {
    assert requests[idem := r].Keys == requests.Keys + {idem};
  }

  lemma {:induction false} CreateKeeps(s: State, idem: string, input: KeyInput, h: Hashes, now: nat)
    requires KeyGood(s) && idem !in s.keyRequests && idem !in INHERITED && Dated(input, now)
    ensures var t := KeyApply(s, idem, input, h, now).0;
      KeyGood(t) && Later(s, t) && |t.keys| == |s.keys| + 1 && t.counts.keyCreates == s.counts.keyCreates + 1
      && forall id :: HasId(s.keys, id) ==> HasId(t.keys, id)
  {
    var (t, out) := KeyApply(s, idem, input, h, now);
    RequestAdded(s.keyRequests, idem, KeyRequest(h.key(input), s.nextKeyId + 1));
    forall id ensures HasId(t.keys, id) <==> HasId(s.keys, id) || id == out.key.id {
      AppendHasId(s.keys, out.key, id);
    }
  }

  /**
   Creating or replaying a key keeps every invariant and loses nothing; a success answer names the key bound to
   the idempotency key.
   */
  lemma {:induction false} KeyKeeps(s: State, idem: string, input: KeyInput, h: Hashes, now: nat, c: Config)
    requires Good(s, c, h)
    ensures var (t, out) := KeyApply(s, idem, input, h, now);
      Good(t, c, h) && Later(s, t)
      && |t.keys| - t.counts.keyCreates == |s.keys| - s.counts.keyCreates && t.counts.keyDeletes == s.counts.keyDeletes
      && (forall id :: HasId(s.keys, id) ==> HasId(t.keys, id))
      && (out.Success() ==> idem in t.keyRequests && t.keyRequests[idem] == KeyRequest(h.key(input), out.key.id))
  {
    if idem in s.keyRequests {
      FindKeyIff(s.keys, s.keyRequests[idem].keyId);
    } else if idem !in INHERITED && Dated(input, now) {
      CreateKeeps(s, idem, input, h, now);
    }
  }

  lemma {:induction false} RemoveKeyMembers(keys: seq<Key>, id: int)
    ensures forall k :: k in RemoveKey(keys, id) <==> k in keys && k.id != id
  {
    if keys != [] {
      RemoveKeyMembers(keys[1..], id);
      assert keys == [keys[0]] + keys[1..];
    }
  }

  lemma {:induction false} RemoveKeyIncreasing(keys: seq<Key>, id: int)
    requires Increasing(keys)
    ensures Increasing(RemoveKey(keys, id))
  {
    if keys != [] {
      var rest := RemoveKey(keys[1..], id);
      RemoveKeyIncreasing(keys[1..], id);
      forall i | 0 <= i < |rest| ensures keys[0].id < rest[i].id {
        RemoveKeyMembers(keys[1..], id);
        assert rest[i] in keys[1..];
        var j :| 0 <= j < |keys[1..]| && keys[1..][j] == rest[i];
        assert keys[j + 1] == rest[i];
      }
      ConsIncreasing(keys[0], rest);
    }
  }

  lemma {:induction false} ConsIncreasing(key: Key, rest: seq<Key>)
    requires Increasing(rest) && forall i :: 0 <= i < |rest| ==> key.id < rest[i].id
    ensures Increasing([key] + rest)
  {
  }

  lemma {:induction false} RemoveKeySize(keys: seq<Key>, id: int)
    requires Increasing(keys)
    ensures |RemoveKey(keys, id)| == if HasId(keys, id) then |keys| - 1 else |keys|
  {
    if keys != [] {
      RemoveKeySize(keys[1..], id);
      HasIdCons(keys, id);
      HeadIdIsUnique(keys);
    }
  }

  lemma {:induction false} HeadIdIsUnique(keys: seq<Key>)
    requires Increasing(keys) && keys != []
    ensures !HasId(keys[1..], keys[0].id)
  {
    forall j | 0 <= j < |keys[1..]| ensures keys[1..][j].id != keys[0].id {
      assert keys[0].id < keys[j + 1].id;
    }
  }

  lemma {:induction false} HasIdCons(keys: seq<Key>, id: int)
    requires keys != []
    ensures HasId(keys, id) <==> keys[0].id == id || HasId(keys[1..], id)
  {
    FindKeyIff(keys, id);
    FindKeyIff(keys[1..], id);
  }

  lemma {:induction false} HasIdMember(keys: seq<Key>, id: int)
    ensures HasId(keys, id) <==> exists k :: k in keys && k.id == id
  {
    if HasId(keys, id) {
      var i :| 0 <= i < |keys| && keys[i].id == id;
      assert keys[i] in keys;
    }
    if k :| k in keys && k.id == id {
      var i :| 0 <= i < |keys| && keys[i] == k;
    }
  }

  /** Deleting keeps every invariant; it removes exactly the named key, and exactly one key when it is there. */
  lemma {:induction false} DeleteKeeps(s: State, id: int, c: Config, h: Hashes)
    requires Good(s, c, h)
    ensures var t := DeleteApply(s, id);
      Good(t, c, h) && Later(s, t) && t.counts.keyCreates == s.counts.keyCreates
        && t.counts.keyDeletes == s.counts.keyDeletes + 1
      && |t.keys| == (if HasId(s.keys, id) then |s.keys| - 1 else |s.keys|)
      && forall other :: HasId(t.keys, other) <==> HasId(s.keys, other) && other != id
  {
    var t := DeleteApply(s, id);
    RemoveKeyIncreasing(s.keys, id);
    RemoveKeyMembers(s.keys, id);
    RemoveKeySize(s.keys, id);
    forall other ensures HasId(t.keys, other) <==> HasId(s.keys, other) && other != id {
      HasIdMember(t.keys, other);
      HasIdMember(s.keys, other);
    }
    forall i | 0 <= i < |t.keys| ensures FIRST_KEY_ID < t.keys[i].id <= t.nextKeyId {
      assert t.keys[i] in s.keys;
      var j :| 0 <= j < |s.keys| && s.keys[j] == t.keys[i];
    }
  }

  /******* Idempotency *******/

  /** Re-sending an applied code and payload changes nothing and answers with the same adjustment. */
  lemma {:induction false} RedeemIsIdempotent(
    s: State, r: Redeem, h: Hashes, now: nat, later: State, again: nat, c: Config)
    requires Good(s, c, h) && AdmittedRedeem(r) && RedeemApply(s, r, h, now).1.Success()
    requires Good(later, c, h) && Later(RedeemApply(s, r, h, now).0, later)
    ensures RedeemApply(later, r, h, again) == (later, Replayed(RedeemApply(s, r, h, now).1.adjustment))
  {
    RedeemKeeps(s, r, h, now, c);
    var (t, out) := RedeemApply(s, r, h, now);
    var i :| 0 <= i < |t.adjustments| && t.adjustments[i] == out.adjustment;
    assert later.adjustments[i] == out.adjustment;
    FindAdjustmentIff(later.adjustments, r.code);
    var found := FindAdjustment(later.adjustments, r.code).value;
    var j :| 0 <= j < |later.adjustments| && later.adjustments[j] == found;
    assert i == j;
  }

  // The name is bound to a live key under the same hash, or it is unbound, not a name every object inherits, and the
  // expiry is a date.
  ghost predicate Creatable(s: State, idem: string, input: KeyInput, h: Hashes, now: nat) {
    if idem in s.keyRequests then
      s.keyRequests[idem].requestHash == h.key(input) && HasId(s.keys, s.keyRequests[idem].keyId)
    else idem !in INHERITED && Dated(input, now)
  }

  // What must be answered to a create, in terms of the state alone.
  ghost predicate KeyOutcomeFits(s: State, idem: string, input: KeyInput, h: Hashes, now: nat, out: KeyOutcome) {
    var bound, free := idem in s.keyRequests, idem !in s.keyRequests && idem !in INHERITED;
    && (out.KeyCreated? <==> free && Dated(input, now))
    && (out.BadExpiry? <==> free && !Dated(input, now))
    && (out.KeyReplayed? <==> bound && Creatable(s, idem, input, h, now))
    && (out.KeyConflict? <==> !free && !(bound && Creatable(s, idem, input, h, now)))
    && (out.KeyCreated? ==> out.key == Key(s.nextKeyId + 1, input, now))
    && (out.KeyReplayed? ==> out.key in s.keys && out.key.id == s.keyRequests[idem].keyId)
  }

  // What a create stores: on a creation the key and its binding, otherwise nothing.
  ghost predicate KeyStores(s: State, idem: string, input: KeyInput, h: Hashes, t: State, out: KeyOutcome) {
    if out.KeyCreated? then
      && t.keys == s.keys + [out.key] && t.nextKeyId == out.key.id
      && t.keyRequests == s.keyRequests[idem := KeyRequest(h.key(input), out.key.id)]
      && t.counts == s.counts.(keyCreates := s.counts.keyCreates + 1)
      && t.adjustments == s.adjustments && t.wallet == s.wallet
    else t == s
  }

  /** Each answer to a create is given exactly in its own case, and only a creation stores anything. */
  lemma {:induction false} KeyOutcomeIff(s: State, idem: string, input: KeyInput, h: Hashes, now: nat)
    ensures var (t, out) := KeyApply(s, idem, input, h, now);
      KeyOutcomeFits(s, idem, input, h, now, out) && KeyStores(s, idem, input, h, t, out)
  {
    if idem in s.keyRequests {
      FindKeyIff(s.keys, s.keyRequests[idem].keyId);
      FindKeyMember(s.keys, s.keyRequests[idem].keyId);
    }
  }

  lemma {:induction false} FindKeyMember(keys: seq<Key>, id: int)
    ensures FindKey(keys, id).Some? ==> FindKey(keys, id).value in keys
  {
    if keys != [] { FindKeyMember(keys[1..], id); }
  }

  /** Once a created key is gone, its idempotency key answers conflict in every later state. */
  lemma {:induction false} DeletedKeyConflictsForever(
    s: State, later: State, idem: string, input: KeyInput, h: Hashes, now: nat, c: Config)
    requires Good(s, c, h) && Later(s, later)
    requires idem in s.keyRequests && !HasId(s.keys, s.keyRequests[idem].keyId)
    ensures KeyApply(later, idem, input, h, now) == (later, KeyConflict)
  {
    FindKeyIff(later.keys, s.keyRequests[idem].keyId);
  }
}
