/**
 What a failed live run does with the evidence of a submitted purchase: the readback summary, the
 disposition and the cleanup plan.  Counters are JavaScript numbers, so sums round to doubles.
 */
module Recovery {
  import opened Wrappers

  const TWO52 := 0x10_0000_0000_0000
  const TWO53 := 0x20_0000_0000_0000
  const MAX_SAFE := 0x1F_FFFF_FFFF_FFFF

  /******* Adding non-negative integers the way doubles do *******/

  // The spacing of doubles around n.
  function Ulp(n: nat): (u: nat)
    ensures u >= 1
    ensures n < TWO53 ==> u == 1
    ensures n >= TWO53 ==> u >= 2 && u * TWO52 <= n
    ensures n < u * TWO53 && PowerOfTwo(u)
  {
    if n < TWO53 then 1 else
      var half := Ulp(n / 2);
      assert n / 2 >= TWO52;
      assert n / 2 < TWO53 ==> half == 1;
      2 * half
  }

  predicate PowerOfTwo(u: nat) { u == 1 || (u > 1 && u % 2 == 0 && PowerOfTwo(u / 2)) }

  // Round to the nearest multiple of the spacing, ties to even.
  function Round(n: nat): nat {
    var u := Ulp(n);
    var q, r := n / u, n % u;
    if 2 * r < u || (2 * r == u && q % 2 == 0) then q * u else (q + 1) * u
  }

  function JsAdd(a: nat, b: nat): nat { Round(a + b) }

  lemma {:induction false} QuotientAtLeast(n: nat, u: nat, t: nat)
    requires u > 0 && u * t <= n
    ensures n / u >= t
  {
    var q := n / u;
    assert n == q * u + n % u;
    assert q * u + u == (q + 1) * u;
    assert t * u < (q + 1) * u;
    CancelFactor(t, q + 1, u);
  }

  lemma {:induction false} CancelFactor(a: nat, b: nat, u: nat)
    requires a * u < b * u
    ensures a < b
  {
    assert (b - a) * u == b * u - a * u;
  }

  lemma {:induction false} AtLeastDouble(q: nat, u: nat)
    requires u >= 2
    ensures q * u >= 2 * q && (q + 1) * u >= 2 * q
  {
    assert q * u == q * 2 + q * (u - 2);
    assert (q + 1) * u == q * u + u;
  }

  lemma {:induction false} QuotientBound(n: nat, u: nat)
    requires u >= 2 && u * TWO52 <= n
    ensures n / u * u >= TWO53 && (n / u + 1) * u >= TWO53
  {
    var t := TWO52;
    QuotientAtLeast(n, u, t);
    AtLeastDouble(n / u, u);
  }

  // A multiple of u at most half of u away from n, the even multiple half way.
  predicate IsNearest(n: nat, u: nat, r: nat)
    requires u > 0
  {
    r % u == 0 && 2 * n - u <= 2 * r <= 2 * n + u && (2 * r == 2 * n + u || 2 * r + u == 2 * n ==> r / u % 2 == 0)
  }

  /** The sum is rounded to the nearest multiple of the spacing, the power of two that leaves 53 binary digits. */
  lemma {:induction false} RoundsToNearest(n: nat)
    ensures var u := Ulp(n); PowerOfTwo(u) && (u > 1 ==> u * TWO52 <= n) && n < u * TWO53
    ensures IsNearest(n, Ulp(n), Round(n))
  {
    NearestQuotient(n, Ulp(n));
  }

  lemma {:induction false} NearestQuotient(n: nat, u: nat)
    requires u > 0
    ensures var q, r := n / u, n % u;
      IsNearest(n, u, if 2 * r < u || (2 * r == u && q % 2 == 0) then q * u else (q + 1) * u)
  {
    assert n == n / u * u + n % u;
    Nearest(n, u, n / u, n % u);
  }

  lemma {:induction false} Nearest(n: nat, u: nat, q: nat, r: nat)
    requires u > 0 && n == q * u + r && r < u
    ensures IsNearest(n, u, if 2 * r < u || (2 * r == u && q % 2 == 0) then q * u else (q + 1) * u)
  {
    var low, high := q * u, (q + 1) * u;
    assert high == low + u;
    MultipleOf(q, u);
    MultipleOf(q + 1, u);
  }

  lemma {:induction false} MultipleOf(q: nat, u: nat)
    requires u > 0
    ensures q * u % u == 0 && q * u / u == q
  {
    QuotientAtLeast(q * u, u, q);
    var p := q * u / u;
    assert q * u == p * u + q * u % u;
    assert (q + 1) * u == q * u + u;
    CancelFactor(p, q + 1, u);
  }

  /** Sums below 2^53 are exact, and a sum that reaches 2^53 never reads as a safe integer. */
  lemma {:induction false} RoundIff(n: nat)
    ensures n < TWO53 ==> Round(n) == n
    ensures n >= TWO53 ==> Round(n) >= TWO53
  {
    if n >= TWO53 {
      QuotientBound(n, Ulp(n));
    }
  }

  /******* Raw readback values *******/

  // A field that should be a count: missing or null, an integer, or anything else.
  datatype RawCount = Nullish | Int(n: int) | OtherCount
  datatype RawText = Absent | Txt(s: string) | OtherText

  function RequireCount(c: RawCount): Option<nat> {
    if c.Int? && 0 <= c.n <= MAX_SAFE then Some(c.n) else None
  }

  function DefaultZero(c: RawCount): RawCount { if c.Nullish? then Int(0) else c }

  datatype RawAttempt = RawAttempt(
    attempted: RawCount, confirmed: RawCount, unknown: RawCount, max: RawCount,
    pendingReadbacks: RawCount, maxPendingReadbacks: RawCount, status: RawText, idempotencyKey: RawText)

  datatype Attempt = Attempt(
    attempted: nat, confirmed: nat, unknown: nat, max: nat, status: string, idempotencyKeyDigest: Option<string>,
    pendingReadbacks: nat, maxPendingReadbacks: nat)

  function TextOr(t: RawText): string { if t.Txt? then t.s else "" }

  function NormalizeAttempt(a: RawAttempt, digest: string -> string): Option<Attempt> {
    match (RequireCount(a.attempted), RequireCount(a.confirmed), RequireCount(a.unknown), RequireCount(a.max),
           RequireCount(DefaultZero(a.pendingReadbacks)), RequireCount(DefaultZero(a.maxPendingReadbacks)))
    case (Some(attempted), Some(confirmed), Some(unknown), Some(max), Some(pending), Some(maxPending)) =>
      var key := TextOr(a.idempotencyKey);
      if attempted > max || JsAdd(confirmed, unknown) > attempted || pending > maxPending
         || (attempted > 0 && key == "") || a.status.OtherText? || a.idempotencyKey.OtherText?
      then None
      else Some(Attempt(attempted, confirmed, unknown, max, TextOr(a.status),
          if key == "" then None else Some(digest(key)), pending, maxPending))
    case _ => None
  }

  predicate SafeCount(c: RawCount) { c.Int? && 0 <= c.n <= MAX_SAFE }

  // A count that may be missing, and is then zero.
  predicate ReadsAs(c: RawCount, n: nat) { c == Int(n) || (c.Nullish? && n == 0) }

  // The counters, texts and bounds a stage must have, on the readback's own fields.
  ghost predicate WellCounted(a: RawAttempt) {
    && SafeCount(a.attempted) && SafeCount(a.confirmed) && SafeCount(a.unknown) && SafeCount(a.max)
    && a.confirmed.n + a.unknown.n <= a.attempted.n <= a.max.n
    && (exists pending: nat, max: nat ::
      && pending <= max <= MAX_SAFE && ReadsAs(a.pendingReadbacks, pending) && ReadsAs(a.maxPendingReadbacks, max))
    && !a.status.OtherText? && !a.idempotencyKey.OtherText?
    && (a.attempted.n > 0 ==> a.idempotencyKey.Txt? && a.idempotencyKey.s != "")
  }

  // The normal form says what the readback said, under the same names; the key only by its digest.
  predicate SaysTheSame(a: RawAttempt, t: Attempt, digest: string -> string) {
    && a.attempted == Int(t.attempted) && a.confirmed == Int(t.confirmed) && a.unknown == Int(t.unknown)
    && a.max == Int(t.max)
    && ReadsAs(a.pendingReadbacks, t.pendingReadbacks) && ReadsAs(a.maxPendingReadbacks, t.maxPendingReadbacks)
    && (a.status == Txt(t.status) || (a.status.Absent? && t.status == ""))
    && (t.idempotencyKeyDigest.None? <==> a.idempotencyKey.Absent? || a.idempotencyKey == Txt(""))
    && (t.idempotencyKeyDigest.Some? ==>
      a.idempotencyKey.Txt? && t.idempotencyKeyDigest.value == digest(a.idempotencyKey.s))
  }

  /** A stage is accepted exactly when its own fields are well counted, and its normal form says the same. */
  lemma {:induction false} NormalizeIff(a: RawAttempt, digest: string -> string)
    ensures NormalizeAttempt(a, digest).Some? <==> WellCounted(a)
    ensures NormalizeAttempt(a, digest).Some? ==> SaysTheSame(a, NormalizeAttempt(a, digest).value, digest)
  {
    if SafeCount(a.confirmed) && SafeCount(a.unknown) { RoundIff(a.confirmed.n + a.unknown.n); }
    if NormalizeAttempt(a, digest).Some? {
      var t := NormalizeAttempt(a, digest).value;
      assert ReadsAs(a.pendingReadbacks, t.pendingReadbacks) && ReadsAs(a.maxPendingReadbacks, t.maxPendingReadbacks);
    }
  }

  datatype Stage = Key | Debit | Compute | Storage | Attachment | Secret | Runtime | Activation | Receipt

  const ATTEMPT_STAGES := [Key, Debit, Compute, Storage, Attachment, Secret, Runtime, Activation, Receipt]
  const PROVIDER_STAGES := [Compute, Storage, Attachment, Secret, Runtime]
  const LAUNCH_STAGES := ["key", "debit", "ensure_compute_allocation", "storage", "attachment", "secret", "runtime",
    "activation", "receipt", "succeeded"]

  datatype Launch = Launch(
    operationId: string, workspaceId: string, schemaVersion: RawCount, version: RawCount,
    status: RawText, stage: string, budgets: map<Stage, RawAttempt>)

  datatype WriteCount = WriteCount(attempted: nat, confirmed: nat, unknown: nat)
  datatype ExternalWrites = ExternalWrites(
    workspaceCreates: WriteCount, keyCreates: WriteCount, debits: WriteCount,
    providerMutations: WriteCount, purchaseReceipts: WriteCount)

  datatype Summary = Summary(launch: Launch, attempts: map<Stage, Attempt>, externalWrites: ExternalWrites)

  const NO_WRITES := WriteCount(0, 0, 0)
  const NO_EXTERNAL_WRITES := ExternalWrites(NO_WRITES, NO_WRITES, NO_WRITES, NO_WRITES, NO_WRITES)

  function CountsOf(a: Attempt): WriteCount { WriteCount(a.attempted, a.confirmed, a.unknown) }

  function AddCounts(w: WriteCount, a: Attempt): WriteCount {
    WriteCount(JsAdd(w.attempted, a.attempted), JsAdd(w.confirmed, a.confirmed), JsAdd(w.unknown, a.unknown))
  }

  // providerStages.reduce(...)
  function ProviderCount(attempts: map<Stage, Attempt>, stages: seq<Stage>, acc: WriteCount): WriteCount
    requires forall i :: 0 <= i < |stages| ==> stages[i] in attempts
  {
    if stages == [] then acc else ProviderCount(attempts, stages[1..], AddCounts(acc, attempts[stages[0]]))
  }

  predicate Identified(l: Launch) {
    && l.operationId != "" && l.workspaceId != ""
    && RequireCount(l.schemaVersion).Some? && l.schemaVersion.n > 0
    && RequireCount(l.version).Some? && l.version.n > 0
    && l.status.Txt? && l.stage in LAUNCH_STAGES
  }

  predicate Complete(attempts: map<Stage, Attempt>) {
    forall i :: 0 <= i < |ATTEMPT_STAGES| ==> ATTEMPT_STAGES[i] in attempts
  }

  lemma {:induction false} CompleteHas(attempts: map<Stage, Attempt>, s: Stage)
    requires Complete(attempts)
    ensures s in attempts
  {
    assert ATTEMPT_STAGES[0] in attempts && ATTEMPT_STAGES[1] in attempts && ATTEMPT_STAGES[2] in attempts
        && ATTEMPT_STAGES[3] in attempts && ATTEMPT_STAGES[4] in attempts && ATTEMPT_STAGES[5] in attempts
        && ATTEMPT_STAGES[6] in attempts && ATTEMPT_STAGES[7] in attempts && ATTEMPT_STAGES[8] in attempts;
  }

  function ProviderWrites(attempts: map<Stage, Attempt>): WriteCount
    requires Complete(attempts)
  {
    ProviderStagesIn(attempts);
    ProviderCount(attempts, PROVIDER_STAGES, NO_WRITES)
  }

  function WritesOf(attempts: map<Stage, Attempt>, launchSubmitted: bool): ExternalWrites
    requires Complete(attempts)
  {
    CompleteHas(attempts, Key);
    CompleteHas(attempts, Debit);
    CompleteHas(attempts, Receipt);
    ExternalWrites(
      if launchSubmitted then WriteCount(1, 1, 0) else NO_WRITES,
      CountsOf(attempts[Key]), CountsOf(attempts[Debit]),
      ProviderWrites(attempts), CountsOf(attempts[Receipt]))
  }

  lemma {:induction false} ProviderStagesIn(attempts: map<Stage, Attempt>)
    requires Complete(attempts)
    ensures forall i :: 0 <= i < |PROVIDER_STAGES| ==> PROVIDER_STAGES[i] in attempts
  {
    forall i | 0 <= i < |PROVIDER_STAGES| ensures PROVIDER_STAGES[i] in attempts {
      CompleteHas(attempts, PROVIDER_STAGES[i]);
    }
  }

  // The readback is accepted when it identifies a launch and every stage normalises.
  predicate Accepted(l: Launch, digest: string -> string) {
    Identified(l) && forall i :: 0 <= i < |ATTEMPT_STAGES| ==> StageOk(l, ATTEMPT_STAGES[i], digest)
  }

  predicate StageOk(l: Launch, s: Stage, digest: string -> string) {
    s in l.budgets && NormalizeAttempt(l.budgets[s], digest).Some?
  }

  /** A readback is accepted exactly when it identifies a launch and each of the nine stages is well counted. */
  lemma {:induction false} AcceptedIff(l: Launch, digest: string -> string)
    ensures Accepted(l, digest) <==>
      && l.operationId != "" && l.workspaceId != ""
      && SafeCount(l.schemaVersion) && l.schemaVersion != Int(0) && SafeCount(l.version) && l.version != Int(0)
      && l.status.Txt? && l.stage in LAUNCH_STAGES
      && forall s: Stage :: s in l.budgets && WellCounted(l.budgets[s])
  {
    forall s: Stage ensures StageOk(l, s, digest) <==> s in l.budgets && WellCounted(l.budgets[s]) {
      if s in l.budgets { NormalizeIff(l.budgets[s], digest); }
    }
    if Accepted(l, digest) {
      forall s: Stage ensures StageOk(l, s, digest) { StageHasPlace(s); }
    }
  }

  lemma {:induction false} StageHasPlace(s: Stage)
    ensures exists i :: 0 <= i < |ATTEMPT_STAGES| && ATTEMPT_STAGES[i] == s
  {
    assert ATTEMPT_STAGES[0] == Key && ATTEMPT_STAGES[1] == Debit && ATTEMPT_STAGES[2] == Compute
      && ATTEMPT_STAGES[3] == Storage && ATTEMPT_STAGES[4] == Attachment && ATTEMPT_STAGES[5] == Secret
      && ATTEMPT_STAGES[6] == Runtime && ATTEMPT_STAGES[7] == Activation && ATTEMPT_STAGES[8] == Receipt;
  }

  // Exactly what normalising each stage gives.
  predicate AttemptsOf(l: Launch, attempts: map<Stage, Attempt>, n: nat, digest: string -> string)
    requires n <= |ATTEMPT_STAGES|
  {
    && attempts.Keys == (set i | 0 <= i < n :: ATTEMPT_STAGES[i])
    && forall i :: 0 <= i < n ==> AttemptOf(l, attempts, ATTEMPT_STAGES[i], digest)
  }

  predicate AttemptOf(l: Launch, attempts: map<Stage, Attempt>, s: Stage, digest: string -> string) {
    s in l.budgets && s in attempts && NormalizeAttempt(l.budgets[s], digest) == Some(attempts[s])
  }

  lemma {:induction false} AttemptsStep(
    l: Launch, attempts: map<Stage, Attempt>, k: nat, attempt: Attempt, digest: string -> string)
    requires k < |ATTEMPT_STAGES| && AttemptsOf(l, attempts, k, digest)
    requires ATTEMPT_STAGES[k] in l.budgets && NormalizeAttempt(l.budgets[ATTEMPT_STAGES[k]], digest) == Some(attempt)
    ensures AttemptsOf(l, attempts[ATTEMPT_STAGES[k] := attempt], k + 1, digest)
  {
    var s := ATTEMPT_STAGES[k];
    StagesDiffer(k);
    assert (set i | 0 <= i < k + 1 :: ATTEMPT_STAGES[i]) == (set i | 0 <= i < k :: ATTEMPT_STAGES[i]) + {s};
    forall i | 0 <= i < k + 1 ensures AttemptOf(l, attempts[s := attempt], ATTEMPT_STAGES[i], digest) {
      if i < k {
        assert AttemptOf(l, attempts, ATTEMPT_STAGES[i], digest);
      }
    }
  }

  lemma {:induction false} StagesDiffer(k: nat)
    requires k < |ATTEMPT_STAGES|
    ensures forall i :: 0 <= i < k ==> ATTEMPT_STAGES[i] != ATTEMPT_STAGES[k]
  {
  }

  /** Summarises exactly the acceptable readbacks, stage by stage. */
  method Summarize(l: Launch, launchSubmitted: bool, digest: string -> string) returns (r: Result<Summary, string>)
    ensures r.Ok? <==> Accepted(l, digest)
    ensures r.Ok? ==> r.value.launch == l && Summarized(r.value, launchSubmitted, digest)
  {
    if !Identified(l) { return Err("launch recovery readback identity is invalid"); }
    var attempts: map<Stage, Attempt> := map[];
    for k := 0 to |ATTEMPT_STAGES|
      invariant AttemptsOf(l, attempts, k, digest)
      invariant forall i :: 0 <= i < k ==> StageOk(l, ATTEMPT_STAGES[i], digest)
    {
      var stage := ATTEMPT_STAGES[k];
      if stage !in l.budgets {
        assert !StageOk(l, ATTEMPT_STAGES[k], digest);
        return Err("launch recovery readback is missing an attempt");
      }
      var attempt := NormalizeAttempt(l.budgets[stage], digest);
      if attempt.None? {
        assert !StageOk(l, ATTEMPT_STAGES[k], digest);
        return Err("attempt counters are invalid");
      }
      AttemptsStep(l, attempts, k, attempt.value, digest);
      attempts := attempts[stage := attempt.value];
    }
    assert forall i :: 0 <= i < |ATTEMPT_STAGES| ==> AttemptOf(l, attempts, ATTEMPT_STAGES[i], digest);
    return Ok(Summary(l, attempts, WritesOf(attempts, launchSubmitted)));
  }

  /******* Disposition and plan *******/

  datatype Disposition = Disposition(cleanup: bool, preserveRecoveryAuthority: bool, reason: string)

  predicate CountOk(w: WriteCount) {
    w.attempted <= MAX_SAFE && w.confirmed <= MAX_SAFE && w.unknown <= MAX_SAFE
      && JsAdd(w.confirmed, w.unknown) <= w.attempted
  }

  predicate WritesOk(w: ExternalWrites) {
    CountOk(w.workspaceCreates) && CountOk(w.keyCreates) && CountOk(w.debits) && CountOk(w.providerMutations)
      && CountOk(w.purchaseReceipts)
  }

  function TotalAttempted(w: ExternalWrites): nat {
    JsAdd(JsAdd(JsAdd(JsAdd(JsAdd(0, w.workspaceCreates.attempted), w.keyCreates.attempted), w.debits.attempted),
                w.providerMutations.attempted), w.purchaseReceipts.attempted)
  }

  // localJ1FailureDisposition; an error is an exception.
  function FailureDisposition(ready: bool, launchSubmitted: bool, w: ExternalWrites): Result<Disposition, string> {
    if !WritesOk(w) then Err("write count is invalid")
    else if ready then Ok(Disposition(true, false, "ready"))
    else if !launchSubmitted && TotalAttempted(w) == 0 then Ok(Disposition(true, false, "pre_create_failure"))
    else Ok(Disposition(false, true, "durable_launch_or_external_write"))
  }

  function CleanupPlan(
    ready: bool, launchSubmitted: bool, authority: Option<ExternalWrites>): Result<Disposition, string> {
    FailureDisposition(ready, launchSubmitted, if authority.Some? then authority.value else NO_EXTERNAL_WRITES)
  }

  predicate NothingAttempted(w: ExternalWrites) {
    w.workspaceCreates.attempted == 0 && w.keyCreates.attempted == 0 && w.debits.attempted == 0
    && w.providerMutations.attempted == 0 && w.purchaseReceipts.attempted == 0
  }

  lemma {:induction false} JsAddZero(a: nat, b: nat)
    ensures JsAdd(a, b) == 0 <==> a == 0 && b == 0
  {
    RoundIff(a + b);
  }

  // A category whose counters are safe and bounded.
  predicate SafeWrite(w: WriteCount) { w.attempted <= MAX_SAFE && w.confirmed + w.unknown <= w.attempted }

  lemma {:induction false} CountOkIff(w: WriteCount)
    ensures CountOk(w) <==> SafeWrite(w)
  {
    RoundIff(w.confirmed + w.unknown);
  }

  /**
   There is a disposition exactly when every category is safe and bounded, and then authority is preserved exactly when
   the run is not ready and the launch went out or some write was attempted.
   */
  lemma {:induction false} PreserveIff(ready: bool, launchSubmitted: bool, w: ExternalWrites)
    ensures FailureDisposition(ready, launchSubmitted, w).Ok? <==>
      && SafeWrite(w.workspaceCreates) && SafeWrite(w.keyCreates) && SafeWrite(w.debits)
      && SafeWrite(w.providerMutations) && SafeWrite(w.purchaseReceipts)
    ensures var d := FailureDisposition(ready, launchSubmitted, w);
      d.Ok? ==>
        && (d.value.preserveRecoveryAuthority <==> !ready && (launchSubmitted || !NothingAttempted(w)))
        && d.value.cleanup == !d.value.preserveRecoveryAuthority
        && (d.value.reason == "ready" <==> ready)
        && (d.value.reason == "durable_launch_or_external_write" <==> d.value.preserveRecoveryAuthority)
        && (d.value.reason == "pre_create_failure" <==> !ready && d.value.cleanup)
  {
    CountOkIff(w.workspaceCreates);
    CountOkIff(w.keyCreates);
    CountOkIff(w.debits);
    CountOkIff(w.providerMutations);
    CountOkIff(w.purchaseReceipts);
    assert "ready"[0] != "pre_create_failure"[0] && "ready"[0] != "durable_launch_or_external_write"[0];
    assert "pre_create_failure"[0] != "durable_launch_or_external_write"[0];
    var a := JsAdd(0, w.workspaceCreates.attempted);
    var b := JsAdd(a, w.keyCreates.attempted);
    var c := JsAdd(b, w.debits.attempted);
    var d := JsAdd(c, w.providerMutations.attempted);
    JsAddZero(0, w.workspaceCreates.attempted);
    JsAddZero(a, w.keyCreates.attempted);
    JsAddZero(b, w.debits.attempted);
    JsAddZero(c, w.providerMutations.attempted);
    JsAddZero(d, w.purchaseReceipts.attempted);
  }

  /******* Summaries against the disposition *******/

  // The exact, unrounded sum of one counter over stages.
  function Exact(attempts: map<Stage, Attempt>, stages: seq<Stage>, f: Attempt -> nat): nat
    requires forall i :: 0 <= i < |stages| ==> stages[i] in attempts
  {
    if stages == [] then 0 else f(attempts[stages[0]]) + Exact(attempts, stages[1..], f)
  }

  function Attempted(a: Attempt): nat { a.attempted }
  function Confirmed(a: Attempt): nat { a.confirmed }
  function Unknown(a: Attempt): nat { a.unknown }

  // A running double sum: exact while safe, and never safe again once it is not.
  predicate Tracks(sum: nat, exact: nat) {
    (sum == exact && exact < TWO53) || (sum >= TWO53 && exact >= TWO53)
  }

  lemma {:induction false} TracksStep(sum: nat, exact: nat, n: nat)
    requires Tracks(sum, exact)
    ensures Tracks(JsAdd(sum, n), exact + n)
  {
    RoundIff(sum + n);
  }

  lemma {:induction false} ProviderTracks(
    attempts: map<Stage, Attempt>, stages: seq<Stage>, acc: WriteCount, a: nat, c: nat, u: nat)
    requires forall i :: 0 <= i < |stages| ==> stages[i] in attempts
    requires Tracks(acc.attempted, a) && Tracks(acc.confirmed, c) && Tracks(acc.unknown, u)
    ensures var w := ProviderCount(attempts, stages, acc);
      && Tracks(w.attempted, a + Exact(attempts, stages, Attempted))
      && Tracks(w.confirmed, c + Exact(attempts, stages, Confirmed))
      && Tracks(w.unknown, u + Exact(attempts, stages, Unknown))
    decreases |stages|
  {
    if stages != [] {
      var t := attempts[stages[0]];
      TracksStep(acc.attempted, a, t.attempted);
      TracksStep(acc.confirmed, c, t.confirmed);
      TracksStep(acc.unknown, u, t.unknown);
      ProviderTracks(attempts, stages[1..], AddCounts(acc, t), a + t.attempted, c + t.confirmed, u + t.unknown);
    }
  }

  predicate AttemptOk(a: Attempt) { a.attempted <= MAX_SAFE && a.confirmed + a.unknown <= a.attempted }

  lemma {:induction false} NormalizedOk(a: RawAttempt, digest: string -> string)
    requires NormalizeAttempt(a, digest).Some?
    ensures AttemptOk(NormalizeAttempt(a, digest).value)
  {
    RoundIff(a.confirmed.n + a.unknown.n);
  }

  lemma {:induction false} ExactBound(attempts: map<Stage, Attempt>, stages: seq<Stage>)
    requires forall i :: 0 <= i < |stages| ==> stages[i] in attempts && AttemptOk(attempts[stages[i]])
    ensures Exact(attempts, stages, Confirmed) + Exact(attempts, stages, Unknown) <= Exact(attempts, stages, Attempted)
  {
    if stages != [] { ExactBound(attempts, stages[1..]); }
  }

  ghost predicate Summarized(s: Summary, launchSubmitted: bool, digest: string -> string) {
    && Complete(s.attempts) && AttemptsOf(s.launch, s.attempts, |ATTEMPT_STAGES|, digest)
    && s.externalWrites == WritesOf(s.attempts, launchSubmitted)
  }

  function ProviderSum(attempts: map<Stage, Attempt>, f: Attempt -> nat): nat
    requires Complete(attempts)
  {
    ProviderStagesIn(attempts);
    Exact(attempts, PROVIDER_STAGES, f)
  }

  function ProviderAttempted(attempts: map<Stage, Attempt>): nat
    requires Complete(attempts)
  {
    ProviderSum(attempts, Attempted)
  }

  // What a raw counter adds to a sum.
  function Count(c: RawCount): nat { if c.Int? && c.n > 0 then c.n else 0 }

  function CountAt(b: map<Stage, RawAttempt>, s: Stage, f: RawAttempt -> RawCount): nat {
    if s in b then Count(f(b[s])) else 0
  }

  function RawAttempted(a: RawAttempt): RawCount { a.attempted }
  function RawConfirmed(a: RawAttempt): RawCount { a.confirmed }
  function RawUnknown(a: RawAttempt): RawCount { a.unknown }

  // A counter of the readback summed, without rounding, over the stages that change something at the provider.
  function Providers(b: map<Stage, RawAttempt>, f: RawAttempt -> RawCount): nat {
    CountAt(b, Compute, f) + CountAt(b, Storage, f) + CountAt(b, Attachment, f) + CountAt(b, Secret, f)
      + CountAt(b, Runtime, f)
  }

  lemma {:induction false} StageIsRaw(s: Summary, g: Stage, launchSubmitted: bool, digest: string -> string)
    requires Summarized(s, launchSubmitted, digest)
    ensures g in s.attempts && g in s.launch.budgets && SaysTheSame(s.launch.budgets[g], s.attempts[g], digest)
  {
    StageHasPlace(g);
    var i :| 0 <= i < |ATTEMPT_STAGES| && ATTEMPT_STAGES[i] == g;
    assert AttemptOf(s.launch, s.attempts, ATTEMPT_STAGES[i], digest);
    NormalizeIff(s.launch.budgets[g], digest);
  }

  lemma {:induction false} FiveProviders(attempts: map<Stage, Attempt>, f: Attempt -> nat)
    requires Complete(attempts)
    ensures ProviderSum(attempts, f) == f(At(attempts, Compute)) + f(At(attempts, Storage))
      + f(At(attempts, Attachment)) + f(At(attempts, Secret)) + f(At(attempts, Runtime))
  {
    forall g: Stage ensures g in attempts { CompleteHas(attempts, g); }
    assert PROVIDER_STAGES == [Compute] + ([Storage] + ([Attachment] + ([Secret] + ([Runtime] + []))));
    ExactCons(attempts, Compute, [Storage] + ([Attachment] + ([Secret] + ([Runtime] + []))), f);
    ExactCons(attempts, Storage, [Attachment] + ([Secret] + ([Runtime] + [])), f);
    ExactCons(attempts, Attachment, [Secret] + ([Runtime] + []), f);
    ExactCons(attempts, Secret, [Runtime] + [], f);
    ExactCons(attempts, Runtime, [], f);
  }

  lemma {:induction false} ExactCons(attempts: map<Stage, Attempt>, s: Stage, rest: seq<Stage>, f: Attempt -> nat)
    requires Complete(attempts) && forall g: Stage :: g in attempts
    ensures Exact(attempts, [s] + rest, f) == f(At(attempts, s)) + Exact(attempts, rest, f)
  {
    assert ([s] + rest)[1..] == rest;
  }

  // The counter f of every attempt is the counter g of its stage in the readback.
  ghost predicate SameCounter(s: Summary, f: Attempt -> nat, g: RawAttempt -> RawCount)
    requires Complete(s.attempts)
  {
    forall stage: Stage :: CountAt(s.launch.budgets, stage, g) == f(At(s.attempts, stage))
  }

  lemma {:induction false} CountersAreRaw(s: Summary, launchSubmitted: bool, digest: string -> string)
    requires Summarized(s, launchSubmitted, digest)
    ensures SameCounter(s, Attempted, RawAttempted) && SameCounter(s, Confirmed, RawConfirmed)
    ensures SameCounter(s, Unknown, RawUnknown)
  {
    forall g: Stage
      ensures CountAt(s.launch.budgets, g, RawAttempted) == At(s.attempts, g).attempted
      ensures CountAt(s.launch.budgets, g, RawConfirmed) == At(s.attempts, g).confirmed
      ensures CountAt(s.launch.budgets, g, RawUnknown) == At(s.attempts, g).unknown
    {
      StageIsRaw(s, g, launchSubmitted, digest);
    }
  }

  lemma {:induction false} ProvidersAreRaw(s: Summary, f: Attempt -> nat, g: RawAttempt -> RawCount)
    requires Complete(s.attempts) && SameCounter(s, f, g)
    ensures ProviderSum(s.attempts, f) == Providers(s.launch.budgets, g)
  {
    FiveProviders(s.attempts, f);
  }

  lemma {:induction false} SummarizedAttemptsOk(s: Summary, launchSubmitted: bool, digest: string -> string)
    requires Summarized(s, launchSubmitted, digest)
    ensures forall g :: g in s.attempts ==> AttemptOk(s.attempts[g])
  {
    forall i | 0 <= i < |ATTEMPT_STAGES|
      ensures ATTEMPT_STAGES[i] in s.attempts && AttemptOk(s.attempts[ATTEMPT_STAGES[i]])
    {
      assert AttemptOf(s.launch, s.attempts, ATTEMPT_STAGES[i], digest);
      NormalizedOk(s.launch.budgets[ATTEMPT_STAGES[i]], digest);
    }
  }

  lemma {:induction false} SingleCountOk(a: Attempt)
    requires AttemptOk(a)
    ensures CountOk(CountsOf(a))
  {
    RoundIff(a.confirmed + a.unknown);
  }

  /** An accepted readback has an acceptable disposition exactly when its provider attempts add up to a safe integer. */
  lemma {:induction false} SummaryDispositionIff(
    s: Summary, launchSubmitted: bool, ready: bool, digest: string -> string)
    requires Summarized(s, launchSubmitted, digest)
    ensures FailureDisposition(ready, launchSubmitted, s.externalWrites).Ok? <==>
      Providers(s.launch.budgets, RawAttempted) <= MAX_SAFE
    ensures Providers(s.launch.budgets, RawAttempted) <= MAX_SAFE ==>
      s.externalWrites.providerMutations.attempted == Providers(s.launch.budgets, RawAttempted)
  {
    SummarizedAttemptsOk(s, launchSubmitted, digest);
    CountersAreRaw(s, launchSubmitted, digest);
    ProvidersAreRaw(s, Attempted, RawAttempted);
    var w := s.externalWrites;
    CompleteHas(s.attempts, Key);
    CompleteHas(s.attempts, Debit);
    CompleteHas(s.attempts, Receipt);
    SingleCountOk(s.attempts[Key]);
    SingleCountOk(s.attempts[Debit]);
    SingleCountOk(s.attempts[Receipt]);
    RoundIff(1);
    RoundIff(0);
    assert CountOk(w.workspaceCreates) && CountOk(w.keyCreates) && CountOk(w.debits) && CountOk(w.purchaseReceipts);
    ProviderStagesIn(s.attempts);
    ProviderCountOkIff(s.attempts);
  }

  lemma {:induction false} ProviderCountOkIff(attempts: map<Stage, Attempt>)
    requires Complete(attempts) && forall g :: g in attempts ==> AttemptOk(attempts[g])
    ensures var w := ProviderWrites(attempts);
      (CountOk(w) <==> ProviderAttempted(attempts) <= MAX_SAFE)
      && (ProviderAttempted(attempts) <= MAX_SAFE ==>
        w.attempted == ProviderAttempted(attempts) && w.confirmed + w.unknown <= w.attempted)
  {
    ProviderStagesIn(attempts);
    ProviderTracks(attempts, PROVIDER_STAGES, NO_WRITES, 0, 0, 0);
    ExactBound(attempts, PROVIDER_STAGES);
    var w := ProviderCount(attempts, PROVIDER_STAGES, NO_WRITES);
    RoundIff(w.confirmed + w.unknown);
  }

  predicate Bounded(w: WriteCount) { w.confirmed + w.unknown <= w.attempted }

  /**
   In every accepted summary every category confirms and doubts at most what it attempted; the provider category,
   the only sum, does as long as the attempts it reports are a safe integer.
   */
  lemma {:induction false} SummaryBounds(s: Summary, launchSubmitted: bool, digest: string -> string)
    requires Summarized(s, launchSubmitted, digest)
    ensures var w := s.externalWrites;
      && Bounded(w.workspaceCreates) && Bounded(w.keyCreates) && Bounded(w.debits) && Bounded(w.purchaseReceipts)
      && (w.providerMutations.attempted <= MAX_SAFE ==> Bounded(w.providerMutations))
  {
    SummarizedAttemptsOk(s, launchSubmitted, digest);
    CompleteHas(s.attempts, Key);
    CompleteHas(s.attempts, Debit);
    CompleteHas(s.attempts, Receipt);
    ProviderStagesIn(s.attempts);
    ProviderTracks(s.attempts, PROVIDER_STAGES, NO_WRITES, 0, 0, 0);
    ProviderCountOkIff(s.attempts);
  }

  function At(attempts: map<Stage, Attempt>, s: Stage): Attempt
    requires Complete(attempts)
  {
    CompleteHas(attempts, s);
    attempts[s]
  }

  // Beyond that rounding does break the bound: the last two provider stages are each accepted.
  predicate RoundedAway(attempts: map<Stage, Attempt>)
    requires Complete(attempts)
  {
    && CountsOf(At(attempts, Compute)) == CountsOf(At(attempts, Storage)) == NO_WRITES
    && CountsOf(At(attempts, Attachment)) == NO_WRITES
    && CountsOf(At(attempts, Secret)) == WriteCount(MAX_SAFE, MAX_SAFE, 0)
    && CountsOf(At(attempts, Runtime)) == WriteCount(2, 0, 2)
  }

  /** Two accepted stages whose attempts round down to fewer than are confirmed or in doubt. */
  lemma {:induction false} UnsafeBoundFails(attempts: map<Stage, Attempt>)
    requires Complete(attempts) && RoundedAway(attempts)
    ensures AttemptOk(At(attempts, Secret)) && AttemptOk(At(attempts, Runtime))
    ensures !Bounded(ProviderWrites(attempts))
  {
    ProviderStagesIn(attempts);
    assert PROVIDER_STAGES[1..] == [Storage, Attachment, Secret, Runtime];
    NothingAdded(attempts, PROVIDER_STAGES);
    NothingAdded(attempts, [Storage, Attachment, Secret, Runtime]);
    NothingAdded(attempts, [Attachment, Secret, Runtime]);
    LastTwo(attempts);
  }

  lemma {:induction false} NothingAdded(attempts: map<Stage, Attempt>, stages: seq<Stage>)
    requires stages != [] && forall i :: 0 <= i < |stages| ==> stages[i] in attempts
    requires CountsOf(attempts[stages[0]]) == NO_WRITES
    ensures ProviderCount(attempts, stages, NO_WRITES) == ProviderCount(attempts, stages[1..], NO_WRITES)
  {
    RoundIff(0);
  }

  lemma {:induction false} LastTwo(attempts: map<Stage, Attempt>)
    requires Secret in attempts && CountsOf(attempts[Secret]) == WriteCount(MAX_SAFE, MAX_SAFE, 0)
    requires Runtime in attempts && CountsOf(attempts[Runtime]) == WriteCount(2, 0, 2)
    ensures ProviderCount(attempts, [Secret, Runtime], NO_WRITES) == WriteCount(TWO53, MAX_SAFE, 2)
  {
    CountsRoundDown(attempts[Secret], attempts[Runtime]);
    var one := WriteCount(MAX_SAFE, MAX_SAFE, 0);
    CountCons(attempts, Secret, [Runtime], NO_WRITES);
    CountCons(attempts, Runtime, [], one);
    assert [Secret] + [Runtime] == [Secret, Runtime] && [Runtime] + [] == [Runtime];
  }

  lemma {:induction false} CountCons(attempts: map<Stage, Attempt>, s: Stage, rest: seq<Stage>, acc: WriteCount)
    requires s in attempts && forall i :: 0 <= i < |rest| ==> rest[i] in attempts
    ensures ProviderCount(attempts, [s] + rest, acc) == ProviderCount(attempts, rest, AddCounts(acc, attempts[s]))
  {
    assert ([s] + rest)[1..] == rest;
  }

  lemma {:induction false} CountsRoundDown(full: Attempt, two: Attempt)
    requires CountsOf(full) == WriteCount(MAX_SAFE, MAX_SAFE, 0) && CountsOf(two) == WriteCount(2, 0, 2)
    ensures AddCounts(NO_WRITES, full) == WriteCount(MAX_SAFE, MAX_SAFE, 0)
    ensures AddCounts(WriteCount(MAX_SAFE, MAX_SAFE, 0), two) == WriteCount(TWO53, MAX_SAFE, 2)
  {
    RoundIff(MAX_SAFE);
    RoundIff(2);
    RoundIff(0);
    RoundsDown();
  }

  lemma {:induction false} RoundsDown()
    ensures Round(TWO53 + 1) == TWO53
  {
    assert Ulp(TWO53 + 1) == 2;
    assert (TWO53 + 1) / 2 == TWO52 && (TWO53 + 1) % 2 == 1;
  }

  // A counter of the readback summed over every stage but activation.
  function AllButActivation(b: map<Stage, RawAttempt>, f: RawAttempt -> RawCount): nat {
    CountAt(b, Key, f) + CountAt(b, Debit, f) + Providers(b, f) + CountAt(b, Receipt, f)
  }

  // One counter over the categories that come from stages.
  function CategorySum(w: ExternalWrites, f: WriteCount -> nat): nat {
    f(w.keyCreates) + f(w.debits) + f(w.providerMutations) + f(w.purchaseReceipts)
  }

  // The category reports the counters of that one stage.
  predicate Reports(w: WriteCount, a: RawAttempt) {
    a.attempted == Int(w.attempted) && a.confirmed == Int(w.confirmed) && a.unknown == Int(w.unknown)
  }

  // One counter of the categories, f, against the same counter of the readback, g: exact when what is reported for the
  // providers is a safe integer, which it is exactly when their true sum is.
  ghost predicate CountsStages(
    w: ExternalWrites, b: map<Stage, RawAttempt>, f: WriteCount -> nat, g: RawAttempt -> RawCount)
  {
    && (f(w.providerMutations) <= MAX_SAFE <==> Providers(b, g) <= MAX_SAFE)
    && (f(w.providerMutations) <= MAX_SAFE ==>
      f(w.providerMutations) == Providers(b, g) && CategorySum(w, f) == AllButActivation(b, g))
  }

  /**
   In every accepted summary the categories report the readback's own counters: key, debit and receipt those of their
   stage, and the providers, as long as that is a safe integer, the sum of their five.  So attempts, confirmations and
   doubts alike count every stage but activation, each once.
   */
  lemma {:induction false} CategoriesCountEachStageOnce(s: Summary, launchSubmitted: bool, digest: string -> string)
    requires Summarized(s, launchSubmitted, digest)
    ensures forall g: Stage :: g in s.launch.budgets
    ensures var w, b := s.externalWrites, s.launch.budgets;
      && w.workspaceCreates == (if launchSubmitted then WriteCount(1, 1, 0) else WriteCount(0, 0, 0))
      && Reports(w.keyCreates, b[Key]) && Reports(w.debits, b[Debit]) && Reports(w.purchaseReceipts, b[Receipt])
    ensures CountsStages(s.externalWrites, s.launch.budgets, (c: WriteCount) => c.attempted, RawAttempted)
    ensures CountsStages(s.externalWrites, s.launch.budgets, (c: WriteCount) => c.confirmed, RawConfirmed)
    ensures CountsStages(s.externalWrites, s.launch.budgets, (c: WriteCount) => c.unknown, RawUnknown)
  {
    CountersAreRaw(s, launchSubmitted, digest);
    forall g: Stage ensures g in s.launch.budgets { StageIsRaw(s, g, launchSubmitted, digest); }
    StageIsRaw(s, Key, launchSubmitted, digest);
    StageIsRaw(s, Debit, launchSubmitted, digest);
    StageIsRaw(s, Receipt, launchSubmitted, digest);
    ProviderStagesIn(s.attempts);
    ProviderTracks(s.attempts, PROVIDER_STAGES, NO_WRITES, 0, 0, 0);
    OneCounter(s, (c: WriteCount) => c.attempted, Attempted, RawAttempted);
    OneCounter(s, (c: WriteCount) => c.confirmed, Confirmed, RawConfirmed);
    OneCounter(s, (c: WriteCount) => c.unknown, Unknown, RawUnknown);
  }

  lemma {:induction false} OneCounter(s: Summary, f: WriteCount -> nat, a: Attempt -> nat, g: RawAttempt -> RawCount)
    requires Complete(s.attempts) && SameCounter(s, a, g)
    requires f(s.externalWrites.keyCreates) == a(At(s.attempts, Key))
    requires f(s.externalWrites.debits) == a(At(s.attempts, Debit))
    requires f(s.externalWrites.purchaseReceipts) == a(At(s.attempts, Receipt))
    requires Tracks(f(s.externalWrites.providerMutations), ProviderSum(s.attempts, a))
    ensures CountsStages(s.externalWrites, s.launch.budgets, f, g)
  {
    ProvidersAreRaw(s, a, g);
  }

  /**
   Unsafe counters do occur: five provider stages at the largest safe count are accepted one by one and rejected
   in sum.
   */
  lemma {:induction false} UnsafeTotalsAreRejected(attempts: map<Stage, Attempt>)
    requires Complete(attempts) && forall g :: g in attempts ==>
      attempts[g].attempted == MAX_SAFE && AttemptOk(attempts[g])
    ensures ProviderAttempted(attempts) > MAX_SAFE
    ensures FailureDisposition(false, true, WritesOf(attempts, true)).Err?
  {
    ProviderStagesIn(attempts);
    assert PROVIDER_STAGES[0] in attempts;
    assert Exact(attempts, PROVIDER_STAGES, Attempted) == MAX_SAFE + Exact(attempts, PROVIDER_STAGES[1..], Attempted);
    assert Exact(attempts, PROVIDER_STAGES[1..], Attempted) >= attempts[PROVIDER_STAGES[1]].attempted by {
      assert PROVIDER_STAGES[1..][0] == PROVIDER_STAGES[1] && PROVIDER_STAGES[1] in attempts;
    }
    ProviderCountOkIff(attempts);
  }
}
