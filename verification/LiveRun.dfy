/**
 A live qualification run that may fail at any point: what it submits, what it preserves and what it
 destroys.  The environment fixes which points fail and what the recovery readback says; every statement
 is over every environment.
 */
module LiveRun {
  import opened Wrappers
  import opened Recovery

  // The awaits and checks of one run, each visited at most once.
  datatype Point =
    | DockerVersion | ImageAdmission | EnvironmentFile | ComposeConfig
    | ComposeUp | ServiceImages | VerifyStores
    | Bootstrap | ConsoleReadback | AdminLogin | Provision | QualificationLogin | IdentityBinding
    | WalletBaseline | UsageBaseline | BaselineShape | Inventories | PricingPreview | Quote
    | LaunchPost | LaunchIdentity | WaitForLaunch | ReceiptId | WorkspaceEvidence | RuntimeImage | WorkspaceOpen
    | AccountingReads | KeyReads | AccountingCheck | ReceiptCheck
    | SecretRootWipe | ContainerRemoval | VolumeRemoval | ComposeDown | NetworkRemoval | Residuals | SecretRootReset
    | FinalReceiptCheck | SourceRecheck
    | RecoveryRead | PreserveVolumeList | PreserveProviderVolumes | ArtifactPath | ArtifactWrite
    // The outer finally: its commands fail when their process cannot be started, even where a failing exit is allowed.
    | FinalWipe | FinalStop | FinalDown | TeardownConfirmed | ImageRemoval | RegistryRemoval | RootRemoval
    | ReceiptWrite

  const BEFORE_COMPOSE := [DockerVersion, ImageAdmission, EnvironmentFile, ComposeConfig]
  const COMPOSE := [ComposeUp, ServiceImages, VerifyStores]
  const BEFORE_LAUNCH := [
    Bootstrap, ConsoleReadback, AdminLogin, Provision, QualificationLogin, IdentityBinding,
    WalletBaseline, UsageBaseline, BaselineShape, Inventories, PricingPreview, Quote]
  const AFTER_IDENTITY := [
    WaitForLaunch, ReceiptId, WorkspaceEvidence, RuntimeImage, WorkspaceOpen,
    AccountingReads, KeyReads, AccountingCheck, ReceiptCheck]

  datatype Asset = WorkspaceResources | Secrets | ComposeVolumes | RecoveryRoot
  datatype Action = SubmitLaunch | ReceiptPassed | PreserveAuthority | SaveArtifact | Destroy(asset: Asset)

  datatype Env = Env(fails: Point -> bool, readback: Launch, digest: string -> string)

  predicate AllPass(env: Env, points: seq<Point>) {
    forall i :: 0 <= i < |points| ==> !env.fails(points[i])
  }

  method Passes(env: Env, points: seq<Point>) returns (ok: bool)
    ensures ok <==> AllPass(env, points)
  {
    for k := 0 to |points|
      invariant forall i :: 0 <= i < k ==> !env.fails(points[i])
    {
      if env.fails(points[k]) { return false; }
    }
    return true;
  }

  // What the run may lose evidence of, in terms of the environment alone.
  predicate Submits(env: Env) { AllPass(env, BEFORE_COMPOSE) && AllPass(env, COMPOSE) && AllPass(env, BEFORE_LAUNCH) }

  predicate Validates(env: Env) {
    Submits(env) && !env.fails(LaunchPost) && !env.fails(LaunchIdentity) && AllPass(env, AFTER_IDENTITY)
  }

  // The readback answers, is accepted, and its provider attempts do not add up to a safe integer.
  predicate UnsafeReadback(env: Env) {
    && !env.fails(RecoveryRead)
    && Accepted(env.readback, env.digest)
    && Providers(env.readback.budgets, RawAttempted) > MAX_SAFE
  }

  // collectLocalJ1RecoveryAuthority inside its try: a failed or unacceptable readback is no authority.
  method CollectAuthority(env: Env) returns (authority: Option<ExternalWrites>)
    ensures CleanupPlan(false, true, authority).Err? <==> UnsafeReadback(env)
    ensures CleanupPlan(false, true, authority).Ok? ==>
      CleanupPlan(false, true, authority).value.preserveRecoveryAuthority
  {
    NoWritesPreserve();
    if env.fails(RecoveryRead) { return None; }
    var r := Summarize(env.readback, true, env.digest);
    if r.Err? { return None; }
    SummaryDispositionIff(r.value, true, false, env.digest);
    return Some(r.value.externalWrites);
  }

  lemma {:induction false} NoWritesPreserve()
    ensures CleanupPlan(false, true, None).Ok? && CleanupPlan(false, true, None).value.preserveRecoveryAuthority
    ensures CleanupPlan(true, false, None).Ok? && CleanupPlan(true, false, None).value.cleanup
    ensures CleanupPlan(false, false, None).Ok? && CleanupPlan(false, false, None).value.cleanup
  {
    RoundIff(0);
    assert WritesOk(NO_EXTERNAL_WRITES);
    PreserveIff(false, true, NO_EXTERNAL_WRITES);
    PreserveIff(true, false, NO_EXTERNAL_WRITES);
    PreserveIff(false, false, NO_EXTERNAL_WRITES);
  }

  predicate NoDestroy(log: seq<Action>) {
    forall a :: a in log ==> !a.Destroy?
  }

  // The removals of the cleanup closure, which never touch the recovery root.
  predicate OnlyTeardown(log: seq<Action>) {
    forall a :: a in log ==> a.Destroy? && a.asset != RecoveryRoot
  }

  // Everything the launch needs passed, the candidate receipt was validated and the teardown went through.
  predicate Completes(env: Env) { Validates(env) && TornDown(env) }

  predicate WorkspaceKnown(env: Env) { !env.fails(LaunchPost) && !env.fails(LaunchIdentity) }

  predicate ArtifactSaved(env: Env, workspaceKnown: bool) {
    && !env.fails(PreserveVolumeList) && (workspaceKnown ==> !env.fails(PreserveProviderVolumes))
    && !env.fails(ArtifactPath) && !env.fails(ArtifactWrite)
  }

  function EvidenceLog(env: Env, workspaceKnown: bool): seq<Action> {
    [PreserveAuthority] + if ArtifactSaved(env, workspaceKnown) then [SaveArtifact] else []
  }

  // The preserve branch of the cleanup closure: the flag is set before anything can fail.
  method PreserveEvidence(env: Env, workspaceKnown: bool) returns (log: seq<Action>, ok: bool)
    ensures log == EvidenceLog(env, workspaceKnown)
    ensures ok <==> ArtifactSaved(env, workspaceKnown)
  {
    log := [PreserveAuthority];
    if env.fails(PreserveVolumeList) { return log, false; }
    if workspaceKnown {
      if env.fails(PreserveProviderVolumes) { return log, false; }
    }
    if env.fails(ArtifactPath) || env.fails(ArtifactWrite) { return log, false; }
    return log + [SaveArtifact], true;
  }

  predicate TornDown(env: Env) {
    && !env.fails(SecretRootWipe) && !env.fails(ContainerRemoval) && !env.fails(VolumeRemoval)
      && !env.fails(ComposeDown)
    && !env.fails(NetworkRemoval) && !env.fails(Residuals) && !env.fails(SecretRootReset)
  }

  // What the destructive branch removes, in order: the secrets, the workspace's containers and volumes, the compose
  // volumes, and the secret root once more.
  const REMOVALS := [Destroy(Secrets), Destroy(WorkspaceResources), Destroy(ComposeVolumes), Destroy(Secrets)]

  // How far a branch that stops at its first failing point gets.
  predicate Removed(env: Env, n: nat) {
    && 1 <= n <= |REMOVALS|
    && (n >= 2 <==> !env.fails(SecretRootWipe))
    && (n >= 3 <==> !env.fails(SecretRootWipe) && !env.fails(ContainerRemoval) && !env.fails(VolumeRemoval))
    && (n >= 4 <==> ComposeRemoved(env) && !env.fails(NetworkRemoval) && !env.fails(Residuals))
  }

  // The closure's compose teardown went through.
  predicate ComposeRemoved(env: Env) {
    && !env.fails(SecretRootWipe) && !env.fails(ContainerRemoval) && !env.fails(VolumeRemoval)
    && !env.fails(ComposeDown)
  }

  ghost predicate TeardownLog(env: Env, log: seq<Action>) {
    exists n: nat :: Removed(env, n) && log == REMOVALS[..n]
  }

  // The assets gone after the destructive branch, in terms of the environment alone.
  lemma {:induction false} TeardownRemoves(env: Env, log: seq<Action>)
    requires TeardownLog(env, log)
    ensures OnlyTeardown(log) && Destroy(Secrets) in log
    ensures Destroy(WorkspaceResources) in log <==> !env.fails(SecretRootWipe)
    ensures Destroy(ComposeVolumes) in log <==> VolumesReached(env)
  {
    var n: nat :| Removed(env, n) && log == REMOVALS[..n];
    assert log[0] == Destroy(Secrets);
    if n >= 2 { assert log[1] == Destroy(WorkspaceResources); }
    if n >= 3 { assert log[2] == Destroy(ComposeVolumes); }
  }

  // The destructive branch, once account and workspace are known.  A removal that fails may still have removed
  // something.
  method TearDown(env: Env) returns (log: seq<Action>, composeDown: bool, ok: bool)
    ensures TeardownLog(env, log)
    ensures composeDown <==> ComposeRemoved(env)
    ensures ok <==> TornDown(env)
  {
    log, composeDown := [Destroy(Secrets)], false;
    if env.fails(SecretRootWipe) {
      assert Removed(env, 1) && log == REMOVALS[..1];
      return log, false, false;
    }
    log := log + [Destroy(WorkspaceResources)];
    if env.fails(ContainerRemoval) || env.fails(VolumeRemoval) {
      assert Removed(env, 2) && log == REMOVALS[..2];
      return log, false, false;
    }
    log := log + [Destroy(ComposeVolumes)];
    assert log == REMOVALS[..3];
    if env.fails(ComposeDown) {
      assert Removed(env, 3);
      return log, false, false;
    }
    composeDown := true;
    if env.fails(NetworkRemoval) || env.fails(Residuals) {
      assert Removed(env, 3);
      return log, true, false;
    }
    log := log + [Destroy(Secrets)];
    assert Removed(env, 4) && log == REMOVALS[..4];
    ok := !env.fails(SecretRootReset);
  }

  // The cleanup closure; an invalid plan is an exception raised before the preserve flag is touched.
  method Cleanup(env: Env, failed: bool, launchSubmitted: bool, workspaceKnown: bool, authority: Option<ExternalWrites>)
    returns (log: seq<Action>, preserve: bool, composeDown: bool, ok: bool)
    ensures CleansUp(env, CleanupPlan(!failed, launchSubmitted, authority), workspaceKnown, log, preserve, ok)
    ensures composeDown <==>
      CleanupPlan(!failed, launchSubmitted, authority).Ok? && !preserve && workspaceKnown && ComposeRemoved(env)
  {
    var plan := CleanupPlan(!failed, launchSubmitted, authority);
    log, preserve, composeDown := [], false, false;
    if plan.Err? { return log, preserve, composeDown, false; }
    if plan.value.preserveRecoveryAuthority {
      preserve := true;
      log, ok := PreserveEvidence(env, workspaceKnown);
      return log, preserve, composeDown, ok;
    }
    if !workspaceKnown { return log, preserve, composeDown, true; }
    log, composeDown, ok := TearDown(env);
  }

  ghost predicate CleansUp(
    env: Env, plan: Result<Disposition, string>, workspaceKnown: bool, log: seq<Action>, preserve: bool, ok: bool) {
    && (preserve <==> plan.Ok? && plan.value.preserveRecoveryAuthority)
    && (plan.Err? ==> log == [] && !ok)
    && (preserve ==> log == EvidenceLog(env, workspaceKnown) && (ok <==> ArtifactSaved(env, workspaceKnown)))
    && (plan.Ok? && !preserve && !workspaceKnown ==> log == [] && ok)
    && (plan.Ok? && !preserve && workspaceKnown ==> TeardownLog(env, log) && (ok <==> TornDown(env)))
  }

  // The closure called with a validated receipt: no failure, so the plan is to clean up.
  method CleanupReady(env: Env) returns (log: seq<Action>, composeDown: bool, ok: bool)
    ensures TeardownLog(env, log) && (ok <==> TornDown(env)) && (composeDown <==> ComposeRemoved(env))
  {
    NoWritesPreserve();
    var preserve: bool;
    log, preserve, composeDown, ok := Cleanup(env, false, false, true, None);
  }

  // The finally block after a submitted launch: read the recovery authority back, then clean up as failed.
  method Recover(env: Env, workspaceKnown: bool) returns (log: seq<Action>, preserve: bool, saved: bool)
    ensures preserve <==> !UnsafeReadback(env)
    ensures saved <==> preserve && ArtifactSaved(env, workspaceKnown)
    ensures IsEvidence(log, saved) && (preserve ==> PreserveAuthority in log)
  {
    var authority := CollectAuthority(env);
    var composeDown: bool;
    log, preserve, composeDown, saved := Cleanup(env, true, true, workspaceKnown, authority);
  }

  // What a submitted run has logged before the outer finally.
  predicate LaunchLog(log: seq<Action>, validated: bool, saved: bool) {
    && [SubmitLaunch] <= log && (validated ==> [SubmitLaunch, ReceiptPassed] <= log)
    && (ReceiptPassed in log <==> validated)
    && Destroy(RecoveryRoot) !in log
    && (SaveArtifact in log <==> saved)
    && (!validated ==> NoDestroy(log))
  }

  // A submitted run's own removals: those of the destructive branch, which runs exactly when the receipt is validated.
  ghost predicate LaunchRemovals(env: Env, log: seq<Action>) {
    && (Destroy(Secrets) in log <==> Validates(env))
    && (Destroy(WorkspaceResources) in log <==> Validates(env) && !env.fails(SecretRootWipe))
    && (Destroy(ComposeVolumes) in log <==> Validates(env) && VolumesReached(env))
  }

  // The closure's compose teardown is reached.
  predicate VolumesReached(env: Env) {
    !env.fails(SecretRootWipe) && !env.fails(ContainerRemoval) && !env.fails(VolumeRemoval)
  }

  predicate IsEvidence(log: seq<Action>, saved: bool) {
    if saved then log == [PreserveAuthority, SaveArtifact] else log == [PreserveAuthority] || log == []
  }

  lemma {:induction false} ValidatedLog(env: Env, torn: seq<Action>, evidence: seq<Action>, saved: bool)
    requires TeardownLog(env, torn) && IsEvidence(evidence, saved) && Validates(env)
    ensures LaunchLog([SubmitLaunch, ReceiptPassed] + torn + evidence, true, saved)
    ensures LaunchRemovals(env, [SubmitLaunch, ReceiptPassed] + torn + evidence)
  {
    TeardownRemoves(env, torn);
    var head := [SubmitLaunch, ReceiptPassed];
    assert head + torn + evidence == head + (torn + evidence);
    assert head[1] == ReceiptPassed;
    if saved {
      assert evidence[1] == SaveArtifact;
    }
  }

  lemma {:induction false} UnvalidatedLog(evidence: seq<Action>, saved: bool)
    requires IsEvidence(evidence, saved)
    ensures LaunchLog([SubmitLaunch] + evidence, false, saved)
  {
    if saved {
      assert evidence[1] == SaveArtifact;
    }
  }

  // From the launch request to the end of runLocalWorkspaceJ1HTTPQualification, its finally included.
  method AfterSubmission(env: Env) returns (log: seq<Action>, preserve: bool, composeDown: bool, ok: bool)
    requires Submits(env)
    ensures preserve <==> !Completes(env) && !UnsafeReadback(env)
    ensures LaunchLog(log, Validates(env), preserve && ArtifactSaved(env, WorkspaceKnown(env)))
    ensures LaunchRemovals(env, log)
    ensures composeDown <==> Validates(env) && ComposeRemoved(env)
    ensures ok <==> Completes(env) && !env.fails(FinalReceiptCheck)
  {
    log, preserve, composeDown := [SubmitLaunch], false, false;
    var known := !env.fails(LaunchPost) && !env.fails(LaunchIdentity);
    var reached := false;
    if known {
      reached := Passes(env, AFTER_IDENTITY);
    }
    var torn: seq<Action> := [];
    if reached {
      log := log + [ReceiptPassed];
      var done: bool;
      torn, composeDown, done := CleanupReady(env);
      if done {
        ValidatedLog(env, torn, [], false);
        assert log + torn == [SubmitLaunch, ReceiptPassed] + torn + [];
        return log + torn, false, composeDown, !env.fails(FinalReceiptCheck);
      }
      log := log + torn;
    }
    var evidence, saved;
    evidence, preserve, saved := Recover(env, known);
    if reached { ValidatedLog(env, torn, evidence, saved); } else { UnvalidatedLog(evidence, saved); }
    return log + evidence, preserve, composeDown, false;
  }

  predicate PurchaseEvidenceSafe(log: seq<Action>) {
    forall i :: 0 <= i < |log| && log[i].Destroy? ==> SubmitLaunch !in log || ReceiptPassed in log[..i]
  }

  lemma {:induction false} AppendedAfterReceipt(log: seq<Action>, more: seq<Action>)
    requires [SubmitLaunch, ReceiptPassed] <= log
    ensures PurchaseEvidenceSafe(log + more)
  {
    var all := log + more;
    forall i | 0 <= i < |all| && all[i].Destroy? ensures ReceiptPassed in all[..i] {
      assert all[0] == SubmitLaunch && all[1] == ReceiptPassed;
      assert all[..i][1] == ReceiptPassed;
    }
  }

  lemma {:induction false} LostUnvalidated(log: seq<Action>, more: seq<Action>)
    requires SubmitLaunch in log && ReceiptPassed !in log && more != [] && forall a :: a in more ==> a.Destroy?
    ensures !PurchaseEvidenceSafe(log + more)
  {
    var all := log + more;
    assert all[|log|] == more[0] && more[0] in more;
    assert ReceiptPassed !in more;
    assert ReceiptPassed !in all && ReceiptPassed !in all[..|log|];
    assert SubmitLaunch in all;
  }

  // Compose is stopped and taken down with its volumes: both commands could be started.
  predicate Downed(env: Env) { !env.fails(FinalStop) && !env.fails(FinalDown) }

  // The removal of the recovery root is reached.
  predicate RootReached(env: Env, composeStarted: bool) {
    (composeStarted ==> Downed(env)) && !env.fails(ImageRemoval) && !env.fails(RegistryRemoval)
  }

  predicate FinallyClean(env: Env, composeStarted: bool, composeDown: bool) {
    && RootReached(env, composeStarted) && !env.fails(RootRemoval)
    && (composeStarted ==> !env.fails(TeardownConfirmed) && (composeDown || !env.fails(FinalWipe)))
  }

  // The outer finally of runLocalWorkspaceQualification; `ok` is that it neither throws nor reports a failure.
  method FinalTeardown(
    env: Env, preserve: bool, composeStarted: bool, composeDown: bool) returns (log: seq<Action>, ok: bool)
    ensures forall a :: a in log ==> a.Destroy?
    ensures Destroy(RecoveryRoot) in log <==> !preserve && RootReached(env, composeStarted)
    ensures Destroy(Secrets) in log <==> !preserve && composeStarted && !composeDown && !env.fails(FinalWipe)
    ensures Destroy(ComposeVolumes) in log <==> !preserve && composeStarted && Downed(env)
    ensures Destroy(WorkspaceResources) !in log
    ensures preserve ==> log == []
    ensures !preserve && composeStarted && !composeDown ==> (log != [] <==> !env.fails(FinalWipe) || Downed(env))
    ensures ok <==> preserve || FinallyClean(env, composeStarted, composeDown)
  {
    log, ok := [], true;
    if preserve { return; }
    if composeStarted {
      if !composeDown {
        // A wipe that fails is caught; one that never started removed nothing.
        if env.fails(FinalWipe) { ok := false; } else { log := log + [Destroy(Secrets)]; }
      }
      if env.fails(FinalStop) || env.fails(FinalDown) { return log, false; }
      log := log + [Destroy(ComposeVolumes)];
      assert log[|log| - 1] == Destroy(ComposeVolumes);
      if env.fails(TeardownConfirmed) { ok := false; }
    }
    if env.fails(ImageRemoval) || env.fails(RegistryRemoval) { return log, false; }
    assert forall a :: a in log ==> a in log + [Destroy(RecoveryRoot)];
    log := log + [Destroy(RecoveryRoot)];
    assert log[|log| - 1] == Destroy(RecoveryRoot);
    if env.fails(RootRemoval) { ok := false; }
  }

  lemma {:induction false} SubmittedRun(
    log: seq<Action>, more: seq<Action>, validated: bool, preserved: bool, saved: bool)
    requires LaunchLog(log, validated, saved) && (forall a :: a in more ==> a.Destroy?) && (preserved ==> more == [])
    ensures SubmitLaunch in log + more
    ensures PurchaseEvidenceSafe(log + more) <==> validated || more == []
    ensures Destroy(RecoveryRoot) in log + more <==> Destroy(RecoveryRoot) in more
    ensures more == [] && !validated ==> NoDestroy(log + more)
    ensures SaveArtifact in log + more <==> saved
  {
    assert log[0] == SubmitLaunch;
    if validated {
      AppendedAfterReceipt(log, more);
    } else if more != [] {
      LostUnvalidated(log, more);
    } else {
      assert log + more == log;
    }
  }

  lemma {:induction false} UnsubmittedRun(log: seq<Action>)
    requires forall a :: a in log ==> a.Destroy?
    ensures SubmitLaunch !in log && SaveArtifact !in log && PurchaseEvidenceSafe(log)
  {
  }

  // The try block of runLocalWorkspaceQualification in live mode.
  method Attempted(env: Env)
    returns (log: seq<Action>, preserved: bool, composeStarted: bool, composeDown: bool, ok: bool)
    ensures Submits(env) ==> LaunchLog(log, Validates(env), preserved && ArtifactSaved(env, WorkspaceKnown(env)))
    ensures !Submits(env) ==> log == []
    ensures preserved <==> Submits(env) && !Completes(env) && !UnsafeReadback(env)
    ensures Submits(env) ==> LaunchRemovals(env, log)
    ensures composeStarted <==> AllPass(env, BEFORE_COMPOSE)
    ensures composeDown <==> Validates(env) && ComposeRemoved(env)
    ensures ok <==> Completes(env) && !env.fails(FinalReceiptCheck) && !env.fails(SourceRecheck)
  {
    log, preserved, composeStarted, composeDown := [], false, false, false;
    ok := Passes(env, BEFORE_COMPOSE);
    if !ok { return; }
    composeStarted := true;
    ok := Passes(env, COMPOSE);
    if !ok { return; }
    ok := Passes(env, BEFORE_LAUNCH);
    if !ok {
      // finally with nothing submitted: the workspace is unknown, so the closure has nothing to remove.
      NoWritesPreserve();
      var done: bool;
      log, preserved, composeDown, done := Cleanup(env, true, false, false, None);
      return;
    }
    log, preserved, composeDown, ok := AfterSubmission(env);
    if ok { ok := !env.fails(SourceRecheck); }
  }

  // The readback is unsafe and some removal of the outer finally can be started.  There, unlike in the closure before
  // it, a failing point means that the command's process never starts, and so removes nothing.
  predicate Loses(env: Env) {
    Submits(env) && !Validates(env) && UnsafeReadback(env) && (!env.fails(FinalWipe) || Downed(env))
  }

  predicate Finishes(env: Env) {
    && Completes(env) && !env.fails(FinalReceiptCheck) && !env.fails(SourceRecheck)
    && RootReached(env, true) && !env.fails(TeardownConfirmed) && !env.fails(RootRemoval) && !env.fails(ReceiptWrite)
  }

  /**
   Over every environment: nothing is destroyed after a submitted launch before the receipt candidate passed
   validation, except exactly when the launch went out, validation was not reached, the readback's provider
   counters do not add up to a safe integer, and a removal of the outer finally can be started; one whose process
   cannot be started removes nothing.  And exactly which assets are removed; a run that succeeds has removed them all.
   */
  method RunLive(env: Env) returns (log: seq<Action>, preserved: bool, ok: bool)
    ensures SubmitLaunch in log <==> Submits(env)
    ensures PurchaseEvidenceSafe(log) <==> !Loses(env)
    ensures preserved <==> Submits(env) && !Completes(env) && !UnsafeReadback(env)
    ensures Destroy(RecoveryRoot) in log <==> !preserved && RootReached(env, AllPass(env, BEFORE_COMPOSE))
    ensures preserved && !Validates(env) ==> NoDestroy(log)
    ensures SaveArtifact in log <==> preserved && ArtifactSaved(env, WorkspaceKnown(env))
    ensures Destroy(Secrets) in log <==>
      Validates(env) || (!preserved && AllPass(env, BEFORE_COMPOSE) && !env.fails(FinalWipe))
    ensures Destroy(WorkspaceResources) in log <==> Validates(env) && !env.fails(SecretRootWipe)
    ensures Destroy(ComposeVolumes) in log <==>
      (Validates(env) && VolumesReached(env)) || (!preserved && AllPass(env, BEFORE_COMPOSE) && Downed(env))
    ensures ok <==> Finishes(env)
    ensures ok ==> forall asset: Asset :: Destroy(asset) in log
  {
    var composeStarted, composeDown;
    log, preserved, composeStarted, composeDown, ok := Attempted(env);
    var removed, clean := FinalTeardown(env, preserved, composeStarted, composeDown);
    if Submits(env) {
      SubmittedRun(log, removed, Validates(env), preserved, preserved && ArtifactSaved(env, WorkspaceKnown(env)));
    } else {
      UnsubmittedRun(removed);
      assert log + removed == removed;
    }
    log := log + removed;
    ok := ok && clean && !env.fails(ReceiptWrite);
    if ok {
      forall asset: Asset ensures Destroy(asset) in log {
        match asset
        case WorkspaceResources =>
        case Secrets =>
        case ComposeVolumes =>
        case RecoveryRoot =>
      }
    }
  }

  /******* The exception does occur *******/

  function PlainAttempt(attempted: nat, confirmed: nat, unknown: nat, key: string): RawAttempt {
    RawAttempt(Int(attempted), Int(confirmed), Int(unknown), Int(attempted), Nullish, Nullish, Absent, Txt(key))
  }

  function UniformLaunch(a: RawAttempt): Launch {
    Launch("op", "ws", Int(1), Int(1), Txt("running"), "key",
      map[Key := a, Debit := a, Compute := a, Storage := a, Attachment := a, Secret := a, Runtime := a, Activation := a,
        Receipt := a])
  }

  // The launch request times out; the readback then reports every stage attempted `attempted` times.
  function LosingEnv(attempted: nat, key: string, digest: string -> string): Env {
    Env(p => p == LaunchPost, UniformLaunch(PlainAttempt(attempted, 0, 0, key)), digest)
  }

  lemma {:induction false} PlainAttemptNormalizes(n: nat, c: nat, u: nat, key: string, digest: string -> string)
    requires c + u <= n <= MAX_SAFE && key != ""
    ensures NormalizeAttempt(PlainAttempt(n, c, u, key), digest).Some?
    ensures NormalizeAttempt(PlainAttempt(n, c, u, key), digest).value.attempted == n
  {
    RoundIff(c + u);
  }

  lemma {:induction false} UniformAccepted(a: RawAttempt, digest: string -> string)
    requires NormalizeAttempt(a, digest).Some?
    ensures Accepted(UniformLaunch(a), digest)
  {
    var l := UniformLaunch(a);
    assert Identified(l) by { assert LAUNCH_STAGES[0] == "key"; }
    assert forall i :: 0 <= i < |ATTEMPT_STAGES| ==> StageOk(l, ATTEMPT_STAGES[i], digest);
  }

  lemma {:induction false} LosingSubmits(env: Env)
    requires forall p :: env.fails(p) <==> p == LaunchPost
    ensures Submits(env) && !Validates(env)
  {
  }

  /** So a run can lose the evidence of a submitted, unvalidated launch: this environment meets the exception. */
  lemma {:induction false} EvidenceCanBeLost(attempted: nat, key: string, digest: string -> string)
    requires attempted == MAX_SAFE && key != ""
    ensures Loses(LosingEnv(attempted, key, digest))
  {
    var env := LosingEnv(attempted, key, digest);
    PlainAttemptNormalizes(attempted, 0, 0, key, digest);
    LosingReadback(env, PlainAttempt(attempted, 0, 0, key));
    LosingSubmits(env);
  }

  lemma {:induction false} LosingReadback(env: Env, a: RawAttempt)
    requires !env.fails(RecoveryRead) && env.readback == UniformLaunch(a)
    requires NormalizeAttempt(a, env.digest).Some? && a.attempted == Int(MAX_SAFE)
    ensures UnsafeReadback(env)
  {
    UniformAccepted(a, env.digest);
    UniformTotal(a);
  }

  lemma {:induction false} UniformTotal(a: RawAttempt)
    ensures Providers(UniformLaunch(a).budgets, RawAttempted) == 5 * Count(a.attempted)
  {
  }
}
