/** Installing and uninstalling a client integration when any call may fail. */
module ClientLifecycle {
  import opened Text

  datatype Component = Credential | McpEntry | Plugin | Marketplace

  // ----- failures

  datatype Stage = McpStage | PluginStage

  /** NotStarted blames a stage that had no effect; Provisioning admits a credential may be left. */
  datatype Thrown = Plain | NotStarted(stage: Stage) | Provisioning

  /** A call returns, or throws after it took effect or before. */
  datatype Call = Returns | Throws(error: Thrown, tookEffect: bool)

  datatype ComponentAction = Create | ReuseOwned | ReuseExternal

  datatype Preflight = Decided(mcp: ComponentAction, plugin: ComponentAction) | Block | NoAnswer(error: Thrown)

  /** What every call of one installation does. */
  datatype InstallFaults = InstallFaults(
    preflight: Preflight,
    profileSnapshot: bool,
    trackedPaths: bool,
    capture: Call,
    provision: Call,
    addMcp: Call,
    recordMcp: Call,
    addPlugin: Call,
    recordPlugin: Call,
    verify: Call,
    recordAgain: Call,
    pluginMatches: bool,
    removePlugin: Call,
    mcpMatchesAfterPlugin: bool,
    mcpMatches: bool,
    removeMcp: Call,
    revoke: Call)

  datatype Status = Verified | ExternalVerified | Failed | RecoveryRequired

  datatype InstallResult = InstallResult(status: Status, compensated: bool, owned: bool)

  /** The client and its profile: which components are installed. */
  class ClientHost {
    var present: set<Component>

    constructor (present: set<Component>)
      ensures this.present == present
    {
      this.present := present;
    }

    method Add(component: Component, call: Call)
      modifies this
      ensures present == old(present) + if call == Returns || call.tookEffect then {component} else {}
    {
      if call == Returns || call.tookEffect {
        present := present + {component};
      }
    }

    /** An inverse that returns has undone its component. */
    method Remove(component: Component, call: Call)
      modifies this
      ensures present == old(present) - if call == Returns || call.tookEffect then {component} else {}
    {
      if call == Returns || call.tookEffect {
        present := present - {component};
      }
    }
  }

  predicate CreatesMcp(f: InstallFaults) { f.preflight.Decided? && f.preflight.mcp == Create }

  predicate CreatesPlugin(f: InstallFaults) { f.preflight.Decided? && f.preflight.plugin == Create }

  /** Preflight asks to create only what is missing and to reuse only what is there. */
  predicate Truthful(f: InstallFaults, present: set<Component>) {
    f.preflight.Decided? ==>
      && (f.preflight.mcp == Create <==> McpEntry !in present)
      && (f.preflight.plugin == Create <==> Plugin !in present)
      && (f.preflight.mcp == Create ==> Credential !in present)
  }

  /** What the installation adds when nothing fails. */
  function Planned(f: InstallFaults): set<Component> {
    (if CreatesMcp(f) then {Credential, McpEntry} else {}) + (if CreatesPlugin(f) then {Plugin} else {})
  }

  /** The part of an installation up to its first failure. */
  datatype Progress = Progress(
    credential: bool,
    mcpAttempted: bool,
    pluginAttempted: bool,
    snapshot: Option<bool>,
    mcpPost: bool,
    pluginPost: bool)

  const NOTHING_DONE := Progress(false, false, false, None, false, false)

  // ----- the calls of an installation, in order

  datatype Step = Step(adds: Option<Component>, call: Call)

  function Gain(step: Step): set<Component> {
    if step.adds.Some? && (step.call == Returns || step.call.tookEffect) then {step.adds.value} else {}
  }

  function TakesSnapshot(f: InstallFaults): bool {
    f.profileSnapshot && (CreatesMcp(f) || CreatesPlugin(f))
  }

  function Recording(f: InstallFaults, call: Call): seq<Step> {
    if TakesSnapshot(f) then [Step(None, call)] else []
  }

  function McpSteps(f: InstallFaults): seq<Step> {
    if CreatesMcp(f)
    then [Step(Some(Credential), f.provision), Step(Some(McpEntry), f.addMcp)] + Recording(f, f.recordMcp)
    else []
  }

  function PluginSteps(f: InstallFaults): seq<Step> {
    if CreatesPlugin(f) then [Step(Some(Plugin), f.addPlugin)] + Recording(f, f.recordPlugin) else []
  }

  function Steps(f: InstallFaults): seq<Step> {
    Recording(f, f.capture) + (McpSteps(f) + (PluginSteps(f) + [Step(None, f.verify)]))
  }

  /** What is there once the first call has thrown, or all have returned. */
  function Added(steps: seq<Step>): set<Component> {
    if steps == [] then {}
    else Gain(steps[0]) + if steps[0].call == Returns then Added(steps[1..]) else {}
  }

  function FirstError(steps: seq<Step>): Option<Thrown> {
    if steps == [] then None
    else if steps[0].call == Returns then FirstError(steps[1..])
    else Some(steps[0].call.error)
  }

  /** The error that stops the installation hides an effect: it blames a stage whose component
      was added, or it leaves a credential behind without saying so. */
  predicate HidesEffect(f: InstallFaults) {
    var added, error := Added(Steps(f)), FirstError(Steps(f));
    || (error == Some(NotStarted(McpStage)) && McpEntry in added)
    || (error == Some(NotStarted(PluginStage)) && Plugin in added)
    || (CredentialLeft(f) && error != Some(Provisioning))
  }

  /** Provisioning was reached, left its credential and threw. */
  predicate CredentialLeft(f: InstallFaults) {
    CreatesMcp(f) && FirstError(Recording(f, f.capture)) == None
    && f.provision.Throws? && f.provision.tookEffect
  }

  /** Provisioning was reached and returned, so the entry was attempted next. */
  predicate CredentialHeld(f: InstallFaults) {
    CreatesMcp(f) && FirstError(Recording(f, f.capture)) == None && f.provision == Returns
  }

  predicate PluginReached(f: InstallFaults) {
    CreatesPlugin(f) && FirstError(Recording(f, f.capture)) == None && FirstError(McpSteps(f)) == None
  }

  /** The profile was recorded once more after the entry, or after the plugin. */
  predicate RecordsMcp(f: InstallFaults) {
    CredentialHeld(f) && f.addMcp == Returns && TakesSnapshot(f) && f.recordMcp == Returns
  }

  predicate RecordsPlugin(f: InstallFaults) {
    PluginReached(f) && f.addPlugin == Returns && TakesSnapshot(f) && f.recordPlugin == Returns
  }

  /** Tracked files of the profile have no expected image when the installation stops. */
  predicate LeftOpen(f: InstallFaults) {
    TakesSnapshot(f) && f.capture == Returns && f.trackedPaths && !RecordsMcp(f) && !RecordsPlugin(f)
  }

  /** What a compensation removes: all that was attempted, but for a stage the error blames. */
  function Undone(f: InstallFaults): set<Component> {
    var error := FirstError(Steps(f));
    (if CredentialHeld(f) then {Credential} else {})
    + (if CredentialHeld(f) && error != Some(NotStarted(McpStage)) then {McpEntry} else {})
    + (if PluginReached(f) && error != Some(NotStarted(PluginStage)) then {Plugin} else {})
  }

  /** What was added and is not removed again. */
  function LeftBehind(f: InstallFaults): set<Component> { Added(Steps(f)) - Undone(f) }

  lemma {:induction false} AddedInTurn(a: seq<Step>, b: seq<Step>)
    ensures Added(a + b) == Added(a) + if FirstError(a) == None then Added(b) else {}
    ensures FirstError(a + b) == if FirstError(a) == None then FirstError(b) else FirstError(a)
  {
    if a == [] {
      assert a + b == b;
    } else {
      AddedInTurn(a[1..], b);
      assert (a + b)[1..] == a[1..] + b;
    }
  }

  /** Provisions the credential, adds the entry and records the profile. */
  method AdvanceMcp(host: ClientHost, f: InstallFaults, progress: Progress)
    returns (error: Option<Thrown>, p: Progress)
    requires CreatesMcp(f) && (progress.snapshot.Some? <==> TakesSnapshot(f))
    requires !progress.credential && !progress.mcpAttempted && !progress.pluginAttempted
    requires !progress.mcpPost && !progress.pluginPost
    modifies host
    ensures host.present == old(host.present) + Added(McpSteps(f)) && error == FirstError(McpSteps(f))
    ensures p.credential <==> f.provision == Returns
    ensures p.mcpAttempted <==> f.provision == Returns
    ensures !p.pluginAttempted && !p.pluginPost && (p.snapshot.Some? <==> TakesSnapshot(f))
    ensures p.mcpPost <==> f.provision == Returns && f.addMcp == Returns && TakesSnapshot(f) && f.recordMcp == Returns
    ensures p.snapshot == if p.mcpPost then Some(true) else progress.snapshot
  {
    ghost var steps := McpSteps(f);
    ghost var provision, add := Step(Some(Credential), f.provision), Step(Some(McpEntry), f.addMcp);
    ghost var record := Recording(f, f.recordMcp);
    assert steps[0] == provision && steps[1..] == [add] + record;
    assert ([add] + record)[0] == add && ([add] + record)[1..] == record;
    NothingRecorded(f, f.recordMcp);
    hide Recording;
    p := progress;
    host.Add(Credential, f.provision);
    if f.provision.Throws? {
      return Some(f.provision.error), p;
    }
    p := p.(credential := true, mcpAttempted := true);
    host.Add(McpEntry, f.addMcp);
    if f.addMcp.Throws? {
      return Some(f.addMcp.error), p;
    }
    if p.snapshot.Some? {
      if f.recordMcp.Throws? {
        return Some(f.recordMcp.error), p;
      }
      p := p.(snapshot := Some(true), mcpPost := true);
    }
    return None, p;
  }

  method AdvancePlugin(host: ClientHost, f: InstallFaults, progress: Progress)
    returns (error: Option<Thrown>, p: Progress)
    requires CreatesPlugin(f) && (progress.snapshot.Some? <==> TakesSnapshot(f))
    modifies host
    ensures host.present == old(host.present) + Added(PluginSteps(f)) && error == FirstError(PluginSteps(f))
    ensures p.credential == progress.credential && p.mcpAttempted == progress.mcpAttempted && p.pluginAttempted
    ensures p.mcpPost == progress.mcpPost
    ensures p.pluginPost <==>
              progress.pluginPost || (f.addPlugin == Returns && TakesSnapshot(f) && f.recordPlugin == Returns)
    ensures p.snapshot ==
            if f.addPlugin == Returns && TakesSnapshot(f) && f.recordPlugin == Returns then Some(true)
            else progress.snapshot
  {
    ghost var record := Recording(f, f.recordPlugin);
    assert PluginSteps(f)[1..] == record;
    NothingRecorded(f, f.recordPlugin);
    hide Recording;
    p := progress.(pluginAttempted := true);
    host.Add(Plugin, f.addPlugin);
    if f.addPlugin.Throws? {
      return Some(f.addPlugin.error), p;
    }
    if p.snapshot.Some? {
      if f.recordPlugin.Throws? {
        return Some(f.recordPlugin.error), p;
      }
      p := p.(snapshot := Some(true), pluginPost := true);
    }
    return None, p;
  }

  /** Installs up to the first call that throws. */
  method Advance(host: ClientHost, f: InstallFaults) returns (error: Option<Thrown>, p: Progress)
    requires f.preflight.Decided?
    modifies host
    ensures host.present == old(host.present) + Added(Steps(f)) && error == FirstError(Steps(f))
    ensures p.credential <==> CredentialHeld(f)
    ensures p.mcpAttempted <==> CredentialHeld(f)
    ensures p.pluginAttempted <==> PluginReached(f)
    ensures (p.mcpPost <==> RecordsMcp(f)) && (p.pluginPost <==> RecordsPlugin(f))
    ensures p.snapshot == Some(false) <==> LeftOpen(f)
  {
    ghost var last := [Step(None, f.verify)];
    AddedInTurn(Recording(f, f.capture), McpSteps(f) + (PluginSteps(f) + last));
    AddedInTurn(McpSteps(f), PluginSteps(f) + last);
    AddedInTurn(PluginSteps(f), last);
    NoSteps(f);
    NothingRecorded(f, f.capture);
    assert last[1..] == [];
    hide Steps, McpSteps, PluginSteps, Recording;
    p := NOTHING_DONE;
    if TakesSnapshot(f) {
      if f.capture.Throws? {
        return Some(f.capture.error), p;
      }
      p := p.(snapshot := Some(!f.trackedPaths));
    }
    if CreatesMcp(f) {
      error, p := AdvanceMcp(host, f, p);
      if error.Some? {
        return;
      }
    }
    if CreatesPlugin(f) {
      error, p := AdvancePlugin(host, f, p);
      if error.Some? {
        return;
      }
    }
    return if f.verify.Throws? then Some(f.verify.error) else None, p;
  }

  lemma {:induction false} NoSteps(f: InstallFaults)
    ensures !CreatesMcp(f) ==> McpSteps(f) == []
    ensures !CreatesPlugin(f) ==> PluginSteps(f) == []
  {}

  lemma {:induction false} AddedByPart(f: InstallFaults)
    ensures Added(McpSteps(f)) <= {Credential, McpEntry} && Added(PluginSteps(f)) <= {Plugin}
    ensures McpEntry in Added(McpSteps(f)) ==> f.provision == Returns
    ensures Credential in Added(McpSteps(f))
       <==> CreatesMcp(f) && (f.provision == Returns || f.provision.tookEffect)
    ensures FirstError(McpSteps(f)) == None && CreatesMcp(f) ==>
              f.provision == Returns && Added(McpSteps(f)) == {Credential, McpEntry}
    ensures FirstError(PluginSteps(f)) == None && CreatesPlugin(f) ==> Added(PluginSteps(f)) == {Plugin}
  {
    NoSteps(f);
    NothingRecorded(f, f.recordMcp);
    NothingRecorded(f, f.recordPlugin);
    if CreatesMcp(f) {
      var rest := McpSteps(f)[1..];
      assert rest == [Step(Some(McpEntry), f.addMcp)] + Recording(f, f.recordMcp);
      assert rest[1..] == Recording(f, f.recordMcp);
      assert f.addMcp == Returns ==> Added(rest) == {McpEntry} + Added(rest[1..]) == {McpEntry};
      assert f.addMcp != Returns ==> FirstError(rest).Some?;
      assert f.provision == Returns ==> FirstError(McpSteps(f)) == FirstError(rest);
      assert f.provision == Returns ==> Added(McpSteps(f)) == {Credential} + Added(rest);
    }
    if CreatesPlugin(f) {
      assert PluginSteps(f)[1..] == Recording(f, f.recordPlugin);
    }
  }

  lemma {:induction false} NothingRecorded(f: InstallFaults, call: Call)
    ensures Added(Recording(f, call)) == {}
    ensures FirstError(Recording(f, call)) == if TakesSnapshot(f) && call.Throws? then Some(call.error) else None
  {
    if TakesSnapshot(f) {
      assert Recording(f, call)[1..] == [];
    }
  }

  predicate TakesEffect(call: Call) { call == Returns || call.tookEffect }

  /** Runs an inverse only when the profile still looks as expected. */
  method GuardedInverse(host: ClientHost, component: Component, expected: bool, matches: bool, inverse: Call)
    returns (undone: bool)
    modifies host
    ensures undone <==> (expected ==> matches) && inverse == Returns
    ensures host.present
         == old(host.present) - if (expected ==> matches) && TakesEffect(inverse) then {component} else {}
  {
    if expected && !matches {
      return false;
    }
    host.Remove(component, inverse);
    return inverse == Returns;
  }

  /** The profile is recorded once more when the failure left its expected image open. */
  method RecordAgain(f: InstallFaults, progress: Progress) returns (failed: bool, p: Progress)
    ensures failed <==> progress.snapshot == Some(false) && f.recordAgain.Throws?
    ensures p.credential == progress.credential && p.mcpAttempted == progress.mcpAttempted
    ensures p.pluginAttempted == progress.pluginAttempted
    ensures var recorded := progress.snapshot == Some(false) && f.recordAgain == Returns;
            && (p.pluginPost <==> progress.pluginPost || (recorded && p.pluginAttempted))
            && (p.mcpPost <==> progress.mcpPost || (recorded && !p.pluginAttempted && p.mcpAttempted))
  {
    p := progress;
    if p.snapshot == Some(false) {
      if f.recordAgain.Throws? {
        return true, p;
      }
      p := p.(snapshot := Some(true));
      if p.pluginAttempted {
        p := p.(pluginPost := true);
      } else if p.mcpAttempted {
        p := p.(mcpPost := true);
      }
    }
    return false, p;
  }

  /** Nobody else changed the profile, and every inverse returns. */
  predicate InversesWork(f: InstallFaults) {
    && f.recordAgain == Returns && f.pluginMatches && f.mcpMatchesAfterPlugin && f.mcpMatches
    && f.removePlugin == Returns && f.removeMcp == Returns && f.revoke == Returns
  }

  // ----- what a compensation comes to, part by part

  /** The plugin's inverse is called: the profile still looks as it did after the last recording. */
  predicate PluginInverseRuns(f: InstallFaults, p: Progress) { p.pluginAttempted && (p.pluginPost ==> f.pluginMatches) }

  /** The plugin is out of the way, so that the entry may go. */
  predicate EntryMayGo(f: InstallFaults, p: Progress) {
    p.pluginAttempted ==>
      PluginInverseRuns(f, p) && f.removePlugin == Returns && (p.mcpPost ==> f.mcpMatchesAfterPlugin)
  }

  predicate McpInverseRuns(f: InstallFaults, p: Progress) {
    p.mcpAttempted && EntryMayGo(f, p) && (p.mcpPost ==> f.mcpMatches)
  }

  /** What is gone afterwards; the credential is revoked whatever became of the rest. */
  function Gone(f: InstallFaults, p: Progress): set<Component> {
    (if PluginInverseRuns(f, p) && TakesEffect(f.removePlugin) then {Plugin} else {})
    + (if McpInverseRuns(f, p) && TakesEffect(f.removeMcp) then {McpEntry} else {})
    + (if p.credential && TakesEffect(f.revoke) then {Credential} else {})
  }

  /** Some part of it did not work; open tells whether the profile had to be recorded again. */
  predicate Fails(f: InstallFaults, error: Thrown, open: bool, p: Progress) {
    || error == Provisioning || (open && f.recordAgain.Throws?) || !EntryMayGo(f, p)
    || (p.mcpAttempted && !(McpInverseRuns(f, p) && f.removeMcp == Returns))
    || (p.credential && f.revoke.Throws?)
  }

  /** Undoes what was attempted, the plugin before the entry it needs and the credential in any case,
      and says whether all of it worked. */
  method Compensate(host: ClientHost, f: InstallFaults, error: Thrown, progress: Progress)
    returns (failed: bool, p: Progress)
    modifies host
    ensures p.mcpAttempted <==> progress.mcpAttempted && error != NotStarted(McpStage)
    ensures p.pluginAttempted <==> progress.pluginAttempted && error != NotStarted(PluginStage)
    ensures p.credential == progress.credential
    ensures var recorded := progress.snapshot == Some(false) && f.recordAgain == Returns;
            && (p.pluginPost <==> progress.pluginPost || (recorded && p.pluginAttempted))
            && (p.mcpPost <==> progress.mcpPost || (recorded && !p.pluginAttempted && p.mcpAttempted))
    ensures host.present == old(host.present) - Gone(f, p)
    ensures failed <==> Fails(f, error, progress.snapshot == Some(false), p)
    ensures p.credential && f.revoke == Returns ==> Credential !in host.present
  {
    failed, p := RecordAgain(f, progress.(
      mcpAttempted := progress.mcpAttempted && error != NotStarted(McpStage),
      pluginAttempted := progress.pluginAttempted && error != NotStarted(PluginStage)));
    failed := failed || error == Provisioning;
    var safe := true;
    if p.pluginAttempted {
      safe := GuardedInverse(host, Plugin, p.pluginPost, f.pluginMatches, f.removePlugin);
      if safe && p.mcpPost && !f.mcpMatchesAfterPlugin {
        safe := false;
      }
      failed := failed || !safe;
    }
    if p.mcpAttempted && safe {
      var undone := GuardedInverse(host, McpEntry, p.mcpPost, f.mcpMatches, f.removeMcp);
      failed := failed || !undone;
    }
    if p.credential {
      host.Remove(Credential, f.revoke);
      failed := failed || f.revoke.Throws?;
    }
  }

  function Undo(p: Progress): set<Component> {
    (if p.mcpAttempted then {McpEntry} else {}) + (if p.pluginAttempted then {Plugin} else {})
    + (if p.credential then {Credential} else {})
  }

  /** The progress a compensation works from: what was attempted and not blamed, and which images of
      the profile are expected. */
  function Attempted(f: InstallFaults): Progress {
    var error := FirstError(Steps(f));
    var mcp := CredentialHeld(f) && error != Some(NotStarted(McpStage));
    var plugin := PluginReached(f) && error != Some(NotStarted(PluginStage));
    var recorded := LeftOpen(f) && f.recordAgain == Returns;
    Progress(CredentialHeld(f), mcp, plugin, None, RecordsMcp(f) || (recorded && !plugin && mcp),
             RecordsPlugin(f) || (recorded && plugin))
  }

  /** What is gone is of what was attempted, all of it when nothing fails, and the entry only after
      the plugin; with working inverses only an admitted provisioning failure fails. */
  lemma {:induction false} GoneParts(f: InstallFaults, p: Progress)
    ensures Gone(f, p) <= Undo(p)
    ensures p.credential && f.revoke == Returns ==> Credential in Gone(f, p)
    ensures EntryMayGo(f, p) && p.pluginAttempted ==> Plugin in Gone(f, p)
    ensures McpEntry in Gone(f, p) && p.pluginAttempted ==> Plugin in Gone(f, p)
    ensures forall error, open :: !Fails(f, error, open, p) ==> Gone(f, p) == Undo(p)
    ensures InversesWork(f) ==> forall error, open :: Fails(f, error, open, p) <==> error == Provisioning
  {}

  predicate NoEffect(call: Call) { call.Throws? && !call.tookEffect }

  /** The same, call by call: what each inverse decides, and what stands in its way. */
  lemma {:induction false} PartsDecided(f: InstallFaults, p: Progress)
    ensures p.pluginAttempted && f.pluginMatches && f.removePlugin == Returns ==> Plugin in Gone(f, p)
    ensures (!p.pluginAttempted || (p.pluginPost && !f.pluginMatches) || NoEffect(f.removePlugin)) ==>
              Plugin !in Gone(f, p)
    ensures (p.mcpAttempted && f.mcpMatches && f.removeMcp == Returns
             && (p.pluginAttempted ==> f.pluginMatches && f.removePlugin == Returns && f.mcpMatchesAfterPlugin)) ==>
              McpEntry in Gone(f, p)
    ensures (p.pluginAttempted && (f.removePlugin.Throws? || (p.pluginPost && !f.pluginMatches)
                                   || (p.mcpPost && !f.mcpMatchesAfterPlugin))) ==>
              McpEntry !in Gone(f, p)
    ensures (!p.mcpAttempted || (p.mcpPost && !f.mcpMatches) || NoEffect(f.removeMcp)) ==> McpEntry !in Gone(f, p)
    ensures Credential in Gone(f, p) <==> p.credential && (f.revoke == Returns || f.revoke.tookEffect)
    ensures forall error, open ::
              (|| (open && f.recordAgain.Throws?) || (p.credential && f.revoke.Throws?) || error == Provisioning
               || (p.pluginAttempted && (f.removePlugin.Throws? || (p.pluginPost && !f.pluginMatches)
                                         || (p.mcpPost && !f.mcpMatchesAfterPlugin)))
               || (p.mcpAttempted && (f.removeMcp.Throws? || (p.mcpPost && !f.mcpMatches))))
              <==> Fails(f, error, open, p)
  {}

  lemma {:induction false} SameParts(f: InstallFaults, p: Progress, q: Progress)
    requires p.(snapshot := q.snapshot) == q
    ensures Gone(f, p) == Gone(f, q) && Undo(p) == Undo(q)
    ensures forall error, open :: Fails(f, error, open, p) <==> Fails(f, error, open, q)
  {}

  /** Installs or compensates. Verified means that every planned component is there; compensated
      means that what was added is gone again, but for what the error hid. What the call is not
      asked to create is never removed, whatever the preflight took for missing, and nothing
      unplanned is ever left. */
  method InstallClientLifecycle(host: ClientHost, f: InstallFaults) returns (r: InstallResult)
    modifies host
    ensures r.status == Verified || r.status == ExternalVerified <==>
              f.preflight.Decided? && FirstError(Steps(f)) == None
    ensures r.status == Verified || r.status == ExternalVerified ==>
              && host.present == old(host.present) + Planned(f)
              && (Truthful(f, old(host.present)) ==> {McpEntry, Plugin} <= host.present)
    ensures r.status == ExternalVerified ==> f.preflight == Decided(ReuseExternal, ReuseExternal)
    ensures r.status == Verified ==> r.owned && f.preflight != Decided(ReuseExternal, ReuseExternal)
    ensures InversesWork(f) && r.status == RecoveryRequired ==>
              if f.preflight.NoAnswer? then f.preflight.error == Provisioning
              else FirstError(Steps(f)) == Some(Provisioning)
    ensures r.status == Failed && r.compensated ==>
              && host.present == old(host.present) + Added(Steps(f)) - Undone(f)
              && (host.present == old(host.present) <==>
                    LeftBehind(f) <= old(host.present) && Undone(f) !! old(host.present))
    ensures r.status == Failed && r.compensated && Truthful(f, old(host.present)) ==>
              && host.present == old(host.present) + LeftBehind(f)
              && (host.present == old(host.present) <==> !HidesEffect(f))
    ensures r.status == Failed && !r.compensated ==> f.preflight == Block && host.present == old(host.present)
    ensures r.compensated ==> r.status == Failed && !r.owned
    ensures old(host.present) - Planned(f) <= host.present <= old(host.present) + Planned(f)
    ensures Truthful(f, old(host.present)) ==> old(host.present) <= host.present
    ensures f.preflight.Decided? && FirstError(Steps(f)).Some? ==>
              && host.present == old(host.present) + Added(Steps(f)) - Gone(f, Attempted(f))
              && (r.status == RecoveryRequired <==>
                    Fails(f, FirstError(Steps(f)).value, LeftOpen(f), Attempted(f)))
              && (CredentialHeld(f) && f.revoke == Returns ==> Credential !in host.present)
              && (r.status == RecoveryRequired ==>
                    (r.owned <==> CredentialHeld(f) || Attempted(f).mcpAttempted || Attempted(f).pluginAttempted))
    ensures f.preflight.NoAnswer? ==>
              host.present == old(host.present) && !r.owned
              && (r.status == RecoveryRequired <==> f.preflight.error == Provisioning)
    ensures f.preflight.Decided? ==> CallsInOrder(f, old(host.present), host.present)
  {
    hide CallsInOrder, Attempted, RecordsMcp, RecordsPlugin, LeftOpen, Gone, Fails, Undo, HidesEffect, TakesSnapshot,
      CredentialHeld, PluginReached, InversesWork, Added, FirstError, Steps, Undone, LeftBehind;
    if f.preflight == Block {
      NothingPlanned(f);
      return InstallResult(Failed, false, false);
    }
    if f.preflight.NoAnswer? {
      NothingPlanned(f);
      NothingLeft(f, host.present);
      var failed := f.preflight.error == Provisioning;
      return if failed then InstallResult(RecoveryRequired, false, false) else InstallResult(Failed, true, false);
    }
    hide Planned, Truthful;
    ghost var before := host.present;
    var error, failed, owned := Proceed(host, f);
    RestoredExactly(f, before);
    if error == None {
      return InstallResult(if owned then Verified else ExternalVerified, false, owned);
    }
    return if failed then InstallResult(RecoveryRequired, false, owned) else InstallResult(Failed, true, false);
  }

  lemma {:induction false} NothingLeft(f: InstallFaults, before: set<Component>)
    requires !f.preflight.Decided?
    ensures LeftBehind(f) == {} && Truthful(f, before)
  {
    hide HidesEffect, Steps, Added, Undone;
    NothingPlanned(f);
  }

  /** What follows a decision to go on: the calls of the installation, and a compensation when one of
      them throws. It says whether that failed, and what is owned. */
  method Proceed(host: ClientHost, f: InstallFaults) returns (error: Option<Thrown>, failed: bool, owned: bool)
    requires f.preflight.Decided?
    modifies host
    ensures error == FirstError(Steps(f))
    ensures error == None ==>
              && !failed && host.present == old(host.present) + Planned(f)
              && (owned <==> f.preflight != Decided(ReuseExternal, ReuseExternal))
    ensures error.Some? ==>
              && host.present == old(host.present) + Added(Steps(f)) - Gone(f, Attempted(f))
              && (failed <==> Fails(f, error.value, LeftOpen(f), Attempted(f)))
              && (!failed ==> host.present == old(host.present) + Added(Steps(f)) - Undone(f))
              && (owned <==> CredentialHeld(f) || Attempted(f).mcpAttempted || Attempted(f).pluginAttempted)
              && (CredentialHeld(f) && f.revoke == Returns ==> Credential !in host.present)
              && (InversesWork(f) ==> (failed <==> error == Some(Provisioning)))
              && (error == Some(Provisioning) ==> failed)
    ensures old(host.present) - Planned(f) <= host.present <= old(host.present) + Planned(f)
    ensures Truthful(f, old(host.present)) ==> old(host.present) <= host.present
    ensures CallsInOrder(f, old(host.present), host.present)
  {
    hide CallsInOrder, RecordsMcp, RecordsPlugin, LeftOpen, Gone, Fails, Undo, Truthful, Planned,
      HidesEffect, TakesSnapshot, CredentialHeld, PluginReached, InversesWork, Added, FirstError, Steps, Undone;
    ghost var before := host.present;
    PlannedByPart(f);
    if Truthful(f, before) {
      NothingRemoved(f, before);
    }
    InOrder(f, before, {});
    var progress;
    error, progress := Advance(host, f);
    if error == None {
      assert host.present == before + Added(Steps(f)) - {};
      return error, false, f.preflight.mcp != ReuseExternal || f.preflight.plugin != ReuseExternal;
    }
    var p;
    failed, p := Compensate(host, f, error.value, progress);
    AfterCompensation(f, before, p);
    owned := p.credential || p.mcpAttempted || p.pluginAttempted;
  }

  lemma {:induction false} NothingRemoved(f: InstallFaults, before: set<Component>)
    requires f.preflight.Decided? && Truthful(f, before)
    ensures Planned(f) !! before
  {}

  /** What an installation that failed leaves, and how it is reported. */
  lemma {:induction false} AfterCompensation(f: InstallFaults, before: set<Component>, p: Progress)
    requires f.preflight.Decided? && FirstError(Steps(f)).Some?
    requires p.(snapshot := None) == Attempted(f)
    ensures var error, after := FirstError(Steps(f)).value, before + Added(Steps(f)) - Gone(f, p);
            && after == before + Added(Steps(f)) - Gone(f, Attempted(f))
            && (Fails(f, error, LeftOpen(f), p) <==> Fails(f, error, LeftOpen(f), Attempted(f)))
            && (!Fails(f, error, LeftOpen(f), p) ==> Gone(f, p) == Undone(f))
            && Gone(f, p) <= Undone(f) <= Planned(f)
            && (CredentialHeld(f) && f.revoke == Returns ==> Credential !in after)
            && (InversesWork(f) ==> (Fails(f, error, LeftOpen(f), p) <==> error == Provisioning))
            && (error == Provisioning ==> Fails(f, error, LeftOpen(f), p))
            && CallsInOrder(f, before, after)
  {
    hide HidesEffect, TakesSnapshot, InversesWork, Added, FirstError, Steps, Planned, RecordsMcp, RecordsPlugin,
      LeftOpen, CallsInOrder, CredentialHeld, PluginReached;
    PlannedByPart(f);
    GoneParts(f, p);
    SameParts(f, p, Attempted(f));
    UndoIsUndone(f, p);
    InOrder(f, before, Gone(f, p));
  }

  /** A part is new only when it was to be created and the parts before it were: the credential, the
      entry, and then the plugin. */
  predicate CallsInOrder(f: InstallFaults, before: set<Component>, after: set<Component>)
    requires f.preflight.Decided?
  {
    && (Credential in after - before ==> f.preflight.mcp == Create)
    && (McpEntry in after - before ==> f.preflight.mcp == Create && f.provision == Returns)
    && (Plugin in after - before ==>
          f.preflight.plugin == Create
          && (f.preflight.mcp == Create ==> f.provision == Returns && f.addMcp == Returns))
  }

  lemma {:induction false} InOrder(f: InstallFaults, before: set<Component>, gone: set<Component>)
    ensures f.preflight.Decided? ==> CallsInOrder(f, before, before + Added(Steps(f)) - gone)
  {
    PlannedByPart(f);
    if f.preflight.Decided? && PluginReached(f) {
      AddedByPart(f);
      NothingRecorded(f, f.recordMcp);
      EntryReturned(f);
    }
    hide Steps, Added, FirstError;
  }

  lemma {:induction false} EntryReturned(f: InstallFaults)
    requires PluginReached(f)
    ensures CreatesMcp(f) ==> f.provision == Returns && f.addMcp == Returns
  {
    if CreatesMcp(f) {
      var steps := McpSteps(f);
      assert steps[1..] == [Step(Some(McpEntry), f.addMcp)] + Recording(f, f.recordMcp);
      assert f.provision == Returns ==> FirstError(steps) == FirstError(steps[1..]);
    }
  }

  lemma {:induction false} UndoIsUndone(f: InstallFaults, p: Progress)
    requires p.credential <==> CredentialHeld(f)
    requires p.mcpAttempted <==> CredentialHeld(f) && FirstError(Steps(f)) != Some(NotStarted(McpStage))
    requires p.pluginAttempted <==> PluginReached(f) && FirstError(Steps(f)) != Some(NotStarted(PluginStage))
    ensures Undo(p) == Undone(f)
  {
    hide Steps, FirstError, CredentialHeld, PluginReached;
  }

  /** What undoing restores, and when that is all there was before. */
  lemma {:induction false} RestoredExactly(f: InstallFaults, before: set<Component>)
    ensures Added(Steps(f)) <= Planned(f) && Undone(f) <= Planned(f)
    ensures var after := before + Added(Steps(f)) - Undone(f);
            && (after == before <==> LeftBehind(f) <= before && Undone(f) !! before)
            && (f.preflight.Decided? && Truthful(f, before) ==>
                  && after == before + LeftBehind(f) && Planned(f) !! before
                  && {McpEntry, Plugin} <= before + Planned(f)
                  && (FirstError(Steps(f)) != Some(Provisioning) ==> (after == before <==> !HidesEffect(f))))
  {
    PlannedByPart(f);
    HiddenIsLeft(f);
    hide Steps, Added, FirstError, HidesEffect, CredentialHeld, PluginReached, TakesSnapshot, Undone;
    var after := before + Added(Steps(f)) - Undone(f);
    assert after == before ==> LeftBehind(f) <= after && Undone(f) !! after;
    assert LeftBehind(f) <= before && Undone(f) !! before ==> after == before;
    if f.preflight.Decided? && Truthful(f, before) {
      assert Planned(f) !! before;
      assert after == before + LeftBehind(f);
    }
  }

  /** An error hides an effect exactly when it leaves something behind. */
  lemma {:induction false} HiddenIsLeft(f: InstallFaults)
    ensures FirstError(Steps(f)) != Some(Provisioning) ==> (HidesEffect(f) <==> LeftBehind(f) != {})
  {
    PlannedByPart(f);
    hide Steps, Added, FirstError;
    var left := LeftBehind(f);
    assert left != {} ==> McpEntry in left || Plugin in left || Credential in left;
  }

  lemma {:induction false} NothingPlanned(f: InstallFaults)
    requires !f.preflight.Decided?
    ensures Added(Steps(f)) == {} && Undone(f) == {} && Planned(f) == {} && !HidesEffect(f)
  {
    assert Steps(f) == [Step(None, f.verify)];
    assert Steps(f)[1..] == [];
  }

  /** What can have been added, part by part. */
  lemma {:induction false} PlannedByPart(f: InstallFaults)
    ensures Added(Steps(f)) <= Planned(f) && Undone(f) <= Planned(f)
    ensures FirstError(Steps(f)) == None ==> Added(Steps(f)) == Planned(f) && Undone(f) == Planned(f)
    ensures McpEntry in Added(Steps(f)) ==> CredentialHeld(f)
    ensures Plugin in Added(Steps(f)) ==> PluginReached(f)
    ensures Credential in Added(Steps(f)) <==> CredentialHeld(f) || CredentialLeft(f)
  {
    var last := [Step(None, f.verify)];
    AddedInTurn(Recording(f, f.capture), McpSteps(f) + (PluginSteps(f) + last));
    AddedInTurn(McpSteps(f), PluginSteps(f) + last);
    AddedInTurn(PluginSteps(f), last);
    AddedByPart(f);
    NoSteps(f);
    NothingRecorded(f, f.capture);
    assert last[1..] == [];
    hide McpSteps, PluginSteps, Recording, TakesSnapshot;
  }

  const SMOOTH := InstallFaults(
    Decided(Create, Create), false, false, Returns, Returns, Returns, Returns, Returns, Returns, Returns,
    Returns, true, Returns, true, true, Returns, Returns)

  /** A plugin that blames the entry's stage leaves the entry, and a provisioning failure that does
      not clean up after itself leaves the credential, although the result says compensated. */
  lemma {:induction false} BlamingAnotherStageHides()
    ensures LeftBehind(BLAMES_MCP) == {McpEntry} && FirstError(Steps(BLAMES_MCP)) == Some(NotStarted(McpStage))
    ensures LeftBehind(LEAVES_CREDENTIAL) == {Credential}
    ensures FirstError(Steps(LEAVES_CREDENTIAL)) == Some(Plain)
    ensures !HidesEffect(SMOOTH.(addPlugin := Throws(NotStarted(PluginStage), false)))
    ensures !HidesEffect(SMOOTH.(provision := Throws(Plain, false)))
  {
    StepsOfCreate(BLAMES_MCP);
    StepsOfCreate(LEAVES_CREDENTIAL);
    StepsOfCreate(SMOOTH.(addPlugin := Throws(NotStarted(PluginStage), false)));
    StepsOfCreate(SMOOTH.(provision := Throws(Plain, false)));
    PartsOfCreate(BLAMES_MCP);
    PartsOfCreate(LEAVES_CREDENTIAL);
  }

  const BLAMES_MCP := SMOOTH.(addPlugin := Throws(NotStarted(McpStage), false))
  const LEAVES_CREDENTIAL := SMOOTH.(provision := Throws(Plain, true))

  lemma {:induction false} PartsOfCreate(f: InstallFaults)
    requires f.preflight == Decided(Create, Create) && !f.profileSnapshot
    ensures CredentialHeld(f) <==> f.provision == Returns
    ensures f.provision == Returns && f.addMcp == Returns ==> PluginReached(f)
    ensures f.provision.Throws? ==> !PluginReached(f)
  {
    var s := McpSteps(f);
    assert s == [Step(Some(Credential), f.provision), Step(Some(McpEntry), f.addMcp)];
    assert s[1..][1..] == [];
  }

  /** The two installations on an empty client: reported failed and compensated, and not as before. */
  method ReportedCompensated()
    returns (blamed: InstallResult, entry: set<Component>, dirty: InstallResult, credential: set<Component>)
    ensures blamed.status == Failed && blamed.compensated && !blamed.owned && entry == {McpEntry}
    ensures dirty.status == Failed && dirty.compensated && !dirty.owned && credential == {Credential}
  {
    BlamingAnotherStageHides();
    hide Steps, FirstError, LeftBehind, Undone, HidesEffect;
    var host := new ClientHost({});
    blamed := InstallClientLifecycle(host, BLAMES_MCP);
    entry := host.present;
    host := new ClientHost({});
    dirty := InstallClientLifecycle(host, LEAVES_CREDENTIAL);
    credential := host.present;
  }

  lemma {:induction false} StepsOfCreate(f: InstallFaults)
    requires f.preflight == Decided(Create, Create) && !f.profileSnapshot && f.addMcp == Returns
    requires f.provision == Returns ==> f.addPlugin.Throws?
    ensures if f.provision == Returns then
              && FirstError(Steps(f)) == Some(f.addPlugin.error)
              && Added(Steps(f)) == {Credential, McpEntry} + if f.addPlugin.tookEffect then {Plugin} else {}
            else
              && FirstError(Steps(f)) == Some(f.provision.error)
              && Added(Steps(f)) == if f.provision.tookEffect then {Credential} else {}
  {
    var s := Steps(f);
    assert s == [Step(Some(Credential), f.provision), Step(Some(McpEntry), f.addMcp),
                 Step(Some(Plugin), f.addPlugin), Step(None, f.verify)];
    if f.provision == Returns {
      assert FirstError(s) == FirstError(s[1..]) && Added(s) == {Credential} + Added(s[1..]);
      assert FirstError(s[1..]) == FirstError(s[2..]) && Added(s[1..]) == {McpEntry} + Added(s[2..]) by {
        assert s[1..][1..] == s[2..];
      }
    }
  }

  // ----- removal

  datatype Classification = Absent | OwnedEquivalent | ExternalEquivalent | Conflicting

  datatype RemovalObservation = RemovalObservation(
    component: Component,
    classification: Classification,
    expectedIdentity: Option<Str>,
    currentIdentity: Option<Str>)

  datatype RemovalStatus = Removed | Unchanged | RemovalRecoveryRequired

  datatype RemovalResult = RemovalResult(
    status: RemovalStatus,
    removed: seq<Component>,
    retainedExternal: seq<Component>)

  /** What removing one component meets: an abort before it, the inverse, and the check after. */
  datatype RemovalFaults = RemovalFaults(aborted: bool, inverse: Call, verifiedAbsent: bool)

  const ORDER: seq<Component> := [Plugin, Marketplace, McpEntry, Credential]

  predicate Removable(observations: seq<RemovalObservation>, c: Component) {
    exists o :: o in observations && o.component == c && o.classification == OwnedEquivalent
  }

  /** In conflict, or owned without a known identity that still matches. */
  predicate Untouchable(o: RemovalObservation) {
    || o.classification == Conflicting
    || (o.classification == OwnedEquivalent
        && (o.expectedIdentity.None? || o.expectedIdentity != o.currentIdentity))
  }

  predicate Refused(observations: seq<RemovalObservation>) {
    exists o :: o in observations && Untouchable(o)
  }

  function RemovalOrder(observations: seq<RemovalObservation>, order: seq<Component>): seq<Component> {
    if order == [] then []
    else RemovalOrder(observations, order[..|order| - 1])
         + if Removable(observations, order[|order| - 1]) then [order[|order| - 1]] else []
  }

  lemma {:induction false} RemovalOrderGrows(observations: seq<RemovalObservation>, n: nat)
    requires n <= |ORDER|
    ensures RemovalOrder(observations, ORDER[..n]) <= RemovalOrder(observations, ORDER)
    decreases |ORDER| - n
  {
    if n < |ORDER| {
      RemovalOrderGrows(observations, n + 1);
      assert ORDER[..n + 1][..n] == ORDER[..n];
    } else {
      assert ORDER[..n] == ORDER;
    }
  }

  function ExternalComponents(observations: seq<RemovalObservation>): seq<Component> {
    if observations == [] then []
    else (if observations[0].classification == ExternalEquivalent then [observations[0].component] else [])
         + ExternalComponents(observations[1..])
  }

  /** The plugin goes before the marketplace, that before the entry, and that before the credential. */
  predicate GoesBefore(c: Component, d: Component) {
    match c
    case Plugin => d != Plugin
    case Marketplace => d == McpEntry || d == Credential
    case McpEntry => d == Credential
    case Credential => false
  }

  /** The component was removed, and is seen to be gone. */
  predicate Goes(f: RemovalFaults) { !f.aborted && f.inverse == Returns && f.verifiedAbsent }

  /** Removes the owned components in order and stops at the first that does not go; there, an inverse
      that was called may have taken effect. Nothing is touched when a component is in conflict, or
      owned without a known identity that still matches. */
  method UninstallClientLifecycle(
      host: ClientHost, observations: seq<RemovalObservation>, faults: Component -> RemovalFaults)
    returns (r: RemovalResult)
    modifies host
    ensures r.retainedExternal == ExternalComponents(observations)
    ensures (exists o :: o in observations
               && (o.classification == Conflicting
                   || (o.classification == OwnedEquivalent
                       && (o.expectedIdentity.None? || o.expectedIdentity != o.currentIdentity)))) ==>
              r.status == RemovalRecoveryRequired && r.removed == [] && host.present == old(host.present)
    ensures (forall o :: o in observations ==>
               && o.classification != Conflicting
               && (o.classification == OwnedEquivalent ==>
                     o.expectedIdentity.Some? && o.expectedIdentity == o.currentIdentity)) ==>
              var order := RemovalOrder(observations, ORDER);
              var n := |r.removed|;
              && r.removed <= order && (forall k :: 0 <= k < n ==> Goes(faults(order[k])))
              && (n < |order| ==>
                    && r.status == RemovalRecoveryRequired && !Goes(faults(order[n]))
                    && host.present == old(host.present) - (set c | c in r.removed)
                         - (if !faults(order[n]).aborted && TakesEffect(faults(order[n]).inverse)
                            then {order[n]} else {}))
              && (n == |order| ==>
                    && r.status == (if order == [] then Unchanged else Removed)
                    && host.present == old(host.present) - (set c | c in order))
    ensures forall d :: d in old(host.present) - host.present ==>
              forall c :: c in RemovalOrder(observations, ORDER) && GoesBefore(c, d) ==> c !in host.present
  {
    hide GoesBefore, Refused, Removable, RemovalOrder, Goes;
    ghost var before := host.present;
    RefusedMeans(observations);
    NothingOrdered(observations);
    var retained := ExternalComponents(observations);
    if Refused(observations) {
      return RemovalResult(RemovalRecoveryRequired, [], retained);
    }
    var removed: seq<Component> := [];
    for i := 0 to |ORDER|
      invariant removed == RemovalOrder(observations, ORDER[..i])
      invariant host.present == before - (set c | c in removed)
      invariant forall k :: 0 <= k < |removed| ==> Goes(faults(removed[k]))
    {
      var component := ORDER[i];
      NextInOrder(observations, i);
      EarlierGone(observations, before, host.present, |removed|);
      if Removable(observations, component) {
        StopsOrGoes(faults(component));
        if faults(component).aborted {
          return RemovalResult(RemovalRecoveryRequired, removed, retained);
        }
        host.Remove(component, faults(component).inverse);
        EarlierGone(observations, before, host.present, |removed|);
        if faults(component).inverse.Throws? || !faults(component).verifiedAbsent {
          return RemovalResult(RemovalRecoveryRequired, removed, retained);
        }
        removed := removed + [component];
      }
    }
    assert ORDER[..|ORDER|] == ORDER;
    EarlierGone(observations, before, host.present, |removed|);
    return RemovalResult(if removed == [] then Unchanged else Removed, removed, retained);
  }

  lemma {:induction false} RefusedMeans(observations: seq<RemovalObservation>)
    ensures Refused(observations) <==>
              exists o :: o in observations
                && (o.classification == Conflicting
                    || (o.classification == OwnedEquivalent
                        && (o.expectedIdentity.None? || o.expectedIdentity != o.currentIdentity)))
  {
    if o :| o in observations
            && (o.classification == Conflicting
                || (o.classification == OwnedEquivalent
                    && (o.expectedIdentity.None? || o.expectedIdentity != o.currentIdentity))) {
      assert Untouchable(o);
    }
  }

  lemma {:induction false} NothingOrdered(observations: seq<RemovalObservation>)
    ensures RemovalOrder(observations, ORDER[..0]) == []
  {}

  lemma {:induction false} StopsOrGoes(f: RemovalFaults)
    ensures Goes(f) <==> !f.aborted && f.inverse == Returns && f.verifiedAbsent
  {}

  lemma {:induction false} NextInOrder(observations: seq<RemovalObservation>, i: nat)
    requires i < |ORDER|
    ensures var order, now := RemovalOrder(observations, ORDER), RemovalOrder(observations, ORDER[..i]);
            && now <= order
            && RemovalOrder(observations, ORDER[..i + 1])
               == now + (if Removable(observations, ORDER[i]) then [ORDER[i]] else [])
            && (Removable(observations, ORDER[i]) ==> |now| < |order| && order[|now|] == ORDER[i])
  {
    hide Removable;
    assert ORDER[..i + 1][..i] == ORDER[..i];
    RemovalOrderGrows(observations, i);
    RemovalOrderGrows(observations, i + 1);
  }

  /** With the first n components of the order gone, and perhaps the next, nothing is gone before what
      goes before it. */
  lemma {:induction false} EarlierGone(
      observations: seq<RemovalObservation>, before: set<Component>, after: set<Component>, n: nat)
    requires n <= |RemovalOrder(observations, ORDER)|
    requires var order := RemovalOrder(observations, ORDER);
             && (forall k :: 0 <= k < n ==> order[k] !in after)
             && forall d :: d in before - after ==> d in order[..n] || (n < |order| && d == order[n])
    ensures forall c, d :: c in RemovalOrder(observations, ORDER) && d in before - after && GoesBefore(c, d) ==>
              c !in after
  {
    var order := RemovalOrder(observations, ORDER);
    RemovedOnce(observations);
    forall c, d | c in order && d in before - after && GoesBefore(c, d)
      ensures c !in after
    {
      var i :| 0 <= i < |order| && order[i] == c;
      assert exists j :: 0 <= j <= n && j < |order| && order[j] == d;
      var j :| 0 <= j <= n && j < |order| && order[j] == d;
      BeforeIsStrict(c, d);
    }
  }

  lemma {:induction false} BeforeIsStrict(c: Component, d: Component)
    ensures !(GoesBefore(c, d) && GoesBefore(d, c)) && !GoesBefore(c, c)
  {}

  /** The components to remove are exactly those observed as owned, each once, in their order. */
  lemma {:induction false} RemovalOrderExactly(observations: seq<RemovalObservation>, c: Component)
    ensures c in RemovalOrder(observations, ORDER)
       <==> exists o :: o in observations && o.component == c && o.classification == OwnedEquivalent
    ensures var order := RemovalOrder(observations, ORDER);
            forall i, j :: 0 <= i < j < |order| ==> GoesBefore(order[i], order[j])
    ensures c in ExternalComponents(observations)
       <==> exists o :: o in observations && o.component == c && o.classification == ExternalEquivalent
  {
    RemovalOrderMembers(observations, ORDER, c);
    assert c in ORDER;
    RemovedOnce(observations);
    ExternalMembers(observations, c);
  }

  lemma {:induction false} RemovedOnce(observations: seq<RemovalObservation>)
    ensures var order := RemovalOrder(observations, ORDER);
            forall i, j :: 0 <= i < j < |order| ==> GoesBefore(order[i], order[j])
  {
    hide Removable;
    var p := if Removable(observations, Plugin) then [Plugin] else [];
    var m := if Removable(observations, Marketplace) then [Marketplace] else [];
    var e := if Removable(observations, McpEntry) then [McpEntry] else [];
    var c := if Removable(observations, Credential) then [Credential] else [];
    assert ORDER[..1][..0] == [] && ORDER[..2][..1] == ORDER[..1] && ORDER[..3][..2] == ORDER[..2];
    assert RemovalOrder(observations, ORDER[..1]) == [] + p;
    assert RemovalOrder(observations, ORDER[..2]) == p + m;
    assert RemovalOrder(observations, ORDER[..3]) == p + m + e;
    assert RemovalOrder(observations, ORDER) == p + m + e + c;
  }

  lemma {:induction false} ExternalMembers(observations: seq<RemovalObservation>, c: Component)
    ensures c in ExternalComponents(observations)
       <==> exists o :: o in observations && o.component == c && o.classification == ExternalEquivalent
  {
    if observations != [] {
      ExternalMembers(observations[1..], c);
      assert observations == [observations[0]] + observations[1..];
    }
  }

  lemma {:induction false} RemovalOrderMembers(
      observations: seq<RemovalObservation>, order: seq<Component>, c: Component)
    ensures c in RemovalOrder(observations, order) <==> c in order && Removable(observations, c)
  {
    if order != [] {
      RemovalOrderMembers(observations, order[..|order| - 1], c);
    }
  }
}
