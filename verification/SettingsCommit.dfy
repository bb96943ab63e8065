/**
 * The commit of SettingsManager.update: several configuration files are changed together, services
 * are restarted, and any failure on the way puts every file back.
 */
module SettingsCommit {
  import opened Common

  type Path = string
  type Bytes = seq<byte>

  /** The configured files; two of them may well be the same. */
  datatype Config = Config(bridge: Path, host: Path, dmrToP25: Path, p25ToDmr: Path, brewAudio: Path, gateway: Path)

  /** How the requested values differ from the current ones, and which optional files exist. */
  datatype Delta = Delta(device: bool, routing: bool, password: bool, gps: bool, dmrAudio: bool, p25Audio: bool, gain: bool,
                         brewExists: bool, gatewayExists: bool)

  /** The text edits, one per file; an edit may refuse the file it finds. */
  type FileEdit = Bytes -> Option<Bytes>
  datatype Edits = Edits(bridge: FileEdit, host: FileEdit, dmrToP25: FileEdit, p25ToDmr: FileEdit, brewAudio: FileEdit, gateway: FileEdit)

  predicate BridgeChanged(d: Delta) { d.device || d.routing || d.password }
  predicate P25ToDmrChanged(d: Delta) { d.p25Audio || d.gain }
  predicate BrewGainChanged(d: Delta) { d.brewExists && d.gain }
  predicate Changed(d: Delta) { BridgeChanged(d) || d.gps || d.dmrAudio || P25ToDmrChanged(d) }

  datatype Service = DmrGateway | QuantarBridge | SmsBridge | DvmHost | DmrToP25 | P25ToDmr | BrewAudio

  function If(c: bool, s: Service): seq<Service> { if c then [s] else [] }

  /** The services to restart, in order. */
  function Targets(d: Delta): seq<Service> {
    If(d.password && d.gatewayExists, DmrGateway) + If(BridgeChanged(d), QuantarBridge) + If(d.password, SmsBridge) +
    If(d.gps, DvmHost) + If(d.dmrAudio, DmrToP25) + If(P25ToDmrChanged(d), P25ToDmr) +
    If(d.brewExists && (d.password || d.routing || BrewGainChanged(d)), BrewAudio)
  }

  type Files = map<Path, Bytes>

  /** What is to be written, in order, and what was there before. */
  datatype Plan = Plan(order: seq<Path>, originals: Files, pending: Files)

  const NO_PLAN := Plan([], map[], map[])

  /** One more file: read, edit, and set both contents aside. */
  function Staged(plan: Option<Plan>, changed: bool, files: Files, path: Path, edit: FileEdit): Option<Plan> {
    if plan.None? || !changed then plan
    else if path !in files || edit(files[path]).None? then None
    else
      Some(Plan(if path in plan.value.pending then plan.value.order else plan.value.order + [path],
                plan.value.originals[path := files[path]], plan.value.pending[path := edit(files[path]).value]))
  }

  /** The plan for a set of changes; nothing where a file is missing or an edit refuses. */
  function Planned(d: Delta, c: Config, e: Edits, files: Files): Option<Plan> {
    var p1 := Staged(Some(NO_PLAN), BridgeChanged(d), files, c.bridge, e.bridge);
    var p2 := Staged(p1, d.gps, files, c.host, e.host);
    var p3 := Staged(p2, d.dmrAudio, files, c.dmrToP25, e.dmrToP25);
    var p4 := Staged(p3, P25ToDmrChanged(d), files, c.p25ToDmr, e.p25ToDmr);
    var p5 := Staged(p4, BrewGainChanged(d), files, c.brewAudio, e.brewAudio);
    Staged(p5, d.password && d.gatewayExists, files, c.gateway, e.gateway)
  }

  /** An atomic write: done, or failed before or after the new file took the old one's place. */
  datatype Write = Done | Failed(replaced: bool)

  /** Everything that may go wrong, step by step. */
  datatype Env = Env(busy: bool, backupOk: bool, loads: (Path, Bytes) -> bool, writes: nat -> Write, restartOk: bool, restores: nat -> Write)

  function Written(files: Files, path: Path, content: Bytes, w: Write): Files {
    if w == Done || w == Failed(true) then files[path := content] else files
  }

  /** The apply loop from the `i`-th file on: stops at the first content that does not load or write that fails. */
  function Apply(files: Files, plan: Plan, i: nat, env: Env): (Files, bool)
    requires forall k :: 0 <= k < |plan.order| ==> plan.order[k] in plan.pending
    decreases |plan.order| - i
  {
    if i >= |plan.order| then (files, true)
    else
      var path := plan.order[i];
      var content := plan.pending[path];
      if !env.loads(path, content) then (files, false)
      else
        var after := Written(files, path, content, env.writes(i));
        if env.writes(i) == Done then Apply(after, plan, i + 1, env) else (after, false)
  }

  /** The rollback loop: a restoring write that fails ends it. */
  function Restore(files: Files, plan: Plan, i: nat, env: Env): Files
    requires forall k :: 0 <= k < |plan.order| ==> plan.order[k] in plan.originals
    decreases |plan.order| - i
  {
    if i >= |plan.order| then files
    else
      var path := plan.order[i];
      var after := Written(files, path, plan.originals[path], env.restores(i));
      if env.restores(i) == Done then Restore(after, plan, i + 1, env) else after
  }

  /** The plan has both contents of every file it writes, the old one as it was. */
  ghost predicate Covers(plan: Plan, files: Files) {
    && (forall k :: 0 <= k < |plan.order| ==> plan.order[k] in plan.pending && plan.order[k] in plan.originals)
    && (forall path :: path in plan.pending ==> path in plan.order)
    && plan.originals.Keys == plan.pending.Keys
    && forall path :: path in plan.originals ==> path in files && plan.originals[path] == files[path]
  }

  lemma StagedCovers(plan: Option<Plan>, changed: bool, files: Files, path: Path, edit: FileEdit)
    requires plan.Some? ==> Covers(plan.value, files)
    ensures var p := Staged(plan, changed, files, path, edit);
            && (p.Some? ==> Covers(p.value, files) && plan.Some? && plan.value.pending.Keys <= p.value.pending.Keys)
            && (p.Some? && changed ==> path in p.value.pending)
  {
    var p := Staged(plan, changed, files, path, edit);
    if p.Some? && changed {
      var was := plan.value;
      assert path in p.value.order by {
        if path !in was.pending { assert p.value.order[|was.order|] == path; }
      }
      forall other | other in p.value.pending
        ensures other in p.value.order
      {
        if other != path {
          var k :| 0 <= k < |was.order| && was.order[k] == other;
          assert p.value.order[k] == other;
        }
      }
    }
  }

  /** On every combination of changes, each file to be written has its original saved. */
  lemma PlanCovers(d: Delta, c: Config, e: Edits, files: Files)
    requires Planned(d, c, e, files).Some?
    ensures Covers(Planned(d, c, e, files).value, files)
    ensures var pending := Planned(d, c, e, files).value.pending;
            && (BridgeChanged(d) ==> c.bridge in pending) && (d.gps ==> c.host in pending) && (d.dmrAudio ==> c.dmrToP25 in pending)
            && (P25ToDmrChanged(d) ==> c.p25ToDmr in pending) && (BrewGainChanged(d) ==> c.brewAudio in pending)
            && (d.password && d.gatewayExists ==> c.gateway in pending)
  {
    hide Staged, Covers;
    var p1 := Staged(Some(NO_PLAN), BridgeChanged(d), files, c.bridge, e.bridge);
    var p2 := Staged(p1, d.gps, files, c.host, e.host);
    var p3 := Staged(p2, d.dmrAudio, files, c.dmrToP25, e.dmrToP25);
    var p4 := Staged(p3, P25ToDmrChanged(d), files, c.p25ToDmr, e.p25ToDmr);
    var p5 := Staged(p4, BrewGainChanged(d), files, c.brewAudio, e.brewAudio);
    NoPlanCovers(files);
    StagedCovers(Some(NO_PLAN), BridgeChanged(d), files, c.bridge, e.bridge);
    StagedCovers(p1, d.gps, files, c.host, e.host);
    StagedCovers(p2, d.dmrAudio, files, c.dmrToP25, e.dmrToP25);
    StagedCovers(p3, P25ToDmrChanged(d), files, c.p25ToDmr, e.p25ToDmr);
    StagedCovers(p4, BrewGainChanged(d), files, c.brewAudio, e.brewAudio);
    StagedCovers(p5, d.password && d.gatewayExists, files, c.gateway, e.gateway);
  }

  lemma NoPlanCovers(files: Files)
    ensures Covers(NO_PLAN, files)
  {
  }

  datatype Outcome = Unchanged | Busy | Rejected | Committed(restarted: seq<Service>) | RolledBack

  function Settled(files: Files, plan: Plan, env: Env, targets: seq<Service>): (Files, Outcome)
    requires forall k :: 0 <= k < |plan.order| ==> plan.order[k] in plan.pending && plan.order[k] in plan.originals
  {
    var (after, ok) := Apply(files, plan, 0, env);
    if ok && env.restartOk then (after, Committed(targets)) else (Restore(after, plan, 0, env), RolledBack)
  }

  /** update, from the comparison of values on. */
  function Updated(files: Files, d: Delta, c: Config, e: Edits, env: Env): (Files, Outcome) {
    if !Changed(d) then (files, Unchanged)
    else if Targets(d) != [] && env.busy then (files, Busy)
    else if Planned(d, c, e, files).None? || !env.backupOk then (files, Rejected)
    else
      PlanCovers(d, c, e, files);
      Settled(files, Planned(d, c, e, files).value, env, Targets(d))
  }

  // ------------------------------------------------------------------ the manager

  class SettingsManager {
    const config: Config
    var files: Files

    constructor (config: Config, files: Files)
      ensures this.config == config && this.files == files
    {
      this.config, this.files := config, files;
    }

    method StageFile(plan: Option<Plan>, changed: bool, path: Path, edit: FileEdit) returns (staged: Option<Plan>)
      ensures staged == Staged(plan, changed, files, path, edit)
    {
      if plan.None? || !changed { return plan; }
      if path !in files { return None; }
      var original := files[path];
      var updated := edit(original);
      if updated.None? { return None; }
      var order := plan.value.order;
      if path !in plan.value.pending { order := order + [path]; }
      return Some(Plan(order, plan.value.originals[path := original], plan.value.pending[path := updated.value]));
    }

    method ApplyPlan(plan: Plan, env: Env) returns (ok: bool)
      requires forall k :: 0 <= k < |plan.order| ==> plan.order[k] in plan.pending
      modifies this`files
      ensures (files, ok) == Apply(old(files), plan, 0, env)
    {
      var i := 0;
      while i < |plan.order|
        invariant 0 <= i <= |plan.order| && Apply(files, plan, i, env) == Apply(old(files), plan, 0, env)
      {
        var path := plan.order[i];
        var content := plan.pending[path];
        if !env.loads(path, content) { return false; }
        files := Written(files, path, content, env.writes(i));
        if env.writes(i) != Done { return false; }
        i := i + 1;
      }
      return true;
    }

    method RestoreOriginals(plan: Plan, env: Env)
      requires forall k :: 0 <= k < |plan.order| ==> plan.order[k] in plan.originals
      modifies this`files
      ensures files == Restore(old(files), plan, 0, env)
    {
      var i := 0;
      while i < |plan.order|
        invariant 0 <= i <= |plan.order| && Restore(files, plan, i, env) == Restore(old(files), plan, 0, env)
      {
        var path := plan.order[i];
        files := Written(files, path, plan.originals[path], env.restores(i));
        if env.restores(i) != Done { return; }
        i := i + 1;
      }
    }

    method MakePlan(d: Delta, e: Edits) returns (plan: Option<Plan>)
      ensures plan == Planned(d, config, e, files)
    {
      hide Staged;
      plan := StageFile(Some(NO_PLAN), BridgeChanged(d), config.bridge, e.bridge);
      plan := StageFile(plan, d.gps, config.host, e.host);
      plan := StageFile(plan, d.dmrAudio, config.dmrToP25, e.dmrToP25);
      plan := StageFile(plan, P25ToDmrChanged(d), config.p25ToDmr, e.p25ToDmr);
      plan := StageFile(plan, BrewGainChanged(d), config.brewAudio, e.brewAudio);
      plan := StageFile(plan, d.password && d.gatewayExists, config.gateway, e.gateway);
    }

    method Commit(plan: Plan, env: Env, targets: seq<Service>) returns (outcome: Outcome)
      requires forall k :: 0 <= k < |plan.order| ==> plan.order[k] in plan.pending && plan.order[k] in plan.originals
      modifies this`files
      ensures (files, outcome) == Settled(old(files), plan, env, targets)
    {
      hide Apply, Restore;
      var ok := ApplyPlan(plan, env);
      if ok && env.restartOk { return Committed(targets); }
      RestoreOriginals(plan, env);
      return RolledBack;
    }

    method Update(d: Delta, e: Edits, env: Env) returns (outcome: Outcome)
      modifies this`files
      ensures (files, outcome) == Updated(old(files), d, config, e, env)
    {
      hide Planned, Settled, Covers, Targets, Changed;
      if !Changed(d) { return Unchanged; }
      var targets := Targets(d);
      if targets != [] && env.busy { return Busy; }
      var plan := MakePlan(d, e);
      if plan.None? || !env.backupOk { return Rejected; }
      PlanCovers(d, config, e, files);
      CoversOrder(plan.value, files);
      outcome := Commit(plan.value, env, targets);
    }
  }

  lemma CoversOrder(plan: Plan, files: Files)
    requires Covers(plan, files)
    ensures forall k :: 0 <= k < |plan.order| ==> plan.order[k] in plan.pending && plan.order[k] in plan.originals
  {
  }

  // ------------------------------------------------------------------ all or nothing

  /** Every file is as it was, or as planned. */
  ghost predicate Between(files: Files, now: Files, plan: Plan) {
    && now.Keys == files.Keys
    && forall path :: path in files ==> now[path] == files[path] || (path in plan.pending && now[path] == plan.pending[path])
  }

  lemma WrittenBetween(files: Files, now: Files, plan: Plan, path: Path, w: Write)
    requires Between(files, now, plan) && path in files && path in plan.pending
    ensures Between(files, Written(now, path, plan.pending[path], w), plan)
  {
  }

  lemma CoversAt(files: Files, plan: Plan, k: nat)
    requires Covers(plan, files) && k < |plan.order|
    ensures plan.order[k] in plan.pending && plan.order[k] in plan.originals && plan.order[k] in files
    ensures plan.originals[plan.order[k]] == files[plan.order[k]]
  {
  }

  /** The first `n` planned files hold their new content. */
  ghost predicate Applied(now: Files, plan: Plan, n: nat) {
    n <= |plan.order| && forall k :: 0 <= k < n ==> plan.order[k] in plan.pending && plan.order[k] in now && now[plan.order[k]] == plan.pending[plan.order[k]]
  }

  lemma AppliedMore(now: Files, plan: Plan, i: nat)
    requires Applied(now, plan, i) && i < |plan.order| && plan.order[i] in plan.pending
    ensures Applied(now[plan.order[i] := plan.pending[plan.order[i]]], plan, i + 1)
  {
  }

  /** The steps from the `i`-th file on go well. */
  ghost predicate GoesWell(plan: Plan, i: nat, env: Env) {
    forall k :: i <= k < |plan.order| ==>
      plan.order[k] in plan.pending && env.loads(plan.order[k], plan.pending[plan.order[k]]) && env.writes(k) == Done
  }

  lemma GoesWellStep(plan: Plan, i: nat, env: Env)
    requires i < |plan.order|
    ensures GoesWell(plan, i, env) <==>
            && plan.order[i] in plan.pending
            && env.loads(plan.order[i], plan.pending[plan.order[i]])
            && env.writes(i) == Done
            && GoesWell(plan, i + 1, env)
  {
  }

  /** The apply loop leaves every file as it was or as planned; when it finishes, every planned file as planned. */
  lemma {:induction false} ApplyMeans(files: Files, now: Files, plan: Plan, i: nat, env: Env)
    requires Covers(plan, files) && Between(files, now, plan) && Applied(now, plan, i)
    ensures var (after, ok) := Apply(now, plan, i, env);
            && Between(files, after, plan)
            && (ok ==> Applied(after, plan, |plan.order|))
            && (ok <==> GoesWell(plan, i, env))
    decreases |plan.order| - i
  {
    hide Covers, Between, Applied, Written, Apply, GoesWell;
    CoversOrder(plan, files);
    ApplyStep(now, plan, i, env);
    if i < |plan.order| {
      CoversAt(files, plan, i);
      GoesWellStep(plan, i, env);
      var path := plan.order[i];
      WrittenBetween(files, now, plan, path, env.writes(i));
      if env.loads(path, plan.pending[path]) && env.writes(i) == Done {
        AppliedMore(now, plan, i);
        WrittenDone(now, path, plan.pending[path]);
        ApplyMeans(files, now[path := plan.pending[path]], plan, i + 1, env);
      }
    } else {
      AppliedAll(now, plan, i);
      NothingLeft(plan, i, env);
    }
  }

  lemma NothingLeft(plan: Plan, i: nat, env: Env)
    requires i >= |plan.order|
    ensures GoesWell(plan, i, env)
  {
  }

  lemma WrittenDone(now: Files, path: Path, content: Bytes)
    ensures Written(now, path, content, Done) == now[path := content]
  {
  }

  lemma AppliedAll(now: Files, plan: Plan, i: nat)
    requires Applied(now, plan, i) && i >= |plan.order|
    ensures Applied(now, plan, |plan.order|)
  {
  }

  lemma ApplyStep(now: Files, plan: Plan, i: nat, env: Env)
    requires forall k :: 0 <= k < |plan.order| ==> plan.order[k] in plan.pending
    ensures Apply(now, plan, i, env) ==
            if i >= |plan.order| then (now, true)
            else
              var path := plan.order[i];
              var after := Written(now, path, plan.pending[path], env.writes(i));
              if !env.loads(path, plan.pending[path]) then (now, false)
              else if env.writes(i) == Done then Apply(after, plan, i + 1, env) else (after, false)
  {
  }

  /** Restoring from any state in between, with every write succeeding, brings back the original files. */
  lemma {:induction false} RestoreMeans(files: Files, now: Files, plan: Plan, i: nat, env: Env)
    requires Covers(plan, files) && Between(files, now, plan) && i <= |plan.order|
    requires forall k :: 0 <= k < i ==> now[plan.order[k]] == files[plan.order[k]]
    ensures Between(files, Restore(now, plan, i, env), plan)
    ensures (forall k :: i <= k < |plan.order| ==> env.restores(k) == Done) ==> Restore(now, plan, i, env) == files
    decreases |plan.order| - i
  {
    if i < |plan.order| {
      var path := plan.order[i];
      if env.restores(i) == Done {
        RestoreMeans(files, now[path := plan.originals[path]], plan, i + 1, env);
      }
    } else {
      forall path | path in files
        ensures now[path] == files[path]
      {
        if path in plan.pending { var k :| 0 <= k < |plan.order| && plan.order[k] == path; }
      }
      assert now == files;
    }
  }

  /** Every step of a commit goes well. */
  ghost predicate AllGoesWell(plan: Plan, env: Env) { env.restartOk && GoesWell(plan, 0, env) }

  /** What a commit comes to, with its rollback. */
  lemma SettledMeans(files: Files, plan: Plan, env: Env, targets: seq<Service>)
    requires Covers(plan, files)
    ensures forall k :: 0 <= k < |plan.order| ==> plan.order[k] in plan.pending && plan.order[k] in plan.originals
    ensures var (after, outcome) := Settled(files, plan, env, targets);
            && outcome == (if AllGoesWell(plan, env) then Committed(targets) else RolledBack)
            && (outcome.Committed? ==> after == files + plan.pending)
            && (outcome.RolledBack? && (forall k :: env.restores(k) == Done) ==> after == files)
            && Between(files, after, plan)
  {
    CoversOrder(plan, files);
    NothingYet(files, plan);
    hide Covers, Between, Applied, Apply, Restore, GoesWell;
    ApplyMeans(files, files, plan, 0, env);
    var (after, ok) := Apply(files, plan, 0, env);
    RestoreMeans(files, after, plan, 0, env);
    if ok { CommittedFiles(files, after, plan); }
  }

  lemma NothingYet(files: Files, plan: Plan)
    ensures Between(files, files, plan) && Applied(files, plan, 0)
  {
  }

  /**
   * All or nothing, for every pattern of failures: the update commits exactly if every content loads,
   * every write succeeds and the restart succeeds, and then every planned file holds its new content
   * and every other file its old one. In every other case, as long as the restoring writes succeed,
   * all files are as before. Even if those fail, no file holds anything but its old or its new content.
   */
  lemma AllOrNothing(files: Files, d: Delta, c: Config, e: Edits, env: Env)
    ensures var (after, outcome) := Updated(files, d, c, e, env);
            var plan := Planned(d, c, e, files);
            && (outcome.Committed? <==> Changed(d) && !env.busy && plan.Some? && env.backupOk && AllGoesWell(plan.value, env))
            && (outcome.Committed? ==> after == files + plan.value.pending && outcome.restarted == Targets(d))
            && (!outcome.Committed? && (forall k :: env.restores(k) == Done) ==> after == files)
            && (!outcome.Committed? && !outcome.RolledBack? ==> after == files)
            && (plan.Some? ==> Between(files, after, plan.value))
  {
    hide Planned, Settled, Targets, Changed, AllGoesWell, Between, Covers;
    ChangesRestart(d);
    var plan := Planned(d, c, e, files);
    if plan.Some? {
      PlanCovers(d, c, e, files);
      NothingYet(files, plan.value);
      SettledMeans(files, plan.value, env, Targets(d));
    }
  }

  lemma CommittedFiles(files: Files, after: Files, plan: Plan)
    requires Covers(plan, files) && Between(files, after, plan) && Applied(after, plan, |plan.order|)
    ensures after == files + plan.pending
  {
    forall path | path in files
      ensures after[path] == (files + plan.pending)[path]
    {
      if path in plan.pending { var k :| 0 <= k < |plan.order| && plan.order[k] == path; }
    }
    assert (files + plan.pending).Keys == files.Keys;
  }

  // ------------------------------------------------------------------ what a commit writes

  /** One file's edit, and whether it was asked for. */
  datatype Change = Change(wanted: bool, path: Path, edit: FileEdit)

  ghost function Changes(d: Delta, c: Config, e: Edits): seq<Change> {
    [Change(d.device || d.routing || d.password, c.bridge, e.bridge), Change(d.gps, c.host, e.host),
     Change(d.dmrAudio, c.dmrToP25, e.dmrToP25), Change(d.p25Audio || d.gain, c.p25ToDmr, e.p25ToDmr),
     Change(d.gain && d.brewExists, c.brewAudio, e.brewAudio), Change(d.password && d.gatewayExists, c.gateway, e.gateway)]
  }

  /** What the changes make of a file: every edit starts from the old content, so the last one for the file decides. */
  ghost function Edited(changes: seq<Change>, path: Path, was: Bytes): Option<Bytes> {
    if changes == [] then Some(was)
    else
      var last := changes[|changes| - 1];
      if last.wanted && last.path == path then last.edit(was) else Edited(changes[..|changes| - 1], path, was)
  }

  /** The files the changes touch. */
  ghost function Touched(changes: seq<Change>): set<Path> {
    if changes == [] then {}
    else
      var last := changes[|changes| - 1];
      Touched(changes[..|changes| - 1]) + (if last.wanted then {last.path} else {})
  }

  ghost predicate Takes(files: Files, change: Change) {
    change.wanted ==> change.path in files && change.edit(files[change.path]).Some?
  }

  /** Every file to change is there, and its edit takes it. */
  ghost predicate AllTaken(changes: seq<Change>, files: Files) {
    forall i :: 0 <= i < |changes| ==> Takes(files, changes[i])
  }

  /** The paths in the order of a plan are its pending files, each once. */
  ghost predicate Listed(plan: Plan) {
    && (forall k :: 0 <= k < |plan.order| ==> plan.order[k] in plan.pending)
    && (forall path :: path in plan.pending ==> path in plan.order)
    && forall j, k :: 0 <= j < k < |plan.order| ==> plan.order[j] != plan.order[k]
  }

  /** The plan for these changes: there exactly if all are taken, and then with every touched file as edited. */
  ghost predicate PlanFor(plan: Option<Plan>, changes: seq<Change>, files: Files) {
    && (plan.Some? <==> AllTaken(changes, files))
    && (plan.Some? ==>
          && Listed(plan.value) && plan.value.pending.Keys == Touched(changes) <= files.Keys
          && forall path :: path in files ==>
               Edited(changes, path, files[path]) == Some(if path in plan.value.pending then plan.value.pending[path] else files[path]))
  }

  lemma NothingPlanned(files: Files)
    ensures PlanFor(Some(NO_PLAN), [], files)
  {
  }

  lemma ListedStaged(plan: Plan, files: Files, path: Path, edit: FileEdit)
    requires Listed(plan) && path in files && edit(files[path]).Some?
    ensures Listed(Staged(Some(plan), true, files, path, edit).value)
  {
    var now := Staged(Some(plan), true, files, path, edit).value;
    assert forall k :: 0 <= k < |plan.order| ==> now.order[k] == plan.order[k];
    forall other | other in now.pending ensures other in now.order {
      if other in plan.pending {
        var k :| 0 <= k < |plan.order| && plan.order[k] == other;
        assert now.order[k] == other;
      } else {
        assert now.order[|plan.order|] == other;
      }
    }
  }

  lemma TakenMore(changes: seq<Change>, change: Change, files: Files)
    ensures AllTaken(changes + [change], files) <==> AllTaken(changes, files) && Takes(files, change)
  {
    hide Takes;
    var all := changes + [change];
    if AllTaken(all, files) {
      assert all[|changes|] == change;
      forall i | 0 <= i < |changes| ensures Takes(files, changes[i]) { assert all[i] == changes[i]; }
    }
  }

  lemma OneMoreChange(changes: seq<Change>, change: Change, path: Path, was: Bytes)
    ensures Edited(changes + [change], path, was) == if change.wanted && change.path == path then change.edit(was) else Edited(changes, path, was)
    ensures Touched(changes + [change]) == Touched(changes) + (if change.wanted then {change.path} else {})
  {
    assert (changes + [change])[..|changes|] == changes;
  }

  lemma PlannedMore(plan: Option<Plan>, changes: seq<Change>, change: Change, files: Files)
    requires PlanFor(plan, changes, files)
    ensures PlanFor(Staged(plan, change.wanted, files, change.path, change.edit), changes + [change], files)
  {
    hide AllTaken, Edited, Touched, Listed;
    TakenMore(changes, change, files);
    OneMoreChange(changes, change, change.path, []);
    forall path | path in files
      ensures Edited(changes + [change], path, files[path]) ==
              if change.wanted && change.path == path then change.edit(files[path]) else Edited(changes, path, files[path])
    {
      OneMoreChange(changes, change, path, files[path]);
    }
    if plan.Some? && change.wanted && Takes(files, change) { ListedStaged(plan.value, files, change.path, change.edit); }
  }

  lemma PlannedIsWanted(d: Delta, c: Config, e: Edits, files: Files)
    ensures PlanFor(Planned(d, c, e, files), Changes(d, c, e), files)
  {
    hide Staged, PlanFor;
    var all := Changes(d, c, e);
    var p1 := Staged(Some(NO_PLAN), BridgeChanged(d), files, c.bridge, e.bridge);
    var p2 := Staged(p1, d.gps, files, c.host, e.host);
    var p3 := Staged(p2, d.dmrAudio, files, c.dmrToP25, e.dmrToP25);
    var p4 := Staged(p3, P25ToDmrChanged(d), files, c.p25ToDmr, e.p25ToDmr);
    var p5 := Staged(p4, BrewGainChanged(d), files, c.brewAudio, e.brewAudio);
    NothingPlanned(files);
    PlannedMore(Some(NO_PLAN), [], all[0], files);
    PlannedMore(p1, [] + [all[0]], all[1], files);
    PlannedMore(p2, [] + [all[0]] + [all[1]], all[2], files);
    PlannedMore(p3, [] + [all[0]] + [all[1]] + [all[2]], all[3], files);
    PlannedMore(p4, [] + [all[0]] + [all[1]] + [all[2]] + [all[3]], all[4], files);
    PlannedMore(p5, [] + [all[0]] + [all[1]] + [all[2]] + [all[3]] + [all[4]], all[5], files);
    assert [] + [all[0]] + [all[1]] + [all[2]] + [all[3]] + [all[4]] + [all[5]] == all;
  }

  /** As many files are written as are touched. */
  lemma {:induction false} DistinctMany(s: seq<Path>, paths: set<Path>)
    requires forall j, k :: 0 <= j < k < |s| ==> s[j] != s[k]
    requires forall path :: path in paths <==> path in s
    ensures |s| == |paths|
  {
    if s == [] {
      assert paths == {};
    } else {
      var last, front := s[|s| - 1], s[..|s| - 1];
      assert forall path :: path in front ==> path != last;
      DistinctMany(front, paths - {last});
    }
  }

  /** Every file as the changes leave it. */
  ghost predicate AllEdited(changes: seq<Change>, files: Files, after: Files) {
    after.Keys == files.Keys && forall path :: path in files ==> Some(after[path]) == Edited(changes, path, files[path])
  }

  /** Every touched file loads as edited. */
  ghost predicate AllLoad(changes: seq<Change>, files: Files, env: Env) {
    forall path :: path in Touched(changes) && path in files ==>
      var content := Edited(changes, path, files[path]); content.Some? ==> env.loads(path, content.value)
  }

  lemma {:induction false} NothingTouched(changes: seq<Change>)
    ensures Touched(changes) == {} <==> forall i :: 0 <= i < |changes| ==> !changes[i].wanted
  {
    if changes != [] {
      var last := changes[|changes| - 1];
      NothingTouched(changes[..|changes| - 1]);
      if last.wanted { assert last.path in Touched(changes); }
    }
  }

  lemma ChangedTouches(d: Delta, c: Config, e: Edits)
    ensures Changed(d) <==> Touched(Changes(d, c, e)) != {}
  {
    hide Touched;
    var changes := Changes(d, c, e);
    NothingTouched(changes);
    if !Changed(d) {
      assert forall i :: 0 <= i < |changes| ==> !changes[i].wanted;
    } else {
      assert changes[0].wanted || changes[1].wanted || changes[2].wanted || changes[3].wanted;
    }
  }

  /** Which of the five outcomes an update has, before and after anything is written. */
  lemma OutcomeIs(files: Files, d: Delta, c: Config, e: Edits, env: Env)
    ensures var outcome := Updated(files, d, c, e, env).1;
            && (outcome.Unchanged? <==> !Changed(d))
            && (outcome.Busy? <==> Changed(d) && env.busy)
            && (outcome.Rejected? <==> Changed(d) && !env.busy && (Planned(d, c, e, files).None? || !env.backupOk))
  {
    hide Planned, Targets, Apply, Restore, Covers;
    ChangesRestart(d);
    if Planned(d, c, e, files).Some? { PlanCovers(d, c, e, files); }
  }

  /**
   * What becomes of an update, exactly, and when it commits what the files then are: every touched file holds the last
   * of its edits, made on its old content, every other file its old content.
   */
  lemma CommitWritesEdits(files: Files, d: Delta, c: Config, e: Edits, env: Env)
    ensures var (after, outcome) := Updated(files, d, c, e, env);
            var changes := Changes(d, c, e);
            && (outcome.Unchanged? <==> Touched(changes) == {})
            && (outcome.Busy? <==> Touched(changes) != {} && env.busy)
            && (outcome.Rejected? <==> Touched(changes) != {} && !env.busy && !(AllTaken(changes, files) && env.backupOk))
            && (outcome.Committed? <==>
                  && Touched(changes) != {} && !env.busy && AllTaken(changes, files) && env.backupOk && env.restartOk
                  && AllLoad(changes, files, env) && forall k :: 0 <= k < |Touched(changes)| ==> env.writes(k) == Done)
            && (outcome.Committed? ==> AllEdited(changes, files, after))
  {
    hide Updated, Planned, Changes, Edited, Touched, AllTaken, Changed, Between, Targets, AllGoesWell, AllLoad, AllEdited;
    AllOrNothing(files, d, c, e, env);
    OutcomeIs(files, d, c, e, env);
    ChangedTouches(d, c, e);
    PlannedIsWanted(d, c, e, files);
    var plan := Planned(d, c, e, files);
    if plan.Some? { PlanMeans(plan.value, Changes(d, c, e), files, env); }
  }

  lemma PlanMeans(plan: Plan, changes: seq<Change>, files: Files, env: Env)
    requires PlanFor(Some(plan), changes, files)
    ensures AllGoesWell(plan, env) <==>
            env.restartOk && AllLoad(changes, files, env) && forall k :: 0 <= k < |Touched(changes)| ==> env.writes(k) == Done
    ensures AllEdited(changes, files, files + plan.pending)
  {
    hide Edited, Touched, AllTaken, GoesWell;
    DistinctMany(plan.order, Touched(changes));
    GoesWellMeans(plan, env);
  }

  lemma GoesWellMeans(plan: Plan, env: Env)
    requires Listed(plan)
    ensures GoesWell(plan, 0, env) <==>
            && (forall path :: path in plan.pending ==> env.loads(path, plan.pending[path]))
            && (forall k :: 0 <= k < |plan.order| ==> env.writes(k) == Done)
  {
    if GoesWell(plan, 0, env) {
      forall path | path in plan.pending ensures env.loads(path, plan.pending[path]) {
        var k :| 0 <= k < |plan.order| && plan.order[k] == path;
      }
    }
  }

  /** All paths are different. */
  ghost predicate Apart(changes: seq<Change>) {
    forall i, j :: 0 <= i < j < |changes| ==> changes[i].path != changes[j].path
  }

  /** The last wanted change of a file decides. */
  lemma {:induction false} LastDecides(changes: seq<Change>, i: nat, was: Bytes)
    requires i < |changes| && changes[i].wanted
    requires forall j :: i < j < |changes| ==> !changes[j].wanted || changes[j].path != changes[i].path
    ensures Edited(changes, changes[i].path, was) == changes[i].edit(was)
    decreases |changes|
  {
    if i < |changes| - 1 { LastDecides(changes[..|changes| - 1], i, was); }
  }

  lemma {:induction false} EditedNot(changes: seq<Change>, path: Path, was: Bytes)
    requires forall i :: 0 <= i < |changes| ==> !changes[i].wanted || changes[i].path != path
    ensures Edited(changes, path, was) == Some(was)
  {
    if changes != [] { EditedNot(changes[..|changes| - 1], path, was); }
  }

  /** The file holds the edit of its old content, if it was to change, and its old content if not. */
  ghost predicate Settles(files: Files, after: Files, change: Change) {
    if change.wanted then change.path in files && change.path in after && change.edit(files[change.path]) == Some(after[change.path])
    else change.path in files ==> change.path in after && after[change.path] == files[change.path]
  }

  /**
   * With six different files, a committed update leaves in each its own edit of it, if that was asked
   * for, and every other file alone.
   */
  lemma EachFileItsOwnEdit(files: Files, d: Delta, c: Config, e: Edits, env: Env)
    requires Apart(Changes(d, c, e)) && Updated(files, d, c, e, env).1.Committed?
    ensures var after, changes := Updated(files, d, c, e, env).0, Changes(d, c, e);
            && after.Keys == files.Keys
            && (forall i :: 0 <= i < |changes| ==> Settles(files, after, changes[i]))
            && forall path :: path in files && (forall i :: 0 <= i < |changes| ==> changes[i].path != path) ==> after[path] == files[path]
  {
    hide Updated, Changes, Edited, Changed, AllLoad;
    CommitWritesEdits(files, d, c, e, env);
    var after, changes := Updated(files, d, c, e, env).0, Changes(d, c, e);
    forall i | 0 <= i < |changes| ensures Settles(files, after, changes[i]) {
      assert Takes(files, changes[i]);
      if changes[i].wanted {
        LastDecides(changes, i, files[changes[i].path]);
      } else if changes[i].path in files {
        EditedNot(changes, changes[i].path, files[changes[i].path]);
      }
    }
    forall path | path in files && forall i :: 0 <= i < |changes| ==> changes[i].path != path
      ensures after[path] == files[path]
    {
      EditedNot(changes, path, files[path]);
    }
  }

  /** Two settings in one file, concretely: the later edit starts from the old content too, and the earlier one is lost. */
  lemma SharedFileLosesEdit(was: Bytes, c: Config, e: Edits, env: Env)
    requires c.dmrToP25 == c.host && e.host(was).Some? && e.dmrToP25(was).Some?
    requires !env.busy && env.backupOk && env.restartOk && (forall path, b :: env.loads(path, b)) && forall k :: env.writes(k) == Done
    ensures var d := Delta(false, false, false, true, true, false, false, false, false);
                    Updated(map[c.host := was], d, c, e, env) == (map[c.host := e.dmrToP25(was).value], Committed([DvmHost, DmrToP25]))
  {
    var d := Delta(false, false, false, true, true, false, false, false, false);
    hide Updated, Edited, Apply, Planned, Touched, Between, AllGoesWell;
    var files := map[c.host := was];
    CommitWritesEdits(files, d, c, e, env);
    AllOrNothing(files, d, c, e, env);
    NothingTouched(Changes(d, c, e));
    assert Changes(d, c, e)[2].wanted;
    LastDecides(Changes(d, c, e), 2, was);
    assert Targets(d) == [DvmHost, DmrToP25];
    assert Updated(files, d, c, e, env).0 == map[c.host := e.dmrToP25(was).value];
  }

  // ------------------------------------------------------------------ what is restarted

  function Rank(s: Service): nat {
    match s
    case DmrGateway => 0
    case QuantarBridge => 1
    case SmsBridge => 2
    case DvmHost => 3
    case DmrToP25 => 4
    case P25ToDmr => 5
    case BrewAudio => 6
  }

  /** In the order of rank, each once, all below `n`. */
  ghost predicate Ranked(t: seq<Service>, n: nat) {
    (forall i, j :: 0 <= i < j < |t| ==> Rank(t[i]) < Rank(t[j])) && forall s :: s in t ==> Rank(s) < n
  }

  lemma OneMoreTarget(t: seq<Service>, wanted: bool, s: Service)
    requires Ranked(t, Rank(s))
    ensures Ranked(t + If(wanted, s), Rank(s) + 1)
    ensures forall other :: other in t + If(wanted, s) <==> other in t || (wanted && other == s)
  {
    hide Rank;
  }

  /** Exactly what is restarted, each service once and the gateway first: those whose settings change. */
  lemma RestartedExactly(d: Delta)
    ensures var t := Targets(d);
            && Ranked(t, 7)
            && (DmrGateway in t <==> d.password && d.gatewayExists)
            && (QuantarBridge in t <==> d.device || d.routing || d.password)
            && (SmsBridge in t <==> d.password)
            && (DvmHost in t <==> d.gps)
            && (DmrToP25 in t <==> d.dmrAudio)
            && (P25ToDmr in t <==> d.p25Audio || d.gain)
            && (BrewAudio in t <==> d.brewExists && (d.password || d.routing || d.gain))
  {
    hide If, Ranked;
    NoTargets();
    var t0: seq<Service> := [];
    var t1 := t0 + If(d.password && d.gatewayExists, DmrGateway);
    var t2 := t1 + If(BridgeChanged(d), QuantarBridge);
    var t3 := t2 + If(d.password, SmsBridge);
    var t4 := t3 + If(d.gps, DvmHost);
    var t5 := t4 + If(d.dmrAudio, DmrToP25);
    var t6 := t5 + If(P25ToDmrChanged(d), P25ToDmr);
    OneMoreTarget(t0, d.password && d.gatewayExists, DmrGateway);
    OneMoreTarget(t1, BridgeChanged(d), QuantarBridge);
    OneMoreTarget(t2, d.password, SmsBridge);
    OneMoreTarget(t3, d.gps, DvmHost);
    OneMoreTarget(t4, d.dmrAudio, DmrToP25);
    OneMoreTarget(t5, P25ToDmrChanged(d), P25ToDmr);
    OneMoreTarget(t6, d.brewExists && (d.password || d.routing || BrewGainChanged(d)), BrewAudio);
    assert t1 == If(d.password && d.gatewayExists, DmrGateway);
  }

  lemma NoTargets()
    ensures Ranked([], 0)
  {
  }

  /** Every change restarts something, and every file that is written has its service restarted. */
  lemma ChangesRestart(d: Delta)
    ensures Changed(d) ==> Targets(d) != []
    ensures BridgeChanged(d) ==> QuantarBridge in Targets(d)
    ensures d.gps ==> DvmHost in Targets(d)
    ensures d.dmrAudio ==> DmrToP25 in Targets(d)
    ensures P25ToDmrChanged(d) ==> P25ToDmr in Targets(d)
    ensures BrewGainChanged(d) ==> BrewAudio in Targets(d)
    ensures d.password && d.gatewayExists ==> DmrGateway in Targets(d)
  {
    hide Targets;
    RestartedExactly(d);
  }
}
