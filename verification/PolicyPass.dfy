/** What one pass of the IamPolicy reconciler keeps and achieves, whatever fails in it. */
module PolicyPass {
  import opened Common
  import opened UrlEscape
  import opened PolicyStore
  import opened PolicyClient
  import opened UpstreamPolicies
  import opened PolicyReconciler
  import opened SortedNames
  import opened VersionRotation
  import Doc = PolicyDocument

  /** Names Kubernetes accepts are not empty and have no slash. */
  predicate GoodName(n: string) { n != "" && SlashFree(n) }

  /** The recorded ARN is the one the controller's own creates give the name. */
  predicate ArnRecorded(prefix: string, path: string, n: string, o: PolicyObject) {
    o.arn == "" || o.arn == PolicyArn(prefix, path, n)
  }

  ghost predicate Ready(env: Env, n: string, o: PolicyObject, cs: ClientState) {
    IsClientPath(env.path) && GoodName(n) && Sound(cs, env.path) && ArnRecorded(cs.store.prefix, env.path, n, o)
  }

  /** What every pass keeps: the client's soundness, other policies, and the recorded ARN. */
  ghost predicate Keeps(env: Env, n: string, cs: ClientState, p: Pass) {
    && Sound(p.cs, env.path) && SameBut(cs.store, p.cs.store, n)
    && (p.obj.Some? ==> ArnRecorded(cs.store.prefix, env.path, n, p.obj.value))
  }

  function OptionsAsk(n: string, o: PolicyObject, prefix: string, path: string): (r: GetOptions)
    requires GoodName(n) && ArnRecorded(prefix, path, n, o)
    ensures r == Options(n, o) && AsksFor(r, prefix, path, n)
  {
    Options(n, o)
  }

  /** An upstream policy at the controller's path. */
  predicate Exists(env: Env, n: string, cs: ClientState) {
    At(cs.store, env.path, n).Some?
  }

  /** What get-or-create does: nothing upstream, or a new policy with the serialized spec. */
  ghost predicate FindsOrCreates(env: Env, n: string, o: PolicyObject, cs: ClientState, f: Faults, found: Found) {
    var d, arn := Serialized(env, o), PolicyArn(cs.store.prefix, env.path, n);
    && Sound(found.cs, env.path) && SameBut(cs.store, found.cs.store, n)
    && (found.obj == o || (found.obj == Acknowledge(o, arn, d) && found.arn.Some?))
    && (found.arn.Some? ==> found.arn.value == arn && Seen(found.cs.store, env.path, n).Ok?)
    && (if found.cs.store == cs.store then found.obj == o
        else !Exists(env, n, cs) && Seen(found.cs.store, env.path, n).Ok?
             && Seen(found.cs.store, env.path, n).value.document == d
             && (found.arn.Some? && !f.createPatch ==> found.obj == Acknowledge(o, arn, d)))
  }

  lemma FindOrCreateKeeps(env: Env, n: string, o: PolicyObject, cs: ClientState, f: Faults)
    requires Ready(env, n, o, cs)
    ensures FindsOrCreates(env, n, o, cs, f, FindOrCreate(env, n, o, cs, f))
  {
    var ask := OptionsAsk(n, o, cs.store.prefix, env.path);
    GetSees(cs, env.path, ask, n, f.read);
    ReadSees(cs.store, env.path, n);
    var (cs1, r) := Get(cs, env.path, ask, f.read);
    if r.Err? && r.error == NotFound {
      CreateMakes(cs1, env.path, n, Serialized(env, o), o.description, f.create);
      CreateWrites(cs1, env.path, n, Serialized(env, o), o.description, f.create);
    } else if r.Ok? {
      SeenHasArn(cs.store, env.path, n);
    }
  }

  // ----- the upstream half of a live pass -----

  /** What get-or-create plus the gated update does, whatever fails. */
  ghost predicate Syncs(env: Env, n: string, o: PolicyObject, cs: ClientState, p: Pass) {
    && Sound(p.cs, env.path) && SameBut(cs.store, p.cs.store, n)
    && p.obj.Some?
    && var d, arn := Serialized(env, o), PolicyArn(cs.store.prefix, env.path, n);
       && (p.obj.value == o || p.obj.value == Acknowledge(o, arn, d))
       && (p.ok ==> Seen(p.cs.store, env.path, n).Ok?)
  }

  lemma UpdateIfChangedKeeps(env: Env, n: string, o: PolicyObject, cs: ClientState, found: Found, f: Faults)
    requires Ready(env, n, o, cs) && FindsOrCreates(env, n, o, cs, f, found) && found.arn.Some?
    ensures Syncs(env, n, o, cs, UpdateIfChanged(env, o, found, f))
  {
    var s, d := found.cs.store, Serialized(env, o);
    UpdateChanges(s, env.path, env.parse, n, d, f.update);
    UpdateKeeps(s, env.parse, found.arn.value, d, f.update);
    FrameTrans(cs.store, s, Update(s, env.parse, found.arn.value, d, f.update).0, n);
  }

  lemma SyncUpstreamKeeps(env: Env, n: string, o: PolicyObject, cs: ClientState, f: Faults)
    requires Ready(env, n, o, cs)
    ensures Syncs(env, n, o, cs, SyncUpstream(env, n, o, cs, f))
  {
    FindOrCreateKeeps(env, n, o, cs, f);
    var found := FindOrCreate(env, n, o, cs, f);
    if found.arn.Some? { UpdateIfChangedKeeps(env, n, o, cs, found, f); }
  }

  // ----- every pass keeps the client sound and other policies as they were -----

  lemma LivePassKeeps(env: Env, n: string, o: PolicyObject, cs: ClientState, referenced: set<string>, f: Faults)
    requires Ready(env, n, o, cs)
    ensures Keeps(env, n, cs, LivePass(env, n, o, cs, referenced, f))
    ensures
      var p := LivePass(env, n, o, cs, referenced, f);
      && p.obj.Some? && (o.finalizer ==> p.obj.value.finalizer)
      && (Exists(env, n, p.cs) ==> Exists(env, n, cs) || p.obj.value.finalizer)
  {
    SyncUpstreamKeeps(env, n, o.(finalizer := true), cs, f);
  }

  /** The finalizer goes only when nothing is left upstream, and a deleting object creates nothing. */
  lemma FinalizePassKeeps(env: Env, n: string, o: PolicyObject, cs: ClientState, f: Faults)
    requires Ready(env, n, o, cs)
    ensures
      var p := FinalizePass(env, n, o, cs, f);
      && Keeps(env, n, cs, p)
      && (Exists(env, n, p.cs) ==> Exists(env, n, cs))
      && (o.finalizer && (p.obj.None? || !p.obj.value.finalizer) ==> !Exists(env, n, p.cs))
      && (!o.finalizer ==> p.obj == Some(o))
  {
    var ask := OptionsAsk(n, o, cs.store.prefix, env.path);
    GetSees(cs, env.path, ask, n, f.read);
    ReadSees(cs.store, env.path, n);
    var r := Get(cs, env.path, ask, f.read).1;
    if r.Ok? {
      SeenHasArn(cs.store, env.path, n);
      DeleteRemoves(cs.store, env.path, n, f.delete);
    }
  }

  /** Safe against orphans: an upstream policy has an object holding the finalizer. */
  predicate Guarded(env: Env, n: string, obj: Option<PolicyObject>, cs: ClientState) {
    Exists(env, n, cs) ==> obj.Some? && obj.value.finalizer
  }

  /** With aborts at any call, a pass keeps the policy guarded. */
  lemma PassKeepsGuarded(env: Env, n: string, o: PolicyObject, cs: ClientState, referenced: set<string>, f: Faults)
    requires Ready(env, n, o, cs) && Guarded(env, n, Some(o), cs)
    ensures var p := ReconcileObject(env, n, o, cs, referenced, f); Keeps(env, n, cs, p) && Guarded(env, n, p.obj, p.cs)
  {
    if o.deleting { FinalizePassKeeps(env, n, o, cs, f); } else { LivePassKeeps(env, n, o, cs, referenced, f); }
  }

  // ----- exactly what a pass writes -----

  /** The lookup gets through: the read does not fail, nor the list where the name is not cached. */
  predicate LookupLands(env: Env, n: string, o: PolicyObject, cs: ClientState, f: GetFault) {
    if o.arn == "" && n !in cs.cache then f != ListFails && (f != ReadFails || Listed(cs.store, env.path, n) == "")
    else f != ReadFails
  }

  lemma LookupExactly(env: Env, n: string, o: PolicyObject, cs: ClientState, f: GetFault)
    requires Ready(env, n, o, cs)
    ensures
      var (cs', r) := Get(cs, env.path, Options(n, o), f);
      && cs'.store == cs.store && Sound(cs', env.path)
      && r == if LookupLands(env, n, o, cs, f) then Seen(cs.store, env.path, n) else Unavailable()
  {
    var ask := OptionsAsk(n, o, cs.store.prefix, env.path);
    GetSees(cs, env.path, ask, n, f);
    ReadSees(cs.store, env.path, n);
    if o.arn != "" { GetByArn(cs, env.path, n, f); } else { assert Marked(n); }
    assert PolicyArn(cs.store.prefix, env.path, n) != "" by {
      assert |PolicyArn(cs.store.prefix, env.path, n)| >= |env.path|;
    }
  }

  /** An update of `n` to `d` gets a new version stored. */
  predicate NewVersionLands(env: Env, n: string, d: Bytes, s: Store, f: UpdateFault) {
    var seen := Seen(s, env.path, n);
    && seen.Ok? && f != FirstReadFails && f != NewVersionFails
    && env.parse(seen.value.document).Some? && env.parse(d).Some?
    && env.parse(seen.value.document) != env.parse(d)
    && |s.policies[n].versions| < VERSION_LIMIT
  }

  /** What follows the new version succeeds: the old one is deleted and the new one reads. */
  ghost predicate RotationCompletes(mp: ManagedPolicy, d: Bytes, f: UpdateFault) {
    f != DeleteVersionFails && f != LastReadFails && !Clashes(mp) && QueryUnescape(d).Some?
  }

  lemma DeleteOldExactly(s: Store, n: string, policy: IamPolicy, d: Bytes)
    requires Invariant(s) && n in s.policies && |s.policies[n].versions| < VERSION_LIMIT
    requires policy.arn == s.policies[n].policy.arn && policy.versionId == s.policies[n].policy.defaultVersionId
    ensures
      var (s1, r1) := CreatePolicyVersion(s, policy.arn, d, true);
      && r1.Ok? && (DeletePolicyVersion(s1, policy.arn, policy.versionId).1.Ok? <==> !Clashes(s.policies[n]))
  {
    IndexAt(s, n);
    ValidAt(s, n);
    PointerAt(s, n);
    var mp := s.policies[n];
    assert mp.policy.defaultVersionId in mp.versions;
    var version := PolicyVersion(d, NextId(mp.versions), true, s.clock);
    NewVersionIsDefault(mp, version);
    assert CreatePolicyVersion(s, policy.arn, d, true) == (WithVersion(s, n, version), Ok(version));
  }

  /** The rotation stores the new document whatever fails after it, and succeeds exactly when nothing
      fails, the names do not clash and the document, stored raw, can be unescaped. */
  lemma RotateExactly(s: Store, n: string, policy: IamPolicy, d: Bytes, f: UpdateFault)
    requires Invariant(s) && n in s.policies && |s.policies[n].versions| < VERSION_LIMIT
    requires policy.arn == s.policies[n].policy.arn && policy.versionId == s.policies[n].policy.defaultVersionId
    ensures
      var (s', r) := Rotate(s, policy, d, f);
      && s' != s && Revised(s, s', n) && Stores(s', n, d)
      && (r.Ok? <==> RotationCompletes(s.policies[n], d, f))
  {
    DeleteOldExactly(s, n, policy, d);
    CreateVersionRevises(s, n, policy.arn, d);
    var s1 := CreatePolicyVersion(s, policy.arn, d, true).0;
    DeleteVersionRevises(s1, n, policy.arn, policy.versionId, d);
    RevisedTrans(s, s1, DeletePolicyVersion(s1, policy.arn, policy.versionId).0, n);
    DeletePolicyVersionKeepsIndex(s1, policy.arn, policy.versionId);
    ReadStored(DeletePolicyVersion(s1, policy.arn, policy.versionId).0, n, d);
  }

  lemma StoredIsSeen(s: Store, s': Store, path: string, n: string, d: Bytes)
    requires At(s, path, n).Some? && Revised(s, s', n) && Stores(s', n, d)
    ensures
      var seen, u := Seen(s', path, n), QueryUnescape(d);
      if u.Some? then seen.Ok? && seen.value.document == u.value else seen.Err?
  {
  }

  /** What the gated update call does to a policy that reads. */
  lemma UpdateExactly(env: Env, n: string, d: Bytes, s: Store, f: UpdateFault)
    requires Invariant(s) && IsClientPath(env.path) && SlashFree(n) && Seen(s, env.path, n).Ok?
    ensures
      var (s', r) := Update(s, env.parse, PolicyArn(s.prefix, env.path, n), d, f);
      var seen, u := Seen(s, env.path, n), QueryUnescape(d);
      if NewVersionLands(env, n, d, s, f) then
        && s' != s && (r.Ok? <==> RotationCompletes(s.policies[n], d, f))
        && var seen' := Seen(s', env.path, n);
           if u.Some? then seen'.Ok? && seen'.value.document == u.value else seen'.Err?
      else
        && s' == s
        && (r.Ok? <==> f != FirstReadFails && env.parse(d).Some?
                       && env.parse(seen.value.document) == env.parse(d))
  {
    ReadSees(s, env.path, n);
    UpdateCases(s, env.parse, PolicyArn(s.prefix, env.path, n), d, f);
    IndexAt(s, n);
    var policy := Seen(s, env.path, n).value;
    if |s.policies[n].versions| < VERSION_LIMIT {
      RotateExactly(s, n, policy, d, f);
      StoredIsSeen(s, Rotate(s, policy, d, f).0, env.path, n, d);
    } else {
      FullRotates(s, n, policy, d, f);
    }
  }

  lemma FullRotates(s: Store, n: string, policy: IamPolicy, d: Bytes, f: UpdateFault)
    requires Invariant(s) && n in s.policies && |s.policies[n].versions| >= VERSION_LIMIT
    requires policy.arn == s.policies[n].policy.arn
    ensures Rotate(s, policy, d, f).0 == s && Rotate(s, policy, d, f).1.Err?
  {
    IndexAt(s, n);
    ValidAt(s, n);
  }

  // ----- the md5 gate -----

  /** A recorded digest describes the document upstream shows, as a JSON tree. */
  predicate GateHolds(env: Env, n: string, o: PolicyObject, cs: ClientState) {
    var seen := Seen(cs.store, env.path, n);
    seen.Ok? && o.md5.Some? ==> env.parse(seen.value.document) == env.parse(o.md5.value.of)
  }

  /** Upstream shows the serialized spec and the status records its digest. */
  predicate Converged(env: Env, n: string, o: PolicyObject, cs: ClientState) {
    var seen := Seen(cs.store, env.path, n);
    && seen.Ok? && env.parse(seen.value.document) == env.parse(Serialized(env, o))
    && o.md5 == Some(Digest(Serialized(env, o)))
  }

  /** The pass stores a new version of an existing policy. */
  predicate Rotates(env: Env, n: string, o: PolicyObject, cs: ClientState, f: Faults) {
    var d := Serialized(env, o);
    && LookupLands(env, n, o, cs, f.read) && o.md5 != Some(Digest(d))
    && NewVersionLands(env, n, d, cs.store, f.update)
  }

  /** A rotation that completes, followed by its status patch. */
  ghost predicate RotationRecorded(env: Env, n: string, o: PolicyObject, cs: ClientState, f: Faults)
    requires n in cs.store.policies
  {
    RotationCompletes(cs.store.policies[n], Serialized(env, o), f.update) && !f.updatePatch
  }

  /** The pass creates the policy. */
  predicate Makes(env: Env, n: string, o: PolicyObject, cs: ClientState, f: Faults) {
    LookupLands(env, n, o, cs, f.read) && n !in cs.store.policies && f.create != CreateFails
  }

  /** The digest of a creation is recorded by the patch after it, or by the one after the update call,
      which then finds nothing to change. */
  predicate CreationRecorded(env: Env, o: PolicyObject, f: Faults) {
    f.create == CreateOk
    && (!f.createPatch
        || (f.update != FirstReadFails && env.parse(Serialized(env, o)).Some? && !f.updatePatch))
  }

  /** What the raw document reads as parses as the document itself; it does when it is plain. */
  predicate Survives(env: Env, d: Bytes) {
    QueryUnescape(d).Some? ==> env.parse(QueryUnescape(d).value) == env.parse(d)
  }

  lemma PlainSurvives(env: Env, d: Bytes)
    requires Plain(d)
    ensures Survives(env, d)
  {
    RawDocumentSurvives(d);
  }

  /** A recorded digest, if any, is of a document that does not parse as `d`. */
  predicate RecordsOther(env: Env, o: PolicyObject, d: Bytes) {
    o.md5.Some? && env.parse(o.md5.value.of) != env.parse(d)
  }

  /** The two ways to lose the gate: a new version that reads as another document than the one then
      recorded, and a creation that is not recorded under the digest of another document. */
  ghost predicate LosesGate(env: Env, n: string, o: PolicyObject, cs: ClientState, f: Faults) {
    var d, u := Serialized(env, o), QueryUnescape(Serialized(env, o));
    || (Rotates(env, n, o, cs, f) && u.Some?
        && if RotationRecorded(env, n, o, cs, f) then env.parse(u.value) != env.parse(d)
           else RecordsOther(env, o, u.value))
    || (Makes(env, n, o, cs, f) && !CreationRecorded(env, o, f) && RecordsOther(env, o, d))
  }

  /** What the theorems say of the upstream half of a pass. */
  ghost predicate GateExact(env: Env, n: string, o: PolicyObject, cs: ClientState, f: Faults, p: Pass) {
    && p.obj.Some?
    && (GateHolds(env, n, p.obj.value, p.cs) <==> !LosesGate(env, n, o, cs, f))
    && (p.cs.store != cs.store <==> Rotates(env, n, o, cs, f) || Makes(env, n, o, cs, f))
    && (p.ok ==> (Converged(env, n, p.obj.value, p.cs)
                  <==> !Rotates(env, n, o, cs, f) || Survives(env, Serialized(env, o))))
  }

  // ----- the whole outcome of the upstream half -----

  /** The document upstream shows for the name. */
  function Shown(env: Env, n: string, s: Store): Option<Bytes> {
    if Seen(s, env.path, n).Ok? then Some(Seen(s, env.path, n).value.document) else None
  }

  /** The object with the two fields that a status patch sets. */
  function Patched(env: Env, n: string, o: PolicyObject, prefix: string): PolicyObject {
    o.(arn := PolicyArn(prefix, env.path, n), md5 := Some(Digest(Serialized(env, o))))
  }

  /** How a pass ends: whether it wrote upstream, the document upstream shows, and the object. */
  ghost predicate Ends(env: Env, n: string, s: Store, p: Pass, wrote: bool, shown: Option<Bytes>, obj: PolicyObject) {
    p.obj == Some(obj) && (p.cs.store != s <==> wrote) && Shown(env, n, p.cs.store) == shown
  }

  /** What upstream shows parses as `d`. */
  predicate ShowsEqual(env: Env, n: string, s: Store, d: Bytes) {
    Shown(env, n, s).Some? && env.parse(d).Some? && env.parse(Shown(env, n, s).value) == env.parse(d)
  }

  /** The gated update of a policy that reads. `o` is the object as the pass read it, `found` what
      get-or-create left. */
  ghost predicate UpdateEnds(env: Env, n: string, o: PolicyObject, found: Found, f: Faults, p: Pass) {
    var s, d := found.cs.store, Serialized(env, o);
    if o.md5 == Some(Digest(d)) then p == Pass(Some(found.obj), found.cs, true)
    else
      var lands := NewVersionLands(env, n, d, s, f.update);
      && (lands ==> n in s.policies)
      && p.ok == (!f.updatePatch && if lands then RotationCompletes(s.policies[n], d, f.update)
                                    else f.update != FirstReadFails && ShowsEqual(env, n, s, d))
      && Ends(env, n, s, p, lands, if lands then QueryUnescape(d) else Shown(env, n, s),
              if p.ok then Patched(env, n, found.obj, s.prefix) else found.obj)
  }

  lemma UpdateIfChangedEnds(env: Env, n: string, o: PolicyObject, found: Found, f: Faults)
    requires Invariant(found.cs.store) && IsClientPath(env.path) && SlashFree(n) && found.obj.spec == o.spec
    requires found.arn == Some(PolicyArn(found.cs.store.prefix, env.path, n)) && Seen(found.cs.store, env.path, n).Ok?
    ensures UpdateEnds(env, n, o, found, f, UpdateIfChanged(env, o, found, f))
  {
    UpdateExactly(env, n, Serialized(env, o), found.cs.store, f.update);
    UpdateChanges(found.cs.store, env.path, env.parse, n, Serialized(env, o), f.update);
  }

  lemma FindsExisting(env: Env, n: string, o: PolicyObject, cs: ClientState, f: Faults)
    requires Ready(env, n, o, cs) && LookupLands(env, n, o, cs, f.read) && Seen(cs.store, env.path, n).Ok?
    ensures
      var found := FindOrCreate(env, n, o, cs, f);
      && found.obj == o && found.cs.store == cs.store && found.arn == Some(PolicyArn(cs.store.prefix, env.path, n))
  {
    LookupExactly(env, n, o, cs, f.read);
    SeenHasArn(cs.store, env.path, n);
  }

  /** The upstream half of a pass succeeds: the lookup lands, and either the policy reads and the gate is
      shut, a rotation completes or nothing differs, or the policy is made; no status patch fails. */
  ghost predicate UpstreamSucceeds(env: Env, n: string, o: PolicyObject, cs: ClientState, f: Faults) {
    var s, d := cs.store, Serialized(env, o);
    && LookupLands(env, n, o, cs, f.read)
    && (Shown(env, n, s).Some? || (n !in s.policies && f.create == CreateOk))
    && (o.md5 == Some(Digest(d))
        || (!f.updatePatch
            && if Rotates(env, n, o, cs, f) then RotationCompletes(s.policies[n], d, f.update)
               else f.update != FirstReadFails && env.parse(d).Some?
                    && (Shown(env, n, s).None? || env.parse(Shown(env, n, s).value) == env.parse(d))))
  }

  /** A status patch of the pass lands: the one after a creation, or the one that ends the update. */
  ghost predicate StatusLands(env: Env, n: string, o: PolicyObject, cs: ClientState, f: Faults) {
    || (Makes(env, n, o, cs, f) && f.create == CreateOk && !f.createPatch)
    || (UpstreamSucceeds(env, n, o, cs, f) && o.md5 != Some(Digest(Serialized(env, o))))
  }

  /** The outcome of the upstream half, whatever the state and the faults. */
  ghost predicate SyncOutcome(env: Env, n: string, o: PolicyObject, cs: ClientState, f: Faults, p: Pass) {
    && (p.ok <==> UpstreamSucceeds(env, n, o, cs, f))
    && Ends(env, n, cs.store, p, Rotates(env, n, o, cs, f) || Makes(env, n, o, cs, f),
            if Rotates(env, n, o, cs, f) then QueryUnescape(Serialized(env, o))
            else if Makes(env, n, o, cs, f) then Some(Serialized(env, o)) else Shown(env, n, cs.store),
            if StatusLands(env, n, o, cs, f) then Patched(env, n, o, cs.store.prefix) else o)
  }

  /** Over a policy that reads. */
  lemma ExistingOutcome(env: Env, n: string, o: PolicyObject, cs: ClientState, f: Faults)
    requires Ready(env, n, o, cs)
    requires LookupLands(env, n, o, cs, f.read) && Seen(cs.store, env.path, n).Ok?
    ensures SyncOutcome(env, n, o, cs, f, SyncUpstream(env, n, o, cs, f))
  {
    FindsExisting(env, n, o, cs, f);
    var found := FindOrCreate(env, n, o, cs, f);
    UpdateIfChangedEnds(env, n, o, found, f);
    ExistingEnds(env, n, o, cs, found, f, UpdateIfChanged(env, o, found, f));
  }

  lemma ExistingEnds(env: Env, n: string, o: PolicyObject, cs: ClientState, found: Found, f: Faults, p: Pass)
    requires Seen(cs.store, env.path, n).Ok? && LookupLands(env, n, o, cs, f.read)
    requires found.obj == o && found.cs.store == cs.store && UpdateEnds(env, n, o, found, f, p)
    ensures SyncOutcome(env, n, o, cs, f, p)
  {
  }

  /** The policy just created has the description of the spec and shows the serialized spec; ARN and
      digest are recorded unless the patch failed. */
  ghost predicate Created(env: Env, n: string, o: PolicyObject, cs: ClientState, f: Faults, found: Found) {
    var d := Serialized(env, o);
    && Invariant(found.cs.store) && found.cs.store.prefix == cs.store.prefix && found.cs.store != cs.store
    && Shown(env, n, found.cs.store) == Some(d)
    && n in found.cs.store.policies && found.cs.store.policies[n].policy.description == o.description
    && (found.arn.Some? <==> f.create == CreateOk)
    && (found.arn.Some? ==> found.arn.value == PolicyArn(cs.store.prefix, env.path, n))
    && found.obj == if f.create == CreateOk && !f.createPatch then Patched(env, n, o, cs.store.prefix) else o
  }

  lemma MakesNew(env: Env, n: string, o: PolicyObject, cs: ClientState, f: Faults)
    requires Ready(env, n, o, cs) && Makes(env, n, o, cs, f)
    ensures Created(env, n, o, cs, f, FindOrCreate(env, n, o, cs, f))
  {
    var d := Serialized(env, o);
    LookupExactly(env, n, o, cs, f.read);
    var cs1 := Get(cs, env.path, Options(n, o), f.read).0;
    CreateMakes(cs1, env.path, n, d, o.description, f.create);
    CreateWrites(cs1, env.path, n, d, o.description, f.create);
  }

  /** With nothing of the name upstream. */
  lemma MissingOutcome(env: Env, n: string, o: PolicyObject, cs: ClientState, f: Faults)
    requires Ready(env, n, o, cs) && Makes(env, n, o, cs, f)
    ensures
      var p := SyncUpstream(env, n, o, cs, f);
      && SyncOutcome(env, n, o, cs, f, p)
      && n in p.cs.store.policies && p.cs.store.policies[n].policy.description == o.description
  {
    MakesNew(env, n, o, cs, f);
    var found := FindOrCreate(env, n, o, cs, f);
    if found.arn.Some? {
      UpdateIfChangedEnds(env, n, o, found, f);
      CreatedEnds(env, n, o, cs, found, f, UpdateIfChanged(env, o, found, f));
    } else {
      assert Shown(env, n, cs.store).None?;
    }
  }

  lemma CreatedEnds(env: Env, n: string, o: PolicyObject, cs: ClientState, found: Found, f: Faults, p: Pass)
    requires Makes(env, n, o, cs, f) && Created(env, n, o, cs, f, found) && found.arn.Some?
    requires UpdateEnds(env, n, o, found, f, p)
    ensures SyncOutcome(env, n, o, cs, f, p) && p.cs.store == found.cs.store
  {
  }

  /** Where the lookup fails, the create fails, or what is there is another path's or cannot be read. */
  lemma StopsEarly(env: Env, n: string, o: PolicyObject, cs: ClientState, f: Faults)
    requires Ready(env, n, o, cs) && !Makes(env, n, o, cs, f)
    requires !(LookupLands(env, n, o, cs, f.read) && Seen(cs.store, env.path, n).Ok?)
    ensures
      var p := SyncUpstream(env, n, o, cs, f);
      p.obj == Some(o) && p.cs.store == cs.store && !p.ok
  {
    LookupExactly(env, n, o, cs, f.read);
    ReadSees(cs.store, env.path, n);
  }

  lemma SyncUpstreamExactly(env: Env, n: string, o: PolicyObject, cs: ClientState, f: Faults)
    requires Ready(env, n, o, cs)
    ensures SyncOutcome(env, n, o, cs, f, SyncUpstream(env, n, o, cs, f))
  {
    if Makes(env, n, o, cs, f) {
      MissingOutcome(env, n, o, cs, f);
    } else if LookupLands(env, n, o, cs, f.read) && Seen(cs.store, env.path, n).Ok? {
      ExistingOutcome(env, n, o, cs, f);
    } else {
      StopsEarly(env, n, o, cs, f);
    }
  }

  /** The gate and convergence are read off the outcome. */
  lemma OutcomeGate(env: Env, n: string, o: PolicyObject, cs: ClientState, f: Faults, p: Pass)
    requires GateHolds(env, n, o, cs) && SyncOutcome(env, n, o, cs, f, p)
    ensures GateExact(env, n, o, cs, f, p)
  {
  }

  lemma SyncGateExactly(env: Env, n: string, o: PolicyObject, cs: ClientState, f: Faults)
    requires Ready(env, n, o, cs) && GateHolds(env, n, o, cs)
    ensures GateExact(env, n, o, cs, f, SyncUpstream(env, n, o, cs, f))
  {
    SyncUpstreamExactly(env, n, o, cs, f);
    OutcomeGate(env, n, o, cs, f, SyncUpstream(env, n, o, cs, f));
  }

  /** A live pass gets past its finalizer patch. */
  predicate Starts(o: PolicyObject, f: Faults) { o.finalizer || !f.addFinalizer }

  /** From any state in which the gate holds, over a policy with one version, with versions whose names
      clash, or with nothing upstream: a pass loses the gate exactly in the two ways above. */
  lemma GateLostExactly(env: Env, n: string, o: PolicyObject, cs: ClientState, referenced: set<string>, f: Faults)
    requires Ready(env, n, o, cs) && GateHolds(env, n, o, cs)
    ensures
      var p := LivePass(env, n, o, cs, referenced, f);
      && p.obj.Some?
      && (GateHolds(env, n, p.obj.value, p.cs) <==> !(Starts(o, f) && LosesGate(env, n, o, cs, f)))
      && (p.cs.store != cs.store <==> Starts(o, f) && (Rotates(env, n, o, cs, f) || Makes(env, n, o, cs, f)))
  {
    SyncGateExactly(env, n, o.(finalizer := true), cs, f);
    FinalizerIsNoMatter(env, n, o, cs, f);
  }

  /** With a single version and a document that survives, that is a failure between the new version and
      the end of its status patch. */
  lemma SingleVersionGate(env: Env, n: string, o: PolicyObject, cs: ClientState, referenced: set<string>, f: Faults)
    requires Ready(env, n, o, cs) && GateHolds(env, n, o, cs) && Starts(o, f) && o.md5.Some?
    requires Rotates(env, n, o, cs, f) && Single(cs.store.policies[n])
    requires QueryUnescape(Serialized(env, o)).Some? && Survives(env, Serialized(env, o))
    ensures
      var p := LivePass(env, n, o, cs, referenced, f);
      p.obj.Some? && (GateHolds(env, n, p.obj.value, p.cs)
                      <==> f.update != DeleteVersionFails && f.update != LastReadFails && !f.updatePatch)
  {
    NextOfSingle(cs.store.policies[n]);
    GateLostExactly(env, n, o, cs, referenced, f);
  }

  /** With clashing names, what a failed version delete leaves behind, the gate is lost with nothing
      failing. */
  lemma ClashLosesGate(env: Env, n: string, o: PolicyObject, cs: ClientState, referenced: set<string>)
    requires Ready(env, n, o, cs) && GateHolds(env, n, o, cs) && o.md5.Some?
    requires Rotates(env, n, o, cs, NO_FAULTS) && Clashes(cs.store.policies[n])
    requires QueryUnescape(Serialized(env, o)).Some? && Survives(env, Serialized(env, o))
    ensures
      var p := LivePass(env, n, o, cs, referenced, NO_FAULTS);
      p.obj.Some? && !p.ok && !GateHolds(env, n, p.obj.value, p.cs)
  {
    GateLostExactly(env, n, o, cs, referenced, NO_FAULTS);
    SyncUpstreamExactly(env, n, o.(finalizer := true), cs, NO_FAULTS);
  }

  /** Over nothing upstream and the digest of another document, the gate is lost exactly when neither
      status patch of the creation gets through. */
  lemma RecreationGate(env: Env, n: string, o: PolicyObject, cs: ClientState, referenced: set<string>, f: Faults)
    requires Ready(env, n, o, cs) && Starts(o, f) && Makes(env, n, o, cs, f)
    requires RecordsOther(env, o, Serialized(env, o)) && env.parse(Serialized(env, o)).Some?
    ensures
      var p := LivePass(env, n, o, cs, referenced, f);
      p.obj.Some? && (GateHolds(env, n, p.obj.value, p.cs) <==>
        f.create != CreateReadFails && (!f.createPatch || (f.update != FirstReadFails && !f.updatePatch)))
  {
    GateLostExactly(env, n, o, cs, referenced, f);
  }

  lemma FinalizerIsNoMatter(env: Env, n: string, o: PolicyObject, cs: ClientState, f: Faults)
    ensures
      var o' := o.(finalizer := true);
      && Rotates(env, n, o', cs, f) == Rotates(env, n, o, cs, f)
      && Makes(env, n, o', cs, f) == Makes(env, n, o, cs, f)
      && LosesGate(env, n, o', cs, f) == LosesGate(env, n, o, cs, f)
  {
  }

  // ----- convergence -----

  /** A pass that returns without error, whatever was logged on the way, ends with upstream showing the
      serialized spec and its digest recorded, exactly unless it stored the spec raw and that reads as
      another document. */
  lemma ErrorFreePassConverges(env: Env, n: string, o: PolicyObject, cs: ClientState, referenced: set<string>,
                               f: Faults)
    requires Ready(env, n, o, cs) && GateHolds(env, n, o, cs)
    ensures
      var p := LivePass(env, n, o, cs, referenced, f);
      p.ok ==>
        && p.obj.Some? && p.obj.value.finalizer && p.obj.value.spec == o.spec
        && (Converged(env, n, p.obj.value, p.cs)
            <==> !Rotates(env, n, o, cs, f) || Survives(env, Serialized(env, o)))
  {
    SyncGateExactly(env, n, o.(finalizer := true), cs, f);
    FinalizerIsNoMatter(env, n, o, cs, f);
    UpstreamHalfKeepsFields(env, n, o.(finalizer := true), cs, f);
  }

  predicate OnlyStatus(o: PolicyObject, o': PolicyObject) {
    o' == o.(arn := o'.arn, md5 := o'.md5)
  }

  lemma FindOrCreateKeepsFields(env: Env, n: string, o: PolicyObject, cs: ClientState, f: Faults)
    ensures OnlyStatus(o, FindOrCreate(env, n, o, cs, f).obj)
  {
  }

  lemma UpdateIfChangedKeepsFields(env: Env, o: PolicyObject, found: Found, f: Faults)
    requires found.arn.Some? && OnlyStatus(o, found.obj)
    ensures var p := UpdateIfChanged(env, o, found, f); p.obj.Some? && OnlyStatus(o, p.obj.value)
  {
  }

  /** The upstream half touches only the ARN and the digest of the object. */
  lemma UpstreamHalfKeepsFields(env: Env, n: string, o: PolicyObject, cs: ClientState, f: Faults)
    ensures var p := SyncUpstream(env, n, o, cs, f);
      p.obj.Some? && p.obj.value == o.(arn := p.obj.value.arn, md5 := p.obj.value.md5)
  {
    FindOrCreateKeepsFields(env, n, o, cs, f);
    var found := FindOrCreate(env, n, o, cs, f);
    if found.arn.Some? { UpdateIfChangedKeepsFields(env, o, found, f); }
  }

  /** A pass over a converged object writes nothing, upstream or in the cluster. */
  lemma ConvergedPassIsQuiet(env: Env, n: string, o: PolicyObject, cs: ClientState, referenced: set<string>)
    requires Ready(env, n, o, cs) && Converged(env, n, o, cs) && o.finalizer
    requires (set r | r in o.attachedRoles) == referenced
    ensures var p := LivePass(env, n, o, cs, referenced, NO_FAULTS); p.ok && p.obj == Some(o) && p.cs.store == cs.store
  {
    var ask := OptionsAsk(n, o, cs.store.prefix, env.path);
    GetSees(cs, env.path, ask, n, GetOk);
    assert o.(finalizer := true) == o;
  }

  /** An edit of the spec that only reorders conditions leaves a converged object converged. */
  lemma ReorderedSpecStaysConverged(env: Env, n: string, o: PolicyObject, cs: ClientState, spec: Spec)
    requires Converged(env, n, o, cs)
    requires |spec| == |o.spec| && forall i :: 0 <= i < |spec| ==> Doc.Reordered(o.spec[i], spec[i])
    ensures Converged(env, n, o.(spec := spec), cs)
  {
    Doc.ReorderedSpecSerializesEqually(o.spec, spec);
  }

  // ----- the whole outcome of a pass -----

  /** What a live pass leaves of the object: the finalizer unless its patch failed, ARN and digest where a
      status patch landed, the sorted roles where they differ and their patch landed. */
  ghost predicate LiveObject(env: Env, n: string, o: PolicyObject, cs: ClientState, wanted: set<string>, f: Faults,
                             obj: PolicyObject)
  {
    var differ := (set r | r in o.attachedRoles) != wanted;
    && obj.spec == o.spec && obj.description == o.description
    && obj.otherFinalizers == o.otherFinalizers && obj.deleting == o.deleting
    && (obj.finalizer <==> Starts(o, f))
    && (if Starts(o, f) && StatusLands(env, n, o, cs, f) then
          obj.arn == PolicyArn(cs.store.prefix, env.path, n) && obj.md5 == Some(Digest(Serialized(env, o)))
        else obj.arn == o.arn && obj.md5 == o.md5)
    && (if Starts(o, f) && UpstreamSucceeds(env, n, o, cs, f) && differ && !f.syncPatch then
          ListOf(obj.attachedRoles, wanted)
        else obj.attachedRoles == o.attachedRoles)
  }

  /** Exactly when a live pass succeeds, and exactly what it leaves. A failed list counts as an empty one. */
  ghost predicate LiveOutcome(env: Env, n: string, o: PolicyObject, cs: ClientState, referenced: set<string>, f: Faults,
                              p: Pass)
  {
    var wanted := if f.list then {} else referenced;
    && (p.ok <==> Starts(o, f) && UpstreamSucceeds(env, n, o, cs, f)
                  && ((set r | r in o.attachedRoles) == wanted || !f.syncPatch))
    && p.obj.Some? && LiveObject(env, n, o, cs, wanted, f, p.obj.value)
    && Shown(env, n, p.cs.store) ==
         if Starts(o, f) && Rotates(env, n, o, cs, f) then QueryUnescape(Serialized(env, o))
         else if Starts(o, f) && Makes(env, n, o, cs, f) then Some(Serialized(env, o)) else Shown(env, n, cs.store)
  }

  lemma ThenRolesExactly(env: Env, n: string, o: PolicyObject, cs: ClientState, referenced: set<string>, f: Faults,
                         u: Pass)
    requires Starts(o, f) && SyncOutcome(env, n, o.(finalizer := true), cs, f, u)
    ensures LiveOutcome(env, n, o, cs, referenced, f, ThenSyncRoles(u, referenced, f))
  {
    OutcomeIgnoresFinalizer(env, n, o, cs, f);
  }

  /** Whatever the state and the faults. */
  lemma LivePassExactly(env: Env, n: string, o: PolicyObject, cs: ClientState, referenced: set<string>, f: Faults)
    requires Ready(env, n, o, cs)
    ensures LiveOutcome(env, n, o, cs, referenced, f, LivePass(env, n, o, cs, referenced, f))
  {
    if Starts(o, f) {
      var o1 := o.(finalizer := true);
      SyncUpstreamExactly(env, n, o1, cs, f);
      ThenRolesExactly(env, n, o, cs, referenced, f, SyncUpstream(env, n, o1, cs, f));
    }
  }

  lemma OutcomeIgnoresFinalizer(env: Env, n: string, o: PolicyObject, cs: ClientState, f: Faults)
    ensures
      var o' := o.(finalizer := true);
      && UpstreamSucceeds(env, n, o', cs, f) == UpstreamSucceeds(env, n, o, cs, f)
      && StatusLands(env, n, o', cs, f) == StatusLands(env, n, o, cs, f)
      && Rotates(env, n, o', cs, f) == Rotates(env, n, o, cs, f)
      && Makes(env, n, o', cs, f) == Makes(env, n, o, cs, f)
  {
    FinalizerIsNoMatter(env, n, o, cs, f);
  }

  /** ARN and digest are recorded together, and the ARN is the one of the controller's path. */
  predicate StatusWhole(prefix: string, path: string, n: string, o: PolicyObject) {
    if o.md5.Some? then o.arn == PolicyArn(prefix, path, n) else o.arn == ""
  }

  lemma LivePassStatus(env: Env, n: string, o: PolicyObject, cs: ClientState, referenced: set<string>, f: Faults)
    requires Ready(env, n, o, cs) && StatusWhole(cs.store.prefix, env.path, n, o)
    ensures
      var p := LivePass(env, n, o, cs, referenced, f);
      p.obj.Some? && StatusWhole(cs.store.prefix, env.path, n, p.obj.value)
  {
    LivePassExactly(env, n, o, cs, referenced, f);
  }

  /** The finalizing lookup and delete get through: there is nothing upstream, or a policy that reads. */
  predicate Empties(env: Env, n: string, o: PolicyObject, cs: ClientState, f: Faults) {
    && LookupLands(env, n, o, cs, f.read)
    && (At(cs.store, env.path, n).None? || (Seen(cs.store, env.path, n).Ok? && !f.delete))
  }

  /** Exactly what a pass over a deleting object that holds the finalizer does. A policy whose document,
      stored raw, cannot be unescaped blocks it. */
  lemma FinalizePassExactly(env: Env, n: string, o: PolicyObject, cs: ClientState, f: Faults)
    requires Ready(env, n, o, cs) && o.finalizer
    ensures
      var p := FinalizePass(env, n, o, cs, f);
      && SameBut(cs.store, p.cs.store, n)
      && (p.ok <==> Empties(env, n, o, cs, f) && !f.removeFinalizer)
      && (At(p.cs.store, env.path, n).None? <==> At(cs.store, env.path, n).None? || Empties(env, n, o, cs, f))
      && (At(p.cs.store, env.path, n).Some? ==> At(p.cs.store, env.path, n) == At(cs.store, env.path, n))
      && (if !p.ok then p.obj == Some(o)
          else if o.otherFinalizers then p.obj == Some(o.(finalizer := false)) else p.obj == None)
  {
    LookupExactly(env, n, o, cs, f.read);
    ReadSees(cs.store, env.path, n);
    if Seen(cs.store, env.path, n).Ok? {
      SeenHasArn(cs.store, env.path, n);
      DeleteRemoves(cs.store, env.path, n, f.delete);
    }
  }

  /** The serialized spec is the encoding of the one document that its fields describe. */
  lemma SerializedSpec(env: Env, o: PolicyObject, d: Doc.Document)
    requires Doc.IsSerialized(o.spec, d)
    ensures Serialized(env, o) == env.marshal(d)
  {
    Doc.SerializedIs(o.spec, d);
  }

  // ----- hiding a lost gate -----

  /** Once the gate is lost, reverting the spec hides it: a faultless pass succeeds, writes nothing,
      and upstream keeps the other document. */
  lemma RevertHidesLostGate(env: Env, n: string, o: PolicyObject, cs: ClientState, referenced: set<string>)
    requires Ready(env, n, o, cs) && o.finalizer && o.md5 == Some(Digest(Serialized(env, o)))
    requires Seen(cs.store, env.path, n).Ok? && !GateHolds(env, n, o, cs)
    requires (set r | r in o.attachedRoles) == referenced
    ensures
      var p := LivePass(env, n, o, cs, referenced, NO_FAULTS);
      p.ok && p.obj == Some(o) && p.cs.store == cs.store && !Converged(env, n, o, p.cs)
  {
    var ask := OptionsAsk(n, o, cs.store.prefix, env.path);
    GetSees(cs, env.path, ask, n, GetOk);
    assert o.(finalizer := true) == o;
  }

  // ----- the roles a policy records -----

  /** A pass that returns without error records exactly the referencing roles, unless the list call
      failed while some role references the policy; what it writes is sorted and without duplicates. */
  lemma PassSyncsRoles(env: Env, n: string, o: PolicyObject, cs: ClientState, referenced: set<string>, f: Faults)
    ensures
      var p := LivePass(env, n, o, cs, referenced, f);
      p.obj.Some? ==>
        && (Sorted(o.attachedRoles) ==> Sorted(p.obj.value.attachedRoles))
        && (p.ok ==> ((set r | r in p.obj.value.attachedRoles) == referenced <==> !f.list || referenced == {}))
  {
    UpstreamHalfKeepsFields(env, n, o.(finalizer := true), cs, f);
    var u := SyncUpstream(env, n, o.(finalizer := true), cs, f).obj.value;
    SyncRolesWrites(u, if f.list then {} else referenced, f.syncPatch);
  }

  lemma SyncRolesWrites(o: PolicyObject, referenced: set<string>, patchFails: bool)
    ensures var (o', ok) := SyncRoles(o, referenced, patchFails);
      (Sorted(o.attachedRoles) ==> Sorted(o'.attachedRoles)) && (ok ==> (set r | r in o'.attachedRoles) == referenced)
  {
    assert (set r | r in SortedList(referenced)) == referenced;
  }
}
