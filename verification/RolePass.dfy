/** What one pass of the IamRole reconciler achieves, and why the next one has nothing to do. */
module RolePass {
  import opened Common
  import opened RoleStore
  import opened TrustPolicy
  import opened BindManager
  import opened RoleAttachments
  import opened RoleReconciler
  import RC = RoleClient

  // ----- the role and its trust document -----

  lemma BindKeepsReading(rs: RoleState, codec: Codec, oidcArn: string, n: string, sid: string, refs: seq<Subject>,
                         f: BindFault)
    requires RC.ReadRole(rs, n).Ok?
    ensures
      var role := RC.ReadRole(BindRole(rs, codec, oidcArn, n, sid, refs, f).0, n);
      role.Ok? && role.value.arn == RC.ReadRole(rs, n).value.arn
  {
    var d := codec.parse(RC.ReadRole(rs, n).value.trustPolicy);
    if !f.get && d.Some? && Writes(d.value, sid, refs) {
      RC.UpdateThenGet(rs, n, codec.marshal(Built(d.value, sid, oidcArn, refs)), "", 0, f.update);
    }
  }

  /** A call that reports success got through, or had nothing to write. */
  lemma SuccessfulBindShows(rs: RoleState, codec: Codec, oidcArn: string, n: string, sid: string, refs: seq<Subject>,
                            f: BindFault, d: Document)
    requires RoundTrips(codec) && ShowsDocument(rs, codec, n, d) && BindRole(rs, codec, oidcArn, n, sid, refs, f).1.Ok?
    ensures ShowsDocument(BindRole(rs, codec, oidcArn, n, sid, refs, f).0, codec, n, Upstream(d, sid, oidcArn, refs))
  {
    BindShows(rs, codec, oidcArn, n, sid, refs, f, d);
  }

  /** The document a role has, or will be created with. */
  ghost predicate StartsWith(env: RoleEnv, n: string, rs: RoleState, d: Document) {
    if n in rs.roles then ShowsDocument(rs, env.codec, n, d) else env.codec.parse(env.defaultPolicy) == Some(d)
  }

  lemma GetOrCreateShows(env: RoleEnv, n: string, o: RoleObject, rs: RoleState, f: RoleFaults, d: Document)
    requires StartsWith(env, n, rs, d) && GetOrCreateRole(env, n, o, rs, f).1.Ok?
    ensures ShowsDocument(GetOrCreateRole(env, n, o, rs, f).0, env.codec, n, d)
  {
    if n !in rs.roles { RC.CreateThenGet(rs, env.path, n, env.defaultPolicy, "", Int32(o.maxDuration)); }
  }

  lemma SameReading(a: RoleState, b: RoleState, n: string)
    requires a.roles == b.roles
    ensures RC.ReadRole(a, n) == RC.ReadRole(b, n)
  {
  }

  // ----- one pass -----

  /** The service just before the status and trust half of a pass that got that far. */
  ghost function Attaching(env: RoleEnv, n: string, o: RoleObject, rs: RoleState, sur: Surroundings, f: RoleFaults)
    : RoleState
  {
    var rs2 := RC.ListAttachedPolicies(GetOrCreateRole(env, n, o, rs, f).0, sur.policies.index, n, f.list).0;
    SyncAttachments(rs2, sur.policies, n, o.refs, ShownAttachments(rs2, sur.policies.index, n), f.attach)
  }

  lemma OkPassSplits(env: RoleEnv, n: string, o: RoleObject, rs: RoleState, sur: Surroundings, f: RoleFaults)
    requires SyncRole(env, n, o, rs, sur, f).ok
    ensures
      var (rs1, role) := GetOrCreateRole(env, n, o, rs, f);
      var rs2 := RC.ListAttachedPolicies(rs1, sur.policies.index, n, f.list).0;
      var rs3 := Attaching(env, n, o, rs, sur, f);
      && role.Ok? && role == RC.ReadRole(rs1, n) && n in rs2.attachments && Attached(rs2, n) == Attached(rs, n)
      && rs2.roles == rs1.roles && rs3.roles == rs1.roles && rs2.prefix == rs.prefix
      && SyncRole(env, n, o, rs, sur, f) == UpdateStatus(env, n, o, rs3, role.value.arn, sur.subjects, f)
  {
    GetOrCreateKeeps(env, n, o, rs, f);
    var rs1 := GetOrCreateRole(env, n, o, rs, f).0;
    ListKeeps(rs1, sur.policies.index, n, f.list);
    var rs2 := RC.ListAttachedPolicies(rs1, sur.policies.index, n, f.list).0;
    SyncKeepsRest(rs2, sur.policies, n, o.refs, f.attach, ShownAttachments(rs2, sur.policies.index, n));
  }

  /** A pass that returns without error has recorded the ARN of the upstream role, which reads. */
  lemma OkPassRecordsArn(env: RoleEnv, n: string, o: RoleObject, rs: RoleState, sur: Surroundings, f: RoleFaults)
    requires SyncRole(env, n, o, rs, sur, f).ok
    ensures
      var p := SyncRole(env, n, o, rs, sur, f);
      && p.obj.Some? && RC.ReadRole(p.rs, n).Ok? && p.obj.value.arn == RC.ReadRole(p.rs, n).value.arn
      && (!f.boundPatch ==> p.obj.value.bound == sur.subjects)
  {
    OkPassSplits(env, n, o, rs, sur, f);
    var rs3 := Attaching(env, n, o, rs, sur, f);
    SameReading(rs3, GetOrCreateRole(env, n, o, rs, f).0, n);
    BindKeepsReading(rs3, env.codec, env.oidcArn, n, RoleSid(n), sur.subjects, f.bind);
  }

  /** If it created the role, the role has the client's path and the ARN that goes with it, no
      description, and the duration of the spec. */
  lemma OkPassCreates(env: RoleEnv, n: string, o: RoleObject, rs: RoleState, sur: Surroundings, f: RoleFaults)
    requires SyncRole(env, n, o, rs, sur, f).ok && n !in rs.roles
    ensures
      var rs', path := SyncRole(env, n, o, rs, sur, f).rs, ClientPath(env.path);
      && n in rs'.roles
      && rs'.roles[n]
           == Role(rs.prefix + path + n, n, Some(path), Some(""), Some(Int32(o.maxDuration)), rs'.roles[n].document)
  {
    OkPassSplits(env, n, o, rs, sur, f);
    BindKeepsRoles(Attaching(env, n, o, rs, sur, f), env.codec, env.oidcArn, n, RoleSid(n), sur.subjects, f.bind);
  }

  /** It leaves the trust document that the bind manager's edit of the old one gives, where that edit
      reaches the role. */
  lemma OkPassShowsTrust(env: RoleEnv, n: string, o: RoleObject, rs: RoleState, sur: Surroundings, f: RoleFaults,
                         d: Document)
    requires SyncRole(env, n, o, rs, sur, f).ok && RoundTrips(env.codec) && StartsWith(env, n, rs, d)
    ensures ShowsDocument(SyncRole(env, n, o, rs, sur, f).rs, env.codec, n,
      Upstream(d, RoleSid(n), env.oidcArn, sur.subjects))
  {
    OkPassSplits(env, n, o, rs, sur, f);
    GetOrCreateShows(env, n, o, rs, f, d);
    var rs3 := Attaching(env, n, o, rs, sur, f);
    SameReading(rs3, GetOrCreateRole(env, n, o, rs, f).0, n);
    SuccessfulBindShows(rs3, env.codec, env.oidcArn, n, RoleSid(n), sur.subjects, f.bind, d);
  }

  /** It attaches exactly the expected names, counting from what was attached before it, leftovers of
      an earlier role of the name included. */
  lemma OkPassAttaches(env: RoleEnv, n: string, o: RoleObject, rs: RoleState, sur: Surroundings, f: RoleFaults,
                       name: string)
    requires SyncRole(env, n, o, rs, sur, f).ok && StatusNames(sur.policies)
    ensures
      var p, ps := SyncRole(env, n, o, rs, sur, f), sur.policies;
      var m := RC.ToMap(ShownAttachments(rs, ps.index, n));
      && Listing(m, rs, ps.index, n)
      && (name in Names(p.rs, ps.index, n) <==> ExpectedName(Names(rs, ps.index, n), m, ps, o.refs, f.attach, name))
  {
    OkPassSplits(env, n, o, rs, sur, f);
    ListingOfShown(rs, sur.policies.index, n);
    var rs2 := RC.ListAttachedPolicies(GetOrCreateRole(env, n, o, rs, f).0, sur.policies.index, n, f.list).0;
    AttachmentsConverge(rs2, sur.policies, n, o.refs, f.attach, name);
    var role := GetOrCreateRole(env, n, o, rs, f).1;
    UpdateTrustKeeps(env, n, o.(arn := role.value.arn), Attaching(env, n, o, rs, sur, f), sur.subjects, f);
  }

  // ----- the next pass -----

  /** The edit of a settled document is no edit. */
  lemma UpstreamSettles(d: Document, sid: string, oidcArn: string, refs: seq<Subject>)
    requires |Labelled(d.statements, sid)| <= 1
    ensures
      var u := Upstream(d, sid, oidcArn, refs);
      !Writes(u, sid, refs) && |Labelled(u.statements, sid)| <= 1
  {
    EditLabelled(d.statements, Managed(sid, oidcArn, refs), refs != []);
    FoundIffLabelled(d.statements, sid);
    FoundIffLabelled(Built(d, sid, oidcArn, refs).statements, sid);
  }

  /** Nothing left to do for the role. */
  ghost predicate Settled(env: RoleEnv, n: string, o: RoleObject, rs: RoleState, sur: Surroundings) {
    && n != "" && o.finalizer && RC.ReadRole(rs, n).Ok? && o.arn == RC.ReadRole(rs, n).value.arn
         && o.bound == sur.subjects
    && n in rs.attachments && FaultlessSync(rs, sur.policies, n, o.refs) == rs
    && exists d :: ShowsDocument(rs, env.codec, n, d) && !Writes(d, RoleSid(n), sur.subjects)
  }

  lemma SettledPassIsQuiet(env: RoleEnv, n: string, o: RoleObject, rs: RoleState, sur: Surroundings)
    requires Settled(env, n, o, rs, sur)
    ensures LivePass(env, n, o, rs, sur, NO_ROLE_FAULTS) == RolePass(Some(o), rs, true)
  {
    ListedAgain(rs, n);
    var d :| ShowsDocument(rs, env.codec, n, d) && !Writes(d, RoleSid(n), sur.subjects);
    assert UpdateStatus(env, n, o, rs, o.arn, sur.subjects, NO_ROLE_FAULTS) == RolePass(Some(o), rs, true);
  }

  lemma ListedAgain(rs: RoleState, n: string)
    requires n in rs.attachments
    ensures SetAttached(rs, n, Attached(rs, n)) == rs
  {
    assert rs.attachments[n := rs.attachments[n]] == rs.attachments;
  }

  lemma FaultlessPassSettles(env: RoleEnv, n: string, o: RoleObject, rs: RoleState, sur: Surroundings, d: Document)
    requires o.finalizer && SyncRole(env, n, o, rs, sur, NO_ROLE_FAULTS).ok && StatusNames(sur.policies) && n != ""
    requires RoundTrips(env.codec) && StartsWith(env, n, rs, d) && |Labelled(d.statements, RoleSid(n))| <= 1
    ensures
      var p := SyncRole(env, n, o, rs, sur, NO_ROLE_FAULTS);
      p.obj.Some? && Settled(env, n, p.obj.value, p.rs, sur)
  {
    var f := NO_ROLE_FAULTS;
    var p := SyncRole(env, n, o, rs, sur, f);
    OkPassSplits(env, n, o, rs, sur, f);
    OkPassRecordsArn(env, n, o, rs, sur, f);
    OkPassShowsTrust(env, n, o, rs, sur, f, d);
    UpstreamSettles(d, RoleSid(n), env.oidcArn, sur.subjects);
    SyncRoleKeeps(env, n, o, rs, sur, f);
    var rs2 := RC.ListAttachedPolicies(GetOrCreateRole(env, n, o, rs, f).0, sur.policies.index, n, f.list).0;
    var rs3 := Attaching(env, n, o, rs, sur, f);
    SyncKeepsRest(rs2, sur.policies, n, o.refs, f.attach, ShownAttachments(rs2, sur.policies.index, n));
    SecondSyncIsQuiet(rs2, sur.policies, n, o.refs);
    UpdateTrustKeeps(env, n, o.(arn := GetOrCreateRole(env, n, o, rs, f).1.value.arn), rs3, sur.subjects, f);
    SyncIgnoresRoles(rs3, p.rs, sur.policies, n, o.refs);
  }

  /** The attachment diff does not look at the roles. */
  lemma SyncIgnoresRoles(a: RoleState, b: RoleState, ps: Policies, n: string, refs: seq<string>)
    requires a.attachments == b.attachments && n in a.attachments && FaultlessSync(a, ps, n, refs) == a
    ensures FaultlessSync(b, ps, n, refs) == b
  {
    var m := RC.ToMap(ShownAttachments(a, ps.index, n));
    assert ShownAttachments(a, ps.index, n) == ShownAttachments(b, ps.index, n);
    var da, db := AttachRefs(Diff(a, m), ps, n, refs, NO_ATTACH_FAULTS),
        AttachRefs(Diff(b, m), ps, n, refs, NO_ATTACH_FAULTS);
    AttachIgnoresRoles(Diff(a, m), Diff(b, m), ps, n, refs, NO_ATTACH_FAULTS);
    SyncKeepsRest(b, ps, n, refs, NO_ATTACH_FAULTS, ShownAttachments(b, ps.index, n));
    assert FaultlessSync(b, ps, n, refs).attachments == FaultlessSync(a, ps, n, refs).attachments;
  }

  lemma {:induction false} AttachIgnoresRoles(a: Diff, b: Diff, ps: Policies, n: string, refs: seq<string>,
                                              f: AttachFaults)
    requires a.leftover == b.leftover && a.rs.attachments == b.rs.attachments
    ensures
      var a', b' := AttachRefs(a, ps, n, refs, f), AttachRefs(b, ps, n, refs, f);
      a'.leftover == b'.leftover && a'.rs.attachments == b'.rs.attachments
  {
    if refs != [] { AttachIgnoresRoles(a, b, ps, n, refs[..|refs| - 1], f); }
  }

  /** A pass in which nothing fails succeeds, for every role whose document parses. */
  lemma FaultlessPassSucceeds(env: RoleEnv, n: string, o: RoleObject, rs: RoleState, sur: Surroundings, d: Document)
    requires n != "" && RoundTrips(env.codec) && StartsWith(env, n, rs, d)
    ensures LivePass(env, n, o, rs, sur, NO_ROLE_FAULTS).ok
  {
    var f, o1 := NO_ROLE_FAULTS, o.(finalizer := true);
    if n !in rs.roles { RC.CreateThenGet(rs, env.path, n, env.defaultPolicy, "", Int32(o.maxDuration)); }
    GetOrCreateKeeps(env, n, o1, rs, f);
    GetOrCreateShows(env, n, o1, rs, f, d);
    var rs1 := GetOrCreateRole(env, n, o1, rs, f).0;
    ListKeeps(rs1, sur.policies.index, n, false);
    var rs2, listed := RC.ListAttachedPolicies(rs1, sur.policies.index, n, false).0,
        ShownAttachments(rs1, sur.policies.index, n);
    SyncKeepsRest(rs2, sur.policies, n, o.refs, f.attach, listed);
    var rs3 := SyncAttachments(rs2, sur.policies, n, o.refs, listed, f.attach);
    SameReading(rs3, rs1, n);
    BindShows(rs3, env.codec, env.oidcArn, n, RoleSid(n), sur.subjects, f.bind, d);
  }

  /** A faultless pass settles the role, and the next one changes neither the object nor the service. */
  lemma SecondPassIsQuiet(env: RoleEnv, n: string, o: RoleObject, rs: RoleState, sur: Surroundings, d: Document)
    requires StatusNames(sur.policies) && n != ""
    requires RoundTrips(env.codec) && StartsWith(env, n, rs, d) && |Labelled(d.statements, RoleSid(n))| <= 1
    ensures
      var p := LivePass(env, n, o, rs, sur, NO_ROLE_FAULTS);
      && p.ok && p.obj.Some? && Settled(env, n, p.obj.value, p.rs, sur)
      && LivePass(env, n, p.obj.value, p.rs, sur, NO_ROLE_FAULTS) == p
  {
    FaultlessPassSucceeds(env, n, o, rs, sur, d);
    FaultlessPassSettles(env, n, o.(finalizer := true), rs, sur, d);
    var p := LivePass(env, n, o, rs, sur, NO_ROLE_FAULTS);
    SettledPassIsQuiet(env, n, p.obj.value, p.rs, sur);
  }

  /** A faultless pass over a deleting object removes the role, and then the object or its finalizer;
      attachments of the role stay behind. */
  lemma FaultlessFinalizeRemoves(n: string, o: RoleObject, rs: RoleState)
    requires n in rs.roles ==> RC.ReadRole(rs, n).Ok?
    ensures
      var p := FinalizePass(n, o, rs, NO_ROLE_FAULTS);
      && p.ok && p.rs.roles == rs.roles - {n} && p.rs.attachments == rs.attachments
      && p.obj == if o.finalizer then (if o.otherFinalizers then Some(o.(finalizer := false)) else None) else Some(o)
  {
    assert n !in rs.roles ==> rs.roles - {n} == rs.roles;
  }

  // ----- the trust document through failing passes -----

  /** The pass gets as far as the bind call: a condition on the role it finds and the calls before. */
  predicate ReachesBind(env: RoleEnv, n: string, o: RoleObject, rs: RoleState, f: RoleFaults) {
    && n != "" && (o.finalizer || !f.addFinalizer) && !f.read && !f.list && !f.bindings
    && (n in rs.roles || f.create == RC.CreateOk)
    && (!f.arnPatch || o.arn == UpstreamArn(env, n, rs))
  }

  /** Created or found, the role shows the document it started with, even where the call then fails. */
  lemma GetOrCreateStarts(env: RoleEnv, n: string, o: RoleObject, rs: RoleState, f: RoleFaults, d: Document)
    requires StartsWith(env, n, rs, d)
    ensures
      var (rs', r) := GetOrCreateRole(env, n, o, rs, f);
      && (n in rs'.roles ==> ShowsDocument(rs', env.codec, n, d))
      && (r.Ok? <==> !f.read && (n in rs.roles || f.create == RC.CreateOk))
      && (r.Ok? ==> r.value.arn == UpstreamArn(env, n, rs))
  {
    if n !in rs.roles { RC.CreateThenGet(rs, env.path, n, env.defaultPolicy, "", Int32(o.maxDuration)); }
  }

  lemma UpdateStatusBinds(env: RoleEnv, n: string, o: RoleObject, rs: RoleState, arn: string, subjects: seq<Subject>,
                          f: RoleFaults, d: Document)
    requires RoundTrips(env.codec) && ShowsDocument(rs, env.codec, n, d)
    ensures
      var binds := (o.arn == arn || !f.arnPatch) && !f.bindings && Lands(f.bind);
      ShowsDocument(UpdateStatus(env, n, o, rs, arn, subjects, f).rs, env.codec, n,
                    if binds then Upstream(d, RoleSid(n), env.oidcArn, subjects) else d)
  {
    BindShows(rs, env.codec, env.oidcArn, n, RoleSid(n), subjects, f.bind, d);
  }

  lemma SyncRoleBinds(env: RoleEnv, n: string, o: RoleObject, rs: RoleState, sur: Surroundings, f: RoleFaults,
                      d: Document)
    requires RoundTrips(env.codec) && StartsWith(env, n, rs, d) && o.finalizer
    ensures
      var rs' := SyncRole(env, n, o, rs, sur, f).rs;
      n in rs'.roles ==>
        ShowsDocument(rs', env.codec, n,
                      if ReachesBind(env, n, o, rs, f) && Lands(f.bind)
                      then Upstream(d, RoleSid(n), env.oidcArn, sur.subjects) else d)
  {
    GetOrCreateStarts(env, n, o, rs, f, d);
    GetOrCreateKeeps(env, n, o, rs, f);
    var (rs1, upstream) := GetOrCreateRole(env, n, o, rs, f);
    if upstream.Ok? {
      ListKeeps(rs1, sur.policies.index, n, f.list);
      var (rs2, listed) := RC.ListAttachedPolicies(rs1, sur.policies.index, n, f.list);
      SameReading(rs1, rs2, n);
      if listed.Ok? {
        SyncKeepsRest(rs2, sur.policies, n, o.refs, f.attach, listed.value);
        var rs3 := SyncAttachments(rs2, sur.policies, n, o.refs, listed.value, f.attach);
        SameReading(rs2, rs3, n);
        UpdateStatusBinds(env, n, o, rs3, upstream.value.arn, sur.subjects, f, d);
      }
    }
  }

  /** Wherever a live pass stops, the role has the document it started with, or the one that the bind
      manager's call makes of it, exactly when the pass reached the call and the call landed. */
  lemma LivePassBinds(env: RoleEnv, n: string, o: RoleObject, rs: RoleState, sur: Surroundings, f: RoleFaults,
                      d: Document)
    requires RoundTrips(env.codec) && StartsWith(env, n, rs, d)
    ensures
      var rs' := LivePass(env, n, o, rs, sur, f).rs;
      n in rs'.roles ==>
        ShowsDocument(rs', env.codec, n,
                      if ReachesBind(env, n, o, rs, f) && Lands(f.bind)
                      then Upstream(d, RoleSid(n), env.oidcArn, sur.subjects) else d)
  {
    if o.finalizer || !f.addFinalizer { SyncRoleBinds(env, n, o.(finalizer := true), rs, sur, f, d); }
  }

  // ----- the outcome of a pass under any faults -----

  /** The ARN of the role upstream, or the one it will be created with. */
  function UpstreamArn(env: RoleEnv, n: string, rs: RoleState): string {
    if n in rs.roles then rs.roles[n].arn else rs.prefix + ClientPath(env.path) + n
  }

  /** The role is found or made, and its attachments are listed. */
  predicate Lists(n: string, rs: RoleState, f: RoleFaults) {
    && n != "" && !f.read && !f.list
    && if n in rs.roles then RC.ReadRole(rs, n).Ok? else f.create == RC.CreateOk
  }

  /** The bind call reads a document that parses and, if it edits it, no part of the update fails. */
  ghost predicate BindSucceeds(env: RoleEnv, n: string, rs: RoleState, subjects: seq<Subject>, f: BindFault) {
    && !f.get
    && exists d :: StartsWith(env, n, rs, d) && (Writes(d, RoleSid(n), subjects) ==> f.update == RC.UpdateOk)
  }

  ghost predicate Succeeds(env: RoleEnv, n: string, o: RoleObject, rs: RoleState, sur: Surroundings, f: RoleFaults) {
    && (o.finalizer || !f.addFinalizer) && Lists(n, rs, f) && (o.arn == UpstreamArn(env, n, rs) || !f.arnPatch)
    && !f.bindings && BindSucceeds(env, n, rs, sur.subjects, f.bind)
  }

  /** What the pass leaves in the object: each status field is written as soon as it is known, and what
      fails later does not take it back. */
  ghost function Recorded(env: RoleEnv, n: string, o: RoleObject, rs: RoleState, sur: Surroundings, f: RoleFaults)
    : RoleObject
  {
    if !o.finalizer && f.addFinalizer then o
    else o.(finalizer := true,
            arn := if Lists(n, rs, f) && !f.arnPatch then UpstreamArn(env, n, rs) else o.arn,
            bound := if Succeeds(env, n, o, rs, sur, f) && !f.boundPatch then sur.subjects else o.bound)
  }

  lemma GetOrCreateExactly(env: RoleEnv, n: string, o: RoleObject, rs: RoleState, f: RoleFaults)
    ensures
      var (rs', r) := GetOrCreateRole(env, n, o, rs, f);
      && (r.Ok? <==> !f.read && if n in rs.roles then RC.ReadRole(rs, n).Ok? else f.create == RC.CreateOk)
      && (r.Ok? ==> n in rs'.roles && r == RC.ReadRole(rs', n) && r.value.arn == UpstreamArn(env, n, rs))
      && (r.Ok? ==> forall d :: ShowsDocument(rs', env.codec, n, d) <==> StartsWith(env, n, rs, d))
  {
    if n !in rs.roles { RC.CreateThenGet(rs, env.path, n, env.defaultPolicy, "", Int32(o.maxDuration)); }
  }

  lemma BindSucceedsExactly(env: RoleEnv, n: string, rs: RoleState, subjects: seq<Subject>, f: BindFault)
    requires n in rs.roles && RC.ReadRole(rs, n).Ok? && RoundTrips(env.codec)
    ensures BindRole(rs, env.codec, env.oidcArn, n, RoleSid(n), subjects, f).1.Ok? <==>
              BindSucceeds(env, n, rs, subjects, f)
  {
    var d := env.codec.parse(RC.ReadRole(rs, n).value.trustPolicy);
    if d.Some? && Writes(d.value, RoleSid(n), subjects) && !f.get {
      BindWritesExactly(rs, n, env.codec.marshal(Built(d.value, RoleSid(n), env.oidcArn, subjects)), f.update);
    }
  }

  lemma BindWritesExactly(rs: RoleState, n: string, doc: Bytes, f: RC.UpdateFault)
    requires n in rs.roles && RC.ReadRole(rs, n).Ok? && doc != []
    ensures RC.Update(rs, n, doc, "", 0, f).1.Ok? <==> f == RC.UpdateOk
  {
    RC.UpdateThenGet(rs, n, doc, "", 0, f);
  }

  lemma UpdateStatusExactly(env: RoleEnv, n: string, o: RoleObject, rs: RoleState, arn: string, subjects: seq<Subject>,
                            f: RoleFaults)
    requires n in rs.roles && RC.ReadRole(rs, n).Ok? && RoundTrips(env.codec)
    ensures
      var p := UpdateStatus(env, n, o, rs, arn, subjects, f);
      && (p.ok <==> (o.arn == arn || !f.arnPatch) && !f.bindings && BindSucceeds(env, n, rs, subjects, f.bind))
      && p.obj == Some(o.(arn := if f.arnPatch then o.arn else arn,
                          bound := if p.ok && !f.boundPatch then subjects else o.bound))
  {
    BindSucceedsExactly(env, n, rs, subjects, f.bind);
  }

  lemma SameStart(env: RoleEnv, n: string, a: RoleState, b: RoleState, subjects: seq<Subject>, f: BindFault)
    requires forall d :: StartsWith(env, n, a, d) <==> StartsWith(env, n, b, d)
    ensures BindSucceeds(env, n, a, subjects, f) <==> BindSucceeds(env, n, b, subjects, f)
  {
  }

  lemma SyncRoleExactly(env: RoleEnv, n: string, o: RoleObject, rs: RoleState, sur: Surroundings, f: RoleFaults)
    requires o.finalizer && RoundTrips(env.codec)
    ensures
      var p := SyncRole(env, n, o, rs, sur, f);
      && (p.ok <==> Succeeds(env, n, o, rs, sur, f)) && p.obj == Some(Recorded(env, n, o, rs, sur, f))
  {
    GetOrCreateExactly(env, n, o, rs, f);
    var (rs1, upstream) := GetOrCreateRole(env, n, o, rs, f);
    if upstream.Ok? {
      ListKeeps(rs1, sur.policies.index, n, f.list);
      var (rs2, listed) := RC.ListAttachedPolicies(rs1, sur.policies.index, n, f.list);
      if listed.Ok? {
        SyncKeepsRest(rs2, sur.policies, n, o.refs, f.attach, listed.value);
        var rs3 := SyncAttachments(rs2, sur.policies, n, o.refs, listed.value, f.attach);
        SameReading(rs1, rs3, n);
        UpdateStatusExactly(env, n, o, rs3, upstream.value.arn, sur.subjects, f);
        SameStart(env, n, rs, rs3, sur.subjects, f.bind);
      }
    }
  }

  /** Whatever fails, a live pass returns without error exactly under the stated condition on state and
      faults, and leaves exactly this object. */
  lemma LivePassExactly(env: RoleEnv, n: string, o: RoleObject, rs: RoleState, sur: Surroundings, f: RoleFaults)
    requires RoundTrips(env.codec)
    ensures
      var p := LivePass(env, n, o, rs, sur, f);
      && (p.ok <==> Succeeds(env, n, o, rs, sur, f)) && p.obj == Some(Recorded(env, n, o, rs, sur, f))
  {
    if o.finalizer || !f.addFinalizer { SyncRoleExactly(env, n, o.(finalizer := true), rs, sur, f); }
  }

  /** Whatever fails, a pass over a deleting object returns without error exactly when the role is absent
      or can be read and deleted, and the finalizer, if it is there, can be taken off. A role that was
      absent, or was read and deleted, is gone; the finalizer goes after it. */
  lemma FinalizePassExactly(n: string, o: RoleObject, rs: RoleState, f: RoleFaults)
    ensures
      var p := FinalizePass(n, o, rs, f);
      var gone := !f.read && (n in rs.roles ==> RC.ReadRole(rs, n).Ok? && !f.delete);
      && (p.ok <==> gone && (o.finalizer ==> !f.removeFinalizer))
      && p.rs == (if gone then rs.(roles := rs.roles - {n}) else rs)
      && p.obj == (if !gone || !o.finalizer || f.removeFinalizer then Some(o)
                   else if o.otherFinalizers then Some(o.(finalizer := false)) else None)
  {
    assert n !in rs.roles ==> rs.roles - {n} == rs.roles;
  }

  /** The statements of the default policy, in order, and at most one managed statement. */
  predicate TrustShape(d: Document, d0: Document, n: string) {
    |Labelled(d.statements, RoleSid(n))| <= 1 && Others(d.statements, RoleSid(n)) == Others(d0.statements, RoleSid(n))
  }

  ghost predicate DefaultOk(env: RoleEnv, d0: Document) {
    RoundTrips(env.codec) && env.codec.parse(env.defaultPolicy) == Some(d0)
  }

  lemma {:induction false} BindsKeepShape(d0: Document, n: string, oidcArn: string, calls: seq<seq<Subject>>)
    requires |Labelled(d0.statements, RoleSid(n))| <= 1
    ensures TrustShape(RunBinds(d0, RoleSid(n), oidcArn, calls), d0, n)
  {
    if calls != [] {
      var init, refs := calls[..|calls| - 1], calls[|calls| - 1];
      BindsKeepShape(d0, n, oidcArn, init);
      var before := RunBinds(d0, RoleSid(n), oidcArn, init).statements;
      EditLabelled(before, Managed(RoleSid(n), oidcArn, refs), refs != []);
      EditKeepsOthers(before, Managed(RoleSid(n), oidcArn, refs), refs != []);
    }
  }
}
