/** The IamRole reconciler: one pass over one object, with every call allowed to fail. */
module RoleReconciler {
  import opened Common
  import opened RoleStore
  import opened TrustPolicy
  import opened BindManager
  import opened RoleAttachments
  import RC = RoleClient
  import Sid = SidLabel

  /** An IamRole object, cluster-scoped, so with an empty namespace. */
  datatype RoleObject = RoleObject(refs: seq<string>, maxDuration: int, finalizer: bool, otherFinalizers: bool,
                                   deleting: bool, arn: string, bound: seq<Subject>)

  /** What the reconciler is built with. */
  datatype RoleEnv = RoleEnv(path: string, defaultPolicy: Bytes, oidcArn: string, codec: Codec)

  datatype RoleFaults = RoleFaults(get: bool, addFinalizer: bool, read: bool, create: RC.CreateFault, list: bool,
                                   attach: AttachFaults,
                                   arnPatch: bool, bindings: bool, bind: BindFault, boundPatch: bool,
                                   delete: bool, removeFinalizer: bool)

  const NO_ROLE_FAULTS :=
    RoleFaults(false, false, false, RC.CreateOk, false, NO_ATTACH_FAULTS, false, false, NO_BIND_FAULT, false, false,
      false)

  /** What a pass reads of the rest of the cluster: the policies, and the subjects of the bindings that
      reference the role. */
  datatype Surroundings = Surroundings(policies: Policies, subjects: seq<Subject>)

  datatype RolePass = RolePass(obj: Option<RoleObject>, rs: RoleState, ok: bool)

  /** The conversion to a signed 32-bit integer. */
  function Int32(x: int): (r: int)
    ensures -0x8000_0000 <= r < 0x8000_0000 && (r - x) % 0x1_0000_0000 == 0
    ensures -0x8000_0000 <= x < 0x8000_0000 ==> r == x
  {
    (x + 0x8000_0000) % 0x1_0000_0000 - 0x8000_0000
  }

  /** The label of a role's managed statement; the role's namespace is empty. */
  function RoleSid(n: string): string {
    Sid.SidLabel(n, "")
  }

  function GetOrCreateRole(env: RoleEnv, n: string, o: RoleObject, rs: RoleState, f: RoleFaults)
    : (RoleState, Result<RC.IamRole>)
  {
    var r := RC.Get(rs, n, f.read);
    if r.Ok? || r.error != NotFound then (rs, r)
    else RC.Create(rs, env.path, n, env.defaultPolicy, "", Int32(o.maxDuration), f.create)
  }

  /** The trust policy: the subjects of the bindings, then the status. A failed status patch is logged. */
  function UpdateTrust(env: RoleEnv, n: string, o: RoleObject, rs: RoleState, subjects: seq<Subject>, f: RoleFaults)
    : RolePass
  {
    if f.bindings then RolePass(Some(o), rs, false)
    else
      var (rs', r) := BindRole(rs, env.codec, env.oidcArn, n, RoleSid(n), subjects, f.bind);
      if r.Err? then RolePass(Some(o), rs', false)
      else RolePass(Some(if f.boundPatch then o else o.(bound := subjects)), rs', true)
  }

  /** The status ARN, when it is out of date, then the trust policy. */
  function UpdateStatus(env: RoleEnv, n: string, o: RoleObject, rs: RoleState, arn: string, subjects: seq<Subject>,
                        f: RoleFaults): RolePass
  {
    if o.arn != arn && f.arnPatch then RolePass(Some(o), rs, false)
    else UpdateTrust(env, n, o.(arn := arn), rs, subjects, f)
  }

  ghost function SyncRole(env: RoleEnv, n: string, o: RoleObject, rs: RoleState, sur: Surroundings, f: RoleFaults)
    : RolePass
  {
    var (rs1, upstream) := GetOrCreateRole(env, n, o, rs, f);
    if upstream.Err? then RolePass(Some(o), rs1, false)
    else
      var (rs2, listed) := RC.ListAttachedPolicies(rs1, sur.policies.index, n, f.list);
      if listed.Err? then RolePass(Some(o), rs2, false)
      else
        var rs3 := SyncAttachments(rs2, sur.policies, n, o.refs, listed.value, f.attach);
        UpdateStatus(env, n, o, rs3, upstream.value.arn, sur.subjects, f)
  }

  ghost function LivePass(env: RoleEnv, n: string, o: RoleObject, rs: RoleState, sur: Surroundings, f: RoleFaults)
    : RolePass
  {
    if !o.finalizer && f.addFinalizer then RolePass(Some(o), rs, false)
    else SyncRole(env, n, o.(finalizer := true), rs, sur, f)
  }

  function Released(o: RoleObject): Option<RoleObject> {
    if o.otherFinalizers then Some(o.(finalizer := false)) else None
  }

  /** The upstream role goes first, even for an object that lost the finalizer; then the finalizer. */
  function FinalizePass(n: string, o: RoleObject, rs: RoleState, f: RoleFaults): RolePass {
    var r := RC.Get(rs, n, f.read);
    if r.Err? && r.error != NotFound then RolePass(Some(o), rs, false)
    else
      var (rs', d) := if r.Err? then (rs, Ok(())) else RC.Delete(rs, n, f.delete);
      if d.Err? then RolePass(Some(o), rs', false)
      else if !o.finalizer then RolePass(Some(o), rs', true)
      else if f.removeFinalizer then RolePass(Some(o), rs', false)
      else RolePass(Released(o), rs', true)
  }

  ghost function ReconcileRole(env: RoleEnv, n: string, o: RoleObject, rs: RoleState, sur: Surroundings, f: RoleFaults)
    : RolePass
  {
    if o.deleting then FinalizePass(n, o, rs, f) else LivePass(env, n, o, rs, sur, f)
  }

  // ----- what every pass keeps -----

  /** A bind call changes nothing but the document of its role. */
  lemma BindKeepsRoles(rs: RoleState, codec: Codec, oidcArn: string, n: string, sid: string, refs: seq<Subject>,
                       f: BindFault)
    ensures
      var rs' := BindRole(rs, codec, oidcArn, n, sid, refs, f).0;
      && rs'.roles.Keys == rs.roles.Keys && rs'.roles - {n} == rs.roles - {n} && rs'.attachments == rs.attachments
           && rs'.prefix == rs.prefix
      && (n in rs.roles ==> rs'.roles[n] == rs.roles[n].(document := rs'.roles[n].document))
  {
    var rs' := BindRole(rs, codec, oidcArn, n, sid, refs, f).0;
    assert rs'.roles - {n} == rs.roles - {n};
  }

  /** Whatever fails, a pass touches the role of its own name only. */
  ghost predicate OnlyRole(rs: RoleState, rs': RoleState, n: string) {
    rs'.roles - {n} == rs.roles - {n} && rs'.attachments - {n} == rs.attachments - {n} && rs'.prefix == rs.prefix
  }

  lemma GetOrCreateKeeps(env: RoleEnv, n: string, o: RoleObject, rs: RoleState, f: RoleFaults)
    ensures
      var (rs', r) := GetOrCreateRole(env, n, o, rs, f);
      OnlyRole(rs, rs', n) && rs'.attachments == rs.attachments
      && rs.roles.Keys <= rs'.roles.Keys && (r.Ok? ==> n in rs'.roles && r == RC.ReadRole(rs', n))
  {
    var rs' := GetOrCreateRole(env, n, o, rs, f).0;
    assert rs'.roles - {n} == rs.roles - {n};
  }

  lemma UpdateTrustKeeps(env: RoleEnv, n: string, o: RoleObject, rs: RoleState, subjects: seq<Subject>, f: RoleFaults)
    ensures
      var p := UpdateTrust(env, n, o, rs, subjects, f);
      && p.obj.Some? && p.obj.value.(bound := o.bound) == o && OnlyRole(rs, p.rs, n)
      && p.rs.roles.Keys == rs.roles.Keys && p.rs.attachments == rs.attachments
  {
    BindKeepsRoles(rs, env.codec, env.oidcArn, n, RoleSid(n), subjects, f.bind);
  }

  lemma ListKeeps(rs: RoleState, index: map<string, string>, n: string, fails: bool)
    ensures
      var (rs', r) := RC.ListAttachedPolicies(rs, index, n, fails);
      rs'.roles == rs.roles && OnlyRole(rs, rs', n) && Attached(rs', n) == Attached(rs, n)
      && (r.Ok? ==> n in rs'.attachments && r.value == ShownAttachments(rs', index, n))
  {
    var rs' := RC.ListAttachedPolicies(rs, index, n, fails).0;
    assert rs'.attachments - {n} == rs.attachments - {n};
  }

  lemma OnlyRoleTrans(a: RoleState, b: RoleState, c: RoleState, n: string)
    requires OnlyRole(a, b, n) && OnlyRole(b, c, n)
    ensures OnlyRole(a, c, n)
  {
  }

  /** A live pass keeps the object's identity and desired state, touches its own role only and deletes
      none; it creates one only under the finalizer. */
  ghost predicate LiveKeeps(n: string, o: RoleObject, rs: RoleState, p: RolePass) {
    && OnlyRole(rs, p.rs, n) && rs.roles.Keys <= p.rs.roles.Keys
    && p.obj.Some? && p.obj.value.(arn := o.arn, bound := o.bound, finalizer := o.finalizer) == o
    && (o.finalizer ==> p.obj.value.finalizer)
    && (n in p.rs.roles && n !in rs.roles ==> p.obj.value.finalizer)
  }

  lemma SyncRoleKeeps(env: RoleEnv, n: string, o: RoleObject, rs: RoleState, sur: Surroundings, f: RoleFaults)
    requires o.finalizer
    ensures LiveKeeps(n, o, rs, SyncRole(env, n, o, rs, sur, f))
  {
    GetOrCreateKeeps(env, n, o, rs, f);
    var (rs1, upstream) := GetOrCreateRole(env, n, o, rs, f);
    if upstream.Ok? {
      ListKeeps(rs1, sur.policies.index, n, f.list);
      var (rs2, listed) := RC.ListAttachedPolicies(rs1, sur.policies.index, n, f.list);
      OnlyRoleTrans(rs, rs1, rs2, n);
      if listed.Ok? {
        SyncKeepsRest(rs2, sur.policies, n, o.refs, f.attach, listed.value);
        var rs3 := SyncAttachments(rs2, sur.policies, n, o.refs, listed.value, f.attach);
        OnlyRoleTrans(rs, rs2, rs3, n);
        UpdateTrustKeeps(env, n, o.(arn := upstream.value.arn), rs3, sur.subjects, f);
        OnlyRoleTrans(rs, rs3, UpdateStatus(env, n, o, rs3, upstream.value.arn, sur.subjects, f).rs, n);
      }
    }
  }

  lemma LivePassKeeps(env: RoleEnv, n: string, o: RoleObject, rs: RoleState, sur: Surroundings, f: RoleFaults)
    ensures LiveKeeps(n, o, rs, LivePass(env, n, o, rs, sur, f))
  {
    if o.finalizer || !f.addFinalizer { SyncRoleKeeps(env, n, o.(finalizer := true), rs, sur, f); }
  }

  /** A pass over a deleting object creates no role, and gives up the finalizer only when the role is
      gone. */
  lemma FinalizePassKeeps(n: string, o: RoleObject, rs: RoleState, f: RoleFaults)
    ensures
      var p := FinalizePass(n, o, rs, f);
      && OnlyRole(rs, p.rs, n) && p.rs.roles.Keys <= rs.roles.Keys
      && (p.ok ==> n !in p.rs.roles) && (n in p.rs.roles ==> p.rs == rs)
      && (if p.obj.None? then o.finalizer && n !in p.rs.roles
          else p.obj.value == o || (o.finalizer && p.obj.value == o.(finalizer := false) && n !in p.rs.roles))
  {
    var p := FinalizePass(n, o, rs, f);
    assert p.rs.roles - {n} == rs.roles - {n};
  }
}
