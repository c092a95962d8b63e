/** The IamPolicy reconciler: one pass over one object, with every call allowed to fail. */
module PolicyReconciler {
  import opened Common
  import opened PolicyClient
  import Doc = PolicyDocument
  import opened SortedNames

  /** `md5Sum`, taken as collision-free: the digest of a document determines the document. */
  datatype Digest = Digest(of: Bytes)

  type Spec = seq<Doc.SpecStatement>

  /** An IamPolicy object; its other finalizers keep a deleted object in place. */
  datatype PolicyObject = PolicyObject(spec: Spec, description: string, finalizer: bool, otherFinalizers: bool,
                                       deleting: bool, arn: string, md5: Option<Digest>, attachedRoles: seq<string>)

  /** What the reconciler is built with: the client's path, and the JSON encoder and decoder. */
  datatype Env = Env(path: string, parse: Parser, marshal: Doc.Document -> Bytes)

  function Serialized(env: Env, o: PolicyObject): Bytes {
    env.marshal(Doc.Serialize(o.spec))
  }

  /** Which calls of a pass fail. A failed call has no effect; a call that took effect but whose
      answer was lost is a failure of the next call. */
  datatype Faults = Faults(get: bool, addFinalizer: bool, read: GetFault, create: CreateFault, createPatch: bool,
                           update: UpdateFault, updatePatch: bool, list: bool, syncPatch: bool,
                           delete: bool, removeFinalizer: bool)

  const NO_FAULTS := Faults(false, false, GetOk, CreateOk, false, UpdateOk, false, false, false, false, false)

  /** The object afterwards (None when its last finalizer went), the client, and whether the pass
      returned without error. */
  datatype Pass = Pass(obj: Option<PolicyObject>, cs: ClientState, ok: bool)

  function Options(n: string, o: PolicyObject): GetOptions {
    if o.arn != "" then GetOptions(o.arn, "") else GetOptions("", n)
  }

  function Acknowledge(o: PolicyObject, arn: string, d: Bytes): PolicyObject {
    o.(arn := arn, md5 := Some(Digest(d)))
  }

  /** Get or create upstream; `arn` is that of the policy found or made. */
  datatype Found = Found(obj: PolicyObject, cs: ClientState, arn: Option<string>)

  function FindOrCreate(env: Env, n: string, o: PolicyObject, cs: ClientState, f: Faults): Found {
    var (cs1, r) := Get(cs, env.path, Options(n, o), f.read);
    if r.Ok? then Found(o, cs1, Some(r.value.arn))
    else if r.error != NotFound then Found(o, cs1, None)
    else
      var d := Serialized(env, o);
      var (cs2, c) := Create(cs1, env.path, n, d, o.description, f.create);
      if c.Err? then Found(o, cs2, None)
      else Found(if f.createPatch then o else Acknowledge(o, c.value.arn, d), cs2, Some(c.value.arn))
  }

  /** The md5 gate. It looks at the status the pass started with, not at the one just patched. */
  ghost function UpdateIfChanged(env: Env, o: PolicyObject, found: Found, f: Faults): Pass
    requires found.arn.Some?
  {
    var d := Serialized(env, o);
    if o.md5 == Some(Digest(d)) then Pass(Some(found.obj), found.cs, true)
    else
      var (s', u) := Update(found.cs.store, env.parse, found.arn.value, d, f.update);
      var cs' := found.cs.(store := s');
      if u.Err? || f.updatePatch then Pass(Some(found.obj), cs', false)
      else Pass(Some(Acknowledge(found.obj, u.value.arn, d)), cs', true)
  }

  ghost function SyncUpstream(env: Env, n: string, o: PolicyObject, cs: ClientState, f: Faults): Pass {
    var found := FindOrCreate(env, n, o, cs, f);
    if found.arn.None? then Pass(Some(found.obj), found.cs, false) else UpdateIfChanged(env, o, found, f)
  }

  /** Writes the sorted referencing roles when they differ, as sets, from the recorded ones. */
  ghost function SyncRoles(o: PolicyObject, referenced: set<string>, patchFails: bool): (PolicyObject, bool) {
    if (set r | r in o.attachedRoles) == referenced then (o, true)
    else if patchFails then (o, false)
    else (o.(attachedRoles := SortedList(referenced)), true)
  }

  /** A failed list is only logged, and then counts as an empty one. */
  ghost function ThenSyncRoles(u: Pass, referenced: set<string>, f: Faults): Pass {
    if !u.ok || u.obj.None? then u
    else
      var (o', ok) := SyncRoles(u.obj.value, if f.list then {} else referenced, f.syncPatch);
      Pass(Some(o'), u.cs, ok)
  }

  ghost function SyncBoth(env: Env, n: string, o: PolicyObject, cs: ClientState, referenced: set<string>, f: Faults)
    : Pass
  {
    ThenSyncRoles(SyncUpstream(env, n, o, cs, f), referenced, f)
  }

  ghost function LivePass(env: Env, n: string, o: PolicyObject, cs: ClientState, referenced: set<string>, f: Faults)
    : Pass
  {
    if !o.finalizer && f.addFinalizer then Pass(Some(o), cs, false)
    else SyncBoth(env, n, o.(finalizer := true), cs, referenced, f)
  }

  function Released(o: PolicyObject): Option<PolicyObject> {
    if o.otherFinalizers then Some(o.(finalizer := false)) else None
  }

  function FinalizePass(env: Env, n: string, o: PolicyObject, cs: ClientState, f: Faults): Pass {
    if !o.finalizer then Pass(Some(o), cs, true)
    else
      var (cs1, r) := Get(cs, env.path, Options(n, o), f.read);
      if r.Err? && r.error != NotFound then Pass(Some(o), cs1, false)
      else
        var (s', d) := if r.Err? then (cs1.store, Ok(())) else Delete(cs1.store, r.value.arn, f.delete);
        var cs' := cs1.(store := s');
        if d.Err? || f.removeFinalizer then Pass(Some(o), cs', false)
        else Pass(Released(o), cs', true)
  }

  ghost function ReconcileObject(env: Env, n: string, o: PolicyObject, cs: ClientState, referenced: set<string>,
                                 f: Faults): Pass
  {
    if o.deleting then FinalizePass(env, n, o, cs, f) else LivePass(env, n, o, cs, referenced, f)
  }
}
