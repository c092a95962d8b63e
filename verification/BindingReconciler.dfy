/** The IamRoleBinding reconciler: an ownership protocol on the role-arn annotation of service
    accounts. */
module BindingReconciler {
  import opened Common

  datatype Key = Key(namespace: string, name: string)

  /** An IamRoleBinding: the role and account it asks for, and those its status records. */
  datatype Binding = Binding(role: string, account: string, finalizer: bool, otherFinalizers: bool, deleting: bool,
                             boundAccount: string, boundArn: string)

  /** Service accounts by their role-arn annotation, and the status ARN of each IamRole. */
  datatype Cluster = Cluster(accounts: map<Key, Option<string>>, roles: map<string, string>)

  datatype Faults = Faults(get: bool, addFinalizer: bool, readBound: bool, release: bool, readRole: bool,
                           readAccount: bool,
                           annotate: bool, status: bool, removeFinalizer: bool)

  const NO_FAULTS := Faults(false, false, false, false, false, false, false, false, false)

  /** The binding afterwards (None when its last finalizer went), the cluster, and the outcome. */
  datatype Pass = Pass(binding: Option<Binding>, cluster: Cluster, result: Result<()>)

  function BoundKey(k: Key, b: Binding): Key { Key(k.namespace, b.boundAccount) }

  function ReferencedKey(k: Key, b: Binding): Key { Key(k.namespace, b.account) }

  function Annotate(c: Cluster, account: Key, arn: Option<string>): Cluster {
    c.(accounts := c.accounts[account := arn])
  }

  /** `finalize`: takes the annotation off the recorded account when it is the recorded ARN. A missing
      account is fine. */
  function Release(c: Cluster, k: Key, b: Binding, f: Faults): (Cluster, Result<()>) {
    if b.boundAccount == "" then (c, Ok(()))
    else if f.readBound then (c, Err(ServiceFault))
    else if BoundKey(k, b) in c.accounts && c.accounts[BoundKey(k, b)] == Some(b.boundArn) then
      if f.release then (c, Err(ServiceFault)) else (Annotate(c, BoundKey(k, b), None), Ok(()))
    else (c, Ok(()))
  }

  /** `bindServiceAccount`: annotates an account without annotation; another ARN is a conflict. */
  function BindServiceAccount(c: Cluster, k: Key, b: Binding, arn: string, f: Faults): (Cluster, Result<()>) {
    if f.readAccount then (c, Err(ServiceFault))
    else if ReferencedKey(k, b) !in c.accounts then (c, Err(NotFound))
    else
      var existing := c.accounts[ReferencedKey(k, b)];
      if existing.Some? && existing.value != arn then (c, Err(Conflict))
      else if existing.Some? then (c, Ok(()))
      else if f.annotate then (c, Err(ServiceFault))
      else (Annotate(c, ReferencedKey(k, b), Some(arn)), Ok(()))
  }

  /** Whether the status records an account other than the one asked for. */
  predicate HandsOver(b: Binding) {
    b.boundAccount != "" && b.boundAccount != b.account
  }

  function Bound(b: Binding, arn: string): Binding {
    b.(boundAccount := b.account, boundArn := arn)
  }

  function BindRole(c: Cluster, k: Key, b: Binding, f: Faults): Pass {
    if f.readRole then Pass(Some(b), c, Err(ServiceFault))
    else if b.role !in c.roles then Pass(Some(b), c, Err(NotFound))
    else if c.roles[b.role] == "" then Pass(Some(b), c, Err(InvalidRoleStatus))
    else
      var arn := c.roles[b.role];
      var (c', r) := BindServiceAccount(c, k, b, arn, f);
      if r.Err? then Pass(Some(b), c', r)
      else if b == Bound(b, arn) then Pass(Some(b), c', Ok(()))
      else if f.status then Pass(Some(b), c', Err(ServiceFault))
      else Pass(Some(Bound(b, arn)), c', Ok(()))
  }

  function LivePass(c: Cluster, k: Key, b: Binding, f: Faults): Pass {
    if !b.finalizer && f.addFinalizer then Pass(Some(b), c, Err(ServiceFault))
    else
      var b1 := b.(finalizer := true);
      var (c1, r) := if HandsOver(b) then Release(c, k, b, f) else (c, Ok(()));
      if r.Err? then Pass(Some(b1), c1, r) else BindRole(c1, k, b1, f)
  }

  function Released(b: Binding): Option<Binding> {
    if b.otherFinalizers then Some(b.(finalizer := false)) else None
  }

  function FinalizePass(c: Cluster, k: Key, b: Binding, f: Faults): Pass {
    if !b.finalizer then Pass(Some(b), c, Ok(()))
    else
      var (c1, r) := Release(c, k, b, f);
      if r.Err? then Pass(Some(b), c1, r)
      else if f.removeFinalizer then Pass(Some(b), c1, Err(ServiceFault))
      else Pass(Released(b), c1, Ok(()))
  }

  function ReconcileBinding(c: Cluster, k: Key, b: Binding, f: Faults): Pass {
    if b.deleting then FinalizePass(c, k, b, f) else LivePass(c, k, b, f)
  }

  // ----- ownership -----

  /** How a step may change an annotation: set an absent one to the ARN of the referenced role, or
      remove the recorded ARN from the recorded account. It never turns one ARN into another. */
  predicate OwnedChange(c: Cluster, k: Key, b: Binding, account: Key, before: Option<string>, after: Option<string>) {
    || after == before
    || (before.None? && after.Some? && account == ReferencedKey(k, b) && !b.deleting
        && b.role in c.roles && after.value == c.roles[b.role] && after.value != "")
    || (before.Some? && after.None? && account == BoundKey(k, b) && before.value == b.boundArn && b.boundAccount != ""
        && (b.deleting || b.boundAccount != b.account))
  }

  ghost predicate Owned(c: Cluster, c': Cluster, k: Key, b: Binding) {
    && c'.accounts.Keys == c.accounts.Keys && c'.roles == c.roles
    && forall a :: a in c.accounts ==> OwnedChange(c, k, b, a, c.accounts[a], c'.accounts[a])
  }

  /** Annotation ownership: whatever fails, a pass changes annotations only as their owner may. */
  lemma PassOwnsItsChanges(c: Cluster, k: Key, b: Binding, f: Faults)
    ensures Owned(c, ReconcileBinding(c, k, b, f).cluster, k, b)
  {
    if !b.deleting {
      var b1 := b.(finalizer := true);
      var c1 := if HandsOver(b) then Release(c, k, b, f).0 else c;
      assert c1.accounts.Keys == c.accounts.Keys && c1.roles == c.roles;
      BindRoleOwns(c1, k, b1, f);
      var c2 := BindRole(c1, k, b1, f).cluster;
      forall a | a in c.accounts ensures OwnedChange(c, k, b, a, c.accounts[a], c2.accounts[a]) {
        if a == ReferencedKey(k, b) { assert c1.accounts[a] == c.accounts[a]; }
      }
    }
  }

  lemma BindRoleOwns(c: Cluster, k: Key, b: Binding, f: Faults)
    ensures
      var c' := BindRole(c, k, b, f).cluster;
      && c'.accounts.Keys == c.accounts.Keys && c'.roles == c.roles
      && forall a :: a in c.accounts ==>
           c'.accounts[a] == c.accounts[a]
           || (a == ReferencedKey(k, b) && c.accounts[a].None? && b.role in c.roles && c.roles[b.role] != ""
               && c'.accounts[a] == Some(c.roles[b.role]))
  {
  }

  // ----- what a pass achieves -----

  /** The binding can take the account: the role has an ARN, and the account carries none or that one. */
  predicate Bindable(c: Cluster, k: Key, b: Binding) {
    && b.role in c.roles && c.roles[b.role] != "" && ReferencedKey(k, b) in c.accounts
    && (c.accounts[ReferencedKey(k, b)].None? || c.accounts[ReferencedKey(k, b)] == Some(c.roles[b.role]))
  }

  predicate IsBound(c: Cluster, k: Key, b: Binding) {
    && Bindable(c, k, b) && c.accounts[ReferencedKey(k, b)] == Some(c.roles[b.role])
    && b.finalizer && b.boundAccount == b.account && b.boundArn == c.roles[b.role]
  }

  /** A faultless pass succeeds exactly when the binding can take the account, and then the account is
      annotated and recorded, the account handed over no longer carries the recorded ARN, and the next
      pass changes nothing. */
  lemma LivePassSucceedsExactly(c: Cluster, k: Key, b: Binding)
    ensures
      var p := LivePass(c, k, b, NO_FAULTS);
      && (p.result.Ok? <==> Bindable(c, k, b))
      && p.binding.Some?
           && p.binding.value.(boundAccount := b.boundAccount, boundArn := b.boundArn, finalizer := b.finalizer) == b
      && (p.result.Ok? ==>
            && IsBound(p.cluster, k, p.binding.value)
            && LivePass(p.cluster, k, p.binding.value, NO_FAULTS) == p)
      && (HandsOver(b) && BoundKey(k, b) in c.accounts ==> p.cluster.accounts[BoundKey(k, b)] != Some(b.boundArn))
  {
    var b1 := b.(finalizer := true);
    var c1 := if HandsOver(b) then Release(c, k, b, NO_FAULTS).0 else c;
    HandoverLeavesReference(c, k, b);
    assert Bindable(c1, k, b1) <==> Bindable(c, k, b);
    BindRoleSucceedsExactly(c1, k, b1);
  }

  lemma HandoverLeavesReference(c: Cluster, k: Key, b: Binding)
    ensures
      var c1 := if HandsOver(b) then Release(c, k, b, NO_FAULTS).0 else c;
      && c1.roles == c.roles && c1.accounts.Keys == c.accounts.Keys
      && (ReferencedKey(k, b) in c.accounts ==> c1.accounts[ReferencedKey(k, b)] == c.accounts[ReferencedKey(k, b)])
      && (HandsOver(b) && BoundKey(k, b) in c.accounts ==> c1.accounts[BoundKey(k, b)] != Some(b.boundArn))
  {
  }

  lemma BindRoleSucceedsExactly(c: Cluster, k: Key, b: Binding)
    requires b.finalizer
    ensures
      var p := BindRole(c, k, b, NO_FAULTS);
      && (p.result.Ok? <==> Bindable(c, k, b))
      && p.binding.Some? && p.binding.value.(boundAccount := b.boundAccount, boundArn := b.boundArn) == b
      && (p.result.Ok? ==>
           IsBound(p.cluster, k, p.binding.value) && BindRole(p.cluster, k, p.binding.value, NO_FAULTS) == p)
      && (p.result.Err? ==> p.cluster == c && p.binding.value == b)
      && (forall a :: a in c.accounts && a != ReferencedKey(k, b) ==>
           a in p.cluster.accounts && p.cluster.accounts[a] == c.accounts[a])
  {
  }

  /** A conflict leaves the annotation and the record as they were. */
  lemma ConflictKeepsRecord(c: Cluster, k: Key, b: Binding, f: Faults)
    requires LivePass(c, k, b, f).result == Err(Conflict)
    ensures
      var p := LivePass(c, k, b, f);
      && p.binding == Some(b.(finalizer := true))
      && ReferencedKey(k, b) in c.accounts && b.role in c.roles
      && c.accounts[ReferencedKey(k, b)].Some? && c.accounts[ReferencedKey(k, b)].value != c.roles[b.role]
      && p.cluster.accounts[ReferencedKey(k, b)] == c.accounts[ReferencedKey(k, b)]
  {
  }

  // ----- when a pass annotates, and when it loses the record of it -----

  predicate Carries(c: Cluster, namespace: string, account: string, arn: string) {
    Key(namespace, account) in c.accounts && c.accounts[Key(namespace, account)] == Some(arn)
  }

  /** The release fails on the recorded account: it cannot be read, or the recorded ARN cannot be removed. */
  predicate ReleaseFails(c: Cluster, k: Key, b: Binding, f: Faults) {
    b.boundAccount != "" && (f.readBound || (f.release && Carries(c, k.namespace, b.boundAccount, b.boundArn)))
  }

  predicate HandoverFails(c: Cluster, k: Key, b: Binding, f: Faults) {
    HandsOver(b) && ReleaseFails(c, k, b, f)
  }

  /** The role with an ARN and the account asked for are read. */
  predicate Reads(c: Cluster, k: Key, b: Binding, f: Faults) {
    && !f.readRole && b.role in c.roles && c.roles[b.role] != ""
    && !f.readAccount && Key(k.namespace, b.account) in c.accounts
  }

  predicate Starts(b: Binding, f: Faults) { b.finalizer || !f.addFinalizer }

  /** A live pass gets to the annotate call of an account without annotation, and the call succeeds. */
  predicate WillAnnotate(c: Cluster, k: Key, b: Binding, f: Faults) {
    && !b.deleting && Starts(b, f) && !HandoverFails(c, k, b, f)
    && Reads(c, k, b, f) && c.accounts[Key(k.namespace, b.account)].None? && !f.annotate
  }

  /** The status patch fails, and the status does not record the account and the ARN already. */
  predicate LosesStatus(c: Cluster, b: Binding, f: Faults)
    requires b.role in c.roles
  {
    f.status && !(b.boundAccount == b.account && b.boundArn == c.roles[b.role])
  }

  /** A pass puts an annotation on an account without one exactly under that guard, and then on the
      account asked for, with the role's ARN; the binding then records it unless the patch is lost. */
  lemma AnnotatesExactly(c: Cluster, k: Key, b: Binding, f: Faults)
    ensures
      var p := ReconcileBinding(c, k, b, f);
      && ((exists a :: a in c.accounts && a in p.cluster.accounts && c.accounts[a].None? && p.cluster.accounts[a].Some?)
            <==> WillAnnotate(c, k, b, f))
      && (WillAnnotate(c, k, b, f) ==>
            && ReferencedKey(k, b) in p.cluster.accounts
            && p.cluster.accounts[ReferencedKey(k, b)] == Some(c.roles[b.role]) && p.binding.Some?
            && (p.result.Err? <==> LosesStatus(c, b, f))
            && p.binding.value == if LosesStatus(c, b, f) then b.(finalizer := true)
                                  else Bound(b.(finalizer := true), c.roles[b.role]))
  {
    PassOwnsItsChanges(c, k, b, f);
    var p, a := ReconcileBinding(c, k, b, f), ReferencedKey(k, b);
    if WillAnnotate(c, k, b, f) {
      var c1 := if HandsOver(b) then Release(c, k, b, f).0 else c;
      assert c1.roles == c.roles && c1.accounts[a] == c.accounts[a];
      assert a in p.cluster.accounts && p.cluster.accounts[a].Some?;
    }
  }

  // ----- the whole outcome of a pass -----

  /** The account asked for carries another ARN than the role's. */
  predicate Conflicts(c: Cluster, k: Key, b: Binding, f: Faults) {
    && Reads(c, k, b, f) && c.accounts[Key(k.namespace, b.account)].Some?
    && !Carries(c, k.namespace, b.account, c.roles[b.role])
  }

  /** The role is there but has no ARN yet. */
  predicate LacksArn(c: Cluster, b: Binding, f: Faults) {
    !f.readRole && b.role in c.roles && c.roles[b.role] == ""
  }

  /** Role and account can be brought together and recorded. */
  predicate Binds(c: Cluster, k: Key, b: Binding, f: Faults) {
    && Reads(c, k, b, f) && !Conflicts(c, k, b, f)
    && (c.accounts[Key(k.namespace, b.account)].None? ==> !f.annotate)
    && !LosesStatus(c, b, f)
  }

  /** The recorded ARN is taken off this account. */
  predicate Removes(c: Cluster, k: Key, b: Binding, f: Faults, a: Key) {
    && b.boundAccount != "" && !f.readBound && !f.release
    && a == Key(k.namespace, b.boundAccount) && Carries(c, k.namespace, b.boundAccount, b.boundArn)
  }

  lemma ReleaseExactly(c: Cluster, k: Key, b: Binding, f: Faults)
    ensures
      var (c', r) := Release(c, k, b, f);
      && (r.Ok? <==> !ReleaseFails(c, k, b, f)) && (r.Err? ==> r.error == ServiceFault)
      && c'.roles == c.roles && c'.accounts.Keys == c.accounts.Keys
      && forall a :: a in c.accounts ==> c'.accounts[a] == if Removes(c, k, b, f, a) then None else c.accounts[a]
  {
  }

  /** The part after the handover. */
  ghost predicate BindOutcome(c: Cluster, k: Key, b: Binding, f: Faults, p: Pass) {
    && (p.result.Ok? <==> Binds(c, k, b, f)) && (p.result == Err(Conflict) <==> Conflicts(c, k, b, f))
    && (p.result == Err(InvalidRoleStatus) <==> LacksArn(c, b, f))
    && p.binding == Some(if Binds(c, k, b, f) then b.(boundAccount := b.account, boundArn := c.roles[b.role]) else b)
    && p.cluster.roles == c.roles && p.cluster.accounts.Keys == c.accounts.Keys
    && forall a :: a in c.accounts ==>
         var sets := Reads(c, k, b, f) && a == Key(k.namespace, b.account) && c.accounts[a].None? && !f.annotate;
         p.cluster.accounts[a] == if sets then Some(c.roles[b.role]) else c.accounts[a]
  }

  lemma BindRoleExactly(c: Cluster, k: Key, b: Binding, f: Faults)
    ensures BindOutcome(c, k, b, f, BindRole(c, k, b, f))
  {
  }

  /** When a live pass succeeds, what it leaves of the binding and of every annotation, and which
      failures are a conflict or a role without an ARN. */
  ghost predicate LiveOutcome(c: Cluster, k: Key, b: Binding, f: Faults, p: Pass) {
    var bound := !HandoverFails(c, k, b, f) && Binds(c, k, b, f);
    && (p.result.Ok? <==> Starts(b, f) && bound)
    && (p.result == Err(Conflict) <==> Starts(b, f) && !HandoverFails(c, k, b, f) && Conflicts(c, k, b, f))
    && (p.result == Err(InvalidRoleStatus) <==> Starts(b, f) && !HandoverFails(c, k, b, f) && LacksArn(c, b, f))
    && p.binding == Some(
         if !Starts(b, f) then b
         else if !bound then b.(finalizer := true)
         else b.(finalizer := true, boundAccount := b.account, boundArn := c.roles[b.role]))
    && p.cluster.roles == c.roles && p.cluster.accounts.Keys == c.accounts.Keys
    && forall a :: a in c.accounts ==>
         p.cluster.accounts[a] ==
           if WillAnnotate(c, k, b, f) && a == Key(k.namespace, b.account) then Some(c.roles[b.role])
           else if Starts(b, f) && HandsOver(b) && Removes(c, k, b, f, a) then None
           else c.accounts[a]
  }

  /** The handover does not touch the account asked for. */
  lemma AfterHandover(c: Cluster, c1: Cluster, k: Key, b: Binding, f: Faults, p: Pass)
    requires !b.deleting && Starts(b, f) && !HandoverFails(c, k, b, f)
    requires c1.roles == c.roles && c1.accounts.Keys == c.accounts.Keys
    requires forall a :: a in c.accounts ==>
      c1.accounts[a] == if HandsOver(b) && Removes(c, k, b, f, a) then None else c.accounts[a]
    requires BindOutcome(c1, k, b.(finalizer := true), f, p)
    ensures LiveOutcome(c, k, b, f, p)
  {
  }

  /** Whatever the state and the faults. */
  lemma LivePassExactly(c: Cluster, k: Key, b: Binding, f: Faults)
    requires !b.deleting
    ensures LiveOutcome(c, k, b, f, LivePass(c, k, b, f))
  {
    if Starts(b, f) {
      var (c1, r) := if HandsOver(b) then Release(c, k, b, f) else (c, Ok(()));
      ReleaseExactly(c, k, b, f);
      if r.Ok? {
        BindRoleExactly(c1, k, b.(finalizer := true), f);
        AfterHandover(c, c1, k, b, f, BindRole(c1, k, b.(finalizer := true), f));
      }
    }
  }

  /** Exactly what a pass over a deleting binding does, whatever fails. */
  lemma FinalizePassExactly(c: Cluster, k: Key, b: Binding, f: Faults)
    ensures
      var p := FinalizePass(c, k, b, f);
      && (p.result.Ok? <==> !b.finalizer || (!ReleaseFails(c, k, b, f) && !f.removeFinalizer))
      && p.binding == (if !b.finalizer || p.result.Err? then Some(b)
                       else if b.otherFinalizers then Some(b.(finalizer := false)) else None)
      && p.cluster.roles == c.roles && p.cluster.accounts.Keys == c.accounts.Keys
      && forall a :: a in c.accounts ==>
           p.cluster.accounts[a] == if b.finalizer && Removes(c, k, b, f, a) then None else c.accounts[a]
  {
    ReleaseExactly(c, k, b, f);
  }
}
