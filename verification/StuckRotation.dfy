/** A policy whose next version name is that of its default version, as a failed version delete leaves
    it: from then on no rotation of it succeeds. */
module StuckRotation {
  import opened Common
  import opened UrlEscape
  import opened VersionNames
  import opened PolicyStore
  import opened PolicyClient
  import opened VersionRotation
  import opened UpstreamPolicies

  /** The oldest version gives the name of the newest, so the newest is overwritten and the oldest stays. */
  lemma OverwriteKeepsClash(mp: ManagedPolicy, doc: Bytes, clock: nat)
    requires VersionsValid(mp.versions, clock) && |mp.versions| < VERSION_LIMIT && Clashes(mp)
    ensures
      var added := AddVersion(mp, PolicyVersion(doc, NextId(mp.versions), true, clock));
      && Clashes(added) && added.policy == mp.policy && added.versions.Keys == mp.versions.Keys + {NextId(mp.versions)}
  {
    var oldest, id := Latest(mp.versions), NextId(mp.versions);
    VersionNameParses(VersionNumber(oldest) + 1, VersionNumber(oldest));
    assert oldest != id;
    var vs := AddVersion(mp, PolicyVersion(doc, id, true, clock)).versions;
    assert oldest in vs && vs[oldest].createDate == mp.versions[oldest].createDate;
    assert IsOldest(vs, oldest);
    var k := Latest(vs);
    assert Pair(k, oldest) && k in vs;
    assert k != id by { assert vs[oldest].createDate < clock; }
    assert k == oldest;
  }

  /** Every rotation of such a policy fails, whatever the faults, and leaves it such a policy; the new
      document becomes the default one unless the policy is full. */
  lemma RotationFails(s: Store, n: string, policy: IamPolicy, doc: Bytes, f: UpdateFault)
    requires Invariant(s) && n in s.policies && Clashes(s.policies[n])
    requires policy.arn == s.policies[n].policy.arn && policy.versionId == s.policies[n].policy.defaultVersionId
    ensures
      var (s', r) := Rotate(s, policy, doc, f);
      && r.Err? && n in s'.policies && Clashes(s'.policies[n]) && s'.policies[n].policy == s.policies[n].policy
      && SameBut(s, s', n) && s'.clock >= s.clock
      && (|s.policies[n].versions| < VERSION_LIMIT ==> Stores(s', n, doc))
  {
    IndexAt(s, n);
    ValidAt(s, n);
    var mp := s.policies[n];
    if |mp.versions| < VERSION_LIMIT {
      OverwriteKeepsClash(mp, doc, s.clock);
      var version := PolicyVersion(doc, NextId(mp.versions), true, s.clock);
      NewVersionIsDefault(mp, version);
      assert CreatePolicyVersion(s, policy.arn, doc, true) == (WithVersion(s, n, version), Ok(version));
      assert DeletePolicyVersion(WithVersion(s, n, version), policy.arn, policy.versionId)
          == (WithVersion(s, n, version), Err(DeleteConflict));
    }
  }

  // ----- over runs -----

  /** Nobody but the client touches versions; any call may fail anywhere. */
  predicate VersionsByClient(op: ClientOp) {
    NamesSlashFree(op) && (op.Direct? ==> op.op.DirectCreate? || op.op.DirectDelete?)
  }

  /** The policy of the name, if it is one created before `since`, is stuck. */
  ghost predicate StuckSince(s: Store, n: string, since: nat) {
    && Invariant(s) && since <= s.clock
    && (n in s.policies && s.policies[n].policy.createDate < since ==> Clashes(s.policies[n]))
  }

  lemma UpdateKeepsStuck(s: Store, parse: Parser, arn: string, doc: Bytes, f: UpdateFault, n: string, since: nat)
    requires StuckSince(s, n, since)
    ensures StuckSince(Update(s, parse, arn, doc, f).0, n, since)
  {
    UpdateKeeps(s, parse, arn, doc, f);
    UpdateCases(s, parse, arn, doc, f);
    var policy := Read(s, arn);
    if Update(s, parse, arn, doc, f).0 != s {
      var m := s.arns[arn];
      ArnAt(s, arn);
      IndexAt(s, m);
      RotateReads(s, m, policy.value, doc, f);
      if m == n {
        if Clashes(s.policies[n]) { RotationFails(s, n, policy.value, doc, f); }
      } else {
        assert Marked(n);
      }
    }
  }

  lemma DirectKeepsStuck(s: Store, d: StoreOp, n: string, since: nat)
    requires StuckSince(s, n, since) && VersionsByClient(Direct(d))
    ensures StuckSince(ApplyStoreOp(s, d), n, since)
  {
    match d
    case DirectCreate(name, path, doc, description) => CreatePolicyKeeps(s, name, path, doc, description);
    case DirectDelete(arn) => DeletePolicyKeeps(s, arn);
  }

  lemma StepKeepsStuck(cs: ClientState, path: string, parse: Parser, op: ClientOp, n: string, since: nat)
    requires StuckSince(cs.store, n, since) && VersionsByClient(op)
    ensures StuckSince(Step(cs, path, parse, op).store, n, since)
  {
    match op
    case ClientCreate(name, doc, description, f) => CreatePolicyKeeps(cs.store, name, Some(path), doc, description);
    case ClientUpdate(arn, doc, f) => UpdateKeepsStuck(cs.store, parse, arn, doc, f, n, since);
    case ClientGet(_, _) =>
    case ClientDelete(arn, _) => DeletePolicyKeeps(cs.store, arn);
    case Direct(d) => DirectKeepsStuck(cs.store, d, n, since);
    case Evict(_) =>
  }

  lemma {:induction false} RunKeepsStuck(cs: ClientState, path: string, parse: Parser, ops: seq<ClientOp>, n: string,
                                         since: nat)
    requires StuckSince(cs.store, n, since) && forall op :: op in ops ==> VersionsByClient(op)
    ensures StuckSince(Run(cs, path, parse, ops).store, n, since)
  {
    if ops != [] {
      RunKeepsStuck(cs, path, parse, ops[..|ops| - 1], n, since);
      StepKeepsStuck(Run(cs, path, parse, ops[..|ops| - 1]), path, parse, ops[|ops| - 1], n, since);
    }
  }

  /** For good: after any run from a state in which a policy is stuck, an update of that policy, as long as
      it is not deleted and made again, succeeds only when it has nothing to write. */
  lemma NoRotationEverSucceeds(cs: ClientState, path: string, parse: Parser, ops: seq<ClientOp>, n: string, doc: Bytes,
                               f: UpdateFault)
    requires Invariant(cs.store) && n in cs.store.policies && Clashes(cs.store.policies[n])
    requires cs.store.policies[n].policy.createDate < cs.store.clock && forall op :: op in ops ==> VersionsByClient(op)
    ensures
      var s := Run(cs, path, parse, ops).store;
      n in s.policies && s.policies[n].policy.createDate < cs.store.clock ==>
        var arn := s.policies[n].policy.arn;
        var (s', r) := Update(s, parse, arn, doc, f);
        && Clashes(s.policies[n])
        && (r.Ok? ==> s' == s && Read(s, arn) == r && parse(r.value.document) == parse(doc))
  {
    RunKeepsStuck(cs, path, parse, ops, n, cs.store.clock);
    var s := Run(cs, path, parse, ops).store;
    if n in s.policies && s.policies[n].policy.createDate < cs.store.clock {
      var arn := s.policies[n].policy.arn;
      UpdateCases(s, parse, arn, doc, f);
      IndexAt(s, n);
      if Read(s, arn).Ok? { RotationFails(s, n, Read(s, arn).value, doc, f); }
    }
  }

  /** Yet the refused rotation did store its document: retrying it finds nothing to change and returns
      without error, when the raw document reads as one that parses the same. */
  lemma RetryReturnsOk(s: Store, parse: Parser, n: string, doc: Bytes)
    requires Invariant(s) && n in s.policies && Clashes(s.policies[n]) && |s.policies[n].versions| < VERSION_LIMIT
    requires QueryUnescape(doc).Some? && parse(QueryUnescape(doc).value) == parse(doc) && parse(doc).Some?
    requires
      var was := Read(s, s.policies[n].policy.arn);
      was.Ok? && parse(was.value.document).Some? && parse(was.value.document) != parse(doc)
    ensures
      var arn := s.policies[n].policy.arn;
      var (s1, r1) := Update(s, parse, arn, doc, UpdateOk);
      var (s2, r2) := Update(s1, parse, arn, doc, UpdateOk);
      r1.Err? && s1 != s && r2.Ok? && s2 == s1 && r2.value.document == QueryUnescape(doc).value
  {
    var arn := s.policies[n].policy.arn;
    IndexAt(s, n);
    var policy := Read(s, arn).value;
    ChangedDocumentRotates(s, parse, arn, policy, doc);
    RotationFails(s, n, policy, doc, UpdateOk);
    var s1 := Rotate(s, policy, doc, UpdateOk).0;
    RotateKeeps(s, policy, doc, UpdateOk);
    ReadStored(s1, n, doc);
  }
}
