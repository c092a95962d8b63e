/** `fake.IamService`: the service object whose maps its methods update in place. Every method is
    tied to the value-level operation of PolicyStore or RoleStore. */
module FakeIam {
  import opened Common
  import opened UrlEscape
  import opened VersionNames
  import opened PolicyStore
  import opened RoleStore
  import SortedNames

  const DEFAULT_MAX_SESSION_DURATION := 3600

  class IamService {
    const policyPrefix: string
    const rolePrefix: string
    var managedPolicies: map<string, ManagedPolicy>
    var policyArnMapping: map<string, string>
    var roles: map<string, Role>
    var attachments: map<string, set<string>>
    var now: nat

    ghost function Policies(): Store
      reads this
    {
      Store(policyPrefix, managedPolicies, policyArnMapping, now)
    }

    ghost function Roles(): RoleState
      reads this
    {
      RoleState(rolePrefix, roles, attachments)
    }

    ghost predicate Valid()
      reads this
    {
      PolicyStore.Valid(Policies())
    }

    constructor (accountId: string)
      ensures Valid() && Policies() == Empty(ArnPrefix(accountId))
      ensures Roles() == RoleState(RolePrefix(accountId), map[], map[])
      ensures policyPrefix == "arn:aws:iam::" + accountId + ":policy"
      ensures rolePrefix == "arn:aws:iam::" + accountId + ":role"
    {
      policyPrefix, rolePrefix := ArnPrefix(accountId), RolePrefix(accountId);
      managedPolicies, policyArnMapping, roles, attachments, now := map[], map[], map[], map[], 0;
    }

    // ----- version maps -----

    /** `policyVersions.Len`. */
    static method VersionCount(versions: Versions) returns (count: nat)
      ensures count == |versions|
    {
      count := 0;
      var rest := versions.Keys;
      while rest != {}
        invariant rest <= versions.Keys && count + |rest| == |versions.Keys|
      {
        var k :| k in rest;
        rest := rest - {k};
        count := count + 1;
      }
    }

    /** `policyVersions.Latest`: scan for a date before the one kept, starting an hour from now. */
    static method LatestVersion(versions: Versions, now: nat) returns (r: Option<PolicyVersion>)
      requires DistinctDates(versions, now)
      ensures r.None? <==> versions == map[]
      ensures r.Some? ==> r.value == versions[Latest(versions)]
    {
      r := None;
      var best := now + DEFAULT_MAX_SESSION_DURATION;
      var rest := versions.Keys;
      ghost var key := "";
      while rest != {}
        invariant rest <= versions.Keys
        invariant r.None? ==> rest == versions.Keys && best >= now
        invariant r.Some? ==> key in versions && r.value == versions[key] && best == versions[key].createDate
        invariant r.Some? ==> forall j :: j in versions.Keys - rest ==> best <= versions[j].createDate
      {
        var k :| k in rest;
        rest := rest - {k};
        if versions[k].createDate < best {
          r, best, key := Some(versions[k]), versions[k].createDate, k;
        }
      }
      if versions != map[] {
        assert forall j :: j in versions ==> j in versions.Keys - rest;
        assert Pair(key, Latest(versions));
      }
    }

    static method NextVersionId(versions: Versions, now: nat) returns (id: Option<string>)
      requires DistinctDates(versions, now)
      ensures id == if versions == map[] then None else Some(NextId(versions))
    {
      var latest := LatestVersion(versions, now);
      if latest.None? { return None; }
      id := Some(VersionName(VersionNumber(latest.value.versionId) + 1));
    }

    /** The Range loop that unsets the first default flag it meets and stops. */
    static method UnsetDefault(versions: Versions) returns (r: Versions)
      requires WellKeyed(versions) && AtMostOneDefault(versions)
      ensures r == ClearDefaults(versions)
    {
      r := versions;
      var rest := versions.Keys;
      while rest != {}
        invariant rest <= versions.Keys
        invariant r == versions && forall j :: j in versions.Keys - rest ==> !versions[j].isDefault
      {
        var k :| k in rest;
        rest := rest - {k};
        if versions[k].isDefault {
          r := versions[versions[k].versionId := versions[k].(isDefault := false)];
          forall j | j in versions && versions[j].isDefault ensures j == k { assert Pair(j, k); }
          return;
        }
      }
      assert forall j :: j in versions ==> j in versions.Keys - rest;
    }

    /** The scan of `GetPolicyVersion`, by id rather than by key. */
    static method FindVersion(versions: Versions, id: string) returns (r: Option<PolicyVersion>)
      requires WellKeyed(versions)
      ensures r == if id in versions then Some(versions[id]) else None
    {
      var rest := versions.Keys;
      while rest != {}
        invariant rest <= versions.Keys && (id in versions ==> id in rest)
      {
        var k :| k in rest;
        rest := rest - {k};
        if versions[k].versionId == id { return Some(versions[k]); }
      }
      r := None;
    }

    /** The tail of `CreatePolicyVersion`: clear the old flag, store the version, move the pointer. */
    static method StoreVersion(mp: ManagedPolicy, version: PolicyVersion) returns (r: ManagedPolicy)
      requires WellKeyed(mp.versions) && AtMostOneDefault(mp.versions) && |mp.versions| < VERSION_LIMIT
      ensures r == AddVersion(mp, version)
    {
      var versions := mp.versions;
      if version.isDefault { versions := UnsetDefault(versions); }
      r := mp.(versions := versions[version.versionId := version]);
      if version.isDefault { r := r.(policy := mp.policy.(defaultVersionId := version.versionId)); }
    }

    // ----- policies -----

    /** `aws.ToString` of an unset path is the empty string. */
    static predicate MatchesPath(p: Policy, pathPrefix: Option<string>) {
      pathPrefix.None? || (if p.path.Some? then p.path.value else "") == pathPrefix.value
    }

    ghost predicate Lists(names: set<string>, pathPrefix: Option<string>, p: Policy)
      reads this
      requires names <= managedPolicies.Keys
    {
      MatchesPath(p, pathPrefix) && exists n :: n in names && managedPolicies[n].policy == p
    }

    method ListPolicies(pathPrefix: Option<string>) returns (policies: seq<Policy>)
      ensures forall p :: p in policies <==> Lists(managedPolicies.Keys, pathPrefix, p)
    {
      policies := [];
      var rest := managedPolicies.Keys;
      while rest != {}
        invariant rest <= managedPolicies.Keys
        invariant forall p :: p in policies <==> Lists(managedPolicies.Keys - rest, pathPrefix, p)
      {
        var n :| n in rest;
        rest := rest - {n};
        var p := managedPolicies[n].policy;
        if MatchesPath(p, pathPrefix) {
          policies := policies + [p];
        }
      }
    }

    method SaveNew(mp: ManagedPolicy)
      modifies this`managedPolicies, this`policyArnMapping, this`now
      ensures Policies() == Insert(old(Policies()), mp)
    {
      managedPolicies := managedPolicies[mp.policy.name := mp];
      policyArnMapping := policyArnMapping[mp.policy.arn := mp.policy.name];
      now := now + 2;
    }

    method Save(name: string, mp: ManagedPolicy)
      modifies this`managedPolicies, this`now
      ensures Policies() == Replace(old(Policies()), name, mp, old(now) + 1)
    {
      managedPolicies := managedPolicies[name := mp];
      now := now + 1;
    }

    method CreatePolicy(name: string, path: Option<string>, doc: Bytes, description: string) returns (r: Result<Policy>)
      requires Valid()
      modifies this`managedPolicies, this`policyArnMapping, this`now
      ensures Valid()
      ensures (Policies(), r) == PolicyStore.CreatePolicy(old(Policies()), name, path, doc, description)
    {
      if name in managedPolicies { return Err(EntityExists); }
      var p := "/";
      if path.Some? { p := path.value; }
      if !ValidPath(p) { return Err(InvalidInput); }
      var policy := Policy(PolicyArn(policyPrefix, p, name), name, path, description, "v1", now);
      var version := PolicyVersion(QueryEscape(doc), "v1", true, now + 1);
      assert ManagedPolicy(map["v1" := version], policy) == NewPolicy(Policies(), name, path, doc, description);
      CreatePolicyKeepsValid(Policies(), name, path, doc, description);
      SaveNew(ManagedPolicy(map["v1" := version], policy));
      r := Ok(policy);
    }

    method CreatePolicyVersion(arn: string, doc: Bytes, setAsDefault: bool) returns (r: Result<PolicyVersion>)
      requires Valid()
      modifies this`managedPolicies, this`now
      ensures Valid()
      ensures (Policies(), r) == PolicyStore.CreatePolicyVersion(old(Policies()), arn, doc, setAsDefault)
    {
      if arn !in policyArnMapping { return Err(NotFound); }
      var name := policyArnMapping[arn];
      if name !in managedPolicies { return Err(Panic); }
      var mp := managedPolicies[name];
      ValidAt(Policies(), name);
      var id := NextVersionId(mp.versions, now);
      if id.None? { return Err(Panic); }
      var version := PolicyVersion(doc, id.value, setAsDefault, now);
      var count := VersionCount(mp.versions);
      if count == VERSION_LIMIT { return Err(LimitExceeded); }
      var stored := StoreVersion(mp, version);
      WithVersionValid(Policies(), name, version);
      Save(name, stored);
      r := Ok(version);
    }

    method DeletePolicy(arn: string) returns (r: Result<()>)
      requires Valid()
      modifies this`managedPolicies, this`policyArnMapping
      ensures Valid()
      ensures (Policies(), r) == PolicyStore.DeletePolicy(old(Policies()), arn)
    {
      if arn !in policyArnMapping { return Err(NotFound); }
      var name := policyArnMapping[arn];
      policyArnMapping := policyArnMapping - {arn};
      managedPolicies := managedPolicies - {name};
      r := Ok(());
    }

    method DeletePolicyVersion(arn: string, id: string) returns (r: Result<()>)
      requires Valid()
      modifies this`managedPolicies
      ensures Valid()
      ensures (Policies(), r) == PolicyStore.DeletePolicyVersion(old(Policies()), arn, id)
    {
      DeletePolicyVersionKeepsValid(Policies(), arn, id);
      if arn !in policyArnMapping { return Err(NotFound); }
      var name := policyArnMapping[arn];
      if name !in managedPolicies { return Err(Panic); }
      var mp := managedPolicies[name];
      if id !in mp.versions { return Err(NotFound); }
      if mp.versions[id].isDefault { return Err(DeleteConflict); }
      managedPolicies := managedPolicies[name := mp.(versions := mp.versions - {id})];
      r := Ok(());
    }

    method GetPolicy(arn: string) returns (r: Result<Policy>)
      ensures r == PolicyStore.GetPolicy(Policies(), arn)
    {
      if arn !in policyArnMapping { return Err(NotFound); }
      if policyArnMapping[arn] !in managedPolicies { return Err(Panic); }
      r := Ok(managedPolicies[policyArnMapping[arn]].policy);
    }

    /** Scans the versions for the id rather than loading the key. */
    method GetPolicyVersion(arn: string, id: string) returns (r: Result<PolicyVersion>)
      requires Valid()
      ensures r == PolicyStore.GetPolicyVersion(Policies(), arn, id)
    {
      if arn !in policyArnMapping { return Err(NotFound); }
      if policyArnMapping[arn] !in managedPolicies { return Err(Panic); }
      var versions := managedPolicies[policyArnMapping[arn]].versions;
      ValidAt(Policies(), policyArnMapping[arn]);
      var found := FindVersion(versions, id);
      r := if found.Some? then Ok(found.value) else Err(NotFound);
    }

    // ----- roles -----

    method UpdateAssumeRolePolicy(name: string, doc: Bytes) returns (r: Result<()>)
      modifies this`roles
      ensures (Roles(), r) == RoleStore.UpdateAssumeRolePolicy(old(Roles()), name, doc)
    {
      if name !in roles { return Err(Panic); }
      roles := roles[name := roles[name].(document := QueryEscape(doc))];
      r := Ok(());
    }

    method UpdateRole(name: string, description: Option<string>, maxSession: Option<int>) returns (r: Result<()>)
      modifies this`roles
      ensures (Roles(), r) == RoleStore.UpdateRole(old(Roles()), name, description, maxSession)
    {
      if name !in roles { return Err(Panic); }
      var role := roles[name];
      if description.Some? { role := role.(description := description); }
      if maxSession.Some? { role := role.(maxSession := maxSession); }
      roles := roles[name := role];
      r := Ok(());
    }

    method GetRole(name: string) returns (r: Result<Role>)
      ensures r == RoleStore.GetRole(Roles(), name)
    {
      if name !in roles { return Err(NotFound); }
      r := Ok(roles[name]);
    }

    method CreateRole(name: string, doc: Option<Bytes>, path: Option<string>, description: Option<string>,
                      maxSession: Option<int>)
      returns (r: Result<Role>)
      modifies this`roles
      ensures (Roles(), r) == RoleStore.CreateRole(old(Roles()), name, doc, path, description, maxSession)
    {
      if name in roles { return Err(EntityExists); }
      if doc.None? { return Err(InvalidInput); }
      var p := "/";
      if path.Some? {
        if path.value != p { p := path.value; }
        if !ValidPath(p) { return Err(InvalidInput); }
      }
      var role := Role(rolePrefix + p + name, name, path, description, maxSession, QueryEscape(doc.value));
      roles := roles[name := role];
      r := Ok(role);
    }

    method DeleteRole(name: string) returns (r: Result<()>)
      modifies this`roles
      ensures (Roles(), r) == RoleStore.DeleteRole(old(Roles()), name)
    {
      if name !in roles { return Err(NotFound); }
      roles := roles - {name};
      r := Ok(());
    }

    method AttachRolePolicy(name: string, arn: string) returns (r: Result<()>)
      modifies this`attachments
      ensures (Roles(), r) == RoleStore.AttachRolePolicy(old(Roles()), policyArnMapping, name, arn)
    {
      if name !in attachments { attachments := attachments[name := {}]; }
      var held := attachments[name];
      assert attachments == old(attachments)[name := held];
      if arn !in policyArnMapping { return Err(NotFound); }
      if arn in held { return Err(LimitExceeded); }
      attachments := attachments[name := held + {arn}];
      assert attachments == old(attachments)[name := held + {arn}];
      r := Ok(());
    }

    method DetachRolePolicy(name: string, arn: string) returns (r: Result<()>)
      modifies this`attachments
      ensures (Roles(), r) == RoleStore.DetachRolePolicy(old(Roles()), name, arn)
    {
      if name !in attachments { return Err(NotFound); }
      if arn !in attachments[name] { return Err(NotFound); }
      attachments := attachments[name := attachments[name] - {arn}];
      assert attachments == old(attachments)[name := old(attachments)[name] - {arn}];
      r := Ok(());
    }

    method ListAttachedRolePolicies(name: string) returns (r: Result<seq<AttachedPolicy>>)
      modifies this`attachments
      ensures (Roles(), r) == RoleStore.ListAttachedRolePolicies(old(Roles()), policyArnMapping, name)
    {
      if name !in roles { return Err(NotFound); }
      if name !in attachments { attachments := attachments[name := {}]; }
      assert attachments == old(attachments)[name := attachments[name]];
      var arns := SortedNames.List(attachments[name]);
      var shown: seq<AttachedPolicy> := [];
      for i := 0 to |arns|
        invariant shown == Shown(policyArnMapping, arns[..i])
      {
        assert arns[..i + 1][..i] == arns[..i];
        if arns[i] in policyArnMapping { shown := shown + [AttachedPolicy(policyArnMapping[arns[i]], arns[i])]; }
      }
      assert arns[..|arns|] == arns;
      r := Ok(shown);
    }
  }
}
