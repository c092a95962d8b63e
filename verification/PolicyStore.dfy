/** The managed-policy half of the fake IAM service: the policy map, the version map of each
    policy and the ARN index, as values, with the invariants its operations keep. */
module PolicyStore {
  import opened Common
  import opened UrlEscape
  import opened VersionNames
  import opened Runs

  datatype PolicyVersion = PolicyVersion(document: Bytes, versionId: string, isDefault: bool, createDate: nat)

  /** `path` is None when the caller gave none; the ARN then uses "/" but the field stays unset. */
  datatype Policy = Policy(arn: string, name: string, path: Option<string>, description: string,
                           defaultVersionId: string, createDate: nat)

  type Versions = map<string, PolicyVersion>

  datatype ManagedPolicy = ManagedPolicy(versions: Versions, policy: Policy)

  /** `prefix` starts every ARN of the account (see `ArnPrefix`); `clock` is the next instant
      `time.Now` will return and never repeats a value. */
  datatype Store = Store(prefix: string, policies: map<string, ManagedPolicy>, arns: map<string, string>, clock: nat)

  const VERSION_LIMIT := 5

  function Empty(prefix: string): Store {
    Store(prefix, map[], map[], 0)
  }

  // ----- ARNs -----

  function PathOr(path: Option<string>): string {
    if path.Some? then path.value else "/"
  }

  predicate ValidPath(path: string) {
    |path| > 0 && path[0] == '/' && path[|path| - 1] == '/'
  }

  predicate SlashFree(name: string) {
    forall i :: 0 <= i < |name| ==> name[i] != '/'
  }

  function ArnPrefix(account: string): string {
    "arn:aws:iam::" + account + ":policy"
  }

  function PolicyArn(prefix: string, path: string, name: string): string {
    prefix + path + name
  }

  /** For slash-free names the ARN determines the path and the name: the last slash ends the path. */
  lemma ArnInjective(prefix: string, p: string, n: string, q: string, m: string)
    requires ValidPath(p) && ValidPath(q) && SlashFree(n) && SlashFree(m)
    ensures PolicyArn(prefix, p, n) == PolicyArn(prefix, q, m) <==> p == q && n == m
  {
    if PolicyArn(prefix, p, n) == PolicyArn(prefix, q, m) {
      assert (prefix + p + n)[|prefix|..] == p + n;
      assert (prefix + q + m)[|prefix|..] == q + m;
      LastSlash(p, n, q, m);
      LastSlash(q, m, p, n);
      assert (p + n)[..|p|] == p && (p + n)[|p|..] == n && (q + m)[..|q|] == q && (q + m)[|q|..] == m;
    }
  }

  lemma LastSlash(p: string, n: string, q: string, m: string)
    requires ValidPath(p) && SlashFree(m) && p + n == q + m
    ensures |p| <= |q|
  {
    assert (p + n)[|p| - 1] == '/';
  }

  /** Without the restriction two different policies share one ARN. */
  lemma ArnCollision(prefix: string)
    ensures PolicyArn(prefix, "/a/", "b/c") == PolicyArn(prefix, "/a/b/", "c")
  {
    assert "/a/" + "b/c" == "/a/b/" + "c";
    assert prefix + "/a/" + "b/c" == prefix + ("/a/" + "b/c");
    assert prefix + "/a/b/" + "c" == prefix + ("/a/b/" + "c");
  }

  // ----- versions -----

  predicate IsOldest(vs: Versions, k: string) {
    k in vs && forall j :: j in vs ==> vs[k].createDate <= vs[j].createDate
  }

  /** `Latest()` compares with Before, so it returns the version created first. */
  ghost function Latest(vs: Versions): (k: string)
    requires vs != map[]
    ensures IsOldest(vs, k)
  {
    OldestExists(vs, vs.Keys);
    assert exists k :: IsOldest(vs, k) by {
      var k :| k in vs.Keys && forall j :: j in vs.Keys ==> vs[k].createDate <= vs[j].createDate;
      assert IsOldest(vs, k);
    }
    var k :| IsOldest(vs, k);
    k
  }

  lemma {:induction false} OldestExists(vs: Versions, keys: set<string>)
    requires keys <= vs.Keys && keys != {}
    ensures exists k :: k in keys && forall j :: j in keys ==> vs[k].createDate <= vs[j].createDate
  {
    var x :| x in keys;
    var rest := keys - {x};
    if rest != {} {
      OldestExists(vs, rest);
      var k :| k in rest && forall j :: j in rest ==> vs[k].createDate <= vs[j].createDate;
      assert forall j :: j in keys ==> j == x || j in rest;
      var best := if vs[x].createDate <= vs[k].createDate then x else k;
      assert forall j :: j in keys ==> vs[best].createDate <= vs[j].createDate;
    } else {
      assert keys == {x};
    }
  }

  /** The number in a version name such as "v12". */
  function VersionNumber(id: string): int {
    if id == "" then 0 else Atoi(id[1..])
  }

  /** The name given to the next version: one more than the number of `Latest()`. */
  ghost function NextId(vs: Versions): string
    requires vs != map[]
  {
    VersionName(VersionNumber(vs[Latest(vs)].versionId) + 1)
  }

  function ClearDefaults(vs: Versions): (r: Versions)
    ensures r.Keys == vs.Keys && |r| == |vs|
  {
    var r := map k | k in vs :: vs[k].(isDefault := false);
    assert r.Keys == vs.Keys && |r| == |r.Keys| && |vs| == |vs.Keys|;
    r
  }

  // ----- operations -----

  function CreatePolicy(s: Store, name: string, path: Option<string>, doc: Bytes, description: string)
    : (r: (Store, Result<Policy>))
    ensures r.0.prefix == s.prefix
  {
    if name in s.policies then (s, Err(EntityExists))
    else if !ValidPath(PathOr(path)) then (s, Err(InvalidInput))
    else
      var mp := NewPolicy(s, name, path, doc, description);
      (Insert(s, mp), Ok(mp.policy))
  }

  function NewPolicy(s: Store, name: string, path: Option<string>, doc: Bytes, description: string): ManagedPolicy {
    ManagedPolicy(
      map["v1" := PolicyVersion(QueryEscape(doc), "v1", true, s.clock + 1)],
      Policy(PolicyArn(s.prefix, PathOr(path), name), name, path, description, "v1", s.clock))
  }

  /** The new policy is stored under its name, and the index entry of its ARN is overwritten. */
  function Insert(s: Store, mp: ManagedPolicy): Store {
    s.(policies := s.policies[mp.policy.name := mp],
       arns := s.arns[mp.policy.arn := mp.policy.name],
       clock := s.clock + 2)
  }

  function Replace(s: Store, name: string, mp: ManagedPolicy, clock: nat): Store {
    s.(policies := s.policies[name := mp], clock := clock)
  }

  ghost function CreatePolicyVersion(s: Store, arn: string, doc: Bytes, setDefault: bool)
    : (r: (Store, Result<PolicyVersion>))
    ensures r.0.prefix == s.prefix
  {
    if arn !in s.arns then (s, Err(NotFound))
    else
      var name := s.arns[arn];
      if name !in s.policies || s.policies[name].versions == map[] then (s, Err(Panic))
      else
        var mp := s.policies[name];
        if |mp.versions| == VERSION_LIMIT then (s, Err(LimitExceeded))
        else
          var version := PolicyVersion(doc, NextId(mp.versions), setDefault, s.clock);
          (WithVersion(s, name, version), Ok(version))
  }

  function WithVersion(s: Store, name: string, version: PolicyVersion): Store
    requires name in s.policies
  {
    Replace(s, name, AddVersion(s.policies[name], version), s.clock + 1)
  }

  function AddVersion(mp: ManagedPolicy, version: PolicyVersion): ManagedPolicy {
    var base := if version.isDefault then ClearDefaults(mp.versions) else mp.versions;
    ManagedPolicy(
      if |mp.versions| < VERSION_LIMIT then base[version.versionId := version] else mp.versions,
      if version.isDefault then mp.policy.(defaultVersionId := version.versionId) else mp.policy)
  }

  function DeletePolicy(s: Store, arn: string): (r: (Store, Result<()>))
    ensures r.0.prefix == s.prefix
  {
    if arn !in s.arns then (s, Err(NotFound))
    else (s.(policies := s.policies - {s.arns[arn]}, arns := s.arns - {arn}), Ok(()))
  }

  function DeletePolicyVersion(s: Store, arn: string, id: string): (r: (Store, Result<()>))
    ensures r.0.prefix == s.prefix
  {
    if arn !in s.arns then (s, Err(NotFound))
    else
      var name := s.arns[arn];
      if name !in s.policies then (s, Err(Panic))
      else
        var mp := s.policies[name];
        if id !in mp.versions then (s, Err(NotFound))
        else if mp.versions[id].isDefault then (s, Err(DeleteConflict))
        else (Replace(s, name, mp.(versions := mp.versions - {id}), s.clock), Ok(()))
  }

  function GetPolicy(s: Store, arn: string): Result<Policy> {
    if arn !in s.arns then Err(NotFound)
    else if s.arns[arn] !in s.policies then Err(Panic)
    else Ok(s.policies[s.arns[arn]].policy)
  }

  function GetPolicyVersion(s: Store, arn: string, id: string): Result<PolicyVersion> {
    if arn !in s.arns then Err(NotFound)
    else if s.arns[arn] !in s.policies then Err(Panic)
    else
      var vs := s.policies[s.arns[arn]].versions;
      if id in vs then Ok(vs[id]) else Err(NotFound)
  }

  // ----- what holds of every version map, whatever the callers do -----

  predicate WellKeyed(vs: Versions) {
    forall k :: k in vs ==> vs[k].versionId == k
  }

  /** Marks the pair of keys a proof looks at; like `Marked`, always true. */
  predicate Pair(j: string, k: string) { true }

  ghost predicate DistinctDates(vs: Versions, clock: nat) {
    && (forall k :: k in vs ==> vs[k].createDate < clock)
    && (forall j, k {:trigger Pair(j, k)} :: Pair(j, k) && j in vs && k in vs && j != k ==>
         vs[j].createDate != vs[k].createDate)
  }

  ghost predicate AtMostOneDefault(vs: Versions) {
    forall j, k {:trigger Pair(j, k)} :: Pair(j, k) && j in vs && k in vs && vs[j].isDefault && vs[k].isDefault ==>
      j == k
  }

  ghost predicate VersionsValid(vs: Versions, clock: nat) {
    WellKeyed(vs) && DistinctDates(vs, clock) && AtMostOneDefault(vs) && |vs| <= VERSION_LIMIT
  }

  ghost predicate Valid(s: Store) {
    forall n {:trigger Marked(n)} :: Marked(n) && n in s.policies ==>
      s.policies[n].policy.name == n && VersionsValid(s.policies[n].versions, s.clock)
  }

  // ----- the stronger invariants -----

  /** Exactly one version carries the default flag, and the policy points at it. */
  predicate DefaultPointer(mp: ManagedPolicy) {
    && mp.policy.defaultVersionId in mp.versions
    && forall k :: k in mp.versions ==> (mp.versions[k].isDefault <==> k == mp.policy.defaultVersionId)
  }

  ghost predicate Pointers(s: Store) {
    forall n {:trigger Marked(n)} :: Marked(n) && n in s.policies ==> DefaultPointer(s.policies[n])
  }

  predicate Indexed(s: Store, n: string, p: Policy) {
    p.name == n && p.arn in s.arns && s.arns[p.arn] == n
  }

  /** The ARN index and the policy map describe the same policies. */
  ghost predicate Bijection(s: Store) {
    && (forall n {:trigger Marked(n)} :: Marked(n) && n in s.policies ==> Indexed(s, n, s.policies[n].policy))
    && (forall a {:trigger Marked(a)} :: Marked(a) && a in s.arns ==>
         s.arns[a] in s.policies && s.policies[s.arns[a]].policy.arn == a)
  }

  predicate HasArnOf(prefix: string, n: string, p: Policy) {
    SlashFree(n) && ValidPath(PathOr(p.path)) && p.arn == PolicyArn(prefix, PathOr(p.path), n)
  }

  ghost predicate Addressed(s: Store) {
    forall n {:trigger Marked(n)} :: Marked(n) && n in s.policies ==> HasArnOf(s.prefix, n, s.policies[n].policy)
  }

  ghost predicate Invariant(s: Store) {
    Valid(s) && Bijection(s) && Addressed(s) && Pointers(s)
  }

  lemma ValidAt(s: Store, n: string)
    requires Valid(s) && n in s.policies
    ensures s.policies[n].policy.name == n && VersionsValid(s.policies[n].versions, s.clock)
  {
    assert Marked(n);
  }

  lemma IndexAt(s: Store, n: string)
    requires Bijection(s) && n in s.policies
    ensures Indexed(s, n, s.policies[n].policy) && (Addressed(s) ==> HasArnOf(s.prefix, n, s.policies[n].policy))
  {
    assert Marked(n);
  }

  lemma ArnAt(s: Store, a: string)
    requires Bijection(s) && a in s.arns
    ensures s.arns[a] in s.policies && s.policies[s.arns[a]].policy.arn == a
  {
    assert Marked(a);
  }

  lemma PointerAt(s: Store, n: string)
    requires Pointers(s) && n in s.policies
    ensures DefaultPointer(s.policies[n])
  {
    assert Marked(n);
  }

  lemma VersionOne()
    ensures VersionName(1) == "v1" && VersionNumber("v1") == 1
  {
    VersionNameParses(1, 1);
    assert Decimal(1) == "1";
  }

  lemma NextIdNumber(vs: Versions)
    requires vs != map[] && WellKeyed(vs) && Numbered(vs)
    ensures VersionNumber(NextId(vs)) == VersionNumber(Latest(vs)) + 1
    ensures NextId(vs) == VersionName(VersionNumber(Latest(vs)) + 1)
  {
    VersionNameParses(VersionNumber(Latest(vs)) + 1, 0);
  }

  /** Every name is the print-out of a positive number. */
  predicate Numbered(vs: Versions) {
    forall k :: k in vs ==> VersionNumber(k) >= 1 && k == VersionName(VersionNumber(k))
  }

  // ----- each change keeps the version maps well formed -----

  lemma ValidForever(s: Store, clock: nat)
    requires Valid(s) && s.clock <= clock
    ensures Valid(s.(clock := clock))
  {
    forall n | n in s.policies ensures VersionsValid(s.policies[n].versions, clock) {
      ValidAt(s, n);
    }
  }

  lemma PutVersion(vs: Versions, version: PolicyVersion)
    requires VersionsValid(vs, version.createDate) && |vs| < VERSION_LIMIT
    requires version.isDefault ==> forall k :: k in vs ==> !vs[k].isDefault
    ensures VersionsValid(vs[version.versionId := version], version.createDate + 1)
  {
    var after := vs[version.versionId := version];
    assert |after| <= |vs| + 1 by {
      assert after.Keys == vs.Keys + {version.versionId};
      assert |after| == |after.Keys| && |vs| == |vs.Keys|;
    }
  }

  lemma ClearDefaultsValid(vs: Versions, clock: nat)
    requires VersionsValid(vs, clock)
    ensures VersionsValid(ClearDefaults(vs), clock)
  {
  }

  /** Adding a version keeps the map well formed for every flag, name and map. */
  lemma AddVersionValid(mp: ManagedPolicy, version: PolicyVersion)
    requires VersionsValid(mp.versions, version.createDate) && |mp.versions| < VERSION_LIMIT
    ensures VersionsValid(AddVersion(mp, version).versions, version.createDate + 1)
  {
    if version.isDefault { ClearDefaultsValid(mp.versions, version.createDate); }
    PutVersion(if version.isDefault then ClearDefaults(mp.versions) else mp.versions, version);
  }

  lemma DropVersionValid(vs: Versions, id: string, clock: nat)
    requires VersionsValid(vs, clock) && id in vs
    ensures VersionsValid(vs - {id}, clock)
  {
    var r := vs - {id};
    assert r.Keys == vs.Keys - {id};
    assert |r| == |r.Keys| && |vs| == |vs.Keys|;
  }

  lemma InsertValid(s: Store, mp: ManagedPolicy)
    requires Valid(s) && VersionsValid(mp.versions, s.clock + 2)
    ensures Valid(Insert(s, mp))
  {
    ValidForever(s, s.clock + 2);
  }

  lemma ReplaceValid(s: Store, name: string, mp: ManagedPolicy, clock: nat)
    requires Valid(s) && s.clock <= clock && VersionsValid(mp.versions, clock) && mp.policy.name == name
    ensures Valid(Replace(s, name, mp, clock))
  {
    ValidForever(s, clock);
  }

  lemma FirstVersionValid(version: PolicyVersion)
    ensures VersionsValid(map[version.versionId := version], version.createDate + 1)
  {
    var m := map[version.versionId := version];
    assert m.Keys == {version.versionId};
    assert |m| == |m.Keys|;
  }

  lemma CreatePolicyKeepsValid(s: Store, name: string, path: Option<string>, doc: Bytes, description: string)
    requires Valid(s)
    ensures Valid(CreatePolicy(s, name, path, doc, description).0)
  {
    var mp := NewPolicy(s, name, path, doc, description);
    FirstVersionValid(mp.versions["v1"]);
    InsertValid(s, mp);
  }

  lemma CreatePolicyVersionKeepsValid(s: Store, arn: string, doc: Bytes, setDefault: bool)
    requires Valid(s)
    ensures Valid(CreatePolicyVersion(s, arn, doc, setDefault).0)
  {
    if CreatePolicyVersion(s, arn, doc, setDefault).1.Ok? {
      ValidAt(s, s.arns[arn]);
      WithVersionValid(s, s.arns[arn], CreatePolicyVersion(s, arn, doc, setDefault).1.value);
    }
  }

  lemma DeletePolicyVersionKeepsValid(s: Store, arn: string, id: string)
    requires Valid(s)
    ensures Valid(DeletePolicyVersion(s, arn, id).0)
  {
    if DeletePolicyVersion(s, arn, id).1.Ok? {
      ValidAt(s, s.arns[arn]);
      DropVersionValid(s.policies[s.arns[arn]].versions, id, s.clock);
    }
  }

  // ----- each operation keeps the index and the default pointer -----

  /** A new policy keeps the index a bijection exactly when its ARN was not in use. */
  lemma InsertBijection(s: Store, mp: ManagedPolicy)
    requires Bijection(s) && mp.policy.name !in s.policies
    ensures Bijection(Insert(s, mp)) <==> mp.policy.arn !in s.arns
  {
    var arn, s' := mp.policy.arn, Insert(s, mp);
    if arn in s.arns {
      var other := s.arns[arn];
      ArnAt(s, arn);
      assert Marked(other) && !Indexed(s', other, s'.policies[other].policy);
    }
  }

  lemma CreatePolicyBijection(s: Store, name: string, path: Option<string>, doc: Bytes, description: string)
    requires Bijection(s)
    requires CreatePolicy(s, name, path, doc, description).1.Ok?
    ensures Bijection(CreatePolicy(s, name, path, doc, description).0)
            <==> PolicyArn(s.prefix, PathOr(path), name) !in s.arns
  {
    InsertBijection(s, NewPolicy(s, name, path, doc, description));
  }

  lemma SlashFreeArnIsUnused(s: Store, name: string, path: string)
    requires Bijection(s) && Addressed(s) && SlashFree(name) && ValidPath(path)
    ensures PolicyArn(s.prefix, path, name) in s.arns
            <==> name in s.policies && PathOr(s.policies[name].policy.path) == path
  {
    var arn := PolicyArn(s.prefix, path, name);
    if arn in s.arns {
      var n := s.arns[arn];
      ArnAt(s, arn);
      IndexAt(s, n);
      ArnInjective(s.prefix, path, name, PathOr(s.policies[n].policy.path), n);
    }
    if name in s.policies { IndexAt(s, name); }
  }

  lemma CreatePolicyKeeps(s: Store, name: string, path: Option<string>, doc: Bytes, description: string)
    requires Invariant(s) && SlashFree(name)
    ensures Invariant(CreatePolicy(s, name, path, doc, description).0)
  {
    CreatePolicyKeepsValid(s, name, path, doc, description);
    if CreatePolicy(s, name, path, doc, description).1.Ok? {
      SlashFreeArnIsUnused(s, name, PathOr(path));
      CreatePolicyBijection(s, name, path, doc, description);
      InsertKeepsRest(s, NewPolicy(s, name, path, doc, description));
    }
  }

  lemma InsertKeepsRest(s: Store, mp: ManagedPolicy)
    requires Addressed(s) && Pointers(s) && DefaultPointer(mp) && HasArnOf(s.prefix, mp.policy.name, mp.policy)
    ensures Addressed(Insert(s, mp)) && Pointers(Insert(s, mp))
  {
  }

  /** A new version keeps the default pointer right exactly when it is itself the default or does
      not reuse the default's name. Reuse happens because `Latest()` is the oldest version. */
  lemma AddVersionPointer(mp: ManagedPolicy, version: PolicyVersion)
    requires DefaultPointer(mp) && |mp.versions| < VERSION_LIMIT
    ensures DefaultPointer(AddVersion(mp, version))
            <==> version.isDefault || version.versionId != mp.policy.defaultVersionId
  {
    var after := AddVersion(mp, version).versions;
    assert version.versionId in after;
  }

  /** Changing the versions of one policy keeps the index. */
  lemma ReplaceKeepsIndex(s: Store, n: string, mp: ManagedPolicy, clock: nat)
    requires Bijection(s) && Addressed(s) && n in s.policies
    requires mp.policy == s.policies[n].policy.(defaultVersionId := mp.policy.defaultVersionId)
    ensures Bijection(Replace(s, n, mp, clock)) && Addressed(Replace(s, n, mp, clock))
  {
    IndexAt(s, n);
  }

  lemma ReplacePointers(s: Store, n: string, mp: ManagedPolicy, clock: nat)
    requires Pointers(s) && n in s.policies
    ensures Pointers(Replace(s, n, mp, clock)) <==> DefaultPointer(mp)
  {
    assert Marked(n) && Replace(s, n, mp, clock).policies[n] == mp;
  }

  lemma WithVersionValid(s: Store, n: string, version: PolicyVersion)
    requires Valid(s) && n in s.policies && |s.policies[n].versions| < VERSION_LIMIT && version.createDate == s.clock
    ensures Valid(WithVersion(s, n, version))
  {
    ValidAt(s, n);
    AddVersionValid(s.policies[n], version);
    ReplaceValid(s, n, AddVersion(s.policies[n], version), s.clock + 1);
  }

  /** For every flag and every state of the versions, the index survives a new version. */
  lemma CreatePolicyVersionKeepsIndex(s: Store, arn: string, doc: Bytes, setDefault: bool)
    requires Bijection(s) && Addressed(s)
    ensures var s' := CreatePolicyVersion(s, arn, doc, setDefault).0; Bijection(s') && Addressed(s')
  {
    var (s', r) := CreatePolicyVersion(s, arn, doc, setDefault);
    if r.Ok? {
      var n := s.arns[arn];
      ReplaceKeepsIndex(s, n, AddVersion(s.policies[n], r.value), s.clock + 1);
    }
  }

  lemma WithVersionPointer(s: Store, n: string, version: PolicyVersion)
    requires Pointers(s) && n in s.policies && |s.policies[n].versions| < VERSION_LIMIT
    ensures Pointers(WithVersion(s, n, version))
            <==> version.isDefault || version.versionId != s.policies[n].policy.defaultVersionId
  {
    PointerAt(s, n);
    AddVersionPointer(s.policies[n], version);
    ReplacePointers(s, n, AddVersion(s.policies[n], version), s.clock + 1);
  }

  lemma CreatePolicyVersionPointer(s: Store, arn: string, doc: Bytes, setDefault: bool)
    requires Invariant(s) && CreatePolicyVersion(s, arn, doc, setDefault).1.Ok?
    ensures
      var mp := s.policies[s.arns[arn]];
      Invariant(CreatePolicyVersion(s, arn, doc, setDefault).0)
      <==> setDefault || NextId(mp.versions) != mp.policy.defaultVersionId
  {
    CreatePolicyVersionKeepsValid(s, arn, doc, setDefault);
    CreatePolicyVersionKeepsIndex(s, arn, doc, setDefault);
    var n := s.arns[arn];
    ArnAt(s, arn);
    ValidAt(s, n);
    WithVersionPointer(s, n, CreatePolicyVersion(s, arn, doc, setDefault).1.value);
  }

  lemma DeletePolicyKeeps(s: Store, arn: string)
    requires Invariant(s)
    ensures Invariant(DeletePolicy(s, arn).0)
  {
    if arn in s.arns { RemoveKeepsIndex(s, arn); }
  }

  lemma RemoveKeepsIndex(s: Store, arn: string)
    requires Bijection(s) && arn in s.arns
    ensures Bijection(DeletePolicy(s, arn).0)
  {
    ArnAt(s, arn);
  }

  lemma DropVersionPointer(mp: ManagedPolicy, id: string)
    requires DefaultPointer(mp) && id in mp.versions && !mp.versions[id].isDefault
    ensures DefaultPointer(mp.(versions := mp.versions - {id}))
  {
  }

  lemma DeletePolicyVersionKeepsIndex(s: Store, arn: string, id: string)
    requires Bijection(s) && Addressed(s)
    ensures var s' := DeletePolicyVersion(s, arn, id).0; Bijection(s') && Addressed(s')
  {
    if DeletePolicyVersion(s, arn, id).1.Ok? {
      var mp := s.policies[s.arns[arn]];
      ReplaceKeepsIndex(s, s.arns[arn], mp.(versions := mp.versions - {id}), s.clock);
    }
  }

  lemma DeletePolicyVersionKeeps(s: Store, arn: string, id: string)
    requires Invariant(s)
    ensures Invariant(DeletePolicyVersion(s, arn, id).0)
  {
    DeletePolicyVersionKeepsValid(s, arn, id);
    DeletePolicyVersionKeepsIndex(s, arn, id);
    if DeletePolicyVersion(s, arn, id).1.Ok? {
      var mp := s.policies[s.arns[arn]];
      PointerAt(s, s.arns[arn]);
      DropVersionPointer(mp, id);
      ReplacePointers(s, s.arns[arn], mp.(versions := mp.versions - {id}), s.clock);
    }
  }

  // ----- runs -----

  datatype StoreOp =
    | DirectCreate(name: string, path: Option<string>, doc: Bytes, description: string)
    | DirectCreateVersion(arn: string, doc: Bytes, setDefault: bool)
    | DirectDelete(arn: string)
    | DirectDeleteVersion(arn: string, id: string)

  ghost function ApplyStoreOp(s: Store, op: StoreOp): Store {
    match op
    case DirectCreate(name, path, doc, description) => CreatePolicy(s, name, path, doc, description).0
    case DirectCreateVersion(arn, doc, setDefault) => CreatePolicyVersion(s, arn, doc, setDefault).0
    case DirectDelete(arn) => DeletePolicy(s, arn).0
    case DirectDeleteVersion(arn, id) => DeletePolicyVersion(s, arn, id).0
  }

  ghost function RunStore(s: Store, ops: seq<StoreOp>): Store {
    Run(ApplyStoreOp, s, ops)
  }

  /** The calls the controller's client makes: slash-free names, new versions always the default. */
  predicate Orderly(op: StoreOp) {
    (op.DirectCreate? ==> SlashFree(op.name)) && (op.DirectCreateVersion? ==> op.setDefault)
  }

  lemma StoreOpKeeps(s: Store, op: StoreOp)
    requires Invariant(s) && Orderly(op)
    ensures Invariant(ApplyStoreOp(s, op))
  {
    match op
    case DirectCreate(name, path, doc, description) => CreatePolicyKeeps(s, name, path, doc, description);
    case DirectCreateVersion(arn, doc, setDefault) =>
      if CreatePolicyVersion(s, arn, doc, setDefault).1.Ok? { CreatePolicyVersionPointer(s, arn, doc, setDefault); }
    case DirectDelete(arn) => DeletePolicyKeeps(s, arn);
    case DirectDeleteVersion(arn, id) => DeletePolicyVersionKeeps(s, arn, id);
  }

  /** In every run of orderly calls, in any order and with any arguments, every policy keeps exactly
      one default version, which its default pointer names, and the ARN index matches the policy map. */
  lemma {:induction false} EveryRunKeepsInvariant(prefix: string, ops: seq<StoreOp>)
    requires forall op :: op in ops ==> Orderly(op)
    ensures Invariant(RunStore(Empty(prefix), ops))
  {
    if ops != [] {
      EveryRunKeepsInvariant(prefix, ops[..|ops| - 1]);
      StoreOpKeeps(RunStore(Empty(prefix), ops[..|ops| - 1]), ops[|ops| - 1]);
    }
  }

  /** With one version, the next name is new and its number is one higher. */
  lemma SingletonNextIsFresh(vs: Versions, id: string)
    requires vs.Keys == {id} && WellKeyed(vs) && Numbered(vs)
    ensures NextId(vs) !in vs && VersionNumber(NextId(vs)) == VersionNumber(id) + 1
  {
    assert id in vs;
    NextIdNumber(vs);
    assert Latest(vs) in vs.Keys;
  }

  /** With two versions v1 and v2 the next name is again v2: the newest version is overwritten. */
  lemma SecondVersionIsOverwritten(a: Bytes, b: Bytes, t: nat, u: nat, d: bool)
    requires t < u
    ensures
      var vs: Versions := map["v1" := PolicyVersion(a, "v1", d, t), "v2" := PolicyVersion(b, "v2", !d, u)];
      vs != map[] && NextId(vs) == "v2"
  {
    var vs: Versions := map["v1" := PolicyVersion(a, "v1", d, t), "v2" := PolicyVersion(b, "v2", !d, u)];
    VersionOne();
    assert "v1" in vs && "v2" in vs;
    assert Latest(vs) == "v1";
    assert VersionName(2) == "v2" by { assert Decimal(2) == "2"; }
  }

  // ----- the version limit -----

  /** Of two versions the newer one is numbered one higher, so there are not three. */
  ghost predicate Successive(vs: Versions) {
    forall j, k {:trigger Pair(j, k)} :: Pair(j, k) && j in vs && k in vs && vs[j].createDate < vs[k].createDate ==>
      VersionNumber(k) == VersionNumber(j) + 1
  }

  lemma SuccessorIsNext(vs: Versions, k: string)
    requires k in vs && WellKeyed(vs) && Numbered(vs) && Successive(vs)
    requires forall j, i {:trigger Pair(j, i)} :: Pair(j, i) && j in vs && i in vs && j != i ==>
      vs[j].createDate != vs[i].createDate
    ensures k == Latest(vs) || k == NextId(vs)
  {
    NextIdNumber(vs);
    assert Pair(Latest(vs), k);
  }

  lemma AtMostTwo(vs: Versions, clock: nat)
    requires VersionsValid(vs, clock) && Numbered(vs) && Successive(vs)
    ensures |vs| <= 2
  {
    if vs != map[] {
      forall k | k in vs ensures k in {Latest(vs), NextId(vs)} { SuccessorIsNext(vs, k); }
      SubsetSize(vs.Keys, {Latest(vs), NextId(vs)});
      assert |vs| == |vs.Keys|;
    }
  }

  lemma {:induction false} SubsetSize(a: set<string>, b: set<string>)
    requires a <= b
    ensures |a| <= |b|
  {
    if a != {} {
      var x :| x in a;
      SubsetSize(a - {x}, b - {x});
    }
  }

  /** A new version follows the oldest one, and takes the place of any other. */
  lemma AddSuccessive(mp: ManagedPolicy, version: PolicyVersion)
    requires VersionsValid(mp.versions, version.createDate) && Numbered(mp.versions) && Successive(mp.versions)
    requires mp.versions != map[] && version.versionId == NextId(mp.versions)
    ensures Numbered(AddVersion(mp, version).versions) && Successive(AddVersion(mp, version).versions)
  {
    var vs, after := mp.versions, AddVersion(mp, version).versions;
    AtMostTwo(vs, version.createDate);
    NextIdNumber(vs);
    forall k | k in after ensures k == Latest(vs) || k == NextId(vs) { if k in vs { SuccessorIsNext(vs, k); } }
  }

  ghost predicate PairedAt(vs: Versions) { Numbered(vs) && Successive(vs) }

  ghost predicate Paired(s: Store) {
    forall n {:trigger Marked(n)} :: Marked(n) && n in s.policies ==>
      PairedAt(s.policies[n].versions)
  }

  lemma FirstVersionPaired(version: PolicyVersion)
    requires version.versionId == "v1"
    ensures PairedAt(map["v1" := version])
  {
    VersionOne();
    assert VersionName(1) == "v1";
  }

  lemma StoreOpPairs(s: Store, op: StoreOp)
    requires Valid(s) && Paired(s)
    ensures Paired(ApplyStoreOp(s, op))
  {
    match op
    case DirectCreate(name, path, doc, description) =>
      FirstVersionPaired(NewPolicy(s, name, path, doc, description).versions["v1"]);
    case DirectCreateVersion(arn, doc, setDefault) => AddVersionPairs(s, arn, doc, setDefault);
    case DirectDelete(arn) =>
    case DirectDeleteVersion(arn, id) =>
  }

  lemma AddVersionPairs(s: Store, arn: string, doc: Bytes, setDefault: bool)
    requires Valid(s) && Paired(s)
    ensures Paired(CreatePolicyVersion(s, arn, doc, setDefault).0)
  {
    var r := CreatePolicyVersion(s, arn, doc, setDefault).1;
    if r.Ok? {
      ValidAt(s, s.arns[arn]);
      assert Marked(s.arns[arn]);
      AddSuccessive(s.policies[s.arns[arn]], r.value);
    }
  }

  lemma StoreOpKeepsValid(s: Store, op: StoreOp)
    requires Valid(s)
    ensures Valid(ApplyStoreOp(s, op))
  {
    match op
    case DirectCreate(name, path, doc, description) => CreatePolicyKeepsValid(s, name, path, doc, description);
    case DirectCreateVersion(arn, doc, setDefault) => CreatePolicyVersionKeepsValid(s, arn, doc, setDefault);
    case DirectDelete(arn) =>
    case DirectDeleteVersion(arn, id) => DeletePolicyVersionKeepsValid(s, arn, id);
  }

  lemma {:induction false} RunPairs(prefix: string, ops: seq<StoreOp>)
    ensures Valid(RunStore(Empty(prefix), ops)) && Paired(RunStore(Empty(prefix), ops))
  {
    if ops != [] {
      RunPairs(prefix, ops[..|ops| - 1]);
      StoreOpKeepsValid(RunStore(Empty(prefix), ops[..|ops| - 1]), ops[|ops| - 1]);
      StoreOpPairs(RunStore(Empty(prefix), ops[..|ops| - 1]), ops[|ops| - 1]);
    }
  }

  /** Since the next name counts on from the oldest version, no run of calls, orderly or not, gives a
      policy a third version: the limit of five is never met. */
  lemma LimitIsNeverMet(prefix: string, ops: seq<StoreOp>, name: string, arn: string, doc: Bytes, setDefault: bool)
    ensures
      var s := RunStore(Empty(prefix), ops);
      && (name in s.policies ==> |s.policies[name].versions| <= 2)
      && CreatePolicyVersion(s, arn, doc, setDefault).1 != Err(LimitExceeded)
  {
    var s := RunStore(Empty(prefix), ops);
    RunPairs(prefix, ops);
    forall n | n in s.policies ensures |s.policies[n].versions| <= 2 {
      ValidAt(s, n);
      assert Marked(n);
      AtMostTwo(s.policies[n].versions, s.clock);
    }
  }

  // ----- creation and deletion -----

  /** A created policy is found by its ARN, keeps its name taken, and its deletion gives back the policies
      and the index there were. */
  lemma CreateThenDelete(s: Store, name: string, path: Option<string>, doc: Bytes, description: string)
    requires Invariant(s) && SlashFree(name) && CreatePolicy(s, name, path, doc, description).1.Ok?
    ensures
      var (s', p) := CreatePolicy(s, name, path, doc, description);
      var (s'', d) := DeletePolicy(s', p.value.arn);
      && GetPolicy(s', p.value.arn) == p && CreatePolicy(s', name, path, doc, description) == (s', Err(EntityExists))
      && d.Ok? && s''.policies == s.policies && s''.arns == s.arns
      && DeletePolicy(s'', p.value.arn) == (s'', Err(NotFound))
      && GetPolicy(s'', p.value.arn) == Err(NotFound)
  {
    SlashFreeArnIsUnused(s, name, PathOr(path));
    var mp := NewPolicy(s, name, path, doc, description);
    assert s.policies[name := mp] - {name} == s.policies;
    assert s.arns[mp.policy.arn := name] - {mp.policy.arn} == s.arns;
  }
}
