/** `iampolicy.Client` over the policy store: name lookup through a cache that deletion never
    clears, and the create-new-default, delete-old rotation of policy versions. */
module PolicyClient {
  import opened Common
  import opened UrlEscape
  import Runs
  import opened PolicyStore

  datatype ClientState = ClientState(store: Store, cache: map<string, string>)

  datatype IamPolicy = IamPolicy(arn: string, name: string, description: string, versionId: string,
                                 document: Bytes, createDate: nat)

  /** A lookup goes by name when the name is set, by ARN otherwise. */
  datatype GetOptions = GetOptions(arn: string, name: string)

  /** `json.Unmarshal` into a `map[string]interface{}`; None is its error. */
  type Parser = Bytes -> Option<map<string, Json>>

  /** Where an injected fault stops a call; the named service call fails without effect. */
  datatype GetFault = GetOk | ListFails | ReadFails
  datatype CreateFault = CreateOk | CreateFails | CreateReadFails
  datatype UpdateFault = UpdateOk | FirstReadFails | NewVersionFails | DeleteVersionFails | LastReadFails

  /** What a client path always is: valid, and never the default path "/". */
  predicate IsClientPath(path: string) {
    ValidPath(path) && |path| >= 2
  }

  // ----- reading -----

  /** `GetPolicy`, then `GetPolicyVersion` of the default version, then the unescaped document. */
  function Read(s: Store, arn: string): Result<IamPolicy> {
    var p := GetPolicy(s, arn);
    if p.Err? then Err(p.error)
    else
      var v := GetPolicyVersion(s, p.value.arn, p.value.defaultVersionId);
      if v.Err? then Err(v.error)
      else
        var d := QueryUnescape(v.value.document);
        if d.None? then Err(BadEscape)
        else Ok(IamPolicy(p.value.arn, p.value.name, p.value.description, p.value.defaultVersionId, d.value,
          p.value.createDate))
  }

  /** The ARN a list restricted to `path` shows for `name`; "" when it shows none. */
  function Listed(s: Store, path: string, name: string): string {
    if name in s.policies && s.policies[name].policy.path == Some(path) then s.policies[name].policy.arn else ""
  }

  /** The lookup without a cache: search the list, then read. */
  function GetUncached(s: Store, path: string, o: GetOptions): Result<IamPolicy> {
    if o.name == "" then Read(s, o.arn)
    else if Listed(s, path, o.name) == "" then Err(NotFound)
    else Read(s, Listed(s, path, o.name))
  }

  function FindArn(cs: ClientState, path: string, name: string): (string, ClientState) {
    if name in cs.cache then (cs.cache[name], cs)
    else
      var arn := Listed(cs.store, path, name);
      (arn, if arn == "" then cs else cs.(cache := cs.cache[name := arn]))
  }

  function Get(cs: ClientState, path: string, o: GetOptions, f: GetFault): (ClientState, Result<IamPolicy>) {
    if o.name == "" then (cs, if f == ReadFails then Unavailable() else Read(cs.store, o.arn))
    else if o.name !in cs.cache && f == ListFails then (cs, Unavailable())
    else
      var (arn, cs') := FindArn(cs, path, o.name);
      (cs', if arn == "" then Err(NotFound) else if f == ReadFails then Unavailable() else Read(cs.store, arn))
  }

  // ----- writing -----

  function Create(cs: ClientState, path: string, name: string, doc: Bytes, description: string, f: CreateFault)
    : (ClientState, Result<IamPolicy>)
  {
    if f == CreateFails then (cs, Unavailable())
    else
      var (s', r) := CreatePolicy(cs.store, name, Some(path), doc, description);
      (cs.(store := s'),
       if r.Err? then Err(r.error) else if f == CreateReadFails then Unavailable() else Read(s', r.value.arn))
  }

  ghost function Update(s: Store, parse: Parser, arn: string, doc: Bytes, f: UpdateFault): (Store, Result<IamPolicy>) {
    if f == FirstReadFails then (s, Unavailable())
    else
      var policy := Read(s, arn);
      if policy.Err? then (s, policy)
      else if parse(policy.value.document).None? || parse(doc).None? then (s, Err(BadJson))
      else if parse(policy.value.document) == parse(doc) then (s, policy)
      else if f == NewVersionFails then (s, Unavailable())
      else Rotate(s, policy.value, doc, f)
  }

  /** Create the new default version, delete the one it replaces, read the result. */
  ghost function Rotate(s: Store, policy: IamPolicy, doc: Bytes, f: UpdateFault): (Store, Result<IamPolicy>) {
    var (s1, r1) := CreatePolicyVersion(s, policy.arn, doc, true);
    if r1.Err? then (s1, Err(r1.error))
    else if f == DeleteVersionFails then (s1, Unavailable())
    else
      var (s2, r2) := DeletePolicyVersion(s1, policy.arn, policy.versionId);
      if r2.Err? then (s2, Err(r2.error))
      else (s2, if f == LastReadFails then Unavailable() else Read(s2, policy.arn))
  }

  function Delete(s: Store, arn: string, fails: bool): (Store, Result<()>) {
    if fails then (s, Unavailable()) else DeletePolicy(s, arn)
  }

  // ----- the cache refines the uncached search -----

  ghost predicate IndexOk(s: Store) {
    Bijection(s) && Addressed(s)
  }

  /** Every cached ARN is the one the name has, or would have, at the client's path. */
  ghost predicate CacheSound(cs: ClientState, path: string) {
    forall n {:trigger Marked(n)} :: Marked(n) && n in cs.cache ==>
      SlashFree(n) && cs.cache[n] == PolicyArn(cs.store.prefix, path, n)
  }

  ghost predicate ClientOk(cs: ClientState, path: string) {
    IndexOk(cs.store) && CacheSound(cs, path)
  }

  /** A read of the computed ARN agrees with the list: both find the policy or neither does. */
  lemma ReadByComputedArn(s: Store, path: string, name: string)
    requires IndexOk(s) && IsClientPath(path) && SlashFree(name)
    ensures var arn := PolicyArn(s.prefix, path, name);
      if Listed(s, path, name) == "" then Read(s, arn) == Err(NotFound) else Listed(s, path, name) == arn
  {
    SlashFreeArnIsUnused(s, name, path);
    if name in s.policies { IndexAt(s, name); }
  }

  /** A name with a slash is never listed, since no stored policy has one. */
  lemma ListedNameIsSlashFree(s: Store, path: string, name: string)
    requires IndexOk(s) && Listed(s, path, name) != ""
    ensures SlashFree(name) && Listed(s, path, name) == PolicyArn(s.prefix, path, name)
  {
    IndexAt(s, name);
  }

  /** `Get` returns what the uncached search returns, for every state a cache can be in. */
  lemma GetRefinesUncached(cs: ClientState, path: string, o: GetOptions)
    requires ClientOk(cs, path) && IsClientPath(path)
    ensures Get(cs, path, o, GetOk).1 == GetUncached(cs.store, path, o)
    ensures ClientOk(Get(cs, path, o, GetOk).0, path)
  {
    assert Marked(o.name);
    if o.name in cs.cache {
      ReadByComputedArn(cs.store, path, o.name);
    } else if Listed(cs.store, path, o.name) != "" {
      ListedNameIsSlashFree(cs.store, path, o.name);
    }
  }

  // ----- runs of the client and of other users of the service -----

  datatype ClientOp =
    | ClientCreate(name: string, doc: Bytes, description: string, createFault: CreateFault)
    | ClientUpdate(arn: string, doc: Bytes, updateFault: UpdateFault)
    | ClientGet(options: GetOptions, getFault: GetFault)
    | ClientDelete(arn: string, fails: bool)
    | Direct(op: StoreOp)
    | Evict(names: set<string>)

  ghost function Step(cs: ClientState, path: string, parse: Parser, op: ClientOp): ClientState {
    match op
    case ClientCreate(name, doc, description, f) => Create(cs, path, name, doc, description, f).0
    case ClientUpdate(arn, doc, f) => cs.(store := Update(cs.store, parse, arn, doc, f).0)
    case ClientGet(o, f) => Get(cs, path, o, f).0
    case ClientDelete(arn, fails) => cs.(store := Delete(cs.store, arn, fails).0)
    case Direct(d) => cs.(store := ApplyStoreOp(cs.store, d))
    case Evict(names) => cs.(cache := cs.cache - names)
  }

  ghost function Run(cs: ClientState, path: string, parse: Parser, ops: seq<ClientOp>): ClientState {
    Runs.Run((c: ClientState, op: ClientOp) => Step(c, path, parse, op), cs, ops)
  }

  predicate NamesSlashFree(op: ClientOp) {
    && (op.ClientCreate? ==> SlashFree(op.name))
    && (op.Direct? && op.op.DirectCreate? ==> SlashFree(op.op.name))
  }

  lemma CreateKeepsIndex(s: Store, name: string, path: Option<string>, doc: Bytes, description: string)
    requires IndexOk(s) && SlashFree(name)
    ensures IndexOk(CreatePolicy(s, name, path, doc, description).0)
  {
    if CreatePolicy(s, name, path, doc, description).1.Ok? {
      SlashFreeArnIsUnused(s, name, PathOr(path));
      CreatePolicyBijection(s, name, path, doc, description);
    }
  }

  lemma DeleteKeepsIndex(s: Store, arn: string)
    requires IndexOk(s)
    ensures IndexOk(DeletePolicy(s, arn).0)
  {
    if arn in s.arns { RemoveKeepsIndex(s, arn); }
  }

  lemma RotateKeepsIndex(s: Store, policy: IamPolicy, doc: Bytes, f: UpdateFault)
    requires IndexOk(s)
    ensures IndexOk(Rotate(s, policy, doc, f).0) && Rotate(s, policy, doc, f).0.prefix == s.prefix
  {
    var s1 := CreatePolicyVersion(s, policy.arn, doc, true).0;
    CreatePolicyVersionKeepsIndex(s, policy.arn, doc, true);
    DeletePolicyVersionKeepsIndex(s1, policy.arn, policy.versionId);
  }

  lemma UpdateKeepsIndex(s: Store, parse: Parser, arn: string, doc: Bytes, f: UpdateFault)
    requires IndexOk(s)
    ensures IndexOk(Update(s, parse, arn, doc, f).0) && Update(s, parse, arn, doc, f).0.prefix == s.prefix
  {
    var policy := Read(s, arn);
    if policy.Ok? { RotateKeepsIndex(s, policy.value, doc, f); }
  }

  lemma DirectKeepsIndex(s: Store, d: StoreOp)
    requires IndexOk(s) && (d.DirectCreate? ==> SlashFree(d.name))
    ensures IndexOk(ApplyStoreOp(s, d)) && ApplyStoreOp(s, d).prefix == s.prefix
  {
    match d
    case DirectCreate(name, path, doc, description) => CreateKeepsIndex(s, name, path, doc, description);
    case DirectCreateVersion(arn, doc, setDefault) => CreatePolicyVersionKeepsIndex(s, arn, doc, setDefault);
    case DirectDelete(arn) => DeleteKeepsIndex(s, arn);
    case DirectDeleteVersion(arn, id) => DeletePolicyVersionKeepsIndex(s, arn, id);
  }

  lemma StepKeepsClientOk(cs: ClientState, path: string, parse: Parser, op: ClientOp)
    requires ClientOk(cs, path) && IsClientPath(path) && NamesSlashFree(op)
    ensures ClientOk(Step(cs, path, parse, op), path)
  {
    match op
    case ClientCreate(name, doc, description, f) => CreateKeepsIndex(cs.store, name, Some(path), doc, description);
    case ClientUpdate(arn, doc, f) => UpdateKeepsIndex(cs.store, parse, arn, doc, f);
    case ClientGet(o, f) =>
      if o.name !in cs.cache && Listed(cs.store, path, o.name) != "" {
        ListedNameIsSlashFree(cs.store, path, o.name);
      }
    case ClientDelete(arn, fails) => DeleteKeepsIndex(cs.store, arn);
    case Direct(d) => DirectKeepsIndex(cs.store, d);
    case Evict(names) =>
  }

  lemma {:induction false} EveryRunKeepsClientOk(cs: ClientState, path: string, parse: Parser, ops: seq<ClientOp>)
    requires ClientOk(cs, path) && IsClientPath(path) && forall op :: op in ops ==> NamesSlashFree(op)
    ensures ClientOk(Run(cs, path, parse, ops), path)
  {
    if ops != [] {
      EveryRunKeepsClientOk(cs, path, parse, ops[..|ops| - 1]);
      StepKeepsClientOk(Run(cs, path, parse, ops[..|ops| - 1]), path, parse, ops[|ops| - 1]);
    }
  }

  /** Cache refinement: after any interleaving of client calls, faults, direct service calls and
      evictions, a lookup gives exactly the answer of the uncached search. */
  lemma CacheRefinesListSearch(prefix: string, path: string, parse: Parser, ops: seq<ClientOp>, o: GetOptions)
    requires forall op :: op in ops ==> NamesSlashFree(op)
    ensures
      var cs := Run(ClientState(Empty(prefix), map[]), ClientPath(path), parse, ops);
      Get(cs, ClientPath(path), o, GetOk).1 == GetUncached(cs.store, ClientPath(path), o)
  {
    var start := ClientState(Empty(prefix), map[]);
    EveryRunKeepsClientOk(start, ClientPath(path), parse, ops);
    GetRefinesUncached(Run(start, ClientPath(path), parse, ops), ClientPath(path), o);
  }

  /** With slashes in names it fails: the cached ARN of a deleted policy is taken over by another. */
  lemma SlashBreaksTheCache(prefix: string, parse: Parser)
    ensures
      var ops := [ClientCreate("b/c", [], "", CreateOk), ClientGet(GetOptions("", "b/c"), GetOk),
                  ClientDelete(PolicyArn(prefix, "/a/", "b/c"), false),
                  Direct(DirectCreate("c", Some("/a/b/"), [], ""))];
      var cs := Run(ClientState(Empty(prefix), map[]), "/a/", parse, ops);
      var o := GetOptions("", "b/c");
      GetUncached(cs.store, "/a/", o) == Err(NotFound) && Get(cs, "/a/", o, GetOk).1.Ok?
  {
    var a := PolicyArn(prefix, "/a/", "b/c");
    ArnCollision(prefix);
    var c0 := ClientState(Empty(prefix), map[]);
    var c1 := Create(c0, "/a/", "b/c", [], "", CreateOk).0;
    assert Listed(c1.store, "/a/", "b/c") == a;
    assert a != "" by { assert |a| == |prefix| + 3 + 3; }
    var c2 := Get(c1, "/a/", GetOptions("", "b/c"), GetOk).0;
    assert c2 == ClientState(c1.store, map["b/c" := a]);
    var c3 := c2.(store := Delete(c2.store, a, false).0);
    assert c3.store.policies == map[] && c3.store.arns == map[];
    var c4 := c3.(store := CreatePolicy(c3.store, "c", Some("/a/b/"), [], "").0);
    assert c4.store.arns == map[a := "c"];
    assert Read(c4.store, a).Ok?;
    var o0, o1, o2, o3 := ClientCreate("b/c", [], "", CreateOk), ClientGet(GetOptions("", "b/c"), GetOk),
                  ClientDelete(a, false), Direct(DirectCreate("c", Some("/a/b/"), [], ""));
    Runs.RunFour((c: ClientState, op: ClientOp) => Step(c, "/a/", parse, op), c0, o0, o1, o2, o3);
  }
}
