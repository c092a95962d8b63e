/** `iamrole.Client` over the role store, and the attached-policy list and map of its types. */
module RoleClient {
  import opened Common
  import opened UrlEscape
  import opened Runs
  import opened RoleStore

  datatype IamRole = IamRole(arn: string, name: string, description: string, trustPolicy: Bytes)

  /** Where an injected fault stops a call; the named service call fails without effect. */
  datatype CreateFault = CreateOk | CreateFails | CreateReadFails
  datatype UpdateFault = UpdateOk | TrustFails | UpdateFails | UpdateReadFails

  function ReadRole(rs: RoleState, name: string): Result<IamRole> {
    var role := GetRole(rs, name);
    if role.Err? then Err(role.error)
    else
      var trust := QueryUnescape(role.value.document);
      if trust.None? then Err(BadEscape)
      else Ok(IamRole(role.value.arn, role.value.name,
                      if role.value.description.Some? then role.value.description.value else "", trust.value))
  }

  function Get(rs: RoleState, name: string, fails: bool): Result<IamRole> {
    if fails then Unavailable() else ReadRole(rs, name)
  }

  function Create(rs: RoleState, path: string, name: string, doc: Bytes, description: string, maxDuration: int,
                  f: CreateFault)
    : (RoleState, Result<IamRole>)
  {
    if f == CreateFails then (rs, Unavailable())
    else
      var (rs', r) := CreateRole(rs, name, Some(doc), Some(ClientPath(path)), Some(description), Some(maxDuration));
      if r.Err? then (rs', Err(r.error)) else (rs', Get(rs', r.value.name, f == CreateReadFails))
  }

  /** An empty document, description or duration leaves that part of the role alone. */
  function Update(rs: RoleState, name: string, doc: Bytes, description: string, maxDuration: int, f: UpdateFault)
    : (RoleState, Result<IamRole>)
  {
    if doc != [] && f == TrustFails then (rs, Unavailable())
    else
      var (rs1, r1) := if doc != [] then UpdateAssumeRolePolicy(rs, name, doc) else (rs, Ok(()));
      if r1.Err? then (rs1, Err(r1.error))
      else if f == UpdateFails then (rs1, Unavailable())
      else
        var (rs2, r2) := UpdateRole(rs1, name, if description != "" then Some(description) else None,
                                    if maxDuration > 0 then Some(maxDuration) else None);
        if r2.Err? then (rs2, Err(r2.error)) else (rs2, Get(rs2, name, f == UpdateReadFails))
  }

  function Delete(rs: RoleState, name: string, fails: bool): (RoleState, Result<()>) {
    if fails then (rs, Unavailable()) else DeleteRole(rs, name)
  }

  function AttachPolicy(rs: RoleState, index: map<string, string>, name: string, arn: string, fails: bool)
    : (RoleState, Result<()>)
  {
    if fails then (rs, Unavailable()) else AttachRolePolicy(rs, index, name, arn)
  }

  function DetachPolicy(rs: RoleState, name: string, arn: string, fails: bool): (RoleState, Result<()>) {
    if fails then (rs, Unavailable()) else DetachRolePolicy(rs, name, arn)
  }

  ghost function ListAttachedPolicies(rs: RoleState, index: map<string, string>, name: string, fails: bool)
    : (RoleState, Result<seq<AttachedPolicy>>)
  {
    if name == "" then (rs, Err(InvalidInput))
    else if fails then (rs, Unavailable())
    else ListAttachedRolePolicies(rs, index, name)
  }

  /** `AttachedPolicies.ToMap`: the last entry of a name wins. */
  function ToMap(l: seq<AttachedPolicy>): map<string, string> {
    if l == [] then map[] else ToMap(l[..|l| - 1])[l[|l| - 1].name := l[|l| - 1].arn]
  }

  // ----- document round trips -----

  /** Role creation then Get returns the trust document byte for byte, whatever it holds. */
  lemma CreateThenGet(rs: RoleState, path: string, name: string, doc: Bytes, description: string, maxDuration: int)
    requires name !in rs.roles
    ensures
      var (rs', r) := Create(rs, path, name, doc, description, maxDuration, CreateOk);
      && r == ReadRole(rs', name) && r.Ok? && r.value.trustPolicy == doc
      && r.value.name == name && r.value.description == description
           && r.value.arn == rs.prefix + ClientPath(path) + name
      && rs'.roles - {name} == rs.roles && rs'.attachments == rs.attachments
  {
    EscapeRoundTrip(doc);
    assert |ClientPath(path)| >= 2 && ClientPath(path)[|ClientPath(path)| - 1] == '/';
    var rs' := Create(rs, path, name, doc, description, maxDuration, CreateOk).0;
    assert rs'.roles - {name} == rs.roles;
  }

  /** The path and the ARN a created role gets, written out. */
  lemma CreatedRoleIs(rs: RoleState, account: string, path: string, name: string, doc: Bytes, description: string,
                      maxDuration: int)
    requires rs.prefix == RolePrefix(account) && name !in rs.roles
    ensures
      var rs' := Create(rs, path, name, doc, description, maxDuration, CreateOk).0;
      && name in rs'.roles && rs'.roles[name].path == Some("/" + path + "/")
      && rs'.roles[name].arn == "arn:aws:iam::" + account + ":role" + ("/" + path + "/") + name
      && rs'.roles[name].description == Some(description) && rs'.roles[name].maxSession == Some(maxDuration)
  {
    CreateThenGet(rs, path, name, doc, description, maxDuration);
  }

  /** Update then Get returns the new trust document, or the old one when the new one is empty; the
      call writes it even when it then fails, unless the trust call itself did. */
  lemma UpdateThenGet(rs: RoleState, name: string, doc: Bytes, description: string, maxDuration: int, f: UpdateFault)
    requires name in rs.roles && ReadRole(rs, name).Ok?
    ensures
      var (rs', r) := Update(rs, name, doc, description, maxDuration, f);
      && ReadRole(rs', name).Ok?
      && ReadRole(rs', name).value.trustPolicy ==
           (if doc == [] || f == TrustFails then ReadRole(rs, name).value.trustPolicy else doc)
      && (r.Ok? ==> r == ReadRole(rs', name))
      && (f == UpdateOk ==> r.Ok?)
      && rs'.roles - {name} == rs.roles - {name} && name in rs'.roles && rs'.attachments == rs.attachments
  {
    EscapeRoundTrip(doc);
    var rs' := Update(rs, name, doc, description, maxDuration, f).0;
    assert rs'.roles - {name} == rs.roles - {name};
  }

  /** An update that gets as far as the role writes the description and the duration it is given, and an
      empty one of either leaves what there was; an update that does not leaves both. */
  lemma UpdateWritesFields(rs: RoleState, name: string, doc: Bytes, description: string, maxDuration: int,
                           f: UpdateFault)
    requires name in rs.roles
    ensures
      var (rs', r) := Update(rs, name, doc, description, maxDuration, f);
      var reached := f != UpdateFails && (doc == [] || f != TrustFails);
      && name in rs'.roles && rs'.roles[name].arn == rs.roles[name].arn && rs'.roles[name].path == rs.roles[name].path
      && rs'.roles[name].description ==
           (if reached && |description| > 0 then Some(description) else rs.roles[name].description)
      && rs'.roles[name].maxSession ==
           (if reached && maxDuration > 0 then Some(maxDuration) else rs.roles[name].maxSession)
      && (r.Ok? && |description| > 0 ==> r.value.description == description)
  {
  }

  // ----- runs of role calls -----

  datatype RoleOp =
    | RoleCreate(name: string, doc: Bytes, description: string, maxDuration: int, createFault: CreateFault)
    | RoleUpdate(name: string, doc: Bytes, description: string, maxDuration: int, updateFault: UpdateFault)
    | RoleDelete(name: string, fails: bool)

  function ApplyRoleOp(rs: RoleState, path: string, op: RoleOp): RoleState {
    match op
    case RoleCreate(name, doc, description, maxDuration, f) =>
      Create(rs, path, name, doc, description, maxDuration, f).0
    case RoleUpdate(name, doc, description, maxDuration, f) => Update(rs, name, doc, description, maxDuration, f).0
    case RoleDelete(name, fails) => Delete(rs, name, fails).0
  }

  ghost function RunRoleOps(rs: RoleState, path: string, ops: seq<RoleOp>): RoleState {
    Run((r: RoleState, op: RoleOp) => ApplyRoleOp(r, path, op), rs, ops)
  }

  /** The document last written for each live role, read off the calls alone. */
  function LastWritten(ops: seq<RoleOp>): map<string, Bytes> {
    if ops == [] then map[] else NowWritten(LastWritten(ops[..|ops| - 1]), ops[|ops| - 1])
  }

  function NowWritten(m: map<string, Bytes>, op: RoleOp): map<string, Bytes> {
    match op
    case RoleCreate(name, doc, _, _, f) => if name in m || f == CreateFails then m else m[name := doc]
    case RoleUpdate(name, doc, _, _, f) => if name in m && doc != [] && f != TrustFails then m[name := doc] else m
    case RoleDelete(name, fails) => if fails then m else m - {name}
  }

  ghost predicate Shows(rs: RoleState, m: map<string, Bytes>) {
    rs.roles.Keys == m.Keys && forall n :: n in m ==> ReadRole(rs, n).Ok? && ReadRole(rs, n).value.trustPolicy == m[n]
  }

  lemma OtherRolesRead(rs: RoleState, rs': RoleState, name: string, n: string)
    requires n != name && rs'.roles - {name} == rs.roles - {name}
    ensures ReadRole(rs', n) == ReadRole(rs, n)
  {
    assert n in rs.roles <==> n in rs.roles - {name};
    assert n in rs'.roles <==> n in rs'.roles - {name};
    if n in rs.roles { assert (rs.roles - {name})[n] == (rs'.roles - {name})[n]; }
  }

  /** Each call changes what one role shows as the calls say. */
  lemma OpShows(rs: RoleState, m: map<string, Bytes>, path: string, op: RoleOp)
    requires Shows(rs, m)
    ensures Shows(ApplyRoleOp(rs, path, op), NowWritten(m, op))
  {
    var rs', m' := ApplyRoleOp(rs, path, op), NowWritten(m, op);
    match op {
      case RoleCreate(name, doc, description, maxDuration, f) =>
        CreateShows(rs, path, name, doc, description, maxDuration, f);
      case RoleUpdate(name, doc, description, maxDuration, f) =>
        if name in rs.roles { UpdateThenGet(rs, name, doc, description, maxDuration, f); }
      case RoleDelete(name, fails) =>
    }
    forall n | n in m' ensures ReadRole(rs', n).Ok? && ReadRole(rs', n).value.trustPolicy == m'[n] {
      if n != op.name { OtherRolesRead(rs, rs', op.name, n); }
    }
  }

  lemma CreateShows(rs: RoleState, path: string, name: string, doc: Bytes, description: string, maxDuration: int,
                    f: CreateFault)
    ensures
      var rs' := Create(rs, path, name, doc, description, maxDuration, f).0;
      if name in rs.roles || f == CreateFails then rs' == rs
      else rs'.roles.Keys == rs.roles.Keys + {name} && rs'.roles - {name} == rs.roles - {name}
           && ReadRole(rs', name).Ok? && ReadRole(rs', name).value.trustPolicy == doc
  {
    if name !in rs.roles && f != CreateFails {
      CreateThenGet(rs, path, name, doc, description, maxDuration);
      assert rs.roles - {name} == rs.roles;
    }
  }

  /** In every run of role calls with any failures, a role exists exactly when the calls say so, and
      reads as the document last written for it. */
  lemma {:induction false} RunShowsLastWritten(prefix: string, path: string, ops: seq<RoleOp>)
    ensures Shows(RunRoleOps(RoleState(prefix, map[], map[]), path, ops), LastWritten(ops))
  {
    if ops != [] {
      var init, op := ops[..|ops| - 1], ops[|ops| - 1];
      RunShowsLastWritten(prefix, path, init);
      var rs, m := RunRoleOps(RoleState(prefix, map[], map[]), path, init), LastWritten(init);
      OpShows(rs, m, path, op);
    }
  }

  // ----- lists and maps of attached policies -----

  predicate NamesDistinct(l: seq<AttachedPolicy>) {
    forall i, j :: 0 <= i < |l| && 0 <= j < |l| && l[i].name == l[j].name ==> l[i].arn == l[j].arn
  }

  /** With one ARN per name the map holds exactly the entries of the list. */
  lemma {:induction false} ToMapHoldsList(l: seq<AttachedPolicy>)
    requires NamesDistinct(l)
    ensures forall n :: n in ToMap(l) <==> exists i :: 0 <= i < |l| && l[i].name == n
    ensures forall i :: 0 <= i < |l| ==> l[i].name in ToMap(l) && ToMap(l)[l[i].name] == l[i].arn
  {
    if l != [] {
      var k := |l| - 1;
      ToMapHoldsList(l[..k]);
      forall n | n in ToMap(l) ensures exists i :: 0 <= i < |l| && l[i].name == n {
        if n == l[k].name { } else {
          var i :| 0 <= i < k && l[..k][i].name == n;
          assert l[i].name == n;
        }
      }
      forall i | 0 <= i < |l| ensures l[i].name in ToMap(l) && ToMap(l)[l[i].name] == l[i].arn {
        if i < k { assert l[..k][i] == l[i]; }
      }
    }
  }
}
