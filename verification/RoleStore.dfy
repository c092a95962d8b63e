/** The role half of the fake IAM service: roles with trust documents, and attachments by ARN. */
module RoleStore {
  import opened Common
  import opened UrlEscape
  import opened PolicyStore
  import opened SortedNames

  datatype Role = Role(arn: string, name: string, path: Option<string>, description: Option<string>,
                       maxSession: Option<int>, document: Bytes)

  /** Attachments outlive their role: deleting a role leaves its entry behind. */
  datatype RoleState = RoleState(prefix: string, roles: map<string, Role>, attachments: map<string, set<string>>)

  datatype AttachedPolicy = AttachedPolicy(name: string, arn: string)

  function RolePrefix(account: string): string {
    "arn:aws:iam::" + account + ":role"
  }

  function CreateRole(rs: RoleState, name: string, doc: Option<Bytes>, path: Option<string>,
                      description: Option<string>, maxSession: Option<int>): (RoleState, Result<Role>) {
    if name in rs.roles then (rs, Err(EntityExists))
    else if doc.None? || !ValidPath(PathOr(path)) then (rs, Err(InvalidInput))
    else
      var role := Role(rs.prefix + PathOr(path) + name, name, path, description, maxSession, QueryEscape(doc.value));
      (rs.(roles := rs.roles[name := role]), Ok(role))
  }

  /** The service asserts that the role exists; without it the call panics. */
  function UpdateAssumeRolePolicy(rs: RoleState, name: string, doc: Bytes): (RoleState, Result<()>) {
    if name !in rs.roles then (rs, Err(Panic))
    else (rs.(roles := rs.roles[name := rs.roles[name].(document := QueryEscape(doc))]), Ok(()))
  }

  function UpdateRole(rs: RoleState, name: string, description: Option<string>, maxSession: Option<int>)
    : (RoleState, Result<()>)
  {
    if name !in rs.roles then (rs, Err(Panic))
    else
      var role := rs.roles[name];
      (rs.(roles := rs.roles[name := role.(
         description := if description.Some? then description else role.description,
         maxSession := if maxSession.Some? then maxSession else role.maxSession)]),
       Ok(()))
  }

  function GetRole(rs: RoleState, name: string): Result<Role> {
    if name in rs.roles then Ok(rs.roles[name]) else Err(NotFound)
  }

  function DeleteRole(rs: RoleState, name: string): (RoleState, Result<()>) {
    if name !in rs.roles then (rs, Err(NotFound)) else (rs.(roles := rs.roles - {name}), Ok(()))
  }

  /** The ARNs stored for a role, whether or not the role or the policies exist. */
  function Attached(rs: RoleState, name: string): set<string> {
    if name in rs.attachments then rs.attachments[name] else {}
  }

  function SetAttached(rs: RoleState, name: string, arns: set<string>): RoleState {
    rs.(attachments := rs.attachments[name := arns])
  }

  /** `LoadOrStore` leaves an entry even when the call then fails. */
  function AttachRolePolicy(rs: RoleState, index: map<string, string>, name: string, arn: string)
    : (RoleState, Result<()>)
  {
    var held := Attached(rs, name);
    if arn !in index then (SetAttached(rs, name, held), Err(NotFound))
    else if arn in held then (SetAttached(rs, name, held), Err(LimitExceeded))
    else (SetAttached(rs, name, held + {arn}), Ok(()))
  }

  function DetachRolePolicy(rs: RoleState, name: string, arn: string): (RoleState, Result<()>) {
    if name !in rs.attachments || arn !in rs.attachments[name] then (rs, Err(NotFound))
    else (SetAttached(rs, name, rs.attachments[name] - {arn}), Ok(()))
  }

  /** Each stored ARN the index knows, with the name the index gives it. */
  function Shown(index: map<string, string>, arns: seq<string>): seq<AttachedPolicy> {
    if arns == [] then []
    else
      var rest, a := Shown(index, arns[..|arns| - 1]), arns[|arns| - 1];
      if a in index then rest + [AttachedPolicy(index[a], a)] else rest
  }

  /** A list goes through the stored ARNs in order and drops those the index does not know. */
  ghost function ShownAttachments(rs: RoleState, index: map<string, string>, name: string): seq<AttachedPolicy> {
    Shown(index, SortedList(Attached(rs, name)))
  }

  /** Listing stores an empty entry for a role that has none. */
  ghost function ListAttachedRolePolicies(rs: RoleState, index: map<string, string>, name: string)
    : (RoleState, Result<seq<AttachedPolicy>>)
  {
    if name !in rs.roles then (rs, Err(NotFound))
    else (SetAttached(rs, name, Attached(rs, name)), Ok(ShownAttachments(rs, index, name)))
  }

  lemma {:induction false} ShownMembers(index: map<string, string>, arns: seq<string>)
    ensures forall p :: p in Shown(index, arns) <==> p.arn in arns && p.arn in index && p.name == index[p.arn]
  {
    if arns != [] {
      ShownMembers(index, arns[..|arns| - 1]);
      assert arns == arns[..|arns| - 1] + [arns[|arns| - 1]];
    }
  }

  predicate Increasing(l: seq<AttachedPolicy>) {
    forall i, j :: 0 <= i < j < |l| ==> Less(l[i].arn, l[j].arn)
  }

  /** A list shows the ARNs in increasing order, each once. */
  lemma {:induction false} ShownInOrder(index: map<string, string>, arns: seq<string>)
    requires Sorted(arns)
    ensures Increasing(Shown(index, arns))
  {
    if arns != [] {
      var init, a := arns[..|arns| - 1], arns[|arns| - 1];
      ShownInOrder(index, init);
      ShownMembers(index, init);
      var l := Shown(index, init);
      forall i | 0 <= i < |l| ensures Less(l[i].arn, a) {
        assert l[i] in l;
        var k :| 0 <= k < |init| && init[k] == l[i].arn;
        assert arns[k] == init[k] && Less(arns[k], arns[|arns| - 1]);
      }
      assert Shown(index, arns) == if a in index then l + [AttachedPolicy(index[a], a)] else l;
    }
  }

  /** Attaching a known policy and detaching it again gives back what was attached; in between it is listed,
      a second attach is refused, and so is a second detach afterwards. A policy the index does not know is
      refused too, but leaves the role an entry. */
  lemma AttachThenDetach(rs: RoleState, index: map<string, string>, name: string, arn: string)
    requires arn !in Attached(rs, name)
    ensures
      var (a, attached) := AttachRolePolicy(rs, index, name, arn);
      var (d, detached) := DetachRolePolicy(a, name, arn);
      && name in a.attachments && a.roles == rs.roles && a.attachments - {name} == rs.attachments - {name}
      && (arn !in index ==> attached == Err(NotFound) && Attached(a, name) == Attached(rs, name))
      && (arn in index ==>
            && attached.Ok? && detached.Ok? && AttachedPolicy(index[arn], arn) in ShownAttachments(a, index, name)
            && AttachRolePolicy(a, index, name, arn) == (a, Err(LimitExceeded))
            && d.attachments == rs.attachments[name := Attached(rs, name)] && d.roles == rs.roles)
      && DetachRolePolicy(d, name, arn) == (d, Err(NotFound))
  {
    var a := AttachRolePolicy(rs, index, name, arn).0;
    ShownMembers(index, SortedList(Attached(a, name)));
    assert Attached(rs, name) + {arn} - {arn} == Attached(rs, name);
    if arn in index { assert SetAttached(a, name, Attached(a, name)) == a; }
  }

  /** A role's name is free again once it is deleted, and a deleted role stays gone. */
  lemma CreateThenDeleteRole(rs: RoleState, name: string, doc: Option<Bytes>, path: Option<string>,
                             description: Option<string>, maxSession: Option<int>)
    requires CreateRole(rs, name, doc, path, description, maxSession).1.Ok?
    ensures
      var (a, role) := CreateRole(rs, name, doc, path, description, maxSession);
      var (d, deleted) := DeleteRole(a, name);
      && GetRole(a, name) == role && CreateRole(a, name, doc, path, description, maxSession) == (a, Err(EntityExists))
      && deleted.Ok? && d == rs && GetRole(d, name) == Err(NotFound) && DeleteRole(d, name) == (d, Err(NotFound))
  {
    assert CreateRole(rs, name, doc, path, description, maxSession).0.roles - {name} == rs.roles;
  }
}
