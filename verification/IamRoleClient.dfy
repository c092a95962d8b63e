/** The client object of `pkg/aws/iamrole`, the growing list of attached policies and the map a
    reconcile empties in place. */
module IamRoleClient {
  import opened Common
  import opened UrlEscape
  import opened RoleStore
  import RC = RoleClient
  import opened FakeIam

  /** `PolicyMap`: attached policies by name. */
  class PolicyMap {
    var items: map<string, string>

    constructor ()
      ensures items == map[]
    {
      items := map[];
    }

    predicate Contains(name: string)
      reads this
    {
      name in items
    }

    function Get(name: string): Option<string>
      reads this
    {
      if name in items then Some(items[name]) else None
    }

    method Set(name: string, arn: string)
      modifies this
      ensures items == old(items)[name := arn]
    {
      items := items[name := arn];
    }

    method Delete(name: string) returns (found: bool)
      modifies this
      ensures found == (name in old(items)) && items == old(items) - {name}
    {
      if name !in items { return false; }
      items := items - {name};
      found := true;
    }
  }

  /** `AttachedPolicies`. */
  class AttachedPolicies {
    var list: seq<AttachedPolicy>

    constructor ()
      ensures list == []
    {
      list := [];
    }

    method Insert(name: string, arn: string)
      modifies this
      ensures list == old(list) + [AttachedPolicy(name, arn)]
    {
      list := list + [AttachedPolicy(name, arn)];
    }

    method ToMap() returns (m: PolicyMap)
      ensures fresh(m) && m.items == RC.ToMap(list)
    {
      m := new PolicyMap();
      for i := 0 to |list|
        invariant fresh(m) && m.items == RC.ToMap(list[..i])
      {
        assert list[..i + 1][..i] == list[..i];
        m.Set(list[i].name, list[i].arn);
      }
      assert list[..|list|] == list;
    }
  }

  class Client {
    const service: IamService
    const path: string

    ghost function State(): RoleState
      reads service
    {
      service.Roles()
    }

    constructor (service: IamService, path: string)
      ensures this.service == service && this.path == path
    {
      this.service, this.path := service, path;
    }

    method ReadRole(name: string) returns (r: Result<RC.IamRole>)
      ensures r == RC.ReadRole(State(), name)
    {
      var role := service.GetRole(name);
      if role.Err? { return Err(role.error); }
      var trust := QueryUnescape(role.value.document);
      if trust.None? { return Err(BadEscape); }
      var description := "";
      if role.value.description.Some? { description := role.value.description.value; }
      r := Ok(RC.IamRole(role.value.arn, role.value.name, description, trust.value));
    }

    method Get(name: string, fails: bool) returns (r: Result<RC.IamRole>)
      ensures r == RC.Get(State(), name, fails)
    {
      if fails { return Err(ServiceFault); }
      r := ReadRole(name);
    }

    method Create(name: string, doc: Bytes, description: string, maxDuration: int, f: RC.CreateFault)
      returns (r: Result<RC.IamRole>)
      modifies service`roles
      ensures (State(), r) == RC.Create(old(State()), path, name, doc, description, maxDuration, f)
    {
      if f == RC.CreateFails { return Err(ServiceFault); }
      var out := service.CreateRole(name, Some(doc), Some("/" + path + "/"), Some(description), Some(maxDuration));
      if out.Err? { return Err(out.error); }
      r := Get(out.value.name, f == RC.CreateReadFails);
    }

    method Update(name: string, doc: Bytes, description: string, maxDuration: int, f: RC.UpdateFault)
      returns (r: Result<RC.IamRole>)
      modifies service`roles
      ensures (State(), r) == RC.Update(old(State()), name, doc, description, maxDuration, f)
    {
      var newDescription, newDuration := None, None;
      if description != "" { newDescription := Some(description); }
      if doc != [] {
        if f == RC.TrustFails { return Err(ServiceFault); }
        var trust := service.UpdateAssumeRolePolicy(name, doc);
        if trust.Err? { return Err(trust.error); }
      }
      if maxDuration > 0 { newDuration := Some(maxDuration); }
      if f == RC.UpdateFails { return Err(ServiceFault); }
      var out := service.UpdateRole(name, newDescription, newDuration);
      if out.Err? { return Err(out.error); }
      r := Get(name, f == RC.UpdateReadFails);
    }

    method Delete(name: string, fails: bool) returns (r: Result<()>)
      modifies service`roles
      ensures (State(), r) == RC.Delete(old(State()), name, fails)
    {
      if fails { return Err(ServiceFault); }
      r := service.DeleteRole(name);
    }

    method AttachPolicy(name: string, arn: string, fails: bool) returns (r: Result<()>)
      modifies service`attachments
      ensures (State(), r) == RC.AttachPolicy(old(State()), service.policyArnMapping, name, arn, fails)
    {
      if fails { return Err(ServiceFault); }
      r := service.AttachRolePolicy(name, arn);
    }

    method DetachPolicy(name: string, arn: string, fails: bool) returns (r: Result<()>)
      modifies service`attachments
      ensures (State(), r) == RC.DetachPolicy(old(State()), name, arn, fails)
    {
      if fails { return Err(ServiceFault); }
      r := service.DetachRolePolicy(name, arn);
    }

    method ListAttachedPolicies(name: string, fails: bool) returns (r: Result<AttachedPolicies>)
      modifies service`attachments
      ensures
        var (rs, l) := RC.ListAttachedPolicies(old(State()), service.policyArnMapping, name, fails);
        && State() == rs
        && (if l.Ok? then r.Ok? && fresh(r.value) && r.value.list == l.value else r == Err(l.error))
    {
      if name == "" { return Err(InvalidInput); }
      if fails { return Err(ServiceFault); }
      var out := service.ListAttachedRolePolicies(name);
      if out.Err? { return Err(out.error); }
      var rv := new AttachedPolicies();
      for i := 0 to |out.value|
        modifies rv
        invariant fresh(rv) && rv.list == out.value[..i]
      {
        rv.Insert(out.value[i].name, out.value[i].arn);
      }
      r := Ok(rv);
    }
  }
}
