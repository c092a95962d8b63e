/** The client object of `pkg/aws/iampolicy`: it drives a service and fills an LRU name cache. */
module IamPolicyClient {
  import opened Common
  import opened UrlEscape
  import opened PolicyStore
  import PC = PolicyClient
  import opened FakeIam

  const DEFAULT_CACHE_SIZE := 128

  /** The LRU cache: a lookup or an addition moves the key to the front, an addition over the
      capacity drops the last key. */
  class NameCache {
    const size: nat
    var items: map<string, string>
    var order: seq<string>

    ghost predicate Valid()
      reads this
    {
      Distinct(order) && |order| <= size && forall k :: k in items <==> k in order
    }

    static predicate Distinct(order: seq<string>) {
      forall i, j :: 0 <= i < j < |order| ==> order[i] != order[j]
    }

    constructor (size: nat)
      ensures Valid() && items == map[] && this.size == size
    {
      this.size, items, order := size, map[], [];
    }

    static function Without(order: seq<string>, key: string): (r: seq<string>)
      requires Distinct(order)
      ensures forall k :: k in r <==> k in order && k != key
      ensures Distinct(r)
      ensures |r| == if key in order then |order| - 1 else |order|
    {
      if order == [] then []
      else if order[0] == key then order[1..]
      else
        var rest := Without(order[1..], key);
        assert order == [order[0]] + order[1..];
        assert order[0] !in order[1..];
        [order[0]] + rest
    }

    /** The other keys keep their order. */
    static lemma {:induction false} WithoutDropsOne(order: seq<string>, i: nat)
      requires Distinct(order) && i < |order|
      ensures Without(order, order[i]) == order[..i] + order[i + 1..]
    {
      if i > 0 {
        WithoutDropsOne(order[1..], i - 1);
        assert order[1..][..i - 1] == order[1..i] && order[1..][i..] == order[i + 1..];
      }
    }

    method Touch(key: string)
      requires Valid() && key in items
      modifies this`order
      ensures Valid() && order == [key] + Without(old(order), key)
    {
      order := [key] + Without(order, key);
    }

    method Lookup(key: string) returns (r: Option<string>)
      requires Valid()
      modifies this`order
      ensures Valid()
      ensures r == if key in items then Some(items[key]) else None
      ensures order == if key in items then [key] + Without(old(order), key) else old(order)
    {
      if key !in items { return None; }
      Touch(key);
      r := Some(items[key]);
    }

    /** The key comes first. The least recent key goes when the cache was full and the key is a new one. */
    method Add(key: string, value: string) returns (ghost evicted: set<string>)
      requires Valid() && size > 0
      modifies this
      ensures Valid() && key !in evicted && |evicted| <= 1
      ensures items == old(items)[key := value] - evicted
      ensures evicted == if key !in old(items) && |old(order)| == size then {old(order)[size - 1]} else {}
      ensures order == [key] + if evicted == {} then Without(old(order), key) else old(order)[..size - 1]
    {
      if key in items {
        evicted := {};
        Refresh(key, value);
        assert items - {} == items;
      } else {
        WithoutAbsent(order, key);
        evicted := MakeRoom(key);
        PutAfterDrop(old(items), evicted, key, value);
        Insert(key, value);
      }
    }

    static lemma PutAfterDrop(m: map<string, string>, gone: set<string>, key: string, value: string)
      requires key !in gone
      ensures (m - gone)[key := value] == m[key := value] - gone
    {
    }

    method Refresh(key: string, value: string)
      requires Valid() && key in items
      modifies this
      ensures Valid() && items == old(items)[key := value] && order == [key] + Without(old(order), key)
    {
      items := items[key := value];
      order := [key] + Without(order, key);
    }

    method Insert(key: string, value: string)
      requires Valid() && key !in items && |order| < size
      modifies this
      ensures Valid() && items == old(items)[key := value] && order == [key] + old(order)
    {
      items := items[key := value];
      order := [key] + order;
    }

    static lemma {:induction false} WithoutAbsent(order: seq<string>, key: string)
      requires Distinct(order) && key !in order
      ensures Without(order, key) == order
    {
      if order != [] { WithoutAbsent(order[1..], key); }
    }

    method MakeRoom(key: string) returns (ghost evicted: set<string>)
      requires Valid() && size > 0 && key !in items
      modifies this
      ensures Valid() && |order| < size && items == old(items) - evicted && key !in evicted
      ensures evicted == if |old(order)| == size then {old(order)[size - 1]} else {}
      ensures order == if |old(order)| == size then old(order)[..size - 1] else old(order)
    {
      if |order| < size {
        assert items - {} == items;
        return {};
      }
      var last := order[size - 1];
      assert order == order[..size - 1] + [last];
      assert last !in order[..size - 1];
      evicted := {last};
      order := order[..size - 1];
      items := items - {last};
    }
  }

  class Client {
    const service: IamService
    const path: string
    const nameCache: NameCache
    const parse: PC.Parser

    ghost function State(): PC.ClientState
      reads service, nameCache
    {
      PC.ClientState(service.Policies(), nameCache.items)
    }

    ghost predicate Valid()
      reads service, nameCache
    {
      service.Valid() && nameCache.Valid() && nameCache.size > 0 && PC.IsClientPath(path)
    }

    constructor (service: IamService, path: string, parse: PC.Parser)
      requires service.Valid()
      ensures Valid() && fresh(nameCache) && nameCache.size == 128 && this.service == service
      ensures this.path == ClientPath(path) && this.parse == parse
      ensures State() == PC.ClientState(service.Policies(), map[])
    {
      var cache := new NameCache(DEFAULT_CACHE_SIZE);
      this.service, this.path, this.parse, nameCache := service, ClientPath(path), parse, cache;
    }

    /** The state with some cached names dropped. */
    static ghost function Forget(cs: PC.ClientState, evicted: set<string>): PC.ClientState {
      cs.(cache := cs.cache - evicted)
    }

    /** The loop over the listed policies, stopping at the first with the wanted name. */
    method SearchList(name: string) returns (arn: string)
      requires Valid()
      ensures arn == PC.Listed(service.Policies(), path, name)
    {
      var policies := service.ListPolicies(Some(path));
      assert forall n :: n in service.managedPolicies ==> Marked(n) && service.managedPolicies[n].policy.name == n;
      for i := 0 to |policies|
        invariant forall j :: 0 <= j < i ==> policies[j].name != name
      {
        var p := policies[i];
        assert p in policies;
        if p.name == name { return p.arn; }
      }
      assert PC.Listed(service.Policies(), path, name) != "" ==>
        service.Lists(service.managedPolicies.Keys, Some(path), service.managedPolicies[name].policy);
      arn := "";
    }

    method FindArn(name: string, fails: bool) returns (r: Result<string>, ghost evicted: set<string>)
      requires Valid()
      modifies nameCache
      ensures Valid()
      ensures r.Err? ==>
        r.error == ServiceFault && fails && name !in old(nameCache.items) && State() == old(State()) && evicted == {}
      ensures r.Ok? ==> (fails ==> name in old(nameCache.items))
      ensures r.Ok? ==> r.value == PC.FindArn(old(State()), path, name).0
      ensures r.Ok? ==> State() == Forget(PC.FindArn(old(State()), path, name).1, evicted)
    {
      evicted := {};
      var cached := nameCache.Lookup(name);
      assert nameCache.items - {} == nameCache.items;
      if cached.Some? { return Ok(cached.value), {}; }
      if fails { return Err(ServiceFault), {}; }
      var arn := SearchList(name);
      if arn != "" { evicted := nameCache.Add(name, arn); }
      r := Ok(arn);
    }

    method Read(arn: string) returns (r: Result<PC.IamPolicy>)
      requires Valid()
      ensures r == PC.Read(service.Policies(), arn)
    {
      var p := service.GetPolicy(arn);
      if p.Err? { return Err(p.error); }
      var v := service.GetPolicyVersion(p.value.arn, p.value.defaultVersionId);
      if v.Err? { return Err(v.error); }
      var d := QueryUnescape(v.value.document);
      if d.None? { return Err(BadEscape); }
      r := Ok(PC.IamPolicy(p.value.arn, p.value.name, p.value.description, p.value.defaultVersionId, d.value,
        p.value.createDate));
    }

    method Get(o: PC.GetOptions, f: PC.GetFault) returns (r: Result<PC.IamPolicy>, ghost evicted: set<string>)
      requires Valid()
      modifies nameCache
      ensures Valid()
      ensures (State(), r) == (Forget(PC.Get(old(State()), path, o, f).0, evicted), PC.Get(old(State()), path, o, f).1)
    {
      evicted := {};
      assert nameCache.items - {} == nameCache.items;
      var arn := o.arn;
      if o.name != "" {
        var found;
        found, evicted := FindArn(o.name, f == PC.ListFails);
        if found.Err? { return Err(found.error), evicted; }
        if found.value == "" { return Err(NotFound), evicted; }
        arn := found.value;
      }
      if f == PC.ReadFails { return Err(ServiceFault), evicted; }
      r := Read(arn);
    }

    method Create(name: string, doc: Bytes, description: string, f: PC.CreateFault) returns (r: Result<PC.IamPolicy>)
      requires Valid()
      modifies service`managedPolicies, service`policyArnMapping, service`now
      ensures Valid()
      ensures (State(), r) == PC.Create(old(State()), path, name, doc, description, f)
    {
      if f == PC.CreateFails { return Err(ServiceFault); }
      var created := service.CreatePolicy(name, Some(path), doc, description);
      if created.Err? { return Err(created.error); }
      if f == PC.CreateReadFails { return Err(ServiceFault); }
      r := Read(created.value.arn);
    }

    method Update(arn: string, doc: Bytes, f: PC.UpdateFault) returns (r: Result<PC.IamPolicy>)
      requires Valid()
      modifies service`managedPolicies, service`now
      ensures Valid() && nameCache.items == old(nameCache.items)
      ensures (service.Policies(), r) == PC.Update(old(service.Policies()), parse, arn, doc, f)
    {
      if f == PC.FirstReadFails { return Err(ServiceFault); }
      var policy := Read(arn);
      if policy.Err? { return policy; }
      if parse(policy.value.document).None? || parse(doc).None? { return Err(BadJson); }
      if parse(policy.value.document) == parse(doc) { return policy; }
      if f == PC.NewVersionFails { return Err(ServiceFault); }
      r := Rotate(policy.value, doc, f);
    }

    method Rotate(policy: PC.IamPolicy, doc: Bytes, f: PC.UpdateFault) returns (r: Result<PC.IamPolicy>)
      requires Valid()
      modifies service`managedPolicies, service`now
      ensures Valid()
      ensures (service.Policies(), r) == PC.Rotate(old(service.Policies()), policy, doc, f)
    {
      var created := service.CreatePolicyVersion(policy.arn, doc, true);
      if created.Err? { return Err(created.error); }
      if f == PC.DeleteVersionFails { return Err(ServiceFault); }
      var deleted := service.DeletePolicyVersion(policy.arn, policy.versionId);
      if deleted.Err? { return Err(deleted.error); }
      if f == PC.LastReadFails { return Err(ServiceFault); }
      r := Read(policy.arn);
    }

    method Delete(arn: string, fails: bool) returns (r: Result<()>)
      requires Valid()
      modifies service`managedPolicies, service`policyArnMapping
      ensures Valid() && nameCache.items == old(nameCache.items)
      ensures (service.Policies(), r) == PC.Delete(old(service.Policies()), arn, fails)
    {
      if fails { return Err(ServiceFault); }
      r := service.DeletePolicy(arn);
    }
  }
}
