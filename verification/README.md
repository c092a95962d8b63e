# Verification model of aws-iam-controller

The controller keeps AWS IAM policies and roles, and the role annotation of Kubernetes service
accounts, in step with three kinds of object: IamPolicy, IamRole and IamRoleBinding. This project
models its stateful cores over the in-repository fake of the IAM service and proves what they keep and
what they achieve, for every input, every failure and every run.

Each core exists twice. A function on values says what an operation or a reconcile pass does; the
lemmas are about these functions, single calls first, then whole runs. A class with the source's fields
and loops does the work step by step, and each method's contract ties the new state to that function
of the old state. `dafny verify dfyconfig.toml` checks everything.

| files | what they hold |
|---|---|
| `UrlEscape`, `VersionNames`, `SortedNames`, `Runs`, `Common` | query escaping, `v%d` and `Atoi`, sorted string sets, runs of a state machine, shared values |
| `PolicyStore`, `RoleStore`, `FakeIam` | the fake service: policies with versions, the ARN index, roles, attachments |
| `PolicyClient`, `VersionRotation`, `StuckRotation`, `UpstreamPolicies`, `IamPolicyClient` | the policy client: name cache, version rotation, the LRU object |
| `PolicyDocument` | document trees: normalisation, equality, serialization of a spec |
| `PolicyReconciler`, `PolicyPass`, `PolicyWorld`, `IamPolicyController` | the IamPolicy reconciler: md5 gate, finalizer, inverse index, runs |
| `RoleClient`, `IamRoleClient` | the role client, `AttachedPolicies` and `PolicyMap` |
| `TrustPolicy`, `BindManager`, `SidLabel` | the trust document and the statement the bind manager keeps in it |
| `RoleAttachments`, `RoleReconciler`, `RolePass`, `RoleWorld`, `PolicyStatus`, `IamRoleController` | the IamRole reconciler: attachment diff, trust policy, finalizer, runs |
| `BindingReconciler`, `BindingWorld`, `IamRoleBindingController` | the IamRoleBinding reconciler: ownership of the annotation, runs |

## How failures and runs are modelled

Reconciles of one kind are serial. Every API or AWS call of a pass can fail without effect (a call that
took effect and whose answer was lost is a failure of the call after it); the pass then aborts or, where
the source only logs, goes on. Between passes users edit and delete objects, and others create, delete,
attach and detach upstream. A run is a sequence of such steps, of any length. `time.Now` never repeats a
value. JSON decoding and encoding, the controller's path and the provider's ARN are parameters; the MD5
digest is taken as collision-free.

## What the code does that one might not expect

- `BindManager.Bind` copies the document struct but not its statements, so replacing the managed
  statement in place also changes the copy it is compared with, and the role is not updated. The account
  list in force is that of the first call since the last removal (`TrustPolicy.UpstreamIsInForce`); the
  last call takes effect exactly when it asks for the same accounts
  (`TrustPolicy.LastCallTakesEffectExactly`).
- `CreatePolicy` stores an escaped document and `CreatePolicyVersion` a raw one, while reads always
  unescape: an updated document survives exactly when it holds no `%` and no `+`.
- `Latest()` returns the oldest version. With one version the next name is new; a failed version delete
  leaves two, and from then on every rotation of the policy fails, whatever the client does in between,
  until the policy is deleted or others change its versions (`StuckRotation.NoRotationEverSucceeds`). A
  refused rotation does store its document, so a retry of it returns without error
  (`StuckRotation.RetryReturnsOk`).
- The next version name counts on from the oldest version, so no policy ever has three versions and the
  limit of five is never met (`PolicyStore.LimitIsNeverMet`).
- A policy whose raw document cannot be unescaped blocks its own finalization, since the lookup before the
  delete decodes it (`PolicyPass.FinalizePassExactly`).
- A new version that is not the default can overwrite the default version and lose the default flag
  (`PolicyStore.CreatePolicyVersionPointer` says exactly when).
- The name cache is right for slash-free names (`PolicyClient.CacheRefinesListSearch`); a run with a slash
  in a name makes it wrong (`PolicyClient.SlashBreaksTheCache`).
- The md5 gate is lost by a failure between a new version and its status patch, by a policy whose
  version names clash with nothing failing at all, and by a recreation neither of whose patches gets
  through (`PolicyPass.GateLostExactly` and the three lemmas after it); reverting the spec hides it
  (`PolicyPass.RevertHidesLostGate`).
- A failed list of roles is logged and read as an empty one, which wipes `status.attachedRoles`
  (`PolicyPass.PassSyncsRoles`).
- Deleting a role leaves its attachments in the fake, and a role created again under the name starts
  with them; the diff counts them (`RolePass.OkPassAttaches`).
- Two bindings may share a service account. One stays bound under passes of the other exactly until
  the other releases the same ARN from it (`BindingWorld.BoundUntilFreed`); a plain run from the start
  gets there (`BindingWorld.SharedAccountIsFreed`), and its own next faultless pass binds it again
  (`BindingWorld.FreedIsBoundAgain`).
- The placed annotation leaks exactly when the status patch after it is lost and no other binding
  records it (`BindingWorld.NoAnnotationLeakExactly`, `BindingWorld.LostStatusLeaks`).

## Model

| member | source | states |
|---|---|---|
| `UrlEscape.EscapeRoundTrip` | pkg/aws/fake/role.go:109 | query unescaping undoes query escaping on every byte string |
| `UrlEscape.RawDocumentSurvives` | pkg/aws/iampolicy/client.go:148 | unescaping leaves a raw string alone exactly when it holds no percent sign and no plus |
| `UrlEscape.EscapeAlphabet` | pkg/aws/fake/policy.go:81 | an escaped document holds unreserved characters, percent signs and pluses only |
| `VersionNames.VersionNameParses` | pkg/aws/fake/policy.go:109-114 | the number read from a printed version name is the number printed, so different numbers have different names |
| `PolicyStore.ArnInjective` | pkg/aws/fake/policy.go:69 | for slash-free names the ARN determines the path and the name |
| `PolicyStore.ArnCollision` | pkg/aws/fake/policy.go:69 | with slashes in names two policies can have one ARN |
| `PolicyStore.CreatePolicyBijection` | pkg/aws/fake/policy.go:52-100 | a create keeps the ARN index and the policy map in bijection exactly when the new ARN was unused |
| `PolicyStore.SlashFreeArnIsUnused` | pkg/aws/fake/policy.go:95-98 | an ARN is indexed exactly when the policy of that name exists at that path |
| `PolicyStore.AddVersionPointer` | pkg/aws/fake/policy.go:120-145 | a new version keeps one default, named by the policy, exactly when it is the default or has another name than the default |
| `PolicyStore.CreatePolicyVersionPointer` | pkg/aws/fake/policy.go:102-147 | a successful call keeps all store invariants exactly when it sets the default or the next name is not that of the default |
| `PolicyStore.DeletePolicyVersionKeeps` | pkg/aws/fake/policy.go:159-176 | deleting any version of any policy keeps the default pointer, the index and well-formed version maps |
| `PolicyStore.EveryRunKeepsInvariant` | pkg/aws/fake/policy.go:52-176 | in every run of creates, default versions and deletes, each policy has exactly one default version, the one its pointer names, under its own key, and the index matches the policies |
| `PolicyStore.SingletonNextIsFresh` | pkg/aws/fake/policy.go:109-114 | with a single version the next name is unused and its number one higher |
| `PolicyStore.SecondVersionIsOverwritten` | pkg/aws/fake/iamservice.go:72-84 | with v1 and v2 the next name is v2 again |
| `PolicyStore.LimitIsNeverMet` | pkg/aws/fake/policy.go:102-147 | in every run of store calls, orderly or not, no policy has more than two versions, so the limit of five is never answered |
| `PolicyStore.CreateThenDelete` | pkg/aws/fake/policy.go:52-187 | a created policy is found by its ARN and keeps its name taken; deleting it gives back the policies and the index there were |
| `FakeIam.IamService.VersionCount` | pkg/aws/fake/iamservice.go:51-58 | the counting loop returns the size of the version map |
| `FakeIam.IamService.LatestVersion` | pkg/aws/fake/iamservice.go:72-84 | the scan returns the version created first, whatever the iteration order |
| `FakeIam.IamService.UnsetDefault` | pkg/aws/fake/policy.go:121-133 | stopping at the first flagged version clears every default flag |
| `FakeIam.IamService.ListPolicies` | pkg/aws/fake/policy.go:35-50 | the list holds exactly the policies whose path is the prefix asked for |
| `FakeIam.IamService.CreatePolicy` | pkg/aws/fake/policy.go:52-100 | the maps and the answer become those of the store function the invariants are about |
| `FakeIam.IamService.CreatePolicyVersion` | pkg/aws/fake/policy.go:102-147 | the same, through the scan for the latest version, the count and the flag loop |
| `FakeIam.IamService.DeletePolicy` | pkg/aws/fake/policy.go:149-157 | policy and index entry go together, or nothing changes |
| `FakeIam.IamService.DeletePolicyVersion` | pkg/aws/fake/policy.go:159-176 | the version goes unless it is missing or the default |
| `FakeIam.IamService.GetPolicyVersion` | pkg/aws/fake/policy.go:189-208 | the scan by version id finds exactly what the key holds |
| `FakeIam.IamService.CreateRole` | pkg/aws/fake/role.go:75-118 | the role map and the answer become those of the role store function |
| `FakeIam.IamService.UpdateAssumeRolePolicy` | pkg/aws/fake/role.go:33-43 | the stored document is the escaped one; a missing role panics |
| `FakeIam.IamService.AttachRolePolicy` | pkg/aws/fake/role.go:134-158 | an unknown ARN and one attached already are refused, each leaving an entry for the role |
| `FakeIam.IamService.DetachRolePolicy` | pkg/aws/fake/role.go:160-183 | exactly the ARN goes, or the call fails and nothing changes |
| `FakeIam.IamService.ListAttachedRolePolicies` | pkg/aws/fake/role.go:185-218 | the list is the stored ARNs the index knows, in order, with the index's names |
| `RoleStore.ShownMembers` | pkg/aws/fake/role.go:200-217 | an entry is listed exactly when its ARN is stored and indexed under its name |
| `RoleStore.ShownInOrder` | pkg/aws/fake/role.go:202-217 | a list shows the ARNs in increasing order, each once |
| `RoleStore.AttachThenDetach` | pkg/aws/fake/role.go:134-218 | attaching a known policy lists it, a second attach is refused, and detaching gives back what was attached; an unknown one is refused but leaves an entry |
| `RoleStore.CreateThenDeleteRole` | pkg/aws/fake/role.go:62-132 | a created role is found and keeps its name taken; deleting it gives back the roles there were |
| `PolicyClient.GetRefinesUncached` | pkg/aws/iampolicy/client.go:97-163 | a lookup through the cache answers as the uncached search does, for every sound cache |
| `PolicyClient.EveryRunKeepsClientOk` | pkg/aws/iampolicy/client.go:41-171 | index and cache stay sound under every interleaving of client calls, faults, direct service calls and evictions |
| `PolicyClient.CacheRefinesListSearch` | pkg/aws/iampolicy/client.go:97-138 | after any such run from the empty service a lookup gives exactly the uncached answer, though Delete never clears the cache |
| `PolicyClient.SlashBreaksTheCache` | pkg/aws/iampolicy/client.go:97-116 | with slashes in names a deleted policy's cached ARN leads to another policy |
| `IamPolicyClient.NameCache.Add` | pkg/aws/iampolicy/client.go:108-112 | an addition puts the key first; a new key in a full cache drops the least recent one, and nothing else is ever dropped |
| `IamPolicyClient.NameCache.Without` | pkg/aws/iampolicy/client.go:98-101 | moving a key leaves every other key in the recency list once; `WithoutDropsOne` says in their order |
| `IamPolicyClient.Client.FindArn` | pkg/aws/iampolicy/client.go:97-116 | cache, list search and addition give the ARN and the cache of the value-level lookup, up to evictions |
| `IamPolicyClient.Client.Get` | pkg/aws/iampolicy/client.go:118-163 | the answer is that of the value-level Get, by name or ARN, under any fault |
| `IamPolicyClient.Client.Create` | pkg/aws/iampolicy/client.go:41-52 | state and answer are those of the value-level Create |
| `IamPolicyClient.Client.Update` | pkg/aws/iampolicy/client.go:54-95 | state and answer are those of the value-level Update, wherever it stops; the cache stays |
| `IamPolicyClient.Client.Delete` | pkg/aws/iampolicy/client.go:165-171 | the policy goes and the name cache keeps its entry |
| `VersionRotation.RotateOfSingle` | pkg/aws/iampolicy/client.go:74-94 | create-new-default then delete-old is one replacement of the single version by the next |
| `VersionRotation.UpdateThenRead` | pkg/aws/iampolicy/client.go:54-95 | a faultless update to a changed document returns what the next read does, and the very bytes exactly when they hold no percent sign and no plus |
| `VersionRotation.UpdateToEqualDocument` | pkg/aws/iampolicy/client.go:69-72 | an update to a document that parses the same writes nothing |
| `VersionRotation.CreateThenRead` | pkg/aws/fake/policy.go:81 | a created policy reads back byte for byte, with its name, description and ARN |
| `VersionRotation.CreatedPolicyIs` | pkg/aws/fake/policy.go:52-100 | a policy the client creates has the literal ARN `arn:aws:iam::<account>:policy/<path>/<name>`, its path and its description |
| `VersionRotation.EveryRunIsSingleVersion` | pkg/aws/iampolicy/types.go:46-48 | in every run with no failed version delete each live policy has one version, flagged and named as default; its number never falls, and keeps its content while it stays |
| `VersionRotation.VersionNumberCounts` | pkg/aws/iampolicy/client.go:54-95 | in every such run from the empty service the number is one plus the count of calls since creation that changed the document, and the version holds the document of the last of them |
| `VersionRotation.FailedDeleteLeavesTwo` | pkg/aws/iampolicy/client.go:83-92 | a failed version delete leaves two versions, and the next name is that of the default |
| `VersionRotation.RotationStaysStuck` | pkg/aws/iampolicy/client.go:83-92 | the next rotation overwrites the default document and fails with a delete conflict |
| `StuckRotation.RotationFails` | pkg/aws/fake/policy.go:109-134 | whatever fails, a rotation of a policy whose version names clash returns an error and leaves the names clashing |
| `StuckRotation.NoRotationEverSucceeds` | pkg/aws/iampolicy/client.go:83-92 | after any run of client calls with any failures, direct creates and deletes, an update of such a policy succeeds only when it has nothing to write |
| `StuckRotation.RetryReturnsOk` | pkg/aws/iampolicy/client.go:69-92 | a refused rotation has stored its document, and a retry returns without error or change |
| `UpstreamPolicies.GetSees` | controllers/iampolicy_controller.go:182-186 | asking by recorded ARN and asking by name reach the same upstream policy |
| `UpstreamPolicies.CreateMakes` | pkg/aws/iampolicy/client.go:41-52 | a create makes the policy of its name with the document given and touches no other; it succeeds exactly when the name was free and nothing failed |
| `UpstreamPolicies.UpdateChanges` | pkg/aws/iampolicy/client.go:54-95 | an update touches no other policy, writes nothing for an equal document, and on success the policy shows the new document unescaped |
| `UpstreamPolicies.DeleteRemoves` | pkg/aws/iampolicy/client.go:165-171 | a delete that does not fail removes the policy of the name and no other |
| `PolicyDocument.DocumentObject.SetStatements` | pkg/aws/iampolicy/document.go:118-131 | the caller's slice is normalised in place and kept without a copy |
| `PolicyDocument.NewDocumentFromDecoded` | pkg/aws/iampolicy/document.go:137-156 | a decoded document has the default version unless the text has one, and normalised statements |
| `PolicyDocument.NormalizeIdempotent` | pkg/aws/iampolicy/document.go:118-131 | normalising twice is normalising once |
| `PolicyDocument.ParsedEquality` | pkg/aws/iampolicy/document.go:106-108 | two parsed documents are equal exactly when versions agree and statements mean the same one by one, a lone string being a list of one |
| `PolicyDocument.ToMapLoop` | controllers/iampolicy_controller.go:261-267 | the loop builds the map of the fold over the conditions |
| `PolicyDocument.LastOccurrenceWins` | controllers/iampolicy_controller.go:261-267 | a repeated condition key takes its last value |
| `PolicyDocument.PermutedConditions` | controllers/iampolicy_controller.go:261-267 | permuting conditions with distinct keys gives the same map |
| `PolicyDocument.SerializeDocument` | controllers/iampolicy_controller.go:269-342 | the document built has the version 2012-10-17 and, in order, each statement's sid, effect, actions, resources and conditions where `IsSerialized` puts them, with no reference to the function it is tied to |
| `PolicyDocument.SerializedIs` | controllers/iampolicy_controller.go:269-348 | a document is the serialized spec exactly when it meets that description: actions under action, resources under resource, an operator exactly when it has conditions, each key with the values of its last occurrence |
| `PolicyDocument.ReorderedSpecSerializesEqually` | controllers/iampolicy_controller.go:269-348 | serialization keeps statement order and count, and specs that differ in condition order inside operators serialize equally |
| `SortedNames.SortedListUnique` | controllers/iampolicy_controller.go:160-162 | a set of names has one strictly increasing list |
| `SortedNames.List` | controllers/iampolicy_controller.go:160-162 | insertion builds that list |
| `PolicyPass.FinalizePassKeeps` | controllers/iampolicy_controller.go:176-210 | wherever finalization stops, other policies stay, nothing is created, and the finalizer goes only when the policy is gone |
| `PolicyPass.FinalizePassExactly` | controllers/iampolicy_controller.go:176-210 | under any faults, finalization ends without error exactly when the lookup gets through and finds nothing, or a policy that reads and is deleted, and the finalizer comes off; what is left upstream and of the object is exact in every case |
| `PolicyPass.PassKeepsGuarded` | controllers/iampolicy_controller.go:72-120 | with aborts at any call, a policy exists upstream only under its object's finalizer |
| `PolicyPass.UpdateExactly` | pkg/aws/iampolicy/client.go:54-95 | when an update stores a new version, what upstream then shows, and when the call succeeds, for every fault and every state of the versions |
| `PolicyPass.SyncUpstreamExactly` | controllers/iampolicy_controller.go:81-142 | under any faults, the success of the upstream half, the document upstream shows afterwards, and the ARN and digest recorded, exactly |
| `PolicyPass.LivePassExactly` | controllers/iampolicy_controller.go:76-174 | under any faults, a live pass ends without error exactly when the finalizer is there or added, the upstream half gets through and the role lists agree or are written; the object it leaves is exact, attached roles included |
| `PolicyPass.LivePassStatus` | controllers/iampolicy_controller.go:108-137 | the ARN the service gives the name is recorded exactly when a digest is |
| `PolicyPass.ErrorFreePassConverges` | controllers/iampolicy_controller.go:81-174 | a pass without error ends with upstream showing the serialized spec and its digest recorded, exactly unless it stored the spec raw and that reads as another document |
| `PolicyPass.ConvergedPassIsQuiet` | controllers/iampolicy_controller.go:121-174 | a pass over a converged object writes nothing upstream or in the cluster |
| `PolicyPass.ReorderedSpecStaysConverged` | controllers/iampolicy_controller.go:88-121 | an edit that reorders conditions leaves a converged object converged |
| `PolicyPass.GateLostExactly` | controllers/iampolicy_controller.go:63-142 | from every state and for every fault, a pass loses the gate exactly when it stores a new version that reads as another document than the one recorded, or makes the policy without recording it over another digest; each is a condition on the state and the faults |
| `PolicyPass.SingleVersionGate` | controllers/iampolicy_controller.go:121-142 | over a single version that is a failure between the new version and the end of the status patch |
| `PolicyPass.ClashLosesGate` | controllers/iampolicy_controller.go:121-142 | over clashing version names the gate is lost with nothing failing |
| `PolicyPass.RecreationGate` | controllers/iampolicy_controller.go:93-142 | over nothing upstream the gate is lost exactly when neither status patch of the recreation gets through |
| `PolicyPass.RevertHidesLostGate` | controllers/iampolicy_controller.go:121-142 | once the gate is lost, a faultless pass over the reverted spec succeeds and writes nothing |
| `PolicyPass.PassSyncsRoles` | controllers/iampolicy_controller.go:144-171 | an error-free pass records exactly the referencing roles, sorted, unless the list failed while some role references the policy |
| `PolicyWorld.NoOrphanPolicy` | controllers/iampolicy_controller.go:63-210 | in every run, with any call failing, a policy at the controller's path exists only while its object exists and holds the finalizer |
| `PolicyWorld.StatusRecordsArn` | controllers/iampolicy_controller.go:108-137 | in every run, with any call failing, an object records a digest exactly when it records an ARN, and then the ARN of its name at the controller's path |
| `PolicyWorld.GateSafety` | controllers/iampolicy_controller.go:121-142 | throughout a run a recorded digest describes what upstream shows, exactly when no reconcile meets the condition for losing the gate |
| `PolicyWorld.RunConverges` | controllers/iampolicy_controller.go:63-174 | after any such run a pass without error converges and has recorded the policy's ARN, unless its raw document reads as another, and the next one changes neither object nor upstream |
| `PolicyWorld.RunProgresses` | controllers/iampolicy_controller.go:63-174 | after any run a reconcile of a live object leaves it off the queue exactly when its upstream half gets through, and then ARN, digest and exactly the referencing roles are recorded |
| `PolicyWorld.RunFinalizes` | controllers/iampolicy_controller.go:176-210 | after any run one faultless reconcile of a deleting object with the finalizer takes it off the queue exactly when upstream holds nothing of the name or a policy that reads, and then policy and finalizer are gone |
| `PolicyWorld.UnqueuedIsSynced` | controllers/iampolicy_controller.go:63-210 | in every run, with any call failing, a policy at the controller's path whose name is not queued has a live object; if the run kept the gate, it shows that object's present spec, with the digest recorded |
| `PolicyWorld.AttachedRolesInverse` | controllers/iampolicy_controller.go:231-258 | when lists succeed, in every reachable state each live policy not queued records exactly the roles that reference it, sorted |
| `IamPolicyController.IamPolicyReconciler.SyncAttachedRoles` | controllers/iampolicy_controller.go:144-171 | the two set differences and the sorted list give the status of the pass function, whose outcome `PolicyPass.LivePassExactly` states |
| `IamPolicyController.IamPolicyReconciler.GetOrCreate` | controllers/iampolicy_controller.go:93-120 | lookup, create and status patch leave object, service and cache as the pass function says, whose ARN and digest `PolicyPass.SyncUpstreamExactly` states |
| `IamPolicyController.IamPolicyReconciler.UpdateUpstream` | controllers/iampolicy_controller.go:121-142 | the gate looks at the digest read when the pass began; the status patch is that of the pass function, stated by `PolicyPass.SyncUpstreamExactly` |
| `IamPolicyController.IamPolicyReconciler.Finalize` | controllers/iampolicy_controller.go:176-210 | finalization leaves objects and service as the pass function says, whose outcome `PolicyPass.FinalizePassExactly` states |
| `IamPolicyController.IamPolicyReconciler.SerializeDocument` | controllers/iampolicy_controller.go:269-348 | the text is the encoding of a document that meets `IsSerialized` for the object's spec |
| `IamPolicyController.IamPolicyReconciler.Reconcile` | controllers/iampolicy_controller.go:63-174 | one reconcile is one step of the runs |
| `RoleClient.CreateThenGet` | pkg/aws/iamrole/client.go:20-33 | a created role reads back with its trust document byte for byte, its name, description and ARN; other roles stay |
| `RoleClient.CreatedRoleIs` | pkg/aws/fake/role.go:75-118 | a role the client creates has the literal ARN `arn:aws:iam::<account>:role/<path>/<name>`, path, description and duration |
| `RoleClient.UpdateThenGet` | pkg/aws/iamrole/client.go:35-59 | after an update, failing or not, the role shows the new document, or the old one if the new one is empty or the trust call failed |
| `RoleClient.UpdateWritesFields` | pkg/aws/iamrole/client.go:35-59 | a non-empty description and a positive duration are written exactly when the update reaches the role, and otherwise stay; path and ARN stay |
| `RoleClient.RunShowsLastWritten` | pkg/aws/iamrole/client.go:20-88 | in every run of role calls with any failures the roles that exist, and the document each shows, are those last written |
| `RoleClient.ToMapHoldsList` | pkg/aws/iamrole/types.go:87-93 | with one ARN per name the map holds exactly the entries of the list |
| `IamRoleClient.AttachedPolicies.ToMap` | pkg/aws/iamrole/types.go:87-93 | the loop builds a fresh map, the last entry of a name winning |
| `IamRoleClient.Client.Create` | pkg/aws/iamrole/client.go:20-33 | state and answer are those of the value-level Create |
| `IamRoleClient.Client.Update` | pkg/aws/iamrole/client.go:35-59 | trust document, then role, then read, stopping where a call fails |
| `IamRoleClient.Client.Get` | pkg/aws/iamrole/client.go:61-81 | the role with its document unescaped |
| `IamRoleClient.Client.ListAttachedPolicies` | pkg/aws/iamrole/client.go:110-129 | an empty name is refused; otherwise the list is the service's, inserted in order |
| `TrustPolicy.AccountsMeanMembership` | pkg/bindmanager/manager.go:57-61 | the single string and the list mean the same: membership |
| `TrustPolicy.ManagedIs` | pkg/bindmanager/manager.go:50-71 | the managed statement field by field, with the literal effect, action and subjects |
| `TrustPolicy.ManagedGrants` | pkg/bindmanager/manager.go:63-71 | the managed statement grants a request exactly when its token speaks for one of the accounts |
| `TrustPolicy.EditKeepsOthers` | pkg/bindmanager/manager.go:72-90 | the edit keeps every statement with another label, in order |
| `TrustPolicy.EditLabelled` | pkg/bindmanager/manager.go:72-90 | of the labelled statements the edit adds the first, replaces the last or drops the last |
| `TrustPolicy.BuiltGrantsExactly` | pkg/bindmanager/manager.go:43-90 | with at most one managed statement before, the document built has one exactly when there are accounts and grants through it exactly what speaks for one of them |
| `TrustPolicy.BuiltAdmitsAccount` | pkg/bindmanager/manager.go:43-90 | on colon-free namespaces it admits a service account exactly when it was given |
| `TrustPolicy.SubjectInjective` | pkg/bindmanager/manager.go:115-117 | on colon-free namespaces a subject string names one service account |
| `TrustPolicy.IssuerAfterSlash` | pkg/bindmanager/manager.go:110-113 | the issuer is what follows the first slash of the provider's ARN, or all of it |
| `TrustPolicy.UpstreamIsInForce` | pkg/bindmanager/manager.go:36-103 | over any run of calls the role's managed statement is that of the first call since the last removal |
| `TrustPolicy.LastCallTakesEffectExactly` | pkg/bindmanager/manager.go:88-92 | the role admits exactly the last call's accounts if and only if the list of the call that began the period formats to the same subjects |
| `TrustPolicy.SubjectsAreAccounts` | pkg/bindmanager/manager.go:115-117 | on colon-free namespaces two lists format to the same subjects exactly when they hold the same accounts |
| `TrustPolicy.ReplacementIsLost` | pkg/bindmanager/manager.go:88-92 | after binding one account and then another, the role admits the first only |
| `BindManager.BindShows` | pkg/bindmanager/manager.go:30-105 | a call leaves the built document upstream when it appends or removes, the old one when it would replace or fails; other roles stay |
| `BindManager.BindRefuses` | pkg/bindmanager/manager.go:32-41 | a missing or unreadable role or a document that does not parse fails the call and changes nothing |
| `BindManager.RunCallsGrant` | pkg/bindmanager/manager.go:30-105 | over any run of calls, failing ones included, the role grants through the managed statement exactly the accounts in force and keeps its other statements |
| `BindManager.TrustDocument.Append` | pkg/bindmanager/manager.go:75 | the statement is appended, in place or in a copy, and the sharer's statements stay |
| `BindManager.TrustDocument.Remove` | pkg/bindmanager/manager.go:80-86 | the rebuilt slice has every statement but the one found |
| `BindManager.TrustDocument.Find` | pkg/bindmanager/manager.go:43-48 | the loop ends with the last statement of the label |
| `BindManager.BindManager.Edit` | pkg/bindmanager/manager.go:42-92 | the document becomes the one built, and differs from its shallow copy exactly when a statement was appended or removed |
| `BindManager.BindManager.Bind` | pkg/bindmanager/manager.go:30-105 | the role store and the answer are those of the value-level call |
| `SidLabel.SidLabelInverts` | pkg/bindmanager/manager.go:119-125 | on hyphenated names the label has letters and digits only, and splitting it at capitals gives back the segments of namespace and name |
| `SidLabel.LabelsEqualExactly` | pkg/bindmanager/manager.go:119-125 | two labels are equal exactly when the segments of namespace and name, one after the other, are |
| `SidLabel.LabelInjectiveInName` | pkg/bindmanager/manager.go:119-125 | within one namespace, the empty one included, the label determines the name |
| `SidLabel.LabelCollision` | pkg/bindmanager/manager.go:119-125 | across namespaces it does not |
| `RoleAttachments.ListingOfShown` | pkg/aws/iamrole/types.go:87-93 | the map of the list is the attached ARNs by name |
| `RoleAttachments.AttachmentsConverge` | controllers/iamrole_controller.go:207-255 | whatever fails, the names attached afterwards are the referenced ones attached before or reached by an attach call, and the others whose detach failed |
| `RoleAttachments.FaultlessAttachments` | controllers/iamrole_controller.go:207-255 | with nothing failing: exactly the referenced names attached before or resolvable now, duplicates and leftovers included |
| `RoleAttachments.HiddenArnsStay` | pkg/aws/fake/role.go:205-210 | ARNs the index does not know are neither shown nor touched |
| `RoleAttachments.SyncKeepsRest` | controllers/iamrole_controller.go:207-255 | the diff touches no role and no other role's attachments |
| `RoleAttachments.SecondSyncIsQuiet` | controllers/iamrole_controller.go:207-255 | a second diff changes nothing |
| `PolicyStatus.ReachableStatusNames` | controllers/iampolicy_controller.go:108-116 | after any run of the IamPolicy controller each recorded ARN the service knows is that of the policy of its name |
| `PolicyStatus.ConvergedIsResolvable` | controllers/iamrole_controller.go:224-232 | a policy that a pass converged can be attached by the role reconciler: it has an ARN, and the service knows it |
| `RoleReconciler.LivePassKeeps` | controllers/iamrole_controller.go:177-274 | wherever a live pass stops it touched its own role only, deleted none and created one only under the finalizer |
| `RoleReconciler.FinalizePassKeeps` | controllers/iamrole_controller.go:156-173 | a pass over a deleting object creates nothing, and gives up the finalizer only when the role is gone |
| `RoleReconciler.Int32` | controllers/iamrole_controller.go:315 | the duration wraps to a signed 32-bit integer |
| `RolePass.OkPassRecordsArn` | controllers/iamrole_controller.go:257-266 | a pass without error records the upstream role's ARN, and the subjects unless that patch failed |
| `RolePass.OkPassCreates` | controllers/iamrole_controller.go:312-322 | a role it created has the client's path, the ARN that goes with it, no description and the spec's duration |
| `RolePass.OkPassShowsTrust` | controllers/iamrole_controller.go:276-310 | it leaves the trust document that the bind manager's edit gives, where that edit reaches the role |
| `RolePass.OkPassAttaches` | controllers/iamrole_controller.go:186-274 | it attaches exactly the expected names, counting leftovers of an earlier role of the name |
| `RolePass.FaultlessPassSucceeds` | controllers/iamrole_controller.go:147-274 | a pass in which nothing fails returns without error |
| `RolePass.SecondPassIsQuiet` | controllers/iamrole_controller.go:147-274 | a faultless pass settles the role, and the next one changes neither object nor service |
| `RolePass.FaultlessFinalizeRemoves` | controllers/iamrole_controller.go:354-371 | a faultless pass over a deleting object removes the role, then the object or its finalizer, and leaves attachments behind |
| `RolePass.LivePassExactly` | controllers/iamrole_controller.go:147-310 | under any faults, a live pass returns without error exactly when the role is found or made, its list is read, the ARN is up to date or recorded, the bindings are read and the bind call succeeds; the object it leaves is exact |
| `RolePass.FinalizePassExactly` | controllers/iamrole_controller.go:156-173 | under any faults, the outcome, the role store and the object after a pass over a deleting object, exactly |
| `RolePass.LivePassBinds` | controllers/iamrole_controller.go:147-310 | wherever a pass stops, the role has the document it started with, or the one the bind call makes of it, exactly when the pass reached the call and the call landed |
| `RoleWorld.NoOrphanRole` | controllers/iamrole_controller.go:147-371 | in every run, with any call failing, a role the controller created exists only while its object exists and holds the finalizer |
| `RoleWorld.TrustFollowsBinds` | controllers/iamrole_controller.go:276-310 | in every run, with any call failing, a created role shows exactly the document that the bind calls landed since its creation make of the default policy |
| `RoleWorld.RoleGrantsAccountsInForce` | controllers/iamrole_controller.go:276-310 | so it grants, through the managed statement, exactly the accounts of the first of those calls since the last one without accounts, and keeps the default policy's statements |
| `RoleWorld.TrustKeepsItsShape` | controllers/iamrole_controller.go:276-310 | in every run, with any call failing, a created role's trust document has the default policy's statements in order and at most one managed statement |
| `RoleWorld.FinalizerGoesLast` | controllers/iamrole_controller.go:156-173 | in every state a reconcile gives up the finalizer only when the role is gone, and a deleting object creates none |
| `RoleWorld.RunConverges` | controllers/iamrole_controller.go:147-274 | after any run one faultless reconcile settles a role of the controller and the next changes nothing |
| `IamRoleController.IamRoleReconciler.AttachReferences` | controllers/iamrole_controller.go:215-245 | the loop crosses references out of the map in place and attaches the others, as the fold says |
| `IamRoleController.IamRoleReconciler.DetachRest` | controllers/iamrole_controller.go:248-255 | the loop over the rest of the map detaches exactly its ARNs, in any order |
| `IamRoleController.IamRoleReconciler.ListSubjects` | controllers/iamrole_controller.go:280-294 | there is a strictly increasing list of exactly the positions of the bindings that reference the role, and the subject at each has that binding's namespace and service account |
| `IamRoleController.SubjectIsBound` | controllers/iamrole_controller.go:280-294 | a service account is among the subjects exactly when a binding of its namespace names it and references the role |
| `IamRoleController.CreatedRoleAdmits` | controllers/iamrole_controller.go:147-310 | a role that a faultless reconcile creates admits `system:serviceaccount:ns:name` exactly when a binding in ns names that account and references the role |
| `IamRoleController.IamRoleReconciler.UpdateTrustPolicy` | controllers/iamrole_controller.go:276-310 | list, bind and status patch leave object and service as the pass function says |
| `IamRoleController.IamRoleReconciler.Finalize` | controllers/iamrole_controller.go:341-371 | role, then finalizer, as the pass function says |
| `IamRoleController.IamRoleReconciler.Reconcile` | controllers/iamrole_controller.go:147-274 | one reconcile is one pass of the runs |
| `BindingReconciler.PassOwnsItsChanges` | controllers/iamrolebinding_controller.go:92-181 | whatever fails, a pass only sets an absent annotation of the referenced account to the role's non-empty ARN or removes the recorded ARN from the recorded account; never one ARN to another |
| `BindingReconciler.LivePassSucceedsExactly` | controllers/iamrolebinding_controller.go:58-112 | a faultless pass succeeds exactly when the role has an ARN and the account carries none or that one; then account and record agree, the old account is free of the recorded ARN and the next pass changes nothing |
| `BindingReconciler.ConflictKeepsRecord` | controllers/iamrolebinding_controller.go:138-143 | a conflict arises only from another ARN, and leaves annotation and record |
| `BindingReconciler.AnnotatesExactly` | controllers/iamrolebinding_controller.go:58-109 | the condition on state and faults under which a pass annotates, and the one under which it then fails to record it |
| `BindingReconciler.LivePassExactly` | controllers/iamrolebinding_controller.go:58-112 | under any faults, the success of a live pass, its conflict and its refusal of a role without an ARN, the binding and every annotation it leaves, exactly |
| `BindingReconciler.FinalizePassExactly` | controllers/iamrolebinding_controller.go:44-57 | under any faults, the outcome of a pass over a deleting binding, the annotation and the finalizer, exactly |
| `BindingWorld.NoAnnotationLeakExactly` | controllers/iamrolebinding_controller.go:36-184 | throughout a run every placed annotation that stands is recorded by a binding with the finalizer, exactly when no pass loses the status patch of an annotation that no other binding records; the condition is on the state and the faults |
| `BindingWorld.NothingLeftBehind` | controllers/iamrolebinding_controller.go:44-57 | once the last binding of a namespace is gone no annotation placed by the controller is left in it |
| `BindingWorld.LostStatusLeaks` | controllers/iamrolebinding_controller.go:97-109 | from the start, a lost status patch, a move to another account and a delete leave the first account annotated |
| `BindingWorld.BoundUntilFreed` | controllers/iamrolebinding_controller.go:156-184 | under a pass of another binding a bound one stays as it is, and stays bound exactly unless the other gets as far as releasing the same account of the same ARN |
| `BindingWorld.FreedIsBoundAgain` | controllers/iamrolebinding_controller.go:134-152 | its next faultless pass binds the account again |
| `BindingWorld.SharedAccountIsFreed` | controllers/iamrolebinding_controller.go:156-184 | a run from the start, with nothing failing, in which deleting one of two bindings of an account frees it under the other |
| `IamRoleBindingController.IamRoleBindingReconciler.Finalize` | controllers/iamrolebinding_controller.go:156-184 | the annotation goes exactly when it is the recorded ARN on the recorded account |
| `IamRoleBindingController.IamRoleBindingReconciler.BindServiceAccount` | controllers/iamrolebinding_controller.go:114-154 | annotation and answer are those of the value-level call |
| `IamRoleBindingController.IamRoleBindingReconciler.BindRole` | controllers/iamrolebinding_controller.go:86-109 | role, annotation and status, stopping where a call fails |
| `IamRoleBindingController.IamRoleBindingReconciler.Reconcile` | controllers/iamrolebinding_controller.go:36-112 | one reconcile is one step of the runs, with the outcome of the pass |

## Left out

- JSON text: decoding and encoding are parameters on trees; where a lemma needs them to round-trip it says so. Fields a trust document's decoder drops are gone before the model starts.
- MD5: the digest is a free constructor, so without collisions.
- `Reset`'s seeded managed policy and service role: the runs start from empty maps, since the seed indexes an ARN whose policy it never stores.
- `policyVersions.Default` is unused in the source.
- The real SDK: pagination, path-prefix matching beyond the fake's equality, throttling, eventual consistency.
- `VersionNames.VersionNameParses`: `Atoi` is on unbounded integers, without the 64-bit range error, which a policy meets after 2^63 changed documents.
- Object identity in the fake's role map: a stored role is a value, so a caller that keeps a reference to it is not modelled.
- Server-side apply: a patch sets the named fields; field ownership, managed fields and conflicts between owners are not modelled.
- Concurrency between reconcilers of different kinds inside one pass: a pass reads the rest of the cluster once. Stale informer caches are not modelled.
- `PolicyWorld.NoOrphanPolicy`: other users of the account are taken to stay off the controller's path and to use slash-free names.
- `SidLabel.SidLabelInverts`: for segments of a lowercase letter followed by lowercase letters or digits; Unicode title casing, dots and segments that start with a digit are outside the model.
- `TrustPolicy.ManagedGrants`: a request matches by `StringEquals` only, and an empty statement list and an absent one are the same value.
- Role ids, creation dates of roles and permissions boundaries.
- Webhooks, default values, Prometheus counters, events, logging, flags and manager setup: no state that the properties depend on.
- Watches other than the one that feeds the policy queue, and the queue's rate limiting.
