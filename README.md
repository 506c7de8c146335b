# mongoose-acl: the ACL engine, modelled in Dafny

This project models the ACL engine of mongoose-acl (`src/index.js`). The engine keeps one access-control container per document, `{tags: [{name, grants}], grants}`, where every grant is `{grantee, permission, scope}`.

- **Tags hold grants.** A writer (`AclWriter`) is bound either to one named tag or to the container itself. It selects a scope, reads access levels, and grants or denies permissions.
- **`apply` merges the tags.** It folds the grants of all tags, in order, into a last-write-wins map keyed by (scope, grantee). It then rebuilds the container's canonical `grants` list from that map.
- **Helpers around the writer.**
  - `getAcl` initialises the container lazily and creates missing tags.
  - `selectList` computes field projections.
  - `explainAcl` reports a level per scope.
  - `findAccessibleBy` filters documents by their canonical grants.
  - The plugin normalises its options first.

Modules, one file each:

| file | module | contents |
|---|---|---|
| `values.dfy` | `Values` | grants, keys, error outcomes, insertion-ordered sets (JavaScript `Set`) |
| `grantees.dfy` | `Grantees` | `toSetOfGrantees` and the grant matcher |
| `access.dfy` | `Access` | the max-reduce of `access` |
| `upsert.dfy` | `Upsert` | the per-grantee step of `grantAccess` as a function on grant lists, and what it guarantees |
| `merge.dfy` | `Merge` | the merge of `apply`: the insertion-ordered map, the canonical list, and the string-keyed merge as the code writes it |
| `plugin.dfy` | `Plugin` | option normalisation, `selectList`, the `findAccessibleBy` filter, `explainAcl` |
| `acl.dfy` | `Acl` | the stateful part: `Tag`, `Container`, `Document` and `AclWriter` as classes whose methods update fields in place, plus `getAcl` |
| `scenarios.dfy` | `Scenarios` | the usage scenarios of `src/tests.ts`, stated and proved on the model |

A thrown `assert.ok` or `Error` is modelled as an error value (`Result.Err` or `Outcome.Fail`) with a name per condition. Modelled state changes:

- `emit('modify')` is a ghost counter `emitted` on the writer.
- The host document's `isSelected` and `isModified`/`markModified` are the booleans `selected` and `modified`.

Behaviours of the code worth knowing:

- `grantAccess` tests the raw grantees for truthiness before it checks the permission. So `grantAccess(undefined, -1)` fails with "grantees undefined", not "invalid permission".
- `grantAccess` never checks that a scope is selected. Grants written before any `scope(...)` carry an undefined scope (`None`).
- An empty array of grantees is truthy. It passes the checks and changes nothing.
- `apply` never clears the modified flag.
- `access` reads the grants of the writer's own target: a tag, or the canonical list when no tag name was given.

## Model

| member | source | states |
|---|---|---|
| Values.Add | src/index.js:236 | `Set.add`: the element is present afterwards; a present element keeps its place, a new one goes last; distinctness is kept |
| Values.Dedup | src/index.js:25-27 | `new Set(array)`: a distinct sequence with exactly the array's elements, never longer |
| Values.DedupOfDistinct | src/index.js:29-31 | a sequence that is already distinct is its own set, so returning a `Set` unchanged agrees with converting it |
| Values.DedupOrder | src/index.js:25-27 | the set keeps the order of first occurrences |
| Grantees.ToSetOfGrantees | src/index.js:21-34 | falsy gives the empty set; a holder's `grantees` is unwrapped; an array or Set gives exactly its distinct elements; a bare identifier gives a singleton; the result is always distinct |
| Grantees.IsTruthy | src/index.js:98 | `assert.ok(grantees)`: `undefined` and the empty identifier fail; an array, Set or holder passes even when empty |
| Grantees.IsMatchingGrant | src/index.js:38-43 | the matcher accepts only grants in the given scope, and a falsy grantees value matches nothing |
| Grantees.MatchingSingle | src/index.js:38-43 | the matcher for one identifier accepts a grant iff its key is (scope, id), and the empty identifier matches nothing |
| Grantees.NormaliseTwice | src/index.js:21-34 | normalising an already normalised set changes nothing |
| Access.Matching | src/index.js:79-80 | the filter keeps exactly the grants in the scope whose grantee is in the set |
| Access.MaxFrom | src/index.js:81 | the reduce is at least its start value, bounds every permission, and equals the start or one of the permissions |
| Access.AccessLevel | src/index.js:75-82 | the level is never below `lowestAccess`, bounds every matching permission, and is `lowestAccess` or the permission of some matching grant |
| Access.SoleGrantDecides | src/index.js:75-82 | a grant that is alone for its key and at or above the floor is exactly the level its grantee gets |
| Access.NoMatchIsFloor | src/index.js:75-82 | with no matching grant the level is `lowestAccess` |
| Upsert.FindMatching | src/index.js:103 | `grants.find(...)` returns the first matching grant, or none iff nothing matches |
| Upsert.FirstWithKey | src/index.js:103 | the lookup by (scope, grantee) finds the first grant with that key, or none iff no grant has it |
| Upsert.StepWith | src/index.js:105-120 | a missing grant is appended as (grantee, permission, currentScope); a found one gets the permission and keeps its grantee and scope, and every other grant stays |
| Upsert.Step | src/index.js:103-120 | one iteration adds at most one grant, leaves the requested grant in the list, and touches no grant of another key |
| Upsert.UpsertAll | src/index.js:101-121 | the loop adds at most one grant per grantee, and afterwards every requested grantee holds the grant (grantee, permission, currentScope) |
| Upsert.UpsertSnoc | src/index.js:102-121 | the loop over grantees processes them one at a time, in set order |
| Upsert.FirstWithKeyStable | src/index.js:103-113 | appending grants with other keys does not change which grant a lookup finds |
| Upsert.UpdatedExtend | src/index.js:117-119 | processing one more grantee updates only the first grant with its key |
| Upsert.ShapedStep | src/index.js:101-121 | each loop step keeps the shape: the original grants in place (updated only for processed keys), then the appended new grants |
| Upsert.UpsertShape | src/index.js:101-121 | after the loop the grants are the originals, updated in place, followed by the appended missing ones |
| Upsert.MissingFrom | src/index.js:105-113 | every appended grant is (currentScope, a requested grantee, the permission) and had no grant before |
| Upsert.MissingDistinct | src/index.js:105-113 | no grantee is appended twice |
| Upsert.MissingHas | src/index.js:105-113 | a requested grantee without a grant gets one appended |
| Upsert.MissingEmpty | src/index.js:105-113 | when every requested grantee already has a grant, nothing is appended |
| Upsert.UpsertKeys | src/index.js:101-121 | the existing grants keep their keys and places; grants are only added at the end, each for a requested grantee in the current scope with the permission, and only when none existed |
| Upsert.UpsertGrants | src/index.js:101-121 | afterwards the grant found for each requested grantee has the requested permission |
| Upsert.UpsertKeepsUnique | src/index.js:101-121 | at most one grant per (scope, grantee) is preserved |
| Upsert.ChangesAltered | src/index.js:105-120 | when some requested grantee lacks a grant or has another permission, the grants change |
| Upsert.NoChangesSame | src/index.js:105-120 | when every requested grantee already has the permission, the grants stay as they were |
| Upsert.UpsertChangesIff | src/index.js:105-120 | the grants change iff some requested grantee lacks a grant or has a different permission |
| Upsert.UpsertIdempotent | src/index.js:101-121 | repeating the same grant changes nothing |
| Upsert.GrantThenAccess | src/index.js:75-121 | after a grant, each requested grantee has exactly the permission, and `access` for it reads back the permission |
| Upsert.ChangesSplit | src/index.js:105-120 | a set of grantees causes a change iff its prefix or its last grantee does |
| Upsert.StepChanges | src/index.js:105-120 | a step changes the grants iff that grantee lacked a grant or had another permission before the loop |
| Upsert.GrantStep | src/index.js:102-121 | one more iteration extends the prefix result, and changes relative to the start iff the prefix or the step changed |
| Upsert.StepAsWritten | src/index.js:103-120 | one iteration as written adds at most one grant and leaves the requested grant in the list |
| Upsert.UpsertAllAsWritten | src/index.js:101-121 | the loop as written adds at most one grant per grantee |
| Upsert.AsWrittenAgrees | src/index.js:103 | the lookup as written agrees with the corrected one whenever no grantee is the empty string |
| Upsert.EmptyGranteeDuplicates | src/index.js:103-113 | as written, granting to `""` twice leaves two grants with the same key |
| Upsert.EmptyGranteeOnce | src/index.js:101-121 | corrected, granting to `""` twice leaves one grant |
| Merge.OrderedMap.Put | src/index.js:142 | `Map.set`: a new key goes last, an existing key keeps its place, and the value is replaced |
| Merge.Keys | src/index.js:141 | one (scope, grantee) key per grant, in order |
| Merge.Collect | src/index.js:138-144 | the fold over grants yields a well-formed map |
| Merge.CollectSnoc | src/index.js:140-143 | the fold of one more grant is one more `set` |
| Merge.CollectPrefixStep | src/index.js:140-143 | one inner-loop iteration extends the fold by that grant |
| Merge.Merge | src/index.js:131-159 | the canonical list is never longer than the grants of all tags together |
| Merge.EntriesAppend | src/index.js:142-155 | a `set` of a new key adds its entry at the end of the rebuilt list |
| Merge.MergeSnocNew | src/index.js:138-155 | a grant whose (scope, grantee) no earlier grant has appends exactly that grant to the canonical list |
| Merge.MergeSnocOld | src/index.js:138-155 | a grant whose (scope, grantee) is already present replaces that canonical grant in place |
| Merge.Entries | src/index.js:146-155 | the rebuilt list has one grant per map entry, in map order, with the entry's key and value |
| Merge.CollectKeys | src/index.js:138-144 | the map's keys are the distinct keys of all grants, in order of first occurrence |
| Merge.LastValueSnoc | src/index.js:142 | a `set` for another key keeps a key's last value |
| Merge.CollectValues | src/index.js:138-144 | each key's value is the permission of its last occurrence |
| Merge.CollectSpec | src/index.js:138-144 | keys by first occurrence, values from the last occurrence |
| Merge.MergeUnique | src/index.js:131-159 | the canonical list has at most one grant per (scope, grantee) |
| Merge.MergeCovers | src/index.js:131-159 | a key is in the canonical list iff some tag grant has it |
| Merge.MergeLastWins | src/index.js:131-159 | each canonical grant's permission comes from the last grant with its key |
| Merge.MergeThenAccess | src/index.js:75-159 | after `apply`, `access` for the last grant of a (scope, grantee) reads back that grant's permission |
| Merge.MergeOrder | src/index.js:131-159 | canonical grants are ordered by the first occurrence of their keys |
| Merge.LaterTagsWin | src/index.js:139-143 | for a key that the later tags contain, the later tags' last grant decides |
| Merge.UniqueKeysDistinct | src/index.js:141 | grants with unique keys give distinct keys |
| Merge.MergeOfUnique | src/index.js:131-159 | merging a list with unique keys returns it unchanged |
| Merge.MergeIdempotent | src/index.js:131-159 | merging twice equals merging once |
| Merge.ScopeText | src/index.js:141 | the template literal renders a present scope as itself and an absent one as `"undefined"` |
| Merge.KeyText | src/index.js:141 | the string key is the rendered scope, then `:`, then the grantee |
| Merge.IndexOf | src/index.js:148 | the first position of the separator |
| Merge.Split | src/index.js:148 | `split(':')` always yields at least one part |
| Merge.CollectText | src/index.js:138-144 | the string-keyed fold as written yields a well-formed map |
| Merge.SplitAt | src/index.js:148 | splitting `a:b` with a colon-free `a` gives `a` followed by the split of `b` |
| Merge.EntriesAsWritten | src/index.js:146-155 | the rebuild as written gives one grant per map entry, each with a scope and the entry's value |
| Merge.MergeAsWritten | src/index.js:131-159 | as written, every canonical grant carries a scope string, even for grants that had none |
| Merge.ColonGranteeTruncated | src/index.js:141-148 | as written, a grantee `u:v` comes back as `u` |
| Merge.UnscopedBecomesUndefined | src/index.js:141-152 | as written, a grant with no scope comes back with the scope `"undefined"` |
| Merge.SplitKeyText | src/index.js:141-148 | for colon-free parts, the key text splits back into scope and grantee |
| Merge.MirrorsPut | src/index.js:141-142 | a `set` on the string key mirrors a `set` on the pair key |
| Merge.CollectMirrors | src/index.js:138-144 | on colon-free grants the string-keyed fold mirrors the pair-keyed one |
| Merge.MergeAsWrittenAgrees | src/index.js:131-159 | on scoped, colon-free grants the merge as written equals the corrected merge |
| Plugin.WithoutReserved | src/index.js:244 | exactly the user scopes not named `acl` remain |
| Plugin.Normalise | src/index.js:243-252 | succeeds iff the path (default `acl`) has no `.`; an empty path becomes `acl`; the reserved scope `{acl, [acl]}` is last and only there; every user scope but a reserved-name one is kept and no other scope is added; `lowestAccess` defaults to 0 |
| Plugin.ScopeNames | src/index.js:66-68 | `scopes()` lists the configured scope names in order |
| Plugin.Requested | src/index.js:232-235 | the configured scopes whose name was requested |
| Plugin.AddAll | src/index.js:236 | adding paths to a set gives a distinct union |
| Plugin.UnionOfPaths | src/index.js:236 | the union of the selected scopes' paths, without duplicates |
| Plugin.SelectList | src/index.js:230-239 | distinct; contains `opts.path`; a path is in it iff it is `opts.path` or a path of a requested scope |
| Plugin.RequestedBySet | src/index.js:232-235 | the requested scopes depend only on the set of requested names |
| Plugin.SelectListOrderFree | src/index.js:230-239 | the selection does not depend on the order or repetition of requested names |
| Plugin.FindAccessibleBy | src/index.js:200-215 | fails on a permission below `lowestAccess`, then on a falsy scope; otherwise the query carries the scope, threshold and normalised grantees, and projects the `acl` selection iff asked |
| Plugin.Select | src/index.js:206-210 | the query keeps exactly the documents it accepts |
| Plugin.SelectIgnoresProjection | src/index.js:200-215 | the documents the query finds are the same whether `selectAclScope` is set or not |
| Plugin.SelectMonotone | src/index.js:206-210 | raising the threshold can only shrink the result |
| Plugin.Accepts | src/index.js:206-210 | the `elemMatch` never accepts a document without grants or a query with no grantees |
| Plugin.AcceptsIffAccess | src/index.js:206-210 | above the floor, a document is accepted iff `access` in that scope reaches the threshold |
| Plugin.Explain | src/index.js:219-227 | fails iff a scope name is falsy; otherwise its keys are exactly the configured scope names, each mapped to its access level, never below `lowestAccess` |
| Acl.Tag.constructor | src/index.js:187 | a new tag has the name and no grants |
| Acl.Container.constructor | src/index.js:182 | a new container has no tags and no grants |
| Acl.Container.EnsureTag | src/index.js:185-192 | an existing tag of that name is returned with nothing changed; otherwise a fresh empty tag is appended and returned; the container's grants are untouched and unique tag names stay unique |
| Acl.AllGrants | src/index.js:139-140 | a grant is in the concatenation iff some tag holds it |
| Acl.TagNames | src/index.js:72 | the tag names, in order |
| Acl.Without | src/index.js:164 | `filter(v => v !== tag)` keeps every other tag and drops the tag |
| Acl.WithoutAt | src/index.js:164 | removing a tag that occurs once gives the list without that position |
| Acl.WithoutConcat | src/index.js:164 | the filter distributes over concatenation |
| Acl.WithoutNone | src/index.js:164 | removing an absent tag changes nothing |
| Acl.FindTag | src/index.js:186-192 | the first tag with the name, or none iff no tag has it |
| Acl.KnownGrantees | src/index.js:93-95 | exactly the grantees of canonical grants in the current scope |
| Acl.CollectGrants | src/index.js:140-143 | the inner loop extends the map by the grants of one tag |
| Acl.CollectTags | src/index.js:138-144 | the outer loop builds the map of all tags' grants in order |
| Acl.Rebuild | src/index.js:146-155 | the rebuilt list is the map's entries in order |
| Acl.Document.constructor | src/index.js:179-183 | a document starts with no ACL field and not modified |
| Acl.Document.EnsureAcl | src/index.js:181-183 | an absent ACL field becomes a fresh empty container; a present one is kept |
| Acl.Document.GetAcl | src/index.js:177-196 | fails when the field is not selected; otherwise initialises the container, adds the named tag only when missing, and returns a fresh writer bound to that tag or, without a name, to the container |
| Acl.Document.ExplainAcl | src/index.js:219-227 | `explainAcl` is `Explain` over the canonical grants, creates an empty container when there is none, and leaves an existing container's tags and grants unchanged |
| Acl.AclWriter.constructor | src/index.js:49-53 | the writer holds document, target and options, with no scope selected |
| Acl.AclWriter.SetTargetGrants | src/index.js:113-118 | the target's grants become the new list; a tag keeps its name and a container its tags |
| Acl.AclWriter.MarkModified | src/index.js:170-173 | sets the modified flag and emits one notification |
| Acl.AclWriter.Scope | src/index.js:56-63 | fails on a falsy name, then on an unconfigured one, keeping the scope; otherwise selects it |
| Acl.AclWriter.Tags | src/index.js:71-73 | the container's tag names, in order |
| Acl.AclWriter.Access | src/index.js:75-82 | fails iff no scope is selected; otherwise the `AccessLevel` properties over the target's grants, and `lowestAccess` for empty grantees |
| Acl.AclWriter.UpsertOne | src/index.js:103-120 | one iteration: the grants become `Step` of the old ones; marks modified and emits iff they changed; a tag keeps its name and a container its tags |
| Acl.AclWriter.UpsertEach | src/index.js:102-121 | the loop: the grants become `UpsertAll` of the old ones; modified is set and a notification emitted iff they changed; a tag target leaves the container as it was, keeps its name, and a container keeps its tags |
| Acl.AclWriter.GrantAccess | src/index.js:90-123 | falsy grantees fail first, then a permission below `lowestAccess`, with nothing changed; otherwise the target's grants become `UpsertAll` over the normalised grantees, and modified and the notifications follow whether they changed; a tag keeps its name and a container its tags |
| Acl.AclWriter.GrantToKnown | src/index.js:90-96 | the one-argument form grants to the distinct canonical grantees of the current scope; only the permission check can fail, and then nothing changes and nothing is emitted; on success a notification is emitted iff the grants change; a tag target leaves the container as it was |
| Acl.AclWriter.DenyAccess | src/index.js:126-128 | `grantAccess(grantees, lowestAccess)`: fails only on falsy grantees, and then nothing changes and nothing is emitted; on success the grants become the upsert at `lowestAccess`, and a notification is emitted iff they change; a tag target leaves the container as it was |
| Acl.AclWriter.Apply | src/index.js:131-159 | without the modified flag nothing changes; otherwise the canonical grants become the merge of all tags' grants, tags are kept, and a notification is emitted iff the result is non-empty |
| Acl.AclWriter.Reject | src/index.js:162-167 | a tag target is removed from the tags, a container target keeps them; modified is set and a notification emitted |
| Scenarios.HomeOptions | src/tests.ts:18-44 | the test schema's options normalise to scopes info, money, acl |
| Scenarios.RequestedMoney | src/tests.ts:184-197 | requesting `money` selects the money scope |
| Scenarios.MoneyPaths | src/tests.ts:184-197 | the money scope's paths form the set locker, piggiBank |
| Scenarios.SelectMoney | src/tests.ts:184-197 | `selectList('money')` is locker, piggiBank, acl |
| Scenarios.AliceInfoAtLeast1 | src/tests.ts:244-264 | alice at level 1 in info matches all three documents |
| Scenarios.AliceInfoAtLeast2 | src/tests.ts:244-271 | at level 2 the last two match |
| Scenarios.AliceInfoAtLeast42 | src/tests.ts:244-278 | at level 42 none match |
| Scenarios.AliceMoney | src/tests.ts:244-285 | in money none match |
| Scenarios.GrantOne | src/index.js:101-121 | granting to one non-empty identifier is one step of the loop |
| Scenarios.InfoGrants | src/tests.ts:51-56 | the first three grants in info are appended |
| Scenarios.InfoUpdates | src/tests.ts:57-59 | denying bob and regranting alice update in place |
| Scenarios.MoneyGrants | src/tests.ts:61-63 | the money grants are appended after the info ones |
| Scenarios.SingleTagChain | src/tests.ts:47-76 | the single-tag chain leaves five grants in the tag, and `apply` copies exactly those five to the canonical list |
| Scenarios.FirstTagUnique | src/tests.ts:47-76 | those five grants have distinct keys |
| Scenarios.FirstTagLevel | src/tests.ts:67-71 | each of those grantees reads back its own permission |
| Scenarios.SingleTagAccess | src/tests.ts:67-72 | access reads 42, 0, 2 in info and 1, 0, 0 in money for alice, bob, carol |
| Scenarios.NoCarolInMoney | src/tests.ts:72 | carol has no money grant, so reads the floor |
| Scenarios.ThreeTagGrants | src/tests.ts:83-103 | each of the three tags receives the grants of its own chain |
| Scenarios.FirstTagMerge | src/tests.ts:83-90 | `apply` after the first tag keeps its three grants |
| Scenarios.SecondTagMerge | src/tests.ts:92-97 | the second tag's grants overwrite bob's and alice's `info` grants in place |
| Scenarios.ThirdTagFirstMerge | src/tests.ts:99-104 | the third tag's grant for alice is appended |
| Scenarios.ThreeTagChain | src/tests.ts:79-117 | after the third `apply` the canonical list is the five grants of the single-tag usage |
| Scenarios.ThreeTagAccess | src/tests.ts:106-116 | the canonical list has five grants, and `access` reads 42, 0, 2 in info and 1, 0, 0 in money |

## Left out

- Grant ids (`new ObjectId()`) are never read by the engine, so grants carry no id.
- `emit('modify')` is only counted, in the ghost field `emitted`. Listeners are not modelled.
- The Mongoose wiring is not modelled: schema paths, indexes, installing statics and methods, and building the `Query` in `findAccessibleBy`. Only the predicate of its `elemMatch` (`Plugin.Accepts`) and its projection choice are modelled.
- `select()` joins `selectList` with spaces. The join is trivial and is not modelled.
- `end()` returns the writer itself, so it needs no model.
- Grantees and scopes are strings. Loose equality `==` and coercion of non-string grantees (such as ObjectIds) are not modelled.
- Permissions are integers. JavaScript numbers may be fractional; that is not modelled.
- `grantAccess(G, null)` also takes the one-argument path in the code. The model offers that path only as `GrantToKnown(permission)`.
- The holder form of grantees (`{grantees: ...}`) is modelled only with an array or Set inside.
- `apply` empties `acl.grants` and pushes entries into it. The model builds the new list as a value (`Rebuild`) and assigns it to the field in one step.
- A grant's permission is updated in place in the code. The model replaces the element of the grants sequence, so aliasing of grant objects between tags is not captured.
- `isSelected`, `isModified` and `markModified` of the host document are plain booleans.
- Acl.Document.GetAcl: does not state that tag names stay unique; `Acl.Container.EnsureTag` states it for the step that appends.

## Findings

| source | as written | input that shows it | evidently intended | confidence | as-written member | corrected member |
|---|---|---|---|---|---|---|
| src/index.js:141-148 | `apply` keys the map by the string `scope:grantee` and reads the key back with `split(':')`, keeping the first two parts | a grant for grantee `a:b` in scope `info` comes back as grantee `a` | the canonical grant keeps the grantee `a:b` | medium, not executed | Merge.ColonGranteeTruncated | Merge.MergeCovers |
| src/index.js:141-152 | a grant without a scope is keyed `undefined:g` and rebuilt with the scope string `"undefined"` | `grantAccess('alice', 1)` before any `scope(...)`, then `apply` | the canonical grant keeps the absent scope, so the key round-trips | low, not executed | Merge.UnscopedBecomesUndefined | Merge.MergeCovers |
| src/index.js:103 | the lookup passes the single grantee to `isMatchingGrant`, which normalises it with `toSetOfGrantees`, and the empty string becomes the empty set, so it never finds an existing grant | `grantAccess([''], 1)` twice: two grants for the same key | one grant per (scope, grantee) | medium, not executed | Upsert.EmptyGranteeDuplicates | Upsert.EmptyGranteeOnce |

The model uses the corrected definitions throughout:

- `Merge.Merge` keys the map by the (scope, grantee) pair.
- `Upsert.Step` looks grants up by key.
- The as-written counterparts are `Merge.MergeAsWritten` and `Upsert.UpsertAllAsWritten`.
- `Merge.MergeAsWrittenAgrees` and `Upsert.AsWrittenAgrees` prove the two versions agree on every input the findings exclude.
