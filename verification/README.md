# kat-ipfs write authorization, modelled in Dafny

This project models the per-record, ownership-aware write-authorization
engine of kat-ipfs. The engine sits on top of an OrbitDB key-value store. It has
four parts:

- **Ownership index** (`ACLKeyValueIndex`). It folds the store's log, newest
  entry first, into a map `key -> (value, owner identity id)`. Only the newest
  entry that names a key decides that key.
- **Intent classifier** (`determineAccessType`). It compares a candidate
  entry's identity with the recorded owner of its key. The answer is one of
  create, update-own, update-other, delete-own, delete-other or no-op.
- **Decision gate** (`canAppend`). It denies an invalid identity first. It then
  merges the class defaults, the controller defaults and the stored flag record
  field by field, and admits the intent if its flag is on. The no-op delete is
  always admitted, and an unknown intent throws.
- **Permission store transitions**. These are `setPerms`, `purgePerms`, `grant`
  and `revoke`, plus the `ensureAddress` normaliser and the creator rule of
  `create`.

Everything is modelled as pure functions over immutable data:

- log entries are datatypes (`KeyValueIndex.Entry`);
- the index is a `map<string, Binding<V>>`;
- the permission store is a `map<string, PartialFlags>` (`AccessController.Acl`);
- a stored flag record is a `PartialFlags`, where every field may be missing;
- a thrown error is the `Failure` side of a `Result`.

Modules:

- `Wrappers` (wrappers.dfy) holds `Option` and `Result`.
- `AccessController` (access_controller.dfy) models src/domain/ACLAccessController.ts.
- `KeyValueIndex` (key_value_index.dfy) models `ACLKeyValueIndex`.
- `KeyValueStore` (key_value_store.dfy) models `ACLKeyValueStore`: the
  classifier, and its installation as the controller's `determineAccessType`.
- `Scenarios` (scenarios.dfy) replays the outcomes that tests/unit/ACLTests.ts
  expects.

The fold is specified against an independent reference, `NewestFor` (the last
entry of the log filed under a key). The predicate `ResolvedAt` states, key by
key, what the fold must produce. Idempotence, "only the newest entry matters",
and the skipping of unkeyed or shadowed entries are all derived from that
per-key statement.

Three behaviours of the code are easy to misread; the model follows the code:

- An op other than `PUT`/`DEL` classifies as `create`. It is not an error
  (src/domain/ACLKeyValueStore.ts:104-109).
- `canAppend` looks up the stored flags under `entry.id`, not under the record's
  key (src/domain/ACLAccessController.ts:70). OrbitDB gives every entry of a log
  the same id, so the flags are in effect per log. The record `create` stores
  under the creator's identity id is never consulted for ordinary entries.
  `Scenarios.CreatorRecordNotConsulted` shows this.
- `grant`/`revoke` on a key with nothing stored start from `new AccessFlags()`,
  the class defaults, not from the controller defaults. The first grant
  therefore pins every other capability of that key to its class default
  (`AccessController.GrantMasksControllerDefaults`).

## Model

| member | source | states |
|---|---|---|
| AccessController.Override | src/domain/ACLAccessController.ts:70 | each flag is taken from the override record when that record carries the field, otherwise from the base |
| AccessController.EffectiveFlags | src/domain/ACLAccessController.ts:17-24 | precedence of the three layers per capability: the record stored under the id, then the controller defaults, then the class defaults (create, updateOwn, deleteOwn on; updateOther, deleteOther off) |
| AccessController.CanAppend | src/domain/ACLAccessController.ts:62-95 | an invalid identity is denied whatever the intent; the call throws exactly when the identity is valid and no intent is known; noop is admitted; every other intent is admitted exactly when its effective flag is on |
| AccessController.DefaultPolicy | src/domain/ACLAccessController.ts:72-94 | with no controller defaults and no stored record, exactly create, updateOwn, deleteOwn and noop are admitted |
| AccessController.SetPerms | src/domain/ACLAccessController.ts:97-99 | the given record is stored under the id and every other key is unchanged |
| AccessController.SetThenPurge | src/domain/ACLAccessController.ts:97-103 | purging a key after setting its record gives the same store as purging it directly |
| AccessController.PurgePerms | src/domain/ACLAccessController.ts:101-103 | the id has no stored record afterwards and every other key is unchanged |
| AccessController.PurgeRevertsToDefaults | src/domain/ACLAccessController.ts:101-103 | after a purge, the effective flags of the id are those of an empty store (defaults only) |
| AccessController.SetCapability | src/domain/ACLAccessController.ts:136-148 | the key's record gets exactly the one capability set to the value; the other fields come from the stored record or the class defaults; other keys are unchanged |
| AccessController.Grant | src/domain/ACLAccessController.ts:136-141 | the capability is stored as true; other fields come from the stored record or the class defaults; other keys are unchanged |
| AccessController.Revoke | src/domain/ACLAccessController.ts:143-148 | the capability is stored as false; other fields come from the stored record or the class defaults; other keys are unchanged |
| AccessController.SetCapabilityOverwrites | src/domain/ACLAccessController.ts:136-148 | setting a capability twice leaves the store as setting it once to the second value |
| AccessController.GrantThenRevoke | src/domain/ACLAccessController.ts:136-148 | revoke after grant gives the same store as a plain revoke, so the capability ends up false |
| AccessController.GrantIdempotent | src/domain/ACLAccessController.ts:136-141 | granting twice gives the same store as granting once |
| AccessController.GrantAdmitsRevokeDenies | src/domain/ACLAccessController.ts:136-148 | after a grant under an id, that intent is admitted for entries with that id whatever the defaults; after a revoke it is denied |
| AccessController.GrantMasksControllerDefaults | src/domain/ACLAccessController.ts:137 | a first grant on a key with no stored record sets every other capability of that key to its class default, whatever the controller defaults say |
| AccessController.LastSegment | src/domain/ACLAccessController.ts:175 | the result is the longest suffix without a slash: it contains no slash, and it is either the whole string or preceded by a slash |
| AccessController.LastSegmentAfterSlash | src/domain/ACLAccessController.ts:176 | the last segment of `s + "/" + seg` is `seg` when `seg` has no slash |
| AccessController.SuffixAppended | src/domain/ACLAccessController.ts:176 | after `/_access` is appended to any address, its last segment is `_access` |
| AccessController.EnsureAddress | src/domain/ACLAccessController.ts:174-177 | the result's last segment is `_access`; the input comes back unchanged exactly when its last segment already is `_access`, and otherwise `/_access` is appended |
| AccessController.EnsureAddressIdempotent | src/domain/ACLAccessController.ts:174-177 | normalising twice equals normalising once |
| AccessController.DefaultAclAddress | src/domain/ACLAccessController.ts:158 | the default store name normalises to `default-acl-controller/_access` |
| AccessController.CreateController | src/domain/ACLAccessController.ts:156-172 | the store is opened under the normalised given address, or the normalised default name when none is given; when `creatorHasAllPerms !== false` and no address is given, the all-true record is stored under the creator's identity id (so its effective flags are all true) and no other key changes; otherwise the loaded store is kept as is |
| KeyValueIndex.Get | src/domain/ACLKeyValueStore.ts:29-31 | `get` returns nothing exactly when the key is unbound or bound to an absent value (`?.value ?? null` merges the two), and otherwise the bound value |
| KeyValueIndex.NewestForNone | src/domain/ACLKeyValueStore.ts:39 | the reference definition of the entry that decides a key finds nothing exactly when no log entry has that (truthy) key |
| KeyValueIndex.NewestForIsLast | src/domain/ACLKeyValueStore.ts:37-40 | what the reference definition finds is the entry at the last log position filed under the key: no later entry names the key |
| KeyValueIndex.NewestForConcat | src/domain/ACLKeyValueStore.ts:34-37 | in a log `a + b`, the newest entry for a key comes from `b` when `b` names the key, and from `a` otherwise |
| KeyValueIndex.FoldResolves | src/domain/ACLKeyValueStore.ts:37-51 | the reduction with a handled set leaves handled keys alone and resolves every other key by its newest entry |
| KeyValueIndex.UpdateIndex | src/domain/ACLKeyValueStore.ts:33-52 | for every key: a newest PUT binds the key to that entry's value and identity; a newest DEL unbinds it; a newest entry with another op, or no entry at all, keeps the prior binding |
| KeyValueIndex.NewestPutBinds | src/domain/ACLKeyValueStore.ts:41-45 | when the newest entry for a key is a PUT, the key is bound to that entry's value and identity id, and `get` returns that value |
| KeyValueIndex.NewestDelUnbinds | src/domain/ACLKeyValueStore.ts:46-47 | when the newest entry for a key is a DEL, the key is absent after the fold and `get` returns nothing |
| KeyValueIndex.UnresolvedKeyKept | src/domain/ACLKeyValueStore.ts:39-48 | a key with no keyed entry, or whose newest entry has an unrecognised op, keeps its prior binding and `get` result |
| KeyValueIndex.NewestDetermines | src/domain/ACLKeyValueStore.ts:37-40 | two logs whose newest entries agree for every key fold any index to the same result |
| KeyValueIndex.OlderEntryIgnored | src/domain/ACLKeyValueStore.ts:39-40 | an entry anywhere in the log whose key is named again by a later entry has no effect: dropping it leaves the fold unchanged |
| KeyValueIndex.UnkeyedEntryIgnored | src/domain/ACLKeyValueStore.ts:39 | an entry whose key is absent or empty has no effect, wherever it sits in the log |
| KeyValueIndex.UpdateIndexIdempotent | src/domain/ACLKeyValueStore.ts:33-52 | folding the same log twice gives the same index as folding it once |
| KeyValueIndex.EmptyKeyNeverBound | src/domain/ACLKeyValueStore.ts:39 | the fold never binds the empty key |
| KeyValueStore.DetermineAccessType | src/domain/ACLKeyValueStore.ts:83-110 | for each of the six intents, exactly when it is returned: own or other by comparing the recorded owner with the entry's identity, noop for a DEL of an unbound key, create for a PUT of an unbound key or any other op |
| KeyValueStore.CanAppendEntry | src/domain/ACLKeyValueStore.ts:66 | with the classifier installed the gate never throws; it denies invalid identities, and otherwise admits exactly the noop delete and the intents whose effective flag for the entry's id is on |
| KeyValueStore.DefaultDenyOthers | src/domain/ACLAccessController.ts:17-24 | under default flags, a PUT or DEL on a record owned by another identity is denied |
| KeyValueStore.DefaultAdmitsOwner | src/domain/ACLAccessController.ts:17-24 | under default flags, every write that does not touch another identity's record is admitted |
| KeyValueStore.NoopDeleteAdmitted | src/domain/ACLAccessController.ts:88 | deleting an unbound key is admitted whatever the flags |
| KeyValueStore.CreateThenOwn | src/domain/ACLKeyValueStore.ts:104-109 | a PUT on an unbound key is a create; after it is folded in, a PUT on that key by the same identity is updateOwn and by another identity is updateOther |
| KeyValueStore.OwnerIsNewestWriter | src/domain/ACLKeyValueStore.ts:84-101 | after the fold, a key's owner is the identity of its newest PUT; after a newest DEL, a later DEL is noop and anything else is create |
| KeyValueStore.KeylessEntryClassification | src/domain/ACLKeyValueStore.ts:84 | an entry without a key is noop when it is a DEL and create otherwise |
| Scenarios.TestControllerDefaultsOnly | tests/unit/ACLTests.ts:52-57 | a controller created by A with default options has no controller defaults and no record under the log's id, but does hold an all-true record under A's identity id |
| Scenarios.AfterFirstPut | tests/unit/ACLTests.ts:66-67 | after A's first PUT, "test" is bound to value "test" and owner A |
| Scenarios.CreateScenario | tests/unit/ACLTests.ts:65-69 | A's first PUT is admitted and reads back; B's PUT over it is refused |
| Scenarios.UpdateOwnScenario | tests/unit/ACLTests.ts:71-82 | A's overwrite of its own record is admitted and the new value reads back |
| Scenarios.OtherScenario | tests/unit/ACLTests.ts:84-92 | B can neither overwrite nor delete A's record |
| Scenarios.DeleteOwnScenario | tests/unit/ACLTests.ts:94-104 | A's delete is admitted and the key then reads as absent |
| Scenarios.DeleteAfterDeleteScenario | src/domain/ACLKeyValueStore.ts:104-105 | after A's delete, B's delete of the same key is classified noop and is admitted |
| Scenarios.GrantScenario | src/domain/ACLAccessController.ts:136-141 | after updateOther is granted under the log's id, B's PUT over A's record is admitted |
| Scenarios.CreatorRecordNotConsulted | src/domain/ACLAccessController.ts:70 | the creator's stored record gives it all flags, yet its PUT over another identity's record is refused, because the lookup uses the entry's id |

## Left out

- Store lifecycle and events are not modelled: `load`, `close`, `save`, `_onUpdate` and the `ready`/`write`/`replicated` listeners. They are asynchronous I/O and event plumbing. The loaded store content is a parameter of `CreateController`.
- `Identities.verifyIdentity` is a cryptographic call into code that is not part of this model. Its verdict is the boolean parameter `identityValid`.
- Replication, and races between concurrent grants and revokes, are not modelled. They belong to the underlying log's conflict resolution. Each permission-store write is a new map.
- The `all` getter, `type`, and the constructor's access-controller type check are left out. They are not part of the authorization logic.
- src/service/TorrentService.ts, src/service/OrbitDBService.ts, src/scripts/SetupDatabase.ts, src/scripts/lunrTest.ts and src/domain/Mixins.ts are left out. They are singletons, scripts and a mixin with no authorization logic.
- AccessController.SetCapability: `grant`/`revoke` assign the field on the object `acl.get(key)` returns and only then write it with `acl.set`. If the store hands back its own record, the local flag changes even when that write fails; the permission store is writable only by its creator's identity, so a write by anyone else can fail. The model has no failure path for the write: each write yields a new map, and the read record is never mutated in place.
- `console.warn` on an invalid identity and `console.debug` before the unexpected-intent error in `canAppend` are logging only and are left out.
- AccessController.Grant: the capability is one of the five flags. `grant`/`revoke` with an arbitrary string, which would add a stray field to the record, is not modelled.
- AccessController.Revoke: restricted to the five flags for the same reason as `grant`.
- AccessController.CanAppend: `None` stands for both a missing classifier and a value outside the enum. The closed `AccessType` datatype cannot hold any other value.
- AccessController.EffectiveFlags: a stored field is either absent or a boolean. A field present with a non-boolean value, such as an explicit `undefined` that `Object.assign` would copy, is not modelled.
