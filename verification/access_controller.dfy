/** The permission side of the write-authorization engine
    (src/domain/ACLAccessController.ts): the access intents, the five capability
    flags and their layered defaults, the stateless admit/deny gate `CanAppend`,
    the permission-store transitions (set, purge, grant, revoke), the address
    normaliser of the permission store and the creation rule that may hand the
    creating identity every capability.

    The permission store is a replicated key-value store; here it is the map it
    currently holds, `Acl`, and every store write is a new map. */
module AccessController {
  import opened Wrappers

  /** What a candidate write would do, relative to the current owner of its key.
      `Noop` is the deletion of a key that does not exist. */
  datatype AccessType = Create | UpdateOwn | UpdateOther | DeleteOwn | DeleteOther | Noop

  /** The five intents that are guarded by a flag of the same name. */
  type Capability = t: AccessType | t != Noop witness Create

  /** A complete set of capability flags (the `AccessFlags` class). */
  datatype AccessFlags = AccessFlags(
    create: bool, updateOwn: bool, updateOther: bool, deleteOwn: bool, deleteOther: bool)

  /** A stored flag record as it may appear in the permission store: any field
      may be missing, and a missing field does not override anything. */
  datatype PartialFlags = PartialFlags(
    create: Option<bool>, updateOwn: Option<bool>, updateOther: Option<bool>,
    deleteOwn: Option<bool>, deleteOther: Option<bool>)

  /** The field initialisers of `new AccessFlags()`: owners may create, update and
      delete their own records; nobody may touch another identity's record. */
  const ClassDefaults := AccessFlags(true, true, false, true, false)

  /** The record `create` stores for the creating identity. */
  const AllPerms := AccessFlags(true, true, true, true, true)

  /** The empty object `{}` that stands in for a missing flag record. */
  const NoOverrides := PartialFlags(None, None, None, None, None)

  /** The permission store: key -> stored flag record. */
  type Acl = map<string, PartialFlags>

  /** The flag that guards capability `c`. */
  function Flag(f: AccessFlags, c: Capability): bool {
    if c == Create then f.create
    else if c == UpdateOwn then f.updateOwn
    else if c == UpdateOther then f.updateOther
    else if c == DeleteOwn then f.deleteOwn
    else f.deleteOther
  }

  /** The stored field for capability `c`, if the record has one. */
  function PartialFlag(p: PartialFlags, c: Capability): Option<bool> {
    if c == Create then p.create
    else if c == UpdateOwn then p.updateOwn
    else if c == UpdateOther then p.updateOther
    else if c == DeleteOwn then p.deleteOwn
    else p.deleteOther
  }

  /** A complete flag set seen as a record in which every field is present. */
  function Full(f: AccessFlags): (p: PartialFlags)
    ensures forall c: Capability :: PartialFlag(p, c) == Some(Flag(f, c))
  {
    PartialFlags(Some(f.create), Some(f.updateOwn), Some(f.updateOther),
                 Some(f.deleteOwn), Some(f.deleteOther))
  }

  /** The record with the field for `c` assigned (`flags[capability] = v`). */
  function SetPartial(p: PartialFlags, c: Capability, v: Option<bool>): (q: PartialFlags)
    ensures PartialFlag(q, c) == v
    ensures forall d: Capability :: d != c ==> PartialFlag(q, d) == PartialFlag(p, d)
  {
    if c == Create then p.(create := v)
    else if c == UpdateOwn then p.(updateOwn := v)
    else if c == UpdateOther then p.(updateOther := v)
    else if c == DeleteOwn then p.(deleteOwn := v)
    else p.(deleteOther := v)
  }

  /** Two records that agree on every capability are the same record. */
  lemma PartialFlagsExt(p: PartialFlags, q: PartialFlags)
    requires forall c: Capability :: PartialFlag(p, c) == PartialFlag(q, c)
    ensures p == q
  {
    assert PartialFlag(p, Create) == PartialFlag(q, Create);
    assert PartialFlag(p, UpdateOwn) == PartialFlag(q, UpdateOwn);
    assert PartialFlag(p, UpdateOther) == PartialFlag(q, UpdateOther);
    assert PartialFlag(p, DeleteOwn) == PartialFlag(q, DeleteOwn);
    assert PartialFlag(p, DeleteOther) == PartialFlag(q, DeleteOther);
  }

  /** `Object.assign(base, p)` restricted to the five flags: every field that `p`
      carries replaces the field of `base`, the others are kept. */
  function Override(base: AccessFlags, p: PartialFlags): (f: AccessFlags)
    ensures forall c: Capability :: Flag(f, c) == PartialFlag(p, c).GetOr(Flag(base, c))
  {
    AccessFlags(p.create.GetOr(base.create), p.updateOwn.GetOr(base.updateOwn),
                p.updateOther.GetOr(base.updateOther), p.deleteOwn.GetOr(base.deleteOwn),
                p.deleteOther.GetOr(base.deleteOther))
  }

  /** The stored record for `key`, or `{}` when nothing is stored. */
  function StoredOrEmpty(acl: Acl, key: string): PartialFlags {
    if key in acl then acl[key] else NoOverrides
  }

  /** The flags `canAppend` decides with: the class defaults, overridden field by
      field by the controller's defaults, overridden field by field by the record
      stored under `id`. Stated as the precedence of the three layers. */
  function EffectiveFlags(defaults: Option<PartialFlags>, acl: Acl, id: string): (f: AccessFlags)
    ensures forall c: Capability :: Flag(f, c) == (
              if id in acl && PartialFlag(acl[id], c).Some? then PartialFlag(acl[id], c).value
              else if defaults.Some? && PartialFlag(defaults.value, c).Some? then PartialFlag(defaults.value, c).value
              else Flag(ClassDefaults, c))
  {
    Override(Override(ClassDefaults, defaults.GetOr(NoOverrides)), StoredOrEmpty(acl, id))
  }

  /** The options `ACLAccessController.create` reads. */
  datatype Options = Options(
    address: Option<string>, defaultAccessFlags: Option<PartialFlags>, creatorHasAllPerms: Option<bool>)

  /** A loaded controller: the name its permission store was opened under, the
      controller-wide default flags, and the current contents of the store. */
  datatype Controller = Controller(aclName: string, defaults: Option<PartialFlags>, acl: Acl)

  /** The fatal error `canAppend` throws when the intent is not one it knows. */
  datatype AccessError = UnexpectedAccessType

  /** The admit/deny gate. `identityValid` is the verdict of the identity
      signature check; `accessType` is the classifier's answer, `None` when no
      classifier is installed (or it returned a value outside the enum);
      `entryId` is the `id` field of the candidate entry, under which the stored
      flags are looked up. */
  function CanAppend(ctl: Controller, identityValid: bool, accessType: Option<AccessType>, entryId: string)
    : (r: Result<bool, AccessError>)
    ensures !identityValid ==> r == Success(false)
    ensures r.Failure? <==> identityValid && accessType.None?
    ensures identityValid && accessType == Some(Noop) ==> r == Success(true)
    ensures identityValid && accessType.Some? && accessType.value != Noop ==>
      r == Success(Flag(EffectiveFlags(ctl.defaults, ctl.acl, entryId), accessType.value))
  {
    if !identityValid then Success(false)
    else
      var access := Override(Override(ClassDefaults, ctl.defaults.GetOr(NoOverrides)),
                             StoredOrEmpty(ctl.acl, entryId));
      match accessType
      case None => Failure(UnexpectedAccessType)
      case Some(t) =>
        if t == Noop then Success(true)
        else if t == Create then Success(access.create)
        else if t == UpdateOwn then Success(access.updateOwn)
        else if t == UpdateOther then Success(access.updateOther)
        else if t == DeleteOwn then Success(access.deleteOwn)
        else Success(access.deleteOther)
  }

  /** With nothing stored for the entry and no controller defaults, exactly
      creating, changing one's own record, deleting one's own record and the
      no-op delete are admitted. */
  lemma DefaultPolicy(ctl: Controller, t: AccessType, entryId: string)
    requires ctl.defaults.None? && entryId !in ctl.acl
    ensures CanAppend(ctl, true, Some(t), entryId) ==
      Success(t in {Create, UpdateOwn, DeleteOwn, Noop})
  {
  }

  /** `setPerms(id, perms)`: store `perms` under `id`, replacing what was there. */
  function SetPerms(acl: Acl, id: string, perms: PartialFlags): (r: Acl)
    ensures id in r && r[id] == perms
    ensures r - {id} == acl - {id}
  {
    acl[id := perms]
  }

  /** Purging a key undoes any record set under it before. */
  lemma SetThenPurge(acl: Acl, id: string, perms: PartialFlags)
    ensures PurgePerms(SetPerms(acl, id, perms), id) == PurgePerms(acl, id)
  {
  }

  /** `purgePerms(id)`: delete the record stored under `id`. */
  function PurgePerms(acl: Acl, id: string): (r: Acl)
    ensures id !in r
    ensures r - {id} == acl - {id}
  {
    acl - {id}
  }

  /** After a purge the key is decided by the defaults alone, as if the store
      were empty. */
  lemma PurgeRevertsToDefaults(defaults: Option<PartialFlags>, acl: Acl, id: string)
    ensures EffectiveFlags(defaults, PurgePerms(acl, id), id) == EffectiveFlags(defaults, map[], id)
  {
  }

  /** The record `grant` and `revoke` start from: the stored one, or
      `new AccessFlags()` when nothing is stored. */
  function GrantBase(acl: Acl, key: string): PartialFlags {
    if key in acl then acl[key] else Full(ClassDefaults)
  }

  /** `grant(capability, key)` and `revoke(capability, key)`: read the record,
      assign one field, write the whole record back. */
  function SetCapability(acl: Acl, cap: Capability, key: string, v: bool): (r: Acl)
    ensures key in r && PartialFlag(r[key], cap) == Some(v)
    ensures forall c: Capability :: c != cap ==> PartialFlag(r[key], c) == PartialFlag(GrantBase(acl, key), c)
    ensures r - {key} == acl - {key}
  {
    acl[key := SetPartial(GrantBase(acl, key), cap, Some(v))]
  }

  /** `grant(capability, key)`. */
  function Grant(acl: Acl, cap: Capability, key: string): (r: Acl)
    ensures key in r && PartialFlag(r[key], cap) == Some(true)
    ensures forall c: Capability :: c != cap ==> PartialFlag(r[key], c) == PartialFlag(GrantBase(acl, key), c)
    ensures r - {key} == acl - {key}
  {
    SetCapability(acl, cap, key, true)
  }

  /** `revoke(capability, key)`. */
  function Revoke(acl: Acl, cap: Capability, key: string): (r: Acl)
    ensures key in r && PartialFlag(r[key], cap) == Some(false)
    ensures forall c: Capability :: c != cap ==> PartialFlag(r[key], c) == PartialFlag(GrantBase(acl, key), c)
    ensures r - {key} == acl - {key}
  {
    SetCapability(acl, cap, key, false)
  }

  /** Two stores that hold the same records everywhere are the same store. */
  lemma AclExt(a: Acl, b: Acl, key: string)
    requires key in a && key in b && a[key] == b[key]
    requires a - {key} == b - {key}
    ensures a == b
  {
    assert a.Keys == b.Keys by {
      assert a.Keys == (a - {key}).Keys + {key};
      assert b.Keys == (b - {key}).Keys + {key};
    }
    forall k | k in a
      ensures a[k] == b[k]
    {
      if k != key {
        assert a[k] == (a - {key})[k];
        assert b[k] == (b - {key})[k];
      }
    }
  }

  /** Setting the same capability twice keeps only the second value. */
  lemma SetCapabilityOverwrites(acl: Acl, cap: Capability, key: string, v: bool, w: bool)
    ensures SetCapability(SetCapability(acl, cap, key, v), cap, key, w) == SetCapability(acl, cap, key, w)
  {
    var once := SetCapability(acl, cap, key, w);
    var twice := SetCapability(SetCapability(acl, cap, key, v), cap, key, w);
    PartialFlagsExt(twice[key], once[key]);
    assert twice - {key} == once - {key};
    AclExt(twice, once, key);
  }

  /** Revoking right after granting leaves the store as a plain revoke would;
      in particular the capability ends up stored as false. */
  lemma GrantThenRevoke(acl: Acl, cap: Capability, key: string)
    ensures Revoke(Grant(acl, cap, key), cap, key) == Revoke(acl, cap, key)
    ensures PartialFlag(Revoke(Grant(acl, cap, key), cap, key)[key], cap) == Some(false)
  {
    SetCapabilityOverwrites(acl, cap, key, true, false);
  }

  /** Granting is idempotent. */
  lemma GrantIdempotent(acl: Acl, cap: Capability, key: string)
    ensures Grant(Grant(acl, cap, key), cap, key) == Grant(acl, cap, key)
  {
    SetCapabilityOverwrites(acl, cap, key, true, true);
  }

  /** A grant admits the capability for entries whose id is the key, whatever the
      controller defaults; a revoke denies it. */
  lemma GrantAdmitsRevokeDenies(ctl: Controller, cap: Capability, key: string)
    ensures CanAppend(ctl.(acl := Grant(ctl.acl, cap, key)), true, Some(cap), key) == Success(true)
    ensures CanAppend(ctl.(acl := Revoke(ctl.acl, cap, key)), true, Some(cap), key) == Success(false)
  {
  }

  /** A grant on a key with no stored record writes a complete record built from
      the class defaults, so every other capability of that key stops following
      the controller defaults and takes its class default. */
  lemma GrantMasksControllerDefaults(defaults: Option<PartialFlags>, acl: Acl, cap: Capability, key: string, c: Capability)
    requires key !in acl && c != cap
    ensures Flag(EffectiveFlags(defaults, Grant(acl, cap, key), key), c) == Flag(ClassDefaults, c)
  {
  }

  /** The path segment after the last `/` (`address.split('/').pop()`). */
  function LastSegment(s: string): (seg: string)
    ensures |seg| <= |s| && seg == s[|s| - |seg|..]
    ensures '/' !in seg
    ensures |seg| < |s| ==> s[|s| - |seg| - 1] == '/'
  {
    if s == [] || s[|s| - 1] == '/' then []
    else
      var prefix := LastSegment(s[..|s| - 1]);
      assert s[|s| - 1 - |prefix|..] == s[..|s| - 1][|s| - 1 - |prefix|..] + [s[|s| - 1]];
      prefix + [s[|s| - 1]]
  }

  /** Whatever precedes a final `/`, the last segment is what follows it. */
  lemma {:induction false} LastSegmentAfterSlash(s: string, seg: string)
    requires '/' !in seg
    ensures LastSegment(s + "/" + seg) == seg
  {
    var t := s + "/" + seg;
    var r := LastSegment(t);
    assert t[|t| - |seg| - 1] == '/';
    assert t[|t| - |seg|..] == seg;
  }

  /** The last segment that marks the address of a permission store. */
  const AccessSuffix := "_access"

  /** The store name used when `create` is given no address. */
  const DefaultAclName := "default-acl-controller"

  /** `ensureAddress`: append `/_access` unless the last segment already is
      `_access`. */
  function EnsureAddress(address: string): (r: string)
    ensures LastSegment(r) == AccessSuffix
    ensures LastSegment(address) == AccessSuffix ==> r == address
    ensures LastSegment(address) != AccessSuffix ==> r == address + "/" + AccessSuffix
  {
    if LastSegment(address) == AccessSuffix then address
    else
      SuffixAppended(address);
      address + "/" + AccessSuffix
  }

  /** Appending `/_access` makes `_access` the last segment. */
  lemma SuffixAppended(address: string)
    ensures LastSegment(address + "/" + AccessSuffix) == AccessSuffix
  {
    assert '/' !in AccessSuffix;
    LastSegmentAfterSlash(address, AccessSuffix);
  }

  /** Normalising an address twice is normalising it once. */
  lemma EnsureAddressIdempotent(address: string)
    ensures EnsureAddress(EnsureAddress(address)) == EnsureAddress(address)
  {
  }

  /** Without an address the permission store is opened as
      `default-acl-controller/_access`. */
  lemma DefaultAclAddress()
    ensures EnsureAddress(DefaultAclName) == DefaultAclName + "/" + AccessSuffix
  {
    assert '/' !in DefaultAclName;
  }

  /** JavaScript truthiness of an optional string: present and non-empty. */
  predicate Truthy(s: Option<string>) {
    s.Some? && s.value != ""
  }

  /** The condition under which `create` stores full permissions for the
      creator: `creatorHasAllPerms !== false && !address`. */
  predicate CreatorGetsAllPerms(options: Options) {
    options.creatorHasAllPerms != Some(false) && !Truthy(options.address)
  }

  /** `ACLAccessController.create`: open the permission store under the
      normalised address (the default name when none is given); `loaded` is what
      the store holds once loaded. When the creator is to get every permission,
      an all-true record is stored under the creator's identity id. */
  function CreateController(creatorId: string, options: Options, loaded: Acl): (ctl: Controller)
    ensures Truthy(options.address) ==> ctl.aclName == EnsureAddress(options.address.value)
    ensures !Truthy(options.address) ==> ctl.aclName == EnsureAddress(DefaultAclName)
    ensures ctl.defaults == options.defaultAccessFlags
    ensures CreatorGetsAllPerms(options) ==>
      creatorId in ctl.acl && EffectiveFlags(ctl.defaults, ctl.acl, creatorId) == AllPerms
    ensures CreatorGetsAllPerms(options) ==> ctl.acl == loaded[creatorId := Full(AllPerms)]
    ensures ctl.acl - {creatorId} == loaded - {creatorId}
    ensures !CreatorGetsAllPerms(options) ==> ctl.acl == loaded
  {
    var name := EnsureAddress(if Truthy(options.address) then options.address.value else DefaultAclName);
    var acl := if CreatorGetsAllPerms(options) then SetPerms(loaded, creatorId, Full(AllPerms)) else loaded;
    Controller(name, options.defaultAccessFlags, acl)
  }
}
