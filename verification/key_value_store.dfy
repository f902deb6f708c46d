/** The store side of the engine (`ACLKeyValueStore` in
    src/domain/ACLKeyValueStore.ts): the intent classifier that compares a
    candidate entry with the owner the index records for its key, and the
    wiring that installs this classifier as the access controller's
    `determineAccessType`, so that every append is decided by `CanAppend`. */
module KeyValueStore {
  import opened Wrappers
  import opened KeyValueIndex
  import opened AccessController

  /** `_index.get(entry.payload.key!!)`: the binding of the entry's raw key, if
      any. An entry without a key finds nothing. */
  function Existing<V>(idx: Index<V>, e: Entry<V>): Option<Binding<V>> {
    match e.payload.key
    case None => None
    case Some(k) => if k in idx then Some(idx[k]) else None
  }

  /** The entry's key is bound and the bound owner is the entry's identity. */
  predicate OwnedBySigner<V>(idx: Index<V>, e: Entry<V>) {
    Existing(idx, e).Some? && Existing(idx, e).value.owner == e.identity
  }

  /** The entry's key is bound to an owner other than the entry's identity. */
  predicate OwnedByOther<V>(idx: Index<V>, e: Entry<V>) {
    Existing(idx, e).Some? && Existing(idx, e).value.owner != e.identity
  }

  /** `determineAccessType(entry)`, characterised intent by intent. An op other
      than PUT or DEL always classifies as a creation. */
  function DetermineAccessType<V>(idx: Index<V>, e: Entry<V>): (t: AccessType)
    ensures t == UpdateOwn <==> e.payload.op.Put? && OwnedBySigner(idx, e)
    ensures t == DeleteOwn <==> e.payload.op.Del? && OwnedBySigner(idx, e)
    ensures t == UpdateOther <==> e.payload.op.Put? && OwnedByOther(idx, e)
    ensures t == DeleteOther <==> e.payload.op.Del? && OwnedByOther(idx, e)
    ensures t == Noop <==> e.payload.op.Del? && Existing(idx, e).None?
    ensures t == Create <==> e.payload.op.OtherOp? || (e.payload.op.Put? && Existing(idx, e).None?)
  {
    var existing := Existing(idx, e);
    if existing.Some? && !e.payload.op.OtherOp? then
      if existing.value.owner == e.identity then
        (if e.payload.op.Put? then UpdateOwn else DeleteOwn)
      else
        (if e.payload.op.Put? then UpdateOther else DeleteOther)
    else if e.payload.op.Del? then Noop
    else Create
  }

  /** `canAppend` with the store's classifier installed: never throws, and
      admits exactly the no-op delete and the intents whose effective flag (for
      the entry's `id`) is on. An invalid identity is denied first. */
  function CanAppendEntry<V>(ctl: Controller, identityValid: bool, idx: Index<V>, e: Entry<V>)
    : (r: Result<bool, AccessError>)
    ensures r.Success?
    ensures !identityValid ==> r == Success(false)
    ensures identityValid ==> (r.value <==>
      var t := DetermineAccessType(idx, e);
      t == Noop || Flag(EffectiveFlags(ctl.defaults, ctl.acl, e.id), t))
  {
    CanAppend(ctl, identityValid, Some(DetermineAccessType(idx, e)), e.id)
  }

  /** Under the default flags (no controller defaults, nothing stored for the
      entry's id) a valid identity may not change or delete a record owned by
      another identity. */
  lemma DefaultDenyOthers<V>(ctl: Controller, idx: Index<V>, e: Entry<V>)
    requires ctl.defaults.None? && e.id !in ctl.acl
    requires OwnedByOther(idx, e) && (e.payload.op.Put? || e.payload.op.Del?)
    ensures CanAppendEntry(ctl, true, idx, e) == Success(false)
  {
  }

  /** Under the default flags a valid identity may create records and may
      update or delete the records it owns. */
  lemma DefaultAdmitsOwner<V>(ctl: Controller, idx: Index<V>, e: Entry<V>)
    requires ctl.defaults.None? && e.id !in ctl.acl
    requires !OwnedByOther(idx, e)
    ensures CanAppendEntry(ctl, true, idx, e) == Success(true)
  {
  }

  /** Deleting a key that is not bound is admitted whatever the flags say. */
  lemma NoopDeleteAdmitted<V>(ctl: Controller, idx: Index<V>, e: Entry<V>)
    requires e.payload.op.Del? && Existing(idx, e).None?
    ensures CanAppendEntry(ctl, true, idx, e) == Success(true)
  {
  }

  /** Create-once: a PUT on an unbound key is a creation; once that PUT is the
      newest entry for its key in the folded log, another PUT on the key by the
      same identity is an update of one's own record, and by anyone else an
      update of another's record. */
  lemma CreateThenOwn<V>(idx: Index<V>, log: seq<Entry<V>>, e: Entry<V>, next: Entry<V>)
    requires e.payload.op.Put? && KeyOf(e).Some? && KeyOf(e).value !in idx
    requires next.payload.op.Put? && next.payload.key == e.payload.key
    ensures DetermineAccessType(idx, e) == Create
    ensures next.identity == e.identity ==> DetermineAccessType(UpdateIndex(idx, log + [e]), next) == UpdateOwn
    ensures next.identity != e.identity ==> DetermineAccessType(UpdateIndex(idx, log + [e]), next) == UpdateOther
  {
    var k := KeyOf(e).value;
    assert (log + [e])[|log + [e]| - 1] == e;
    NewestPutBinds(idx, log + [e], k, e);
  }

  /** Ownership follows the newest entry: after folding a log whose newest entry
      for a key is a PUT, the key's owner is that entry's identity, so that
      identity's later writes on the key are its own and everybody else's are
      another's. After a newest DEL a later DEL is a no-op and anything else a
      creation. */
  lemma OwnerIsNewestWriter<V>(idx: Index<V>, log: seq<Entry<V>>, k: string, next: Entry<V>)
    requires next.payload.key == Some(k) && NewestFor(log, k).Some?
    ensures var w := NewestFor(log, k).value;
      w.payload.op.Put? ==> (OwnedBySigner(UpdateIndex(idx, log), next) <==> next.identity == w.identity)
    ensures var w := NewestFor(log, k).value;
      w.payload.op.Put? ==> (OwnedByOther(UpdateIndex(idx, log), next) <==> next.identity != w.identity)
    ensures NewestFor(log, k).value.payload.op.Del? ==>
      DetermineAccessType(UpdateIndex(idx, log), next) == (if next.payload.op.Del? then Noop else Create)
  {
    assert ResolvedAt(idx, log, UpdateIndex(idx, log), k);
  }

  /** An entry without a key is classified without looking at the index: a DEL
      is a no-op and everything else a creation. */
  lemma KeylessEntryClassification<V>(idx: Index<V>, e: Entry<V>)
    requires e.payload.key.None?
    ensures DetermineAccessType(idx, e) == (if e.payload.op.Del? then Noop else Create)
  {
  }
}
