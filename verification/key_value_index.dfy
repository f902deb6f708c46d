/** The ownership index (`ACLKeyValueIndex` in src/domain/ACLKeyValueStore.ts):
    a map from key to the current value and the identity that wrote it, brought
    up to date by folding the store's log newest-first, where only the newest
    entry that names a key decides that key. The map is never cleared, so keys
    the log does not mention keep whatever binding they had. */
module KeyValueIndex {
  import opened Wrappers

  /** The name of an operation that is neither PUT nor DEL. */
  type OtherOpName = s: string | s != "PUT" && s != "DEL" witness ""

  /** The operation of a log entry; anything other than PUT and DEL is kept so
      that its (non-)effect can be stated. */
  datatype Op = Put | Del | OtherOp(name: OtherOpName)

  /** The payload of a log entry. The key may be absent; the value is absent for
      deletions, and may also be absent (`undefined`/`null`) on a PUT. */
  datatype Payload<V> = Payload(op: Op, key: Option<string>, value: Option<V>)

  /** A log entry: its id, the id of the identity that signed it, its payload. */
  datatype Entry<V> = Entry(id: string, identity: string, payload: Payload<V>)

  /** What the index records for a key: the value and the owning identity id. */
  datatype Binding<V> = Binding(value: Option<V>, owner: string)

  type Index<V> = map<string, Binding<V>>

  /** `index.get(key)`: the bound value, `None` for a missing key (and for a key
      bound to an absent value, since `?.value ?? null` cannot tell them apart). */
  function Get<V>(idx: Index<V>, key: string): (r: Option<V>)
    ensures r.None? <==> key !in idx || idx[key].value.None?
    ensures r.Some? ==> r == idx[key].value
  {
    if key in idx then idx[key].value else None
  }

  /** The key an entry is filed under by the fold: `payload.key` when it is
      truthy, i.e. present and non-empty. */
  function KeyOf<V>(e: Entry<V>): Option<string> {
    if e.payload.key.Some? && e.payload.key.value != "" then e.payload.key else None
  }

  /** Both maps bind `k` the same way (or neither binds it). */
  ghost predicate SameAt<V>(a: Index<V>, b: Index<V>, k: string) {
    (k in a <==> k in b) && (k in a ==> a[k] == b[k])
  }

  /** The newest entry of `log` (the last one) that is filed under `k`. */
  function NewestFor<V>(log: seq<Entry<V>>, k: string): Option<Entry<V>> {
    if log == [] then None
    else if KeyOf(log[|log| - 1]) == Some(k) then Some(log[|log| - 1])
    else NewestFor(log[..|log| - 1], k)
  }

  /** `NewestFor` finds nothing exactly when no entry is filed under `k`. */
  lemma {:induction false} NewestForNone<V>(log: seq<Entry<V>>, k: string)
    ensures NewestFor(log, k).None? <==> forall i :: 0 <= i < |log| ==> KeyOf(log[i]) != Some(k)
    decreases |log|
  {
    if log != [] && KeyOf(log[|log| - 1]) != Some(k) {
      var pre := log[..|log| - 1];
      NewestForNone(pre, k);
      assert forall i :: 0 <= i < |pre| ==> pre[i] == log[i];
    }
  }

  /** What `NewestFor` finds is the entry at the last position filed under `k`. */
  lemma {:induction false} NewestForIsLast<V>(log: seq<Entry<V>>, k: string)
    requires NewestFor(log, k).Some?
    ensures exists i :: 0 <= i < |log| && log[i] == NewestFor(log, k).value && KeyOf(log[i]) == Some(k) &&
                        forall j :: i < j < |log| ==> KeyOf(log[j]) != Some(k)
    decreases |log|
  {
    var last := |log| - 1;
    if KeyOf(log[last]) == Some(k) {
      assert log[last] == NewestFor(log, k).value;
    } else {
      var pre := log[..last];
      NewestForIsLast(pre, k);
      var i :| 0 <= i < |pre| && pre[i] == NewestFor(pre, k).value && KeyOf(pre[i]) == Some(k) &&
               forall j :: i < j < |pre| ==> KeyOf(pre[j]) != Some(k);
      assert log[i] == pre[i];
      assert forall j :: i < j < last ==> log[j] == pre[j];
    }
  }

  /** One step of the reduction: an entry whose key is falsy or already handled
      changes nothing; otherwise the key becomes handled and a PUT binds it to the
      entry's value and identity, a DEL unbinds it, and any other op leaves the
      binding alone. */
  function Step<V>(idx: Index<V>, handled: set<string>, e: Entry<V>): (Index<V>, set<string>) {
    match KeyOf(e)
    case None => (idx, handled)
    case Some(k) =>
      if k in handled then (idx, handled)
      else
        var idx' := match e.payload.op
                    case Put => idx[k := Binding(e.payload.value, e.identity)]
                    case Del => idx - {k}
                    case OtherOp(_) => idx;
        (idx', handled + {k})
  }

  /** The reduction over the reversed log, threading the handled set: the last
      entry of `log` is processed first. */
  function Fold<V>(idx: Index<V>, handled: set<string>, log: seq<Entry<V>>): Index<V>
    decreases |log|
  {
    if log == [] then idx
    else
      var (idx', handled') := Step(idx, handled, log[|log| - 1]);
      Fold(idx', handled', log[..|log| - 1])
  }

  /** What the fold promises for key `k`: the newest entry filed under `k`
      decides it (PUT binds, DEL unbinds, another op keeps), and with no such
      entry the binding of `before` is kept. */
  ghost predicate ResolvedAt<V>(before: Index<V>, log: seq<Entry<V>>, after: Index<V>, k: string) {
    match NewestFor(log, k)
    case None => SameAt(after, before, k)
    case Some(e) =>
      match e.payload.op
      case Put => k in after && after[k] == Binding(e.payload.value, e.identity)
      case Del => k !in after
      case OtherOp(_) => SameAt(after, before, k)
  }

  /** The fold resolves every unhandled key by its newest entry, and leaves every
      handled key alone. */
  lemma {:induction false} FoldResolves<V>(idx: Index<V>, handled: set<string>, log: seq<Entry<V>>, k: string)
    ensures k in handled ==> SameAt(Fold(idx, handled, log), idx, k)
    ensures k !in handled ==> ResolvedAt(idx, log, Fold(idx, handled, log), k)
    decreases |log|
  {
    if log != [] {
      var e := log[|log| - 1];
      var pre := log[..|log| - 1];
      var (idx', handled') := Step(idx, handled, e);
      FoldResolves(idx', handled', pre, k);
      assert Fold(idx, handled, log) == Fold(idx', handled', pre);
      if KeyOf(e) != Some(k) {
        assert SameAt(idx', idx, k);
        assert k in handled' <==> k in handled;
        assert NewestFor(log, k) == NewestFor(pre, k);
      }
    }
  }

  /** `updateIndex(oplog)`: fold the log, newest entry first, into the index. */
  function UpdateIndex<V>(idx: Index<V>, log: seq<Entry<V>>): (r: Index<V>)
    ensures forall k :: ResolvedAt(idx, log, r, k)
  {
    var r := Fold(idx, {}, log);
    assert forall k :: ResolvedAt(idx, log, r, k) by {
      forall k
        ensures ResolvedAt(idx, log, r, k)
      {
        FoldResolves(idx, {}, log, k);
      }
    }
    r
  }

  /** Two indexes that agree on every key are equal. */
  lemma IndexExt<V>(a: Index<V>, b: Index<V>)
    requires forall k :: SameAt(a, b, k)
    ensures a == b
  {
    forall k | k in a
      ensures k in b && a[k] == b[k]
    {
      assert SameAt(a, b, k);
    }
    forall k | k in b
      ensures k in a
    {
      assert SameAt(a, b, k);
    }
    assert a.Keys == b.Keys;
  }

  /** A key whose newest entry is a PUT is bound to that entry's value and
      identity, and `get` returns that value. */
  lemma NewestPutBinds<V>(idx: Index<V>, log: seq<Entry<V>>, k: string, e: Entry<V>)
    requires NewestFor(log, k) == Some(e) && e.payload.op.Put?
    ensures k in UpdateIndex(idx, log)
    ensures UpdateIndex(idx, log)[k] == Binding(e.payload.value, e.identity)
    ensures Get(UpdateIndex(idx, log), k) == e.payload.value
  {
    assert ResolvedAt(idx, log, UpdateIndex(idx, log), k);
  }

  /** A key whose newest entry is a DEL is unbound, and `get` returns nothing. */
  lemma NewestDelUnbinds<V>(idx: Index<V>, log: seq<Entry<V>>, k: string, e: Entry<V>)
    requires NewestFor(log, k) == Some(e) && e.payload.op.Del?
    ensures k !in UpdateIndex(idx, log)
    ensures Get(UpdateIndex(idx, log), k) == None
  {
    assert ResolvedAt(idx, log, UpdateIndex(idx, log), k);
  }

  /** A key that no entry is filed under, or whose newest entry has an
      unrecognised op, keeps the binding it had before the fold. */
  lemma UnresolvedKeyKept<V>(idx: Index<V>, log: seq<Entry<V>>, k: string)
    requires NewestFor(log, k).None? || NewestFor(log, k).value.payload.op.OtherOp?
    ensures SameAt(UpdateIndex(idx, log), idx, k)
    ensures Get(UpdateIndex(idx, log), k) == Get(idx, k)
  {
    assert ResolvedAt(idx, log, UpdateIndex(idx, log), k);
  }

  /** Only the newest entry per key matters: two logs whose newest entries agree
      for every key fold any index to the same result. */
  lemma NewestDetermines<V>(idx: Index<V>, log1: seq<Entry<V>>, log2: seq<Entry<V>>)
    requires forall k :: NewestFor(log1, k) == NewestFor(log2, k)
    ensures UpdateIndex(idx, log1) == UpdateIndex(idx, log2)
  {
    var r1 := UpdateIndex(idx, log1);
    var r2 := UpdateIndex(idx, log2);
    forall k
      ensures SameAt(r1, r2, k)
    {
      assert ResolvedAt(idx, log1, r1, k);
      assert ResolvedAt(idx, log2, r2, k);
    }
    IndexExt(r1, r2);
  }

  /** The newest entry for `k` in `a + b` is the newest in `b` if `b` has one,
      and otherwise the newest in `a`. */
  lemma {:induction false} NewestForConcat<V>(a: seq<Entry<V>>, b: seq<Entry<V>>, k: string)
    ensures NewestFor(a + b, k) == if NewestFor(b, k).Some? then NewestFor(b, k) else NewestFor(a, k)
    decreases |b|
  {
    if b == [] {
      assert a + b == a;
    } else {
      var ab := a + b;
      var b' := b[..|b| - 1];
      assert ab[|ab| - 1] == b[|b| - 1];
      if KeyOf(b[|b| - 1]) != Some(k) {
        assert ab[..|ab| - 1] == a + b';
        assert NewestFor(ab, k) == NewestFor(a + b', k);
        assert NewestFor(b, k) == NewestFor(b', k);
        NewestForConcat(a, b', k);
      }
    }
  }

  /** An entry followed, anywhere later in the log, by another entry filed under
      the same key is dead: dropping it does not change the fold. */
  lemma OlderEntryIgnored<V>(idx: Index<V>, pre: seq<Entry<V>>, e: Entry<V>, post: seq<Entry<V>>)
    requires KeyOf(e).Some? && NewestFor(post, KeyOf(e).value).Some?
    ensures UpdateIndex(idx, pre + [e] + post) == UpdateIndex(idx, pre + post)
  {
    forall k
      ensures NewestFor(pre + [e] + post, k) == NewestFor(pre + post, k)
    {
      NewestForConcat(pre + [e], post, k);
      NewestForConcat(pre, [e], k);
      NewestForConcat(pre, post, k);
      assert [e][..0] == [];
    }
    NewestDetermines(idx, pre + [e] + post, pre + post);
  }

  /** An entry without a (truthy) key is skipped wherever it sits in the log. */
  lemma UnkeyedEntryIgnored<V>(idx: Index<V>, pre: seq<Entry<V>>, e: Entry<V>, post: seq<Entry<V>>)
    requires KeyOf(e).None?
    ensures UpdateIndex(idx, pre + [e] + post) == UpdateIndex(idx, pre + post)
  {
    forall k
      ensures NewestFor(pre + [e] + post, k) == NewestFor(pre + post, k)
    {
      NewestForConcat(pre + [e], post, k);
      NewestForConcat(pre, [e], k);
      NewestForConcat(pre, post, k);
      assert [e][..0] == [];
    }
    NewestDetermines(idx, pre + [e] + post, pre + post);
  }

  /** Folding the same log twice gives the index that folding it once gives. */
  lemma UpdateIndexIdempotent<V>(idx: Index<V>, log: seq<Entry<V>>)
    ensures UpdateIndex(UpdateIndex(idx, log), log) == UpdateIndex(idx, log)
  {
    var once := UpdateIndex(idx, log);
    var twice := UpdateIndex(once, log);
    forall k
      ensures SameAt(twice, once, k)
    {
      assert ResolvedAt(idx, log, once, k);
      assert ResolvedAt(once, log, twice, k);
    }
    IndexExt(twice, once);
  }

  /** The fold never binds the empty key, so an index built from an empty map by
      folds never holds it. */
  lemma EmptyKeyNeverBound<V>(idx: Index<V>, log: seq<Entry<V>>)
    requires "" !in idx
    ensures "" !in UpdateIndex(idx, log)
  {
    if NewestFor(log, "").Some? {
      NewestForIsLast(log, "");
    }
    assert ResolvedAt(idx, log, UpdateIndex(idx, log), "");
  }
}
