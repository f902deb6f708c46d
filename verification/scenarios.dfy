/** The outcomes the integration test tests/unit/ACLTests.ts expects, replayed
    on the model: identity A creates the controller with default options and
    writes key "test"; identity B tries to overwrite and delete it. Every entry
    of the store's log carries the store's id, as OrbitDB log entries do, so the
    permission record stored for A's identity at creation is never consulted. */
module Scenarios {
  import opened Wrappers
  import opened KeyValueIndex
  import opened AccessController
  import opened KeyValueStore

  const LogId := "test-db"
  const IdA := "A"
  const IdB := "B"
  const TestKey := "test"

  /** A PUT of `value` under the test key signed by `who`. */
  function PutBy(who: string, value: string): Entry<string> {
    Entry(LogId, who, Payload(Put, Some(TestKey), Some(value)))
  }

  /** A DEL of the test key signed by `who`. */
  function DelBy(who: string): Entry<string> {
    Entry(LogId, who, Payload(Del, Some(TestKey), None))
  }

  /** What the scenarios need of the test database's controller: no
      controller defaults and no record under the log's id. */
  predicate DefaultsOnly(ctl: Controller) {
    ctl.defaults.None? && LogId !in ctl.acl
  }

  /** The controller of the test database, created by A with default options,
      decides with the defaults only, although it holds an all-true record for
      A's identity id. */
  lemma TestControllerDefaultsOnly()
    ensures DefaultsOnly(CreateController(IdA, Options(None, None, None), map[]))
    ensures IdA in CreateController(IdA, Options(None, None, None), map[]).acl
    ensures CreateController(IdA, Options(None, None, None), map[]).acl[IdA] == Full(AllPerms)
  {
  }

  /** The index after A's first PUT: "test" is bound to A. */
  lemma AfterFirstPut()
    ensures var idx := UpdateIndex(map[], [PutBy(IdA, "test")]);
      TestKey in idx && idx[TestKey] == Binding(Some("test"), IdA)
  {
    NewestPutBinds(map[], [PutBy(IdA, "test")], TestKey, PutBy(IdA, "test"));
  }

  /** `#create`: A's first PUT is admitted and readable; B's PUT over it is
      refused. */
  lemma CreateScenario(ctl: Controller)
    requires DefaultsOnly(ctl)
    ensures CanAppendEntry(ctl, true, map[], PutBy(IdA, "test")) == Success(true)
    ensures Get(UpdateIndex(map[], [PutBy(IdA, "test")]), TestKey) == Some("test")
    ensures CanAppendEntry(ctl, true, UpdateIndex(map[], [PutBy(IdA, "test")]), PutBy(IdB, "test2"))
            == Success(false)
  {
    var idx := UpdateIndex(map[], [PutBy(IdA, "test")]);
    AfterFirstPut();
    DefaultAdmitsOwner(ctl, map[], PutBy(IdA, "test"));
    DefaultDenyOthers(ctl, idx, PutBy(IdB, "test2"));
  }

  /** `#updateOwn`: A may overwrite its own record and the new value is read
      back. */
  lemma UpdateOwnScenario(ctl: Controller)
    requires DefaultsOnly(ctl)
    ensures CanAppendEntry(ctl, true, UpdateIndex(map[], [PutBy(IdA, "test")]), PutBy(IdA, "test2"))
            == Success(true)
    ensures Get(UpdateIndex(map[], [PutBy(IdA, "test"), PutBy(IdA, "test2")]), TestKey) == Some("test2")
  {
    AfterFirstPut();
    DefaultAdmitsOwner(ctl, UpdateIndex(map[], [PutBy(IdA, "test")]), PutBy(IdA, "test2"));
    NewestPutBinds(map[], [PutBy(IdA, "test"), PutBy(IdA, "test2")], TestKey, PutBy(IdA, "test2"));
  }

  /** `#updateOther` and `#deleteOther`: B may neither overwrite nor delete A's
      record. */
  lemma OtherScenario(ctl: Controller)
    requires DefaultsOnly(ctl)
    ensures CanAppendEntry(ctl, true, UpdateIndex(map[], [PutBy(IdA, "test")]), PutBy(IdB, "test2"))
            == Success(false)
    ensures CanAppendEntry(ctl, true, UpdateIndex(map[], [PutBy(IdA, "test")]), DelBy(IdB))
            == Success(false)
  {
    var idx := UpdateIndex(map[], [PutBy(IdA, "test")]);
    AfterFirstPut();
    DefaultDenyOthers(ctl, idx, PutBy(IdB, "test2"));
    DefaultDenyOthers(ctl, idx, DelBy(IdB));
  }

  /** `#deleteOwn`: A may delete its record, which then reads as absent. */
  lemma DeleteOwnScenario(ctl: Controller)
    requires DefaultsOnly(ctl)
    ensures CanAppendEntry(ctl, true, UpdateIndex(map[], [PutBy(IdA, "test")]), DelBy(IdA))
            == Success(true)
    ensures Get(UpdateIndex(map[], [PutBy(IdA, "test"), DelBy(IdA)]), TestKey) == None
  {
    var log := [PutBy(IdA, "test"), DelBy(IdA)];
    AfterFirstPut();
    DefaultAdmitsOwner(ctl, UpdateIndex(map[], [PutBy(IdA, "test")]), DelBy(IdA));
    NewestDelUnbinds(map[], log, TestKey, DelBy(IdA));
  }

  /** After A's delete, a delete of the same key by B finds nothing to delete:
      it is a no-op and is admitted. */
  lemma DeleteAfterDeleteScenario(ctl: Controller)
    requires DefaultsOnly(ctl)
    ensures DetermineAccessType(UpdateIndex(map[], [PutBy(IdA, "test"), DelBy(IdA)]), DelBy(IdB)) == Noop
    ensures CanAppendEntry(ctl, true, UpdateIndex(map[], [PutBy(IdA, "test"), DelBy(IdA)]), DelBy(IdB))
            == Success(true)
  {
    var log := [PutBy(IdA, "test"), DelBy(IdA)];
    NewestDelUnbinds(map[], log, TestKey, DelBy(IdA));
    NoopDeleteAdmitted(ctl, UpdateIndex(map[], log), DelBy(IdB));
  }

  /** Once the privileged identity grants `updateOther` under the log's id, B's
      PUT over A's record is admitted. */
  lemma GrantScenario(ctl: Controller)
    requires DefaultsOnly(ctl)
    ensures CanAppendEntry(ctl.(acl := Grant(ctl.acl, UpdateOther, LogId)), true,
                           UpdateIndex(map[], [PutBy(IdA, "test")]), PutBy(IdB, "test2"))
            == Success(true)
  {
    AfterFirstPut();
  }

  /** The all-true record `create` stores is filed under A's identity id, while
      `canAppend` looks flags up under the entry's id (the log's id): after B
      writes a record, A's PUT over it is refused in spite of that record. */
  lemma CreatorRecordNotConsulted(ctl: Controller)
    requires DefaultsOnly(ctl) && IdA in ctl.acl && ctl.acl[IdA] == Full(AllPerms)
    ensures EffectiveFlags(ctl.defaults, ctl.acl, IdA) == AllPerms
    ensures CanAppendEntry(ctl, true, UpdateIndex(map[], [PutBy(IdB, "b")]), PutBy(IdA, "a"))
            == Success(false)
  {
    NewestPutBinds(map[], [PutBy(IdB, "b")], TestKey, PutBy(IdB, "b"));
    DefaultDenyOthers(ctl, UpdateIndex(map[], [PutBy(IdB, "b")]), PutBy(IdA, "a"));
  }
}
