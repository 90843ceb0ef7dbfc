/**
 The batch loops of the encryption migration
 (src/api/Fig.Api/Services/EncryptionMigrationService.cs) and the repositories they drive
 (src/api/Fig.Api/Datalayer/Repositories). The loops for event logs, setting history and
 checkpoints differ only in the kind of record, which is a parameter here.
 */
module ReEncryption {
  import opened Text

  /** How one kind of record is loaded, decrypted, prepared and saved. `save` encrypts and
      restamps; decrypting and preparing may fail. */
  datatype Kind<!Stored, !Loaded> = Kind(
    stamp: Stored -> int,
    load: Stored -> Loaded,
    decrypt: Loaded -> Option<Loaded>,
    prepare: Loaded -> Option<Loaded>,
    save: (Loaded, int) -> Loaded,
    persist: Loaded -> Stored)

  /** Saving stamps the record with the time of saving. */
  ghost predicate Restamps<Stored(!new), Loaded(!new)>(kind: Kind<Stored, Loaded>) {
    forall x: Loaded, now {:trigger kind.save(x, now)} :: kind.stamp(kind.persist(kind.save(x, now))) == now
  }

  /** A record as an entity in memory: decrypting and saving rewrite it in place. */
  class Entity<Loaded> {
    const id: nat
    var data: Loaded

    constructor (id: nat, data: Loaded)
      ensures this.id == id && this.data == data
    {
      this.id, this.data := id, data;
    }
  }

  /** The record after decrypting and preparing, if both succeed. */
  function Prepared<Stored, Loaded>(kind: Kind<Stored, Loaded>, r: Stored): Option<Loaded> {
    match kind.decrypt(kind.load(r))
    case None => None
    case Some(d) => kind.prepare(d)
  }

  /** r is the record that saving d stores, at some time after the date. */
  ghost predicate Saved<Stored, Loaded>(kind: Kind<Stored, Loaded>, date: int, d: Loaded, r: Stored) {
    exists now {:trigger kind.save(d, now)} :: now > date && r == kind.persist(kind.save(d, now))
  }

  /** r' is what the migration makes of r. */
  ghost predicate Migrated<Stored, Loaded>(kind: Kind<Stored, Loaded>, date: int, r: Stored, r': Stored) {
    Prepared(kind, r).Some? && Saved(kind, date, Prepared(kind, r).value, r')
  }

  ghost function Pending<Stored, Loaded>(kind: Kind<Stored, Loaded>, rows: map<nat, Stored>, date: int): set<nat> {
    set id | id in rows && kind.stamp(rows[id]) <= date
  }

  /** From `before` to `rows`, exactly the records `done` have been migrated. */
  ghost predicate Progressed<Stored, Loaded>(kind: Kind<Stored, Loaded>, date: int, before: map<nat, Stored>,
                                             rows: map<nat, Stored>, done: set<nat>) {
    && rows.Keys == before.Keys && done <= before.Keys
    && forall id :: id in rows ==> if id in done then Migrated(kind, date, before[id], rows[id]) else rows[id] == before[id]
  }

  // ----- what a stage does to its store

  ghost function Chosen<Stored>(rows: map<nat, Stored>, wanted: Stored -> bool): set<nat> {
    set id | id in rows && wanted(rows[id])
  }

  ghost predicate ChosenOpen<Stored, Loaded>(kind: Kind<Stored, Loaded>, rows: map<nat, Stored>, chosen: set<nat>) {
    forall id :: id in chosen && id in rows ==> Prepared(kind, rows[id]).Some?
  }

  /** From `before` to `after` only chosen records have been migrated: all of them if the stage was
      completed. */
  ghost predicate StoreAfter<Stored, Loaded>(kind: Kind<Stored, Loaded>, date: int, chosen: set<nat>, before: map<nat, Stored>,
                                             after: map<nat, Stored>, completed: bool) {
    && after.Keys == before.Keys
    && (forall id :: id in after ==> after[id] == before[id] || (id in chosen && Migrated(kind, date, before[id], after[id])))
    && (completed ==> forall id :: id in chosen && id in after ==> Migrated(kind, date, before[id], after[id]))
  }

  /** Records that are saved as they were decrypted. */
  ghost predicate NeedsNoPreparation<Stored(!new), Loaded(!new)>(kind: Kind<Stored, Loaded>) {
    forall d: Loaded {:trigger kind.prepare(d)} :: kind.prepare(d) == Some(d)
  }

  ghost function Ids<Loaded>(batch: seq<Entity<Loaded>>): set<nat> {
    set i | 0 <= i < |batch| :: batch[i].id
  }

  lemma IdsSnoc<Loaded>(batch: seq<Entity<Loaded>>, entity: Entity<Loaded>)
    ensures Ids(batch + [entity]) == Ids(batch) + {entity.id}
  {
    var more := batch + [entity];
    forall id ensures id in Ids(more) <==> id in Ids(batch) || id == entity.id {
      if id in Ids(batch) {
        var i :| 0 <= i < |batch| && batch[i].id == id;
        assert more[i].id == id;
      }
      if id == entity.id {
        assert more[|batch|].id == id;
      }
    }
  }

  ghost predicate Distinct<Loaded>(batch: seq<Entity<Loaded>>) {
    forall i, j :: 0 <= i < j < |batch| ==> batch[i] != batch[j] && batch[i].id != batch[j].id
  }

  class Repository<Stored> {
    var rows: map<nat, Stored>
    var clock: int  // what DateTime.UtcNow has reached

    constructor (rows: map<nat, Stored>, clock: int)
      ensures this.rows == rows && this.clock == clock
    {
      this.rows, this.clock := rows, clock;
    }

    /** `GetEncrypted...ForEncryptionMigration`: at most `limit` pending records, none only
        when none is pending. */
    method Fetch<Loaded>(kind: Kind<Stored, Loaded>, date: int, limit: nat) returns (batch: seq<Entity<Loaded>>)
      requires limit > 0
      ensures fresh(batch) && Distinct(batch) && |batch| <= limit
      ensures forall i :: 0 <= i < |batch| ==>
        batch[i].id in Pending(kind, rows, date) && batch[i].data == kind.load(rows[batch[i].id])
      ensures batch == [] ==> Pending(kind, rows, date) == {}
    {
      batch := [];
      var pending := set id | id in rows && kind.stamp(rows[id]) <= date;
      while |batch| < limit && pending != {}
        invariant fresh(batch) && Distinct(batch) && |batch| <= limit
        invariant pending <= Pending(kind, rows, date)
        invariant forall i :: 0 <= i < |batch| ==>
          batch[i].id in Pending(kind, rows, date) && batch[i].id !in pending && batch[i].data == kind.load(rows[batch[i].id])
        invariant batch == [] ==> pending == Pending(kind, rows, date)
        decreases pending
      {
        var id :| id in pending;
        var entity := new Entity(id, kind.load(rows[id]));
        batch := batch + [entity];
        pending := pending - {id};
      }
    }

    /** `GetAll` with a filter: every record that is wanted, whatever its age. */
    method FetchAll<Loaded>(kind: Kind<Stored, Loaded>, wanted: Stored -> bool) returns (batch: seq<Entity<Loaded>>)
      ensures fresh(batch) && Distinct(batch) && Ids(batch) == Chosen(rows, wanted)
      ensures forall i :: 0 <= i < |batch| ==> batch[i].id in Chosen(rows, wanted) && batch[i].data == kind.load(rows[batch[i].id])
    {
      batch := [];
      var left := set id | id in rows && wanted(rows[id]);
      while left != {}
        invariant fresh(batch) && Distinct(batch)
        invariant Ids(batch) + left == Chosen(rows, wanted)
        invariant forall i :: 0 <= i < |batch| ==>
          batch[i].id in Chosen(rows, wanted) && batch[i].id !in left && batch[i].data == kind.load(rows[batch[i].id])
        decreases left
      {
        var id :| id in left;
        var entity := new Entity(id, kind.load(rows[id]));
        IdsSnoc(batch, entity);
        batch := batch + [entity];
        left := left - {id};
      }
    }

    /** `Update...AfterEncryptionMigration`: encrypts, restamps and stores each record. */
    method Update<Loaded>(kind: Kind<Stored, Loaded>, batch: seq<Entity<Loaded>>, ghost date: int)
      requires Distinct(batch) && clock >= date
      requires forall i :: 0 <= i < |batch| ==> batch[i].id in rows
      modifies this, batch
      ensures clock >= old(clock)
      ensures rows.Keys == old(rows.Keys)
      ensures forall id :: id in rows && (forall i :: 0 <= i < |batch| ==> batch[i].id != id) ==> rows[id] == old(rows[id])
      ensures forall i :: 0 <= i < |batch| ==> Saved(kind, date, old(batch[i].data), rows[batch[i].id])
    {
      for i := 0 to |batch|
        invariant clock >= old(clock) && rows.Keys == old(rows.Keys)
        invariant forall j :: i <= j < |batch| ==> batch[j].data == old(batch[j].data)
        invariant forall id :: id in rows && (forall j :: 0 <= j < i ==> batch[j].id != id) ==> rows[id] == old(rows[id])
        invariant forall j :: 0 <= j < i ==> Saved(kind, date, old(batch[j].data), rows[batch[j].id])
      {
        clock := clock + 1;
        var entity := batch[i];
        entity.data := kind.save(entity.data, clock);
        rows := rows[entity.id := kind.persist(entity.data)];
        assert rows[batch[i].id] == kind.persist(kind.save(old(batch[i].data), clock));
      }
    }
  }

  /** Decrypts the entities of a batch in place; stops at the first that fails. */
  method DecryptBatch<Stored, Loaded>(kind: Kind<Stored, Loaded>, batch: seq<Entity<Loaded>>) returns (ok: bool)
    requires Distinct(batch)
    modifies batch
    ensures ok ==> forall i :: 0 <= i < |batch| ==> kind.decrypt(old(batch[i].data)) == Some(batch[i].data)
    ensures !ok ==> exists i :: 0 <= i < |batch| && kind.decrypt(old(batch[i].data)).None?
  {
    for i := 0 to |batch|
      invariant forall j :: i <= j < |batch| ==> batch[j].data == old(batch[j].data)
      invariant forall j :: 0 <= j < i ==> kind.decrypt(old(batch[j].data)) == Some(batch[j].data)
    {
      var d := kind.decrypt(batch[i].data);
      if d.None? {
        return false;
      }
      batch[i].data := d.value;
    }
    return true;
  }

  /** The loop that prepares the decrypted entities: only checkpoints need it. */
  method PrepareBatch<Stored, Loaded>(kind: Kind<Stored, Loaded>, batch: seq<Entity<Loaded>>) returns (ok: bool)
    requires Distinct(batch)
    modifies batch
    ensures ok ==> forall i :: 0 <= i < |batch| ==> kind.prepare(old(batch[i].data)) == Some(batch[i].data)
    ensures !ok ==> exists i :: 0 <= i < |batch| && kind.prepare(old(batch[i].data)).None?
  {
    for i := 0 to |batch|
      invariant forall j :: i <= j < |batch| ==> batch[j].data == old(batch[j].data)
      invariant forall j :: 0 <= j < i ==> kind.prepare(old(batch[j].data)) == Some(batch[j].data)
    {
      var d := kind.prepare(batch[i].data);
      if d.None? {
        return false;
      }
      batch[i].data := d.value;
    }
    return true;
  }

  /** Loads and decrypts every wanted record; nothing is stored. */
  method LoadDecrypted<Stored(!new), Loaded(!new)>(kind: Kind<Stored, Loaded>, repository: Repository<Stored>, wanted: Stored -> bool)
    returns (ok: bool, batch: seq<Entity<Loaded>>)
    requires NeedsNoPreparation(kind)
    ensures fresh(batch) && Distinct(batch) && Ids(batch) == Chosen(repository.rows, wanted)
    ensures forall i :: 0 <= i < |batch| ==> batch[i].id in repository.rows
    ensures ok <==> ChosenOpen(kind, repository.rows, Chosen(repository.rows, wanted))
    ensures ok ==> forall i :: 0 <= i < |batch| ==> Prepared(kind, repository.rows[batch[i].id]) == Some(batch[i].data)
  {
    batch := repository.FetchAll(kind, wanted);
    ghost var rows := repository.rows;
    ok := DecryptBatch(kind, batch);
    if ok {
      forall id | id in Chosen(rows, wanted) ensures Prepared(kind, rows[id]).Some? {
        var i :| 0 <= i < |batch| && batch[i].id == id;
        assert Prepared(kind, rows[batch[i].id]) == Some(batch[i].data);
      }
    } else {
      ghost var i :| 0 <= i < |batch| && kind.decrypt(kind.load(rows[batch[i].id])).None?;
      assert Prepared(kind, rows[batch[i].id]).None?;
    }
  }

  datatype Outcome = Completed(total: nat) | ApplicationError

  /** Every pending record can be decrypted and prepared. */
  ghost predicate AllOpen<Stored, Loaded>(kind: Kind<Stored, Loaded>, rows: map<nat, Stored>, date: int) {
    forall id :: id in Pending(kind, rows, date) ==> Prepared(kind, rows[id]).Some?
  }

  lemma {:induction false} IdsSize<Loaded>(batch: seq<Entity<Loaded>>)
    requires Distinct(batch)
    ensures |Ids(batch)| == |batch|
  {
    if batch != [] {
      var init, last := batch[..|batch| - 1], batch[|batch| - 1];
      IdsSize(init);
      assert last.id !in Ids(init);
      IdsSnoc(init, last);
      assert batch == init + [last];
    }
  }

  /** A stored batch moves its records from pending to done. */
  lemma BatchProgress<Stored(!new), Loaded(!new)>(kind: Kind<Stored, Loaded>, date: int, before: map<nat, Stored>,
                                                  mid: map<nat, Stored>, after: map<nat, Stored>, done: set<nat>, ids: set<nat>)
    requires Restamps(kind) && Progressed(kind, date, before, mid, done) && ids <= Pending(kind, mid, date)
    requires Pending(kind, mid, date) == Pending(kind, before, date) - done && done <= Pending(kind, before, date)
    requires after.Keys == mid.Keys
    requires forall id :: id in after ==> if id in ids then Migrated(kind, date, mid[id], after[id]) else after[id] == mid[id]
    ensures Progressed(kind, date, before, after, done + ids) && done + ids <= Pending(kind, before, date)
    ensures Pending(kind, after, date) == Pending(kind, before, date) - (done + ids)
  {
    forall id | id in ids ensures kind.stamp(after[id]) > date && id !in done {
      assert Migrated(kind, date, mid[id], after[id]);
    }
  }

  /** The part of a loop body that works on a fetched batch. */
  method MigrateBatch<Stored(!new), Loaded(!new)>(kind: Kind<Stored, Loaded>, repository: Repository<Stored>,
                                                  batch: seq<Entity<Loaded>>, ghost date: int) returns (ok: bool)
    requires Distinct(batch) && repository.clock >= date
    requires forall i :: 0 <= i < |batch| ==> batch[i].id in repository.rows && batch[i].data == kind.load(repository.rows[batch[i].id])
    modifies repository, batch
    ensures repository.clock >= date
    ensures ok ==> repository.rows.Keys == old(repository.rows).Keys
    ensures ok ==> forall id :: id in repository.rows ==>
      if id in Ids(batch) then Migrated(kind, date, old(repository.rows)[id], repository.rows[id])
      else repository.rows[id] == old(repository.rows)[id]
    ensures ok ==> forall id :: id in Ids(batch) ==> id in old(repository.rows) && Prepared(kind, old(repository.rows)[id]).Some?
    ensures !ok ==> repository.rows == old(repository.rows)
    ensures !ok ==> exists id :: id in Ids(batch) && id in repository.rows && Prepared(kind, repository.rows[id]).None?
  {
    ok := DecryptBatch(kind, batch);
    if !ok {
      ghost var i :| 0 <= i < |batch| && kind.decrypt(old(batch[i].data)).None?;
      assert batch[i].id in Ids(batch);
      return;
    }
    ok := PrepareBatch(kind, batch);
    if !ok {
      ghost var i :| 0 <= i < |batch| && Prepared(kind, old(repository.rows)[batch[i].id]).None?;
      assert batch[i].id in Ids(batch);
      return;
    }
    repository.Update(kind, batch, date);
  }

  /** The state of a migration loop. */
  ghost predicate Looping<Stored, Loaded>(kind: Kind<Stored, Loaded>, date: int, before: map<nat, Stored>,
                                          rows: map<nat, Stored>, done: set<nat>, total: int) {
    && Progressed(kind, date, before, rows, done)
    && done <= Pending(kind, before, date) && total == |done|
    && Pending(kind, rows, date) == Pending(kind, before, date) - done
    && forall id :: id in done ==> Prepared(kind, before[id]).Some?
  }

  lemma LoopingStep<Stored(!new), Loaded(!new)>(kind: Kind<Stored, Loaded>, date: int, before: map<nat, Stored>,
                                                mid: map<nat, Stored>, after: map<nat, Stored>, done: set<nat>, ids: set<nat>)
    requires Restamps(kind) && Looping(kind, date, before, mid, done, |done|) && ids <= Pending(kind, mid, date)
    requires after.Keys == mid.Keys
    requires forall id :: id in after ==> if id in ids then Migrated(kind, date, mid[id], after[id]) else after[id] == mid[id]
    ensures Looping(kind, date, before, after, done + ids, |done| + |ids|)
    ensures Pending(kind, after, date) == Pending(kind, mid, date) - ids
  {
    BatchProgress(kind, date, before, mid, after, done, ids);
    assert done !! ids;
  }

  lemma LoopingFailed<Stored, Loaded>(kind: Kind<Stored, Loaded>, date: int, before: map<nat, Stored>,
                                      rows: map<nat, Stored>, done: set<nat>, id: nat)
    requires Looping(kind, date, before, rows, done, |done|) && id in Pending(kind, rows, date) && Prepared(kind, rows[id]).None?
    ensures !AllOpen(kind, before, date)
  {
    assert id in Pending(kind, before, date) && rows[id] == before[id];
  }

  lemma LoopingDone<Stored, Loaded>(kind: Kind<Stored, Loaded>, date: int, before: map<nat, Stored>,
                                    rows: map<nat, Stored>, done: set<nat>)
    requires Looping(kind, date, before, rows, done, |done|) && Pending(kind, rows, date) == {}
    ensures AllOpen(kind, before, date) && done == Pending(kind, before, date)
  {
    var pending := Pending(kind, before, date);
    forall id | id in pending ensures id in done {
      assert id in pending - done <==> id !in done;
    }
  }

  /** The body of a migration loop: one batch. */
  method PerformBatch<Stored(!new), Loaded(!new)>(kind: Kind<Stored, Loaded>, repository: Repository<Stored>, secretChangeDate: int, limit: nat,
                                                  ghost before: map<nat, Stored>, ghost done: set<nat>)
    returns (ok: bool, count: nat, ghost done': set<nat>)
    requires Restamps(kind) && limit > 0 && repository.clock >= secretChangeDate
    requires Looping(kind, secretChangeDate, before, repository.rows, done, |done|)
    modifies repository
    ensures repository.clock >= secretChangeDate
    ensures Looping(kind, secretChangeDate, before, repository.rows, done', |done'|)
    ensures !ok ==> !AllOpen(kind, before, secretChangeDate)
    ensures ok ==> |done'| == |done| + count
    ensures ok && count > 0 ==> Pending(kind, repository.rows, secretChangeDate) < Pending(kind, old(repository.rows), secretChangeDate)
    ensures ok && count == 0 ==> repository.rows == old(repository.rows) && Pending(kind, repository.rows, secretChangeDate) == {}
  {
    var batch := repository.Fetch(kind, secretChangeDate, limit);
    count, done' := |batch|, done;
    if batch == [] {
      return true, count, done';
    }
    ghost var mid := repository.rows;
    ghost var ids := Ids(batch);
    assert ids <= Pending(kind, mid, secretChangeDate) && batch[0].id in ids;
    ok := MigrateBatch(kind, repository, batch, secretChangeDate);
    if !ok {
      ghost var id :| id in ids && id in mid && Prepared(kind, mid[id]).None?;
      LoopingFailed(kind, secretChangeDate, before, mid, done, id);
      return;
    }
    IdsSize(batch);
    LoopingStep(kind, secretChangeDate, before, mid, repository.rows, done, ids);
    assert ids !! done;
    done' := done + ids;
  }

  /** One of the three migration loops. It completes exactly when every pending record opens;
      then every pending record is migrated, no other is touched, and the total is the number
      of records that were pending. If it fails, whole batches may have been migrated before. */
  method PerformBatches<Stored(!new), Loaded(!new)>(kind: Kind<Stored, Loaded>, repository: Repository<Stored>, secretChangeDate: int, limit: nat)
    returns (outcome: Outcome, ghost done: set<nat>)
    requires Restamps(kind) && limit > 0 && repository.clock >= secretChangeDate
    modifies repository
    ensures repository.clock >= secretChangeDate
    ensures outcome.Completed? <==> AllOpen(kind, old(repository.rows), secretChangeDate)
    ensures Progressed(kind, secretChangeDate, old(repository.rows), repository.rows, done)
    ensures done <= Pending(kind, old(repository.rows), secretChangeDate)
    ensures outcome.Completed? ==>
      && done == Pending(kind, old(repository.rows), secretChangeDate) && outcome.total == |done|
      && Pending(kind, repository.rows, secretChangeDate) == {}
  {
    done := {};
    var totalCount: nat := 0;
    var count: nat := 1;
    while count > 0
      invariant repository.clock >= secretChangeDate
      invariant Looping(kind, secretChangeDate, old(repository.rows), repository.rows, done, totalCount)
      invariant count == 0 ==> Pending(kind, repository.rows, secretChangeDate) == {}
      decreases Pending(kind, repository.rows, secretChangeDate), count
    {
      var ok;
      ok, count, done := PerformBatch(kind, repository, secretChangeDate, limit, old(repository.rows), done);
      if !ok {
        return ApplicationError, done;
      }
      totalCount := totalCount + count;
    }
    LoopingDone(kind, secretChangeDate, old(repository.rows), repository.rows, done);
    return Completed(totalCount), done;
  }

  lemma ProgressedIsAfter<Stored, Loaded>(kind: Kind<Stored, Loaded>, date: int, before: map<nat, Stored>, after: map<nat, Stored>,
                                          done: set<nat>, chosen: set<nat>, completed: bool)
    requires Progressed(kind, date, before, after, done) && done <= chosen && (completed ==> done == chosen)
    ensures StoreAfter(kind, date, chosen, before, after, completed)
  {
  }
}
