/** app/routes/batch.py: creating, listing, reading, updating and deleting
    batches. */
module Batches {
  import opened Common
  import opened Auth
  import opened Table
  import opened Store
  import opened Patch

  /** The `BatchUpdate` payload: every field optional. Dates are kept as
      opaque numbers. */
  datatype BatchUpdate = BatchUpdate(
    name: Option<string>,
    description: Option<string>,
    coordinatorId: Option<int>,
    startDate: Option<int>,
    endDate: Option<int>,
    isActive: Option<bool>)

  // ---------------------------------------------------------------- partial update

  /** The batch a partial update should leave: every given field overwrites,
      every absent one stays. */
  function MergeBatch(b: Batch, u: BatchUpdate): (r: Batch)
    ensures r.name == if u.name.Some? then u.name else b.name
    ensures r.description == if u.description.Some? then u.description else b.description
    ensures r.coordinatorId == if u.coordinatorId.Some? then u.coordinatorId else b.coordinatorId
    ensures r.startDate == if u.startDate.Some? then u.startDate else b.startDate
    ensures r.endDate == if u.endDate.Some? then u.endDate else b.endDate
    ensures r.isActive == if u.isActive.Some? then u.isActive else b.isActive
  {
    Batch(
      if u.name.Some? then u.name else b.name,
      if u.description.Some? then u.description else b.description,
      if u.coordinatorId.Some? then u.coordinatorId else b.coordinatorId,
      if u.startDate.Some? then u.startDate else b.startDate,
      if u.endDate.Some? then u.endDate else b.endDate,
      if u.isActive.Some? then u.isActive else b.isActive)
  }

  /** An update that gives no field changes nothing; applying an update twice
      is applying it once; a given field is set; and no field that holds a
      value can be cleared, since `None` means "leave as is". */
  lemma MergeBatchLaws(b: Batch, u: BatchUpdate)
    ensures MergeBatch(b, BatchUpdate(None, None, None, None, None, None)) == b
    ensures MergeBatch(MergeBatch(b, u), u) == MergeBatch(b, u)
    ensures u.coordinatorId.Some? ==> MergeBatch(b, u).coordinatorId == u.coordinatorId
    ensures b.coordinatorId.Some? ==> MergeBatch(b, u).coordinatorId.Some?
    ensures b.name.Some? ==> MergeBatch(b, u).name.Some?
    ensures b.description.Some? ==> MergeBatch(b, u).description.Some?
    ensures b.startDate.Some? ==> MergeBatch(b, u).startDate.Some?
    ensures b.endDate.Some? ==> MergeBatch(b, u).endDate.Some?
    ensures b.isActive.Some? ==> MergeBatch(b, u).isActive.Some?
  {
  }

  /** One entry of `payload.dict(exclude_none=True)`: a field and its value. */
  datatype BatchField =
    | NameField(name: string)
    | DescriptionField(description: string)
    | CoordinatorIdField(coordinatorId: int)
    | StartDateField(startDate: int)
    | EndDateField(endDate: int)
    | IsActiveField(isActive: bool)

  /** `setattr(obj, field, value)` for one entry. */
  function SetBatchField(b: Batch, f: BatchField): Batch
  {
    match f
    case NameField(v) => b.(name := Some(v))
    case DescriptionField(v) => b.(description := Some(v))
    case CoordinatorIdField(v) => b.(coordinatorId := Some(v))
    case StartDateField(v) => b.(startDate := Some(v))
    case EndDateField(v) => b.(endDate := Some(v))
    case IsActiveField(v) => b.(isActive := Some(v))
  }

  /** `payload.dict(exclude_none=True)`: the given fields, in declaration order. */
  function GivenBatchFields(u: BatchUpdate): seq<BatchField>
  {
    (if u.name.Some? then [NameField(u.name.value)] else [])
    + (if u.description.Some? then [DescriptionField(u.description.value)] else [])
    + (if u.coordinatorId.Some? then [CoordinatorIdField(u.coordinatorId.value)] else [])
    + (if u.startDate.Some? then [StartDateField(u.startDate.value)] else [])
    + (if u.endDate.Some? then [EndDateField(u.endDate.value)] else [])
    + (if u.isActive.Some? then [IsActiveField(u.isActive.value)] else [])
  }

  /** The `setattr` loop over the given fields computes `MergeBatch`. */
  lemma {:induction false} GivenBatchFieldsMerge(b: Batch, u: BatchUpdate)
    ensures SetAll(b, GivenBatchFields(u), SetBatchField) == MergeBatch(b, u)
  {
    var f1 := if u.name.Some? then [NameField(u.name.value)] else [];
    var f2 := if u.description.Some? then [DescriptionField(u.description.value)] else [];
    var f3 := if u.coordinatorId.Some? then [CoordinatorIdField(u.coordinatorId.value)] else [];
    var f4 := if u.startDate.Some? then [StartDateField(u.startDate.value)] else [];
    var f5 := if u.endDate.Some? then [EndDateField(u.endDate.value)] else [];
    var f6 := if u.isActive.Some? then [IsActiveField(u.isActive.value)] else [];
    assert GivenBatchFields(u) == f1 + f2 + f3 + f4 + f5 + f6;
    SetAllSix(b, f1, f2, f3, f4, f5, f6, SetBatchField);
    var b1 := SetOpt(b, f1, SetBatchField);
    var b2 := SetOpt(b1, f2, SetBatchField);
    var b3 := SetOpt(b2, f3, SetBatchField);
    var b4 := SetOpt(b3, f4, SetBatchField);
    var b5 := SetOpt(b4, f5, SetBatchField);
    assert b1 == b.(name := if u.name.Some? then u.name else b.name);
    assert b2 == b1.(description := if u.description.Some? then u.description else b.description);
    assert b3 == b2.(coordinatorId := if u.coordinatorId.Some? then u.coordinatorId else b.coordinatorId);
    assert b4 == b3.(startDate := if u.startDate.Some? then u.startDate else b.startDate);
    assert b5 == b4.(endDate := if u.endDate.Some? then u.endDate else b.endDate);
  }

  // ---------------------------------------------------------------- reads

  /** `list_batches`: every row, in table order, with no filter and no guard. */
  function ListBatches(batches: seq<Row<Batch>>): (r: seq<Row<Batch>>)
    ensures |r| == |batches|
    ensures forall i :: 0 <= i < |r| ==> r[i] == batches[i]
  {
    batches
  }

  /** `get_batch`: the row with that id, or 404; no guard. */
  function GetBatch(batches: seq<Row<Batch>>, batchId: int): (r: Result<Row<Batch>>)
    ensures r.Failure? <==> !HasId(batches, batchId)
    ensures r.Failure? ==> r.error == NotFound
    ensures r.Success? ==> r.value in batches && r.value.id == batchId
  {
    var found := Lookup(batches, batchId);
    if found.None? then Failure(NotFound) else Success(found.value)
  }

  /** What `get_batch` sees after each write: a created batch is found, an
      updated batch is found with the merged fields, a deleted batch is gone,
      and every other id reads as before. */
  lemma {:induction false} GetBatchAfterWrites(batches: seq<Row<Batch>>, nextId: int, batchId: int,
                                               p: Batch, u: BatchUpdate)
    requires WellKeyed(batches, nextId)
    ensures GetBatch(batches + [Row(nextId, p)], nextId) == Success(Row(nextId, p))
    ensures HasId(batches, batchId) ==>
              var merged := MergeBatch(GetBatch(batches, batchId).value.val, u);
              GetBatch(Replace(batches, batchId, merged), batchId) == Success(Row(batchId, merged))
    ensures GetBatch(Remove(batches, batchId), batchId) == Failure(NotFound)
    ensures forall other :: other != batchId ==>
              GetBatch(Remove(batches, batchId), other) == GetBatch(batches, other)
  {
    InsertReadBack(batches, p, nextId);
    if HasId(batches, batchId) {
      ReplaceReadBack(batches, batchId, MergeBatch(GetBatch(batches, batchId).value.val, u), nextId);
    }
    RemoveExactlyOne(batches, batchId, nextId);
    forall other | other != batchId
      ensures GetBatch(Remove(batches, batchId), other) == GetBatch(batches, other)
    {
      var t := Remove(batches, batchId);
      FilterWellKeyed(batches, KeyOtherThan(batchId), nextId);
      var a := Lookup(t, other);
      var b := Lookup(batches, other);
      if a.Some? {
        assert a.value in batches;
      }
      if b.Some? {
        assert b.value in t;
      }
    }
  }

  // ---------------------------------------------------------------- handlers

  /** `create_batch`: admin (flag or role) only; the row holds the payload's
      given fields, and the database default wherever the payload has `None`. */
  method CreateBatch(db: Db, p: Batch, caller: Caller) returns (r: Result<Row<Batch>>)
    requires db.Valid()
    modifies db`batches, db`nextId
    ensures db.Valid()
    ensures r.Failure? <==> !AdminByFlagOrRole(caller)
    ensures r.Failure? ==> r.error == Forbidden
    ensures r.Failure? ==> db.batches == old(db.batches) && db.nextId == old(db.nextId)
    ensures r.Success? ==>
              && r.value == Row(old(db.nextId), p)
              && db.batches == old(db.batches) + [r.value]
              && db.nextId == old(db.nextId) + 1
              && Lookup(db.batches, r.value.id) == Some(r.value)
  {
    if !AdminByFlagOrRole(caller) {
      return Failure(Forbidden);
    }
    InsertReadBack(db.batches, p, db.nextId);
    var row := Row(db.nextId, p);
    db.batches := db.batches + [row];
    db.nextId := db.nextId + 1;
    r := Success(row);
  }

  /** `update_batch`: existence is checked before authorization, so a
      non-admin learns whether an id exists; then the given fields are set. */
  method UpdateBatch(db: Db, batchId: int, u: BatchUpdate, caller: Caller) returns (r: Result<Row<Batch>>)
    requires db.Valid()
    modifies db`batches
    ensures db.Valid()
    ensures !HasId(old(db.batches), batchId) ==> r == Failure(NotFound)
    ensures (HasId(old(db.batches), batchId) && !AdminByFlagOrRole(caller)) ==> r == Failure(Forbidden)
    ensures r.Success? <==> HasId(old(db.batches), batchId) && AdminByFlagOrRole(caller)
    ensures r.Failure? ==> db.batches == old(db.batches)
    ensures r.Success? ==>
              && r.value == Row(batchId, MergeBatch(Lookup(old(db.batches), batchId).value.val, u))
              && db.batches == Replace(old(db.batches), batchId, r.value.val)
              && Lookup(db.batches, batchId) == Some(r.value)
              && forall other :: other != batchId ==> Lookup(db.batches, other) == Lookup(old(db.batches), other)
  {
    var found := Lookup(db.batches, batchId);
    if found.None? {
      return Failure(NotFound);
    }
    if !AdminByFlagOrRole(caller) {
      return Failure(Forbidden);
    }
    var merged := SetEach(found.value.val, GivenBatchFields(u), SetBatchField);
    GivenBatchFieldsMerge(found.value.val, u);
    ReplaceReadBack(db.batches, batchId, merged, db.nextId);
    db.batches := Replace(db.batches, batchId, merged);
    r := Success(Row(batchId, merged));
  }

  /** `delete_batch`: existence before authorization, as in `update_batch`;
      exactly that batch is removed, and rows that refer to it are kept. */
  method DeleteBatch(db: Db, batchId: int, caller: Caller) returns (r: Result<()>)
    requires db.Valid()
    modifies db`batches
    ensures db.Valid()
    ensures !HasId(old(db.batches), batchId) ==> r == Failure(NotFound)
    ensures (HasId(old(db.batches), batchId) && !AdminByFlagOrRole(caller)) ==> r == Failure(Forbidden)
    ensures r.Success? <==> HasId(old(db.batches), batchId) && AdminByFlagOrRole(caller)
    ensures r.Failure? ==> db.batches == old(db.batches)
    ensures r.Success? ==>
              && db.batches == Remove(old(db.batches), batchId)
              && forall k :: 0 <= k < |old(db.batches)| && old(db.batches)[k].id == batchId
                   ==> db.batches == old(db.batches)[..k] + old(db.batches)[k + 1..]
  {
    var found := Lookup(db.batches, batchId);
    if found.None? {
      return Failure(NotFound);
    }
    if !AdminByFlagOrRole(caller) {
      return Failure(Forbidden);
    }
    RemoveExactlyOne(db.batches, batchId, db.nextId);
    db.batches := Remove(db.batches, batchId);
    r := Success(());
  }
}
