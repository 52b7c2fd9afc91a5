/** app/routes/allotment.py: linking a teacher to a batch. */
module Allotment {
  import opened Common
  import opened Auth
  import opened Table
  import opened Store

  /** The filter `batch_id == batchId and teacher_id == teacherId`. */
  function SamePair(batchId: int, teacherId: int): Row<BatchTeacher> -> bool
  {
    (x: Row<BatchTeacher>) => x.val == BatchTeacher(batchId, teacherId)
  }

  /** Some allotment row links `teacherId` to `batchId`. */
  predicate Allotted(rows: seq<Row<BatchTeacher>>, batchId: int, teacherId: int)
  {
    exists i :: 0 <= i < |rows| && rows[i].val == BatchTeacher(batchId, teacherId)
  }

  /** At most one allotment row per (batch, teacher) pair. */
  ghost predicate PairsUnique(rows: seq<Row<BatchTeacher>>)
  {
    forall i, j :: 0 <= i < |rows| && 0 <= j < |rows| && rows[i].val == rows[j].val ==> i == j
  }

  /** The duplicate check finds a row exactly when the pair is already allotted. */
  function ExistingAllotment(rows: seq<Row<BatchTeacher>>, batchId: int, teacherId: int): (r: Option<Row<BatchTeacher>>)
    ensures r.Some? <==> Allotted(rows, batchId, teacherId)
    ensures r.Some? ==> r.value in rows && r.value.val == BatchTeacher(batchId, teacherId)
  {
    First(rows, SamePair(batchId, teacherId))
  }

  /** Appending a pair that is not yet allotted keeps the pairs unique. */
  lemma FreshPairKeepsPairsUnique(rows: seq<Row<BatchTeacher>>, row: Row<BatchTeacher>)
    requires PairsUnique(rows)
    requires !Allotted(rows, row.val.batchId, row.val.teacherId)
    ensures PairsUnique(rows + [row])
    ensures Allotted(rows + [row], row.val.batchId, row.val.teacherId)
  {
    assert (rows + [row])[|rows|] == row;
  }

  /** `allot_teacher_to_batch`: admin (by role) only, then the batch, then the
      teacher must exist, then the pair must not be allotted yet. */
  method AllotTeacherToBatch(db: Db, batchId: int, teacherId: int, caller: Caller)
    returns (r: Result<Row<BatchTeacher>>)
    requires db.Valid()
    modifies db`batchTeachers, db`nextId
    ensures db.Valid()
    ensures !AdminByRole(caller) ==> r == Failure(Forbidden)
    ensures AdminByRole(caller) && !HasId(old(db.batches), batchId) ==> r == Failure(NotFound)
    ensures (AdminByRole(caller) && HasId(old(db.batches), batchId) && !HasId(old(db.teachers), teacherId))
            ==> r == Failure(NotFound)
    ensures (AdminByRole(caller) && HasId(old(db.batches), batchId) && HasId(old(db.teachers), teacherId)
             && Allotted(old(db.batchTeachers), batchId, teacherId))
            ==> r == Failure(BadRequest)
    ensures r.Success? <==> (AdminByRole(caller) && HasId(old(db.batches), batchId)
                             && HasId(old(db.teachers), teacherId)
                             && !Allotted(old(db.batchTeachers), batchId, teacherId))
    ensures r.Failure? ==> db.batchTeachers == old(db.batchTeachers) && db.nextId == old(db.nextId)
    ensures r.Success? ==> (r.value == Row(old(db.nextId), BatchTeacher(batchId, teacherId))
                            && db.batchTeachers == old(db.batchTeachers) + [r.value]
                            && db.nextId == old(db.nextId) + 1)
    ensures r.Success? ==> Allotted(db.batchTeachers, batchId, teacherId)
    ensures PairsUnique(old(db.batchTeachers)) ==> PairsUnique(db.batchTeachers)
  {
    if !AdminByRole(caller) {
      return Failure(Forbidden);
    }
    if Lookup(db.batches, batchId).None? {
      return Failure(NotFound);
    }
    if Lookup(db.teachers, teacherId).None? {
      return Failure(NotFound);
    }
    if ExistingAllotment(db.batchTeachers, batchId, teacherId).Some? {
      return Failure(BadRequest);
    }
    var row := Row(db.nextId, BatchTeacher(batchId, teacherId));
    if PairsUnique(db.batchTeachers) {
      FreshPairKeepsPairsUnique(db.batchTeachers, row);
    }
    InsertReadBack(db.batchTeachers, row.val, db.nextId);
    db.batchTeachers := db.batchTeachers + [row];
    db.nextId := db.nextId + 1;
    assert db.batchTeachers[|db.batchTeachers| - 1] == row;
    r := Success(row);
  }

  /** Allotting the same pair twice in a row: if the first call succeeds, the
      second is refused with 400 and adds nothing. */
  method AllotTwice(db: Db, batchId: int, teacherId: int, caller: Caller)
    returns (first: Result<Row<BatchTeacher>>, second: Result<Row<BatchTeacher>>)
    requires db.Valid()
    modifies db`batchTeachers, db`nextId
    ensures first.Success? ==> second == Failure(BadRequest)
    ensures first.Success? ==> db.batchTeachers == old(db.batchTeachers) + [first.value]
  {
    first := AllotTeacherToBatch(db, batchId, teacherId, caller);
    second := AllotTeacherToBatch(db, batchId, teacherId, caller);
  }
}
