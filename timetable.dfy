/** app/routes/timetable.py: creating, listing, updating and deleting
    timetable slots. */
module Timetable {
  import opened Common
  import opened Auth
  import opened Table
  import opened Order
  import opened Store
  import opened Patch

  /** The `SlotCreate` payload; the teacher comes from the path. */
  datatype SlotCreate = SlotCreate(
    classId: int,
    subjectId: int,
    day: string,
    startTime: string,
    endTime: string)

  /** The `SlotUpdate` payload: every field optional. */
  datatype SlotUpdate = SlotUpdate(
    classId: Option<int>,
    subjectId: Option<int>,
    day: Option<string>,
    startTime: Option<string>,
    endTime: Option<string>)

  // ---------------------------------------------------------------- conflicts

  /** Some slot already holds this class on this day at this start time. */
  predicate ClassTimeTaken(slots: seq<Row<Slot>>, classId: int, day: string, startTime: string)
  {
    exists i :: 0 <= i < |slots| && slots[i].val.classId == classId
      && slots[i].val.day == day && slots[i].val.startTime == startTime
  }

  /** No two slots hold the same class on the same day at the same start time. */
  ghost predicate ClassTimesUnique(slots: seq<Row<Slot>>)
  {
    forall i, j :: 0 <= i < |slots| && 0 <= j < |slots|
      && slots[i].val.classId == slots[j].val.classId
      && slots[i].val.day == slots[j].val.day
      && slots[i].val.startTime == slots[j].val.startTime
      ==> i == j
  }

  /** The conflict filter of `create_slot`: same class, day and start time. */
  function SameClassTime(classId: int, day: string, startTime: string): Row<Slot> -> bool
  {
    (x: Row<Slot>) => x.val.classId == classId && x.val.day == day && x.val.startTime == startTime
  }

  /** The conflict query finds a slot exactly when the class is taken at that
      time; the teacher, the subject and the end time play no part. */
  function ConflictingSlot(slots: seq<Row<Slot>>, p: SlotCreate): (r: Option<Row<Slot>>)
    ensures r.Some? <==> ClassTimeTaken(slots, p.classId, p.day, p.startTime)
  {
    First(slots, SameClassTime(p.classId, p.day, p.startTime))
  }

  /** Appending a slot whose class time is free keeps class times unique. */
  lemma FreeClassTimeKeepsUnique(slots: seq<Row<Slot>>, row: Row<Slot>)
    requires ClassTimesUnique(slots)
    requires !ClassTimeTaken(slots, row.val.classId, row.val.day, row.val.startTime)
    ensures ClassTimesUnique(slots + [row])
  {
    assert (slots + [row])[|slots|] == row;
  }

  // ---------------------------------------------------------------- ownership

  /** The owner check of `update_slot` and `delete_slot`: an admin by role, or
      the user linked to the slot's teacher row. */
  function MayEditSlot(teachers: seq<Row<Teacher>>, s: Slot, caller: Caller): (b: bool)
    ensures UniqueIds(teachers) ==>
      (b <==> AdminByRole(caller)
              || exists i :: 0 <= i < |teachers| && teachers[i].id == s.teacherId
                             && teachers[i].val.userId == caller.id)
  {
    var owner := Lookup(teachers, s.teacherId);
    AdminByRole(caller) || (owner.Some? && owner.value.val.userId == caller.id)
  }

  // ---------------------------------------------------------------- partial update

  /** The slot a partial update should leave: every given field overwrites,
      every absent one (and the teacher, which the update cannot name) stays. */
  function MergeSlot(s: Slot, u: SlotUpdate): (r: Slot)
    ensures r.teacherId == s.teacherId
    ensures r.classId == if u.classId.Some? then u.classId.value else s.classId
    ensures r.subjectId == if u.subjectId.Some? then u.subjectId.value else s.subjectId
    ensures r.day == if u.day.Some? then u.day.value else s.day
    ensures r.startTime == if u.startTime.Some? then u.startTime.value else s.startTime
    ensures r.endTime == if u.endTime.Some? then u.endTime.value else s.endTime
  {
    Slot(
      s.teacherId,
      Override(s.classId, u.classId),
      Override(s.subjectId, u.subjectId),
      Override(s.day, u.day),
      Override(s.startTime, u.startTime),
      Override(s.endTime, u.endTime))
  }

  /** One entry of `payload.dict(exclude_none=True)`: a field and its value. */
  datatype SlotField =
    | ClassIdField(classId: int)
    | SubjectIdField(subjectId: int)
    | DayField(day: string)
    | StartTimeField(startTime: string)
    | EndTimeField(endTime: string)

  /** `setattr(row, k, v)` for one entry. */
  function SetSlotField(s: Slot, f: SlotField): Slot
  {
    match f
    case ClassIdField(v) => s.(classId := v)
    case SubjectIdField(v) => s.(subjectId := v)
    case DayField(v) => s.(day := v)
    case StartTimeField(v) => s.(startTime := v)
    case EndTimeField(v) => s.(endTime := v)
  }

  /** `payload.dict(exclude_none=True)`: the given fields, in declaration order. */
  function GivenSlotFields(u: SlotUpdate): seq<SlotField>
  {
    (if u.classId.Some? then [ClassIdField(u.classId.value)] else [])
    + (if u.subjectId.Some? then [SubjectIdField(u.subjectId.value)] else [])
    + (if u.day.Some? then [DayField(u.day.value)] else [])
    + (if u.startTime.Some? then [StartTimeField(u.startTime.value)] else [])
    + (if u.endTime.Some? then [EndTimeField(u.endTime.value)] else [])
  }

  /** The `setattr` loop over the given fields computes `MergeSlot`. */
  lemma {:induction false} GivenSlotFieldsMerge(s: Slot, u: SlotUpdate)
    ensures SetAll(s, GivenSlotFields(u), SetSlotField) == MergeSlot(s, u)
  {
    var f1 := if u.classId.Some? then [ClassIdField(u.classId.value)] else [];
    var f2 := if u.subjectId.Some? then [SubjectIdField(u.subjectId.value)] else [];
    var f3 := if u.day.Some? then [DayField(u.day.value)] else [];
    var f4 := if u.startTime.Some? then [StartTimeField(u.startTime.value)] else [];
    var f5 := if u.endTime.Some? then [EndTimeField(u.endTime.value)] else [];
    assert GivenSlotFields(u) == f1 + f2 + f3 + f4 + f5;
    SetAllFive(s, f1, f2, f3, f4, f5, SetSlotField);
    var s1 := SetOpt(s, f1, SetSlotField);
    var s2 := SetOpt(s1, f2, SetSlotField);
    var s3 := SetOpt(s2, f3, SetSlotField);
    var s4 := SetOpt(s3, f4, SetSlotField);
    assert s1 == s.(classId := Override(s.classId, u.classId));
    assert s2 == s1.(subjectId := Override(s.subjectId, u.subjectId));
    assert s3 == s2.(day := Override(s.day, u.day));
    assert s4 == s3.(startTime := Override(s.startTime, u.startTime));
  }

  /** An update that gives no field changes nothing, and applying the same
      update twice is applying it once. */
  lemma MergeSlotLaws(s: Slot, u: SlotUpdate)
    ensures MergeSlot(s, SlotUpdate(None, None, None, None, None)) == s
    ensures MergeSlot(MergeSlot(s, u), u) == MergeSlot(s, u)
    ensures MergeSlot(s, u).teacherId == s.teacherId
  {
  }

  /** The update does not re-run the conflict check: two slots of one class on
      Monday at 09:00 and 10:00, and moving the second to 09:00, double-books
      the class. */
  lemma UpdateMayDoubleBookClass()
    ensures var before := [Row(1, Slot(1, 7, 1, "Monday", "09:00", "10:00")),
                           Row(2, Slot(1, 7, 2, "Monday", "10:00", "11:00"))];
            var moved := MergeSlot(before[1].val, SlotUpdate(None, None, None, Some("09:00"), None));
            ClassTimesUnique(before) && !ClassTimesUnique(Replace(before, 2, moved))
  {
    var before := [Row(1, Slot(1, 7, 1, "Monday", "09:00", "10:00")),
                   Row(2, Slot(1, 7, 2, "Monday", "10:00", "11:00"))];
    var moved := MergeSlot(before[1].val, SlotUpdate(None, None, None, Some("09:00"), None));
    var after := Replace(before, 2, moved);
    assert before[0].val.startTime != before[1].val.startTime;
    assert after[0] == before[0] && after[1].val == moved;
  }

  // ---------------------------------------------------------------- listings

  /** `order_by(day, start_time)`: by day, then by start time, both as text. */
  function SlotBefore(a: Row<Slot>, b: Row<Slot>): (r: bool)
    ensures r ==> StrLe(a.val.day, b.val.day)
    ensures a.val.day != b.val.day && StrLe(a.val.day, b.val.day) ==> r
    ensures a.val.day == b.val.day ==> (r <==> StrLe(a.val.startTime, b.val.startTime))
  {
    StrLeTotal(a.val.day, a.val.day);
    if a.val.day != b.val.day then StrLe(a.val.day, b.val.day)
    else StrLe(a.val.startTime, b.val.startTime)
  }

  lemma SlotOrderIsTotal()
    ensures TotalPreorder(SlotBefore)
  {
    forall a, b ensures SlotBefore(a, b) || SlotBefore(b, a) {
      StrLeTotal(a.val.day, b.val.day);
      StrLeTotal(a.val.startTime, b.val.startTime);
    }
    forall a, b, c | SlotBefore(a, b) && SlotBefore(b, c) ensures SlotBefore(a, c) {
      SlotBeforeTransitive(a, b, c);
    }
  }

  lemma SlotBeforeTransitive(a: Row<Slot>, b: Row<Slot>, c: Row<Slot>)
    requires SlotBefore(a, b) && SlotBefore(b, c)
    ensures SlotBefore(a, c)
  {
    var x, y, z := a.val, b.val, c.val;
    if x.day == y.day && y.day == z.day {
      StrLeTransitive(x.startTime, y.startTime, z.startTime);
    } else if x.day != y.day && y.day != z.day {
      StrLeTransitive(x.day, y.day, z.day);
      if x.day == z.day {
        StrLeAntisymmetric(x.day, y.day);
      }
    }
  }

  /** `if day:` — a missing or empty day filter keeps every day. */
  predicate DayMatches(day: Option<string>, d: string)
  {
    !TextGiven(day) || d == day.value
  }

  function TeacherDay(teacherId: int, day: Option<string>): Row<Slot> -> bool
  {
    (x: Row<Slot>) => x.val.teacherId == teacherId && DayMatches(day, x.val.day)
  }

  function ClassDay(classId: int, day: Option<string>): Row<Slot> -> bool
  {
    (x: Row<Slot>) => x.val.classId == classId && DayMatches(day, x.val.day)
  }

  /** The slots of one teacher (on one day, if given), ordered by (day, start). */
  function TeacherSlots(slots: seq<Row<Slot>>, teacherId: int, day: Option<string>): (r: seq<Row<Slot>>)
    ensures SortedBy(r, SlotBefore)
    ensures forall x ::
              multiset(r)[x] == if x.val.teacherId == teacherId && DayMatches(day, x.val.day) then multiset(slots)[x] else 0
  {
    SlotOrderIsTotal();
    FilterCount(slots, TeacherDay(teacherId, day));
    SortBy(Filter(slots, TeacherDay(teacherId, day)), SlotBefore)
  }

  /** The slots of one class (on one day, if given), ordered by (day, start). */
  function ClassSlots(slots: seq<Row<Slot>>, classId: int, day: Option<string>): (r: seq<Row<Slot>>)
    ensures SortedBy(r, SlotBefore)
    ensures forall x ::
              multiset(r)[x] == if x.val.classId == classId && DayMatches(day, x.val.day) then multiset(slots)[x] else 0
  {
    SlotOrderIsTotal();
    FilterCount(slots, ClassDay(classId, day));
    SortBy(Filter(slots, ClassDay(classId, day)), SlotBefore)
  }

  /** The filter `teachers.user_id == userId`. */
  function TeacherOfUser(userId: int): Row<Teacher> -> bool
  {
    (x: Row<Teacher>) => x.val.userId == userId
  }

  /** The filter `students.user_id == userId`. */
  function StudentOfUser(userId: int): Row<Student> -> bool
  {
    (x: Row<Student>) => x.val.userId == userId
  }

  /** `get_my_slots`: the caller's first teacher row, or 404; then that
      teacher's slots. */
  function GetMySlots(teachers: seq<Row<Teacher>>, slots: seq<Row<Slot>>, caller: Caller, day: Option<string>)
    : (r: Result<seq<Row<Slot>>>)
    ensures r.Failure? <==> forall i :: 0 <= i < |teachers| ==> teachers[i].val.userId != caller.id
    ensures r.Failure? ==> r.error == NotFound
    ensures r.Success? ==>
      var k := FirstIndex(teachers, TeacherOfUser(caller.id));
      && k < |teachers| && teachers[k].val.userId == caller.id
      && (forall j :: 0 <= j < k ==> teachers[j].val.userId != caller.id)
      && SortedBy(r.value, SlotBefore)
      && (forall x :: multiset(r.value)[x]
            == if x.val.teacherId == teachers[k].id && DayMatches(day, x.val.day) then multiset(slots)[x] else 0)
  {
    var tr := First(teachers, TeacherOfUser(caller.id));
    if tr.None? then Failure(NotFound)
    else Success(TeacherSlots(slots, tr.value.id, day))
  }

  /** `get_class_slots`: the caller's first student row, or 404; a missing or
      zero class id, 400; then that class's slots. */
  function GetClassSlots(students: seq<Row<Student>>, slots: seq<Row<Slot>>, caller: Caller, day: Option<string>)
    : (r: Result<seq<Row<Slot>>>)
    ensures r == Failure(NotFound) <==> forall i :: 0 <= i < |students| ==> students[i].val.userId != caller.id
    ensures r.Failure? ==> r.error != Forbidden
    ensures var k := FirstIndex(students, StudentOfUser(caller.id));
      k < |students| ==>
        && (r == Failure(BadRequest) <==> !IdGiven(students[k].val.classId))
        && (r.Success? ==>
              && SortedBy(r.value, SlotBefore)
              && forall x :: multiset(r.value)[x]
                   == if x.val.classId == students[k].val.classId.value && DayMatches(day, x.val.day)
                      then multiset(slots)[x] else 0)
  {
    var st := First(students, StudentOfUser(caller.id));
    if st.None? then Failure(NotFound)
    else if !IdGiven(st.value.val.classId) then Failure(BadRequest)
    else Success(ClassSlots(slots, st.value.val.classId.value, day))
  }

  // ---------------------------------------------------------------- handlers

  /** `create_slot`: the teacher, then the class, then the subject must exist;
      then the class must be free on that day at that start time. */
  method CreateSlot(db: Db, teacherId: int, p: SlotCreate) returns (r: Result<Row<Slot>>)
    requires db.Valid()
    modifies db`slots, db`nextId
    ensures db.Valid()
    ensures !HasId(old(db.teachers), teacherId) ==> r == Failure(NotFound)
    ensures (HasId(old(db.teachers), teacherId) && !HasId(old(db.batches), p.classId))
            ==> r == Failure(NotFound)
    ensures (HasId(old(db.teachers), teacherId) && HasId(old(db.batches), p.classId)
             && !HasId(old(db.subjects), p.subjectId))
            ==> r == Failure(NotFound)
    ensures (HasId(old(db.teachers), teacherId) && HasId(old(db.batches), p.classId)
             && HasId(old(db.subjects), p.subjectId)
             && ClassTimeTaken(old(db.slots), p.classId, p.day, p.startTime))
            ==> r == Failure(BadRequest)
    ensures r.Success? <==> (HasId(old(db.teachers), teacherId) && HasId(old(db.batches), p.classId)
                             && HasId(old(db.subjects), p.subjectId)
                             && !ClassTimeTaken(old(db.slots), p.classId, p.day, p.startTime))
    ensures r.Failure? ==> db.slots == old(db.slots) && db.nextId == old(db.nextId)
    ensures r.Success? ==>
              && r.value == Row(old(db.nextId), Slot(teacherId, p.classId, p.subjectId, p.day, p.startTime, p.endTime))
              && db.slots == old(db.slots) + [r.value]
              && db.nextId == old(db.nextId) + 1
    ensures ClassTimesUnique(old(db.slots)) ==> ClassTimesUnique(db.slots)
  {
    if Lookup(db.teachers, teacherId).None? {
      return Failure(NotFound);
    }
    if Lookup(db.batches, p.classId).None? {
      return Failure(NotFound);
    }
    if Lookup(db.subjects, p.subjectId).None? {
      return Failure(NotFound);
    }
    if ConflictingSlot(db.slots, p).Some? {
      return Failure(BadRequest);
    }
    var row := Row(db.nextId, Slot(teacherId, p.classId, p.subjectId, p.day, p.startTime, p.endTime));
    if ClassTimesUnique(db.slots) {
      FreeClassTimeKeepsUnique(db.slots, row);
    }
    InsertReadBack(db.slots, row.val, db.nextId);
    db.slots := db.slots + [row];
    db.nextId := db.nextId + 1;
    r := Success(row);
  }

  /** `update_slot`: the slot must exist, then the caller must be an admin by
      role or the slot's teacher; the given fields overwrite, the others stay. */
  method UpdateSlot(db: Db, slotId: int, u: SlotUpdate, caller: Caller) returns (r: Result<Row<Slot>>)
    requires db.Valid()
    modifies db`slots
    ensures db.Valid()
    ensures !HasId(old(db.slots), slotId) ==> r == Failure(NotFound)
    ensures (HasId(old(db.slots), slotId)
             && !MayEditSlot(old(db.teachers), Lookup(old(db.slots), slotId).value.val, caller))
            ==> r == Failure(Forbidden)
    ensures r.Success? <==> (HasId(old(db.slots), slotId)
                             && MayEditSlot(old(db.teachers), Lookup(old(db.slots), slotId).value.val, caller))
    ensures r.Failure? ==> db.slots == old(db.slots)
    ensures r.Success? ==>
              && r.value == Row(slotId, MergeSlot(Lookup(old(db.slots), slotId).value.val, u))
              && db.slots == Replace(old(db.slots), slotId, r.value.val)
              && Lookup(db.slots, slotId) == Some(r.value)
              && forall other :: other != slotId ==> Lookup(db.slots, other) == Lookup(old(db.slots), other)
  {
    var found := Lookup(db.slots, slotId);
    if found.None? {
      return Failure(NotFound);
    }
    var row := found.value;
    if !MayEditSlot(db.teachers, row.val, caller) {
      return Failure(Forbidden);
    }
    var merged := SetEach(row.val, GivenSlotFields(u), SetSlotField);
    GivenSlotFieldsMerge(row.val, u);
    ReplaceReadBack(db.slots, slotId, merged, db.nextId);
    db.slots := Replace(db.slots, slotId, merged);
    r := Success(Row(slotId, merged));
  }

  /** `delete_slot`: the slot must exist, then the caller must be an admin by
      role or the slot's teacher; exactly that slot is removed. */
  method DeleteSlot(db: Db, slotId: int, caller: Caller) returns (r: Result<()>)
    requires db.Valid()
    modifies db`slots
    ensures db.Valid()
    ensures !HasId(old(db.slots), slotId) ==> r == Failure(NotFound)
    ensures (HasId(old(db.slots), slotId)
             && !MayEditSlot(old(db.teachers), Lookup(old(db.slots), slotId).value.val, caller))
            ==> r == Failure(Forbidden)
    ensures r.Success? <==> (HasId(old(db.slots), slotId)
                             && MayEditSlot(old(db.teachers), Lookup(old(db.slots), slotId).value.val, caller))
    ensures r.Failure? ==> db.slots == old(db.slots)
    ensures r.Success? ==>
              && db.slots == Remove(old(db.slots), slotId)
              && forall k :: 0 <= k < |old(db.slots)| && old(db.slots)[k].id == slotId
                   ==> db.slots == old(db.slots)[..k] + old(db.slots)[k + 1..]
  {
    var found := Lookup(db.slots, slotId);
    if found.None? {
      return Failure(NotFound);
    }
    if !MayEditSlot(db.teachers, found.value.val, caller) {
      return Failure(Forbidden);
    }
    RemoveExactlyOne(db.slots, slotId, db.nextId);
    db.slots := Remove(db.slots, slotId);
    r := Success(());
  }
}
