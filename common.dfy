/** Vocabulary shared by every route module: optional values, the HTTP
    errors the handlers raise, the authenticated caller, and the Python
    truthiness rules the handlers rely on when they test optional inputs. */
module Common {

  datatype Option<+T> = None | Some(value: T)

  /** The three `HTTPException` status codes the routes raise:
      404 (NotFound), 403 (Forbidden) and 400 (BadRequest). */
  datatype Err = NotFound | Forbidden | BadRequest

  /** The outcome of a handler: the serialized row(s), or the error raised. */
  datatype Result<+T> = Success(value: T) | Failure(error: Err)

  /** The user record that authentication hands to a route: its id, its
      `role` string and its `is_admin` flag. */
  datatype Caller = Caller(id: int, role: string, isAdmin: bool)

  /** Python truthiness of an optional integer: `None` and `0` are both false. */
  predicate IdGiven(o: Option<int>)
  {
    o.Some? && o.value != 0
  }

  /** Python truthiness of an optional string: `None` and `""` are both false. */
  predicate TextGiven(o: Option<string>)
  {
    o.Some? && o.value != ""
  }

  /** Python truthiness of an optional boolean: `None` and `False` are false. */
  predicate FlagGiven(o: Option<bool>)
  {
    o == Some(true)
  }

  /** Python's `o or fallback` on an optional string. */
  function OrElse(o: Option<string>, fallback: string): (r: string)
    ensures TextGiven(o) ==> r == o.value
    ensures !TextGiven(o) ==> r == fallback
  {
    if TextGiven(o) then o.value else fallback
  }

  /** One field of a partial update (`payload.dict(exclude_none=True)` followed
      by `setattr`): a given value overwrites, an absent one keeps the old. */
  function Override<T>(current: T, update: Option<T>): (r: T)
    ensures update.Some? ==> r == update.value
    ensures update.None? ==> r == current
  {
    if update.Some? then update.value else current
  }
}

/** The role predicates of the route files. The files disagree on what makes
    a caller an administrator, and the three notions are kept apart here. */
module Auth {
  import opened Common

  /** `_is_admin` of allotment.py, timetable.py and content.py: the role
      alone; the `is_admin` flag plays no part. */
  function AdminByRole(c: Caller): (b: bool)
    ensures b <==> c.role == "admin"
  {
    c.role == "admin"
  }

  /** `getattr(current_user, "is_admin", False)` of content.py: the flag
      alone; the role plays no part. */
  function AdminByFlag(c: Caller): (b: bool)
    ensures b <==> c.isAdmin
  {
    c.isAdmin
  }

  /** `_is_admin` of notification.py and batch.py: the flag or the role. */
  function AdminByFlagOrRole(c: Caller): (b: bool)
    ensures b <==> AdminByFlag(c) || AdminByRole(c)
  {
    c.isAdmin || c.role == "admin"
  }

  /** `_is_teacher` of notification.py and content.py: the role
      string is exactly "teacher", so a teacher is never an admin by role. */
  function IsTeacher(c: Caller): (b: bool)
    ensures b <==> c.role == "teacher"
    ensures b ==> !AdminByRole(c)
  {
    c.role == "teacher"
  }

  /** `_is_coordinator` of notification.py: the role string is exactly
      "coordinator", so a coordinator is neither a teacher nor an admin by role. */
  function IsCoordinator(c: Caller): (b: bool)
    ensures b <==> c.role == "coordinator"
    ensures b ==> !IsTeacher(c) && !AdminByRole(c)
  {
    c.role == "coordinator"
  }

  /** The role test ignores the flag, and the flag test ignores the role. */
  lemma AdminTestsIndependent(c: Caller, flag: bool, role: string)
    ensures AdminByRole(c.(isAdmin := flag)) == AdminByRole(c)
    ensures AdminByFlag(c.(role := role)) == AdminByFlag(c)
  {
  }

  /** The three admin notions differ: a caller whose role is "admin" without
      the flag passes the role test and fails the flag test, and a caller with
      the flag and another role passes the flag test and fails the role test. */
  lemma AdminNotionsDiffer(id: int, otherRole: string)
    requires otherRole != "admin"
    ensures var roleOnly := Caller(id, "admin", false);
      AdminByRole(roleOnly) && AdminByFlagOrRole(roleOnly) && !AdminByFlag(roleOnly)
    ensures var flagOnly := Caller(id, otherRole, true);
      !AdminByRole(flagOnly) && AdminByFlagOrRole(flagOnly) && AdminByFlag(flagOnly)
  {
  }
}
