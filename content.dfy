/** app/routes/content.py: learning material, optionally scoped to a batch,
    and the comments on it. */
module Contents {
  import opened Common
  import opened Auth
  import opened Table
  import opened Order
  import opened Store

  // ------------------------------------------------------------ enrollment

  /** An active enrollment row links the user to the batch. The source
      compares the enrollment's `student_id` with the caller's user id. */
  predicate Enrolled(enrollments: seq<Row<Enrollment>>, userId: int, batchId: int)
  {
    exists i :: 0 <= i < |enrollments| && enrollments[i].val == Enrollment(userId, batchId, true)
  }

  /** The filter `batch_id == batchId, student_id == userId, is_active == True`. */
  function ActiveEnrollmentOf(userId: int, batchId: int): Row<Enrollment> -> bool
  {
    (e: Row<Enrollment>) => e.val == Enrollment(userId, batchId, true)
  }

  /** `_user_is_enrolled`: content without a batch is open to everyone;
      otherwise an active enrollment of the user in that batch is needed. */
  function UserIsEnrolled(enrollments: seq<Row<Enrollment>>, userId: int, batchId: Option<int>): (b: bool)
    ensures batchId.None? ==> b
    ensures batchId.Some? ==> (b <==> Enrolled(enrollments, userId, batchId.value))
  {
    batchId.None? || First(enrollments, ActiveEnrollmentOf(userId, batchId.value)).Some?
  }

  /** The access rule `get_content` and `create_comment` apply to an
      authenticated caller: unscoped content, an active enrollment in the
      content's batch, or the `is_admin` flag. */
  function MayAccess(enrollments: seq<Row<Enrollment>>, c: Content, caller: Caller): (b: bool)
    ensures b <==> (|| c.batchId.None?
                    || Enrolled(enrollments, caller.id, c.batchId.value)
                    || AdminByFlag(caller))
  {
    UserIsEnrolled(enrollments, caller.id, c.batchId) || caller.isAdmin
  }

  /** The uploader of batch-scoped content is not let in on that ground: an
      uploader who is neither enrolled nor flagged admin is refused. */
  lemma UploaderNotExempt(enrollments: seq<Row<Enrollment>>, c: Content, caller: Caller)
    requires c.batchId.Some? && caller.id == c.uploaderId && !caller.isAdmin
    requires forall i :: 0 <= i < |enrollments| ==> enrollments[i].val != Enrollment(caller.id, c.batchId.value, true)
    ensures !MayAccess(enrollments, c, caller)
  {
  }

  // --------------------------------------------------------------- listings

  /** `order_by(contents.created_at.desc())`. */
  predicate NewerContentFirst(a: Row<Content>, b: Row<Content>)
  {
    a.val.createdAt >= b.val.createdAt
  }

  /** `order_by(comments.created_at.asc())`. */
  predicate OlderCommentFirst(a: Row<Comment>, b: Row<Comment>)
  {
    a.val.createdAt <= b.val.createdAt
  }

  lemma ContentAndCommentOrdersAreTotal()
    ensures TotalPreorder(NewerContentFirst)
    ensures TotalPreorder(OlderCommentFirst)
  {
  }

  /** The filters of `list_contents`: `batch_id == batchId` when a batch id is
      given (a row without a batch never equals one), and `is_public` when
      `only_public` is truthy. */
  predicate ContentListed(batchId: Option<int>, onlyPublic: Option<bool>, c: Content)
  {
    && (batchId.None? || c.batchId == batchId)
    && (!FlagGiven(onlyPublic) || c.isPublic)
  }

  function ContentFilter(batchId: Option<int>, onlyPublic: Option<bool>): Row<Content> -> bool
  {
    (x: Row<Content>) => ContentListed(batchId, onlyPublic, x.val)
  }

  /** `list_contents`: every matching row, exactly once each, newest first. */
  function ListContents(contents: seq<Row<Content>>, batchId: Option<int>, onlyPublic: Option<bool>)
    : (r: seq<Row<Content>>)
    ensures SortedBy(r, NewerContentFirst)
    ensures forall x ::
              multiset(r)[x] == if ContentListed(batchId, onlyPublic, x.val) then multiset(contents)[x] else 0
  {
    ContentAndCommentOrdersAreTotal();
    FilterCount(contents, ContentFilter(batchId, onlyPublic));
    SortBy(Filter(contents, ContentFilter(batchId, onlyPublic)), NewerContentFirst)
  }

  /** The filter `content_id == contentId, is_public == True`. */
  function PublicCommentOn(contentId: int): Row<Comment> -> bool
  {
    (x: Row<Comment>) => x.val.contentId == contentId && x.val.isPublic
  }

  /** `list_comments`: the content must exist; then its public comments,
      exactly once each, oldest first. */
  function ListComments(contents: seq<Row<Content>>, comments: seq<Row<Comment>>, contentId: int)
    : (r: Result<seq<Row<Comment>>>)
    ensures r.Failure? <==> !HasId(contents, contentId)
    ensures r.Failure? ==> r.error == NotFound
    ensures r.Success? ==>
              && SortedBy(r.value, OlderCommentFirst)
              && forall x :: multiset(r.value)[x]
                   == if x.val.contentId == contentId && x.val.isPublic then multiset(comments)[x] else 0
  {
    if Lookup(contents, contentId).None? then Failure(NotFound)
    else
      ContentAndCommentOrdersAreTotal();
      FilterCount(comments, PublicCommentOn(contentId));
      Success(SortBy(Filter(comments, PublicCommentOn(contentId)), OlderCommentFirst))
  }

  /** A public comment added to existing content shows up in its listing,
      and a private one does not. */
  lemma {:induction false} AddedCommentListing(contents: seq<Row<Content>>, comments: seq<Row<Comment>>, row: Row<Comment>)
    requires HasId(contents, row.val.contentId)
    requires row !in comments
    ensures row.val.isPublic <==> row in ListComments(contents, comments + [row], row.val.contentId).value
  {
    var listed := ListComments(contents, comments + [row], row.val.contentId).value;
    assert multiset(comments + [row])[row] == 1 by {
      assert multiset(comments)[row] == 0;
    }
    assert row in listed <==> multiset(listed)[row] > 0;
  }

  /** `get_content`: the content must exist; batch-scoped content then needs
      an authenticated caller (403 without one) who passes `MayAccess`. */
  function GetContent(contents: seq<Row<Content>>, enrollments: seq<Row<Enrollment>>, contentId: int,
                      caller: Option<Caller>)
    : (r: Result<Row<Content>>)
    ensures r == Failure(NotFound) <==> !HasId(contents, contentId)
    ensures r.Failure? ==> r.error != BadRequest
    ensures r.Success? ==> r.value in contents && r.value.id == contentId
    ensures (HasId(contents, contentId) && Lookup(contents, contentId).value.val.batchId.Some? && caller.None?)
            ==> r == Failure(Forbidden)
    ensures r.Success? <==> (&& HasId(contents, contentId)
                             && var c := Lookup(contents, contentId).value.val;
                                || c.batchId.None?
                                || (caller.Some? && MayAccess(enrollments, c, caller.value)))
  {
    var row := Lookup(contents, contentId);
    if row.None? then Failure(NotFound)
    else if row.value.val.batchId.Some? && caller.None? then Failure(Forbidden)
    else if row.value.val.batchId.Some? && !MayAccess(enrollments, row.value.val, caller.value) then Failure(Forbidden)
    else Success(row.value)
  }

  /** A caller whose role is "admin" but whose `is_admin` flag is off is
      refused batch-scoped content it is not enrolled in. */
  lemma RoleAdminWithoutFlagRefused(contents: seq<Row<Content>>, enrollments: seq<Row<Enrollment>>,
                                    contentId: int, callerId: int)
    requires HasId(contents, contentId)
    requires Lookup(contents, contentId).value.val.batchId.Some?
    requires !Enrolled(enrollments, callerId, Lookup(contents, contentId).value.val.batchId.value)
    ensures GetContent(contents, enrollments, contentId, Some(Caller(callerId, "admin", false))) == Failure(Forbidden)
  {
  }

  // ---------------------------------------------------------------- handlers

  /** `upload_content`: only a teacher or an admin (by role); a given batch id
      must name a batch. Query parameters left out take their defaults:
      an empty description and the content type "video". The database
      supplies `isPublic` and the creation time. */
  method UploadContent(db: Db, title: string, storageUrl: string, description: Option<string>,
                       contentType: Option<string>, batchId: Option<int>, caller: Caller,
                       now: int, publicDefault: bool)
    returns (r: Result<Row<Content>>)
    requires db.Valid()
    modifies db`contents, db`nextId
    ensures db.Valid()
    ensures !(IsTeacher(caller) || AdminByRole(caller)) ==> r == Failure(Forbidden)
    ensures ((IsTeacher(caller) || AdminByRole(caller)) && batchId.Some? && !HasId(old(db.batches), batchId.value))
            ==> r == Failure(NotFound)
    ensures r.Success? <==> ((IsTeacher(caller) || AdminByRole(caller))
                             && (batchId.None? || HasId(old(db.batches), batchId.value)))
    ensures r.Failure? ==> db.contents == old(db.contents) && db.nextId == old(db.nextId)
    ensures r.Success? ==>
              && r.value == Row(old(db.nextId),
                                Content(title, Override("", description), storageUrl,
                                        Override("video", contentType), caller.id, batchId,
                                        publicDefault, now))
              && db.contents == old(db.contents) + [r.value]
              && db.nextId == old(db.nextId) + 1
              && Lookup(db.contents, r.value.id) == Some(r.value)
  {
    if !(IsTeacher(caller) || AdminByRole(caller)) {
      return Failure(Forbidden);
    }
    if batchId.Some? && Lookup(db.batches, batchId.value).None? {
      return Failure(NotFound);
    }
    var c := Content(title, Override("", description), storageUrl, Override("video", contentType),
                     caller.id, batchId, publicDefault, now);
    InsertReadBack(db.contents, c, db.nextId);
    var row := Row(db.nextId, c);
    db.contents := db.contents + [row];
    db.nextId := db.nextId + 1;
    r := Success(row);
  }

  /** `create_comment`: the content must exist and pass the access rule; the
      comment is written by the caller on that content. */
  method CreateComment(db: Db, contentId: int, text: string, caller: Caller, now: int, publicDefault: bool)
    returns (r: Result<Row<Comment>>)
    requires db.Valid()
    modifies db`comments, db`nextId
    ensures db.Valid()
    ensures !HasId(old(db.contents), contentId) ==> r == Failure(NotFound)
    ensures (HasId(old(db.contents), contentId)
             && !MayAccess(old(db.enrollments), Lookup(old(db.contents), contentId).value.val, caller))
            ==> r == Failure(Forbidden)
    ensures r.Success? <==> (HasId(old(db.contents), contentId)
                             && MayAccess(old(db.enrollments), Lookup(old(db.contents), contentId).value.val, caller))
    ensures r.Failure? ==> db.comments == old(db.comments) && db.nextId == old(db.nextId)
    ensures r.Success? ==>
              && r.value == Row(old(db.nextId), Comment(contentId, caller.id, text, publicDefault, now))
              && db.comments == old(db.comments) + [r.value]
              && db.nextId == old(db.nextId) + 1
              && Lookup(db.comments, r.value.id) == Some(r.value)
  {
    var found := Lookup(db.contents, contentId);
    if found.None? {
      return Failure(NotFound);
    }
    if !MayAccess(db.enrollments, found.value.val, caller) {
      return Failure(Forbidden);
    }
    var c := Comment(contentId, caller.id, text, publicDefault, now);
    InsertReadBack(db.comments, c, db.nextId);
    var row := Row(db.nextId, c);
    db.comments := db.comments + [row];
    db.nextId := db.nextId + 1;
    r := Success(row);
  }

  /** `delete_comment`: the comment must exist; then only its author or a
      caller with the `is_admin` flag may delete it, and nothing else goes. */
  method DeleteComment(db: Db, commentId: int, caller: Caller) returns (r: Result<()>)
    requires db.Valid()
    modifies db`comments
    ensures db.Valid()
    ensures !HasId(old(db.comments), commentId) ==> r == Failure(NotFound)
    ensures (HasId(old(db.comments), commentId)
             && !AdminByFlag(caller)
             && Lookup(old(db.comments), commentId).value.val.authorId != caller.id)
            ==> r == Failure(Forbidden)
    ensures r.Success? <==> (HasId(old(db.comments), commentId)
                             && (AdminByFlag(caller)
                                 || Lookup(old(db.comments), commentId).value.val.authorId == caller.id))
    ensures r.Failure? ==> db.comments == old(db.comments)
    ensures r.Success? ==>
              && db.comments == Remove(old(db.comments), commentId)
              && forall k :: 0 <= k < |old(db.comments)| && old(db.comments)[k].id == commentId
                   ==> db.comments == old(db.comments)[..k] + old(db.comments)[k + 1..]
  {
    var found := Lookup(db.comments, commentId);
    if found.None? {
      return Failure(NotFound);
    }
    if !(caller.isAdmin || found.value.val.authorId == caller.id) {
      return Failure(Forbidden);
    }
    RemoveExactlyOne(db.comments, commentId, db.nextId);
    db.comments := Remove(db.comments, commentId);
    r := Success(());
  }
}
