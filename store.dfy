/** The database the routes share through their `db: Session` parameter:
    one in-memory table per model class the routes query, and the counter
    the database draws new primary keys from. */
module Store {
  import opened Common
  import opened Table

  /** A row of `users`; the routes only test that a user id exists. */
  datatype User = User(role: string, isAdmin: bool)

  /** A row of `teachers`, linked to the user who logs in as that teacher. */
  datatype Teacher = Teacher(userId: int)

  /** A row of `students`: the user behind it and the class (batch) it sits in. */
  datatype Student = Student(userId: int, classId: Option<int>)

  datatype Subject = Subject(name: string)

  /** A row of `batches`. `None` is a column the row leaves unset (NULL, or
      the column default of a schema that is not part of this model). */
  datatype Batch = Batch(
    name: Option<string>,
    description: Option<string>,
    coordinatorId: Option<int>,
    startDate: Option<int>,
    endDate: Option<int>,
    isActive: Option<bool>)

  /** A row of `enrollments`: membership of a student in a batch. */
  datatype Enrollment = Enrollment(studentId: int, batchId: int, isActive: bool)

  /** A row of `batch_teachers`: a teacher allotted to a batch. */
  datatype BatchTeacher = BatchTeacher(batchId: int, teacherId: int)

  /** A row of `timetable_slots`; the class is a batch. */
  datatype Slot = Slot(
    teacherId: int,
    classId: int,
    subjectId: int,
    day: string,
    startTime: string,
    endTime: string)

  /** A row of `notifications`; `createdAt` is only ever compared. */
  datatype Notification = Notification(
    recipientId: int,
    title: string,
    message: string,
    channel: string,
    isRead: bool,
    createdAt: int)

  /** A row of `contents`; `batchId == None` means visible to everyone. */
  datatype Content = Content(
    title: string,
    description: string,
    storageUrl: string,
    contentType: string,
    uploaderId: int,
    batchId: Option<int>,
    isPublic: bool,
    createdAt: int)

  /** A row of `comments` on a content item. */
  datatype Comment = Comment(
    contentId: int,
    authorId: int,
    text: string,
    isPublic: bool,
    createdAt: int)

  class Db {
    var users: seq<Row<User>>
    var teachers: seq<Row<Teacher>>
    var students: seq<Row<Student>>
    var subjects: seq<Row<Subject>>
    var batches: seq<Row<Batch>>
    var enrollments: seq<Row<Enrollment>>
    var batchTeachers: seq<Row<BatchTeacher>>
    var slots: seq<Row<Slot>>
    var notifications: seq<Row<Notification>>
    var contents: seq<Row<Content>>
    var comments: seq<Row<Comment>>
    /** The next primary key the database hands out; above every key in use. */
    var nextId: int

    /** Every table has unique primary keys, all below `nextId`. */
    ghost predicate Valid()
      reads this
    {
      && WellKeyed(users, nextId)
      && WellKeyed(teachers, nextId)
      && WellKeyed(students, nextId)
      && WellKeyed(subjects, nextId)
      && WellKeyed(batches, nextId)
      && WellKeyed(enrollments, nextId)
      && WellKeyed(batchTeachers, nextId)
      && WellKeyed(slots, nextId)
      && WellKeyed(notifications, nextId)
      && WellKeyed(contents, nextId)
      && WellKeyed(comments, nextId)
    }

    /** An empty database whose first key is 1. */
    constructor ()
      ensures Valid() && nextId == 1
      ensures users == [] && teachers == [] && students == [] && subjects == []
      ensures batches == [] && enrollments == [] && batchTeachers == []
      ensures slots == [] && notifications == [] && contents == [] && comments == []
    {
      users, teachers, students, subjects := [], [], [], [];
      batches, enrollments, batchTeachers := [], [], [];
      slots, notifications, contents, comments := [], [], [], [];
      nextId := 1;
    }
  }
}
