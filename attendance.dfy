/**
 * The attendance-log routes: open a log (and publish it in the DynamoDB `active_classrooms`
 * table, with an auto-close 900000 ms later), mark and unmark students, and close a log.
 * Each handler's callback chain is one method; a failing MySQL statement or DynamoDB call is
 * an input flag, and the `setTimeout` callback is the explicit step `Expire`.
 */
module Attendance {
  import opened Common
  import opened Http
  import opened Users

  /** The auto-close delay, in milliseconds (15 minutes). */
  const AutoCloseDelay := 900000

  /** A row of `attendance_log`. */
  datatype Log = Log(section: int, openedAt: int, closedAt: Option<int>)

  /**
   * The non-key columns of an `attendance_x_student` row. The schema is not part of this model;
   * the table is assumed to have a unique key on (log, student), as the `insert ignore` of the
   * mark routes presumes.
   */
  datatype Mark = Mark(markedBy: int, markedAt: int)

  /** A pending auto-close: the classroom it unpublishes and when it fires. */
  datatype AutoClose = AutoClose(classroom: int, dueAt: int)

  datatype OpenError =
    | SectionNotNumber       // "Parametro \"idSection\" no es un número"
    | CreateFailed           // "Error al crear nueva asistencia"
    | ClassroomLookupFailed  // "Error al obtener id de aula de clases"
    | NoSectionRow           // `result[0]` is undefined: the callback throws, no reply is sent and the process ends
    | DynamoPutFailed        // "Error abriendo asistencia con DynamoDB"

  datatype MarkError =
    | MarkFailed             // "Error al marcar estudiante"
    | AccountLookupFailed    // "Error al obtener id de usuario de estudiante"
    | UnknownAccount         // "Error, número de cuenta no valido"
    | MarkByAccountFailed    // "Error al marcar estudiante (con num. cuenta)"

  datatype UnmarkError = UnmarkFailed   // "Error al desmarcar de estudiante"

  datatype CloseError = CloseFailed     // "Error al cerrar asistencia"

  // ---------------------------------------------------------------- the statements

  /** `update attendance_log set closed_at = now() where id_attendance_log = id and closed_at is null`. */
  function CloseLog(logs: map<int, Log>, id: int, now: int): (r: map<int, Log>)
    ensures r.Keys == logs.Keys
    ensures forall k :: k in logs && k != id ==> r[k] == logs[k]
    ensures id in logs && logs[id].closedAt.None? ==> r[id] == logs[id].(closedAt := Some(now))
    ensures id in logs && logs[id].closedAt.Some? ==> r[id] == logs[id]
  {
    if id in logs && logs[id].closedAt.None? then logs[id := logs[id].(closedAt := Some(now))] else logs
  }

  /** A second close, by hand or by the timer, leaves the first close time in place. */
  lemma CloseIdempotent(logs: map<int, Log>, id: int, first: int, second: int)
    ensures CloseLog(CloseLog(logs, id, first), id, second) == CloseLog(logs, id, first)
  {
  }

  /**
   * `insert ignore into attendance_x_student (...) values (log, student, ...)`: the pair is the
   * key, so an existing record is kept as it is.
   */
  function InsertIgnore(marks: map<(int, int), Mark>, log: int, student: int, mark: Mark): (r: map<(int, int), Mark>)
    ensures r.Keys == marks.Keys + {(log, student)}
    ensures forall k :: k in marks ==> r[k] == marks[k]
    ensures (log, student) !in marks ==> r[(log, student)] == mark
  {
    if (log, student) in marks then marks else marks[(log, student) := mark]
  }

  /** Marking again keeps one record, and it is the first marker's and the first time. */
  lemma MarkIdempotent(marks: map<(int, int), Mark>, log: int, student: int, first: Mark, again: Mark)
    ensures InsertIgnore(InsertIgnore(marks, log, student, first), log, student, again)
      == InsertIgnore(marks, log, student, first)
  {
  }

  /** `delete from attendance_x_student where id_attendance_log = log and id_student = student`. */
  function DeleteMark(marks: map<(int, int), Mark>, log: int, student: int): (r: map<(int, int), Mark>)
    ensures r.Keys == marks.Keys - {(log, student)}
    ensures forall k :: k in r ==> r[k] == marks[k]
  {
    marks - {(log, student)}
  }

  /** Unmarking an absent pair changes nothing. */
  lemma UnmarkAbsentIsNoOp(marks: map<(int, int), Mark>, log: int, student: int)
    requires (log, student) !in marks
    ensures DeleteMark(marks, log, student) == marks
  {
  }

  /** Marking then unmarking a student who was not marked restores the table. */
  lemma UnmarkUndoesNewMark(marks: map<(int, int), Mark>, log: int, student: int, mark: Mark)
    requires (log, student) !in marks
    ensures DeleteMark(InsertIgnore(marks, log, student, mark), log, student) == marks
  {
  }

  /** `select id_user from user where account_number = ?`, first row: the smallest matching id. */
  function AccountOwner(users: seq<UserRow>, accountNumber: string): (r: Option<int>)
    ensures r.None? <==> forall x :: x in users ==> x.accountNumber != Some(accountNumber)
    ensures r.Some? ==> exists i :: (0 <= i < |users| && users[i].id == r.value
      && users[i].accountNumber == Some(accountNumber)
      && forall j :: 0 <= j < i ==> users[j].accountNumber != Some(accountNumber))
  {
    var found := Where(users, (x: UserRow) => x.accountNumber == Some(accountNumber));
    if found == [] then None
    else
      assert found[0] in found;
      Some(found[0].id)
  }

  // ---------------------------------------------------------------- the store

  /**
   * The tables the routes touch and the process state around them: `attendance_log`,
   * `attendance_x_student`, the DynamoDB `active_classrooms` table, the pending timers,
   * the clock (milliseconds) and the AUTO_INCREMENT counter of `attendance_log`.
   */
  class AttendanceService {
    var logs: map<int, Log>
    var marks: map<(int, int), Mark>
    var active: map<int, int>
    var timers: map<int, AutoClose>
    var now: int
    var nextId: int

    /** Generated ids are below the counter; a timer belongs to a log and fires 900000 ms after it opened. */
    ghost predicate Valid()
      reads this
    {
      && nextId >= 1
      && (forall id :: id in logs ==> 1 <= id < nextId)
      && (forall id :: id in timers ==> id in logs && timers[id].dueAt == logs[id].openedAt + AutoCloseDelay)
    }

    constructor (now: int)
      ensures Valid()
      ensures logs == map[] && marks == map[] && active == map[] && timers == map[]
      ensures this.now == now && nextId == 1
    {
      logs, marks, active, timers := map[], map[], map[], map[];
      this.now := now;
      nextId := 1;
    }

    /** Time passes. */
    method Advance(ms: nat)
      modifies this`now
      requires Valid()
      ensures Valid() && now == old(now) + ms
    {
      now := now + ms;
    }

    /**
     * `POST /`: insert the log, look up the section's classroom, publish the log in
     * `active_classrooms`, schedule the auto-close and reply with the new id. A step that
     * fails replies at once; nothing done before it is undone. A section without a row makes
     * the callback throw, which ends the process: every pending auto-close is lost.
     */
    method Open(idSection: Param, classroomOf: map<int, int>, insertFails: bool, selectFails: bool, putFails: bool)
      returns (r: Result<int, OpenError>)
      requires Valid()
      modifies this`logs, this`active, this`timers, this`nextId
      ensures Valid()
      ensures idSection.NaN? ==> r == Err(SectionNotNumber)
      ensures idSection.Num? && insertFails ==> r == Err(CreateFailed)
      ensures (idSection.NaN? || insertFails) ==> logs == old(logs) && nextId == old(nextId)
      ensures idSection.Num? && !insertFails ==> (old(nextId) !in old(logs) && nextId == old(nextId) + 1
        && logs == old(logs)[old(nextId) := Log(idSection.value, now, None)])
      ensures idSection.Num? && !insertFails && selectFails ==> r == Err(ClassroomLookupFailed)
      ensures idSection.Num? && !insertFails && !selectFails && idSection.value !in classroomOf ==> r == Err(NoSectionRow)
      ensures idSection.Num? && !insertFails && !selectFails && idSection.value in classroomOf && putFails ==>
        r == Err(DynamoPutFailed)
      ensures r.Ok? <==> idSection.Num? && !insertFails && !selectFails && idSection.value in classroomOf && !putFails
      ensures r.Err? ==> active == old(active)
      ensures r.Err? && r != Err(NoSectionRow) ==> timers == old(timers)
      ensures r == Err(NoSectionRow) ==> timers == map[]
      ensures r.Ok? ==> (r.value == old(nextId)
        && active == old(active)[classroomOf[idSection.value] := r.value]
        && timers == old(timers)[r.value := AutoClose(classroomOf[idSection.value], now + AutoCloseDelay)])
    {
      if idSection.NaN? {
        return Err(SectionNotNumber);
      }
      if insertFails {
        return Err(CreateFailed);
      }
      var insertId := nextId;
      logs := logs[insertId := Log(idSection.value, now, None)];
      nextId := nextId + 1;
      if selectFails {
        return Err(ClassroomLookupFailed);
      }
      if idSection.value !in classroomOf {
        timers := map[];
        return Err(NoSectionRow);
      }
      var idClassroom := classroomOf[idSection.value];
      if putFails {
        return Err(DynamoPutFailed);
      }
      active := active[idClassroom := insertId];
      timers := timers[insertId := AutoClose(idClassroom, now + AutoCloseDelay)];
      r := Ok(insertId);
    }

    /**
     * The auto-close callback, run once its time has come: it deletes the classroom's entry
     * from `active_classrooms` and closes the log if it is still open. Both failures are only
     * logged.
     */
    method Expire(id: int, deleteFails: bool, updateFails: bool)
      requires Valid() && id in timers && timers[id].dueAt <= now
      modifies this`logs, this`active, this`timers
      ensures Valid()
      ensures timers == old(timers) - {id}
      ensures active == if deleteFails then old(active) else old(active) - {old(timers)[id].classroom}
      ensures logs == if updateFails then old(logs) else CloseLog(old(logs), id, now)
    {
      var idClassroom := timers[id].classroom;
      timers := timers - {id};
      if !deleteFails {
        active := active - {idClassroom};
      }
      if !updateFails {
        logs := CloseLog(logs, id, now);
      }
    }

    /**
     * Whether `insert ignore` keeps a (log, student) row, assuming foreign keys from
     * `attendance_x_student` to the log and to the student (the schema is not part of this
     * model): under IGNORE, a row breaking one of them is dropped with a warning, and the
     * statement still succeeds. `studentIds` are the ids `id_student` may reference.
     */
    predicate Referenced(log: int, student: int, studentIds: set<int>)
      reads this
    {
      log in logs && student in studentIds
    }

    /**
     * `POST /:idAttendanceLog/mark/:idStudent`: insert-ignore the mark; `closed_at` is not
     * consulted, and a mark for an unknown log or student is silently dropped.
     */
    method MarkStudent(log: int, student: int, markedBy: int, studentIds: set<int>, insertFails: bool)
      returns (r: Result<(), MarkError>)
      modifies this`marks
      ensures insertFails ==> r == Err(MarkFailed) && marks == old(marks)
      ensures !insertFails ==> r == Ok(())
      ensures !insertFails && Referenced(log, student, studentIds) ==>
        marks == InsertIgnore(old(marks), log, student, Mark(markedBy, now))
      ensures !insertFails && !Referenced(log, student, studentIds) ==> marks == old(marks)
    {
      if insertFails {
        return Err(MarkFailed);
      }
      if Referenced(log, student, studentIds) {
        marks := InsertIgnore(marks, log, student, Mark(markedBy, now));
      }
      r := Ok(());
    }

    /**
     * `POST /:idAttendanceLog/mark-account-num/:accountNumber`: look the student up by account
     * number, then insert-ignore the mark for the first user found (dropped, as in
     * `MarkStudent`, when the log or the student does not exist).
     */
    method MarkByAccount(log: int, accountNumber: string, markedBy: int, users: seq<UserRow>,
                         studentIds: set<int>, selectFails: bool, insertFails: bool)
      returns (r: Result<(), MarkError>)
      modifies this`marks
      ensures selectFails ==> r == Err(AccountLookupFailed)
      ensures !selectFails && AccountOwner(users, accountNumber).None? ==> r == Err(UnknownAccount)
      ensures !selectFails && AccountOwner(users, accountNumber).Some? && insertFails ==> r == Err(MarkByAccountFailed)
      ensures r.Err? ==> marks == old(marks)
      ensures r.Ok? <==> !selectFails && AccountOwner(users, accountNumber).Some? && !insertFails
      ensures r.Ok? && Referenced(log, AccountOwner(users, accountNumber).value, studentIds) ==>
        marks == InsertIgnore(old(marks), log, AccountOwner(users, accountNumber).value, Mark(markedBy, now))
      ensures r.Ok? && !Referenced(log, AccountOwner(users, accountNumber).value, studentIds) ==> marks == old(marks)
    {
      if selectFails {
        return Err(AccountLookupFailed);
      }
      var owner := AccountOwner(users, accountNumber);
      if owner.None? {
        return Err(UnknownAccount);
      }
      if insertFails {
        return Err(MarkByAccountFailed);
      }
      if Referenced(log, owner.value, studentIds) {
        marks := InsertIgnore(marks, log, owner.value, Mark(markedBy, now));
      }
      r := Ok(());
    }

    /** `DELETE /:idAttendanceLog/mark/:idStudent`: delete that one pair. */
    method Unmark(log: int, student: int, deleteFails: bool) returns (r: Result<(), UnmarkError>)
      modifies this`marks
      ensures deleteFails ==> r == Err(UnmarkFailed) && marks == old(marks)
      ensures !deleteFails ==> r == Ok(()) && marks == DeleteMark(old(marks), log, student)
    {
      if deleteFails {
        return Err(UnmarkFailed);
      }
      marks := DeleteMark(marks, log, student);
      r := Ok(());
    }

    /** `PUT /:idAttendanceLog`: close the log if still open; `active_classrooms` is not touched. */
    method Close(log: int, updateFails: bool) returns (r: Result<(), CloseError>)
      requires Valid()
      modifies this`logs
      ensures Valid()
      ensures updateFails ==> r == Err(CloseFailed) && logs == old(logs)
      ensures !updateFails ==> r == Ok(()) && logs == CloseLog(old(logs), log, now)
    {
      if updateFails {
        return Err(CloseFailed);
      }
      logs := CloseLog(logs, log, now);
      r := Ok(());
    }
  }

  /**
   * A run of the routes: a log is opened, closed by hand, and a second log is opened for the
   * same classroom. When the first log's timer fires it removes the classroom's entry, though
   * that entry now names the second, still open, log. Marking after a close still succeeds,
   * and a mark for a log that does not exist is dropped with a success reply.
   */
  method ScenarioStaleAutoClose()
  {
    var s := new AttendanceService(0);
    var rooms := map[42 := 7, 43 := 7];
    var a := s.Open(Num(42), rooms, false, false, false);
    assert a == Ok(1);
    var students := {101, 102};
    var m := s.MarkStudent(1, 101, 5, students, false);
    var m2 := s.MarkStudent(1, 101, 6, students, false);
    assert s.marks == map[(1, 101) := Mark(5, 0)];
    var c := s.Close(1, false);
    assert s.logs[1].closedAt == Some(0);
    assert s.active[7] == 1;
    var late := s.MarkStudent(1, 102, 5, students, false);
    assert late == Ok(()) && (1, 102) in s.marks;
    var orphan := s.MarkStudent(99, 101, 5, students, false);
    assert orphan == Ok(()) && (99, 101) !in s.marks;
    s.Advance(60000);
    var b := s.Open(Num(43), rooms, false, false, false);
    assert b == Ok(2) && s.active[7] == 2;
    s.Advance(840000);
    s.Expire(1, false, false);
    assert 7 !in s.active && s.logs[2].closedAt == None;
    assert s.logs[1].closedAt == Some(0);
  }
}
