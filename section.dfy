/**
 * The section routes: create a section whose start slot precedes its finish slot, replace a
 * section's week days (building one multi-row insert statement), and add or remove a student.
 * There is no scheduling-conflict check: the code has only a note that one is missing.
 */
module Section {
  import opened Common

  /** A row of `section`. */
  datatype SectionRow = SectionRow(
    idSemester: int,
    idClass: int,
    idClassroom: int,
    idStartTime: int,
    idFinishTime: int,
    idProfessor: int,
    idCreatedBy: int,
    comments: string)

  datatype SectionError =
    | CreateFailed         // "Error al crear sección"
    | DaysNotArray         // "Error al agregar dia de semana a la sección"
    | DaysDeleteFailed     // "Error al actualizar dias de semana a la sección"
    | DaysInsertFailed     // "Error al agregar dias de semana a la sección"
    | AddStudentFailed     // "Error al agregar estudiante"
    | RemoveStudentFailed  // "Error al quitar estudiante de sección"

  /** The `schedule_time` rows seeded at start-up, as minutes after midnight (7:00 to 21:30). */
  const SeededTimes: map<int, int> := map[1 := 420, 2 := 510, 3 := 610, 4 := 690, 5 := 780, 6 := 860,
                                          7 := 940, 8 := 1020, 9 := 1110, 10 := 1200, 11 := 1290]

  /**
   * The insert's guard `(select schedule_time ... = start) < (select schedule_time ... = finish)`:
   * a missing slot makes the comparison NULL, which is not true.
   */
  predicate StartsBeforeFinish(times: map<int, int>, start: int, finish: int)
    ensures StartsBeforeFinish(times, start, finish) ==> start in times && finish in times && start != finish
  {
    start in times && finish in times && times[start] < times[finish]
  }

  /** Over the seeded slots the guard is exactly "the start id is the smaller one". */
  lemma SeededGuard(start: int, finish: int)
    ensures StartsBeforeFinish(SeededTimes, start, finish) <==> 1 <= start < finish <= 11
  {
  }

  // ---------------------------------------------------------------- the `/days` statement

  /** The fixed head of the statement. */
  const DaysInsertHead: string := "insert into section_x_schedule_day (id_section, id_schedule_day) values"

  /** The text appended once per day. */
  const Group: string := "(?, ?),"

  /** `n` copies of `Group`. */
  function Groups(n: nat): (r: string)
    ensures |r| == 7 * n
  {
    if n == 0 then [] else Groups(n - 1) + Group
  }

  /** The statement for `n` days: the head and `n` groups, with the last character cut off. */
  function DaysStatement(n: nat): (r: string)
    ensures |r| == |DaysInsertHead| + 7 * n - 1
    ensures r[..|DaysInsertHead| - 1] == DaysInsertHead[..|DaysInsertHead| - 1]
  {
    var query := DaysInsertHead + Groups(n);
    query[..|query| - 1]
  }

  /** The values for the statement: `idSection` and the day, once per day, in input order. */
  function Interleave(idSection: int, idDays: seq<int>): (r: seq<int>)
    ensures |r| == 2 * |idDays|
    ensures forall k :: 0 <= k < |idDays| ==> r[2 * k] == idSection && r[2 * k + 1] == idDays[k]
  {
    if idDays == [] then []
    else Interleave(idSection, idDays[..|idDays| - 1]) + [idSection, idDays[|idDays| - 1]]
  }

  /**
   * The route's loop: for each day append `"(?, ?),"` to the statement and push `idSection`
   * and the day onto the values; then drop the last character.
   */
  method BuildDaysInsert(idSection: int, idDays: seq<int>) returns (statement: string, values: seq<int>)
    ensures statement == DaysStatement(|idDays|)
    ensures values == Interleave(idSection, idDays)
  {
    var query := DaysInsertHead;
    values := [];
    for i := 0 to |idDays|
      invariant query == DaysInsertHead + Groups(i)
      invariant values == Interleave(idSection, idDays[..i])
    {
      assert idDays[..i + 1][..i] == idDays[..i];
      query := query + Group;
      values := values + [idSection, idDays[i]];
    }
    assert idDays[..|idDays|] == idDays;
    statement := query[..|query| - 1];
  }

  /** Number of `?` placeholders in a text. */
  function Placeholders(s: string): nat
  {
    if s == [] then 0 else (if s[0] == '?' then 1 else 0) + Placeholders(s[1..])
  }

  lemma {:induction false} PlaceholdersAppend(a: string, b: string)
    ensures Placeholders(a + b) == Placeholders(a) + Placeholders(b)
    decreases |a|
  {
    if a != [] {
      assert (a + b)[1..] == a[1..] + b;
      PlaceholdersAppend(a[1..], b);
    } else {
      assert a + b == b;
    }
  }

  lemma TupleHasTwoPlaceholders()
    ensures Placeholders("(?, ?)") == 2
    ensures Placeholders(Group) == 2
  {
    var t := "(?, ?)";
    assert t[1..] == "?, ?)";
    assert t[1..][1..] == ", ?)";
    assert t[1..][1..][1..] == " ?)";
    assert t[1..][1..][1..][1..] == "?)";
    assert t[1..][1..][1..][1..][1..] == ")";
    assert t[1..][1..][1..][1..][1..][1..] == "";
    assert Group == t + ",";
    PlaceholdersAppend(t, ",");
    assert ","[1..] == "";
  }

  lemma {:induction false} GroupsPlaceholders(n: nat)
    ensures Placeholders(Groups(n)) == 2 * n
  {
    if n > 0 {
      GroupsPlaceholders(n - 1);
      PlaceholdersAppend(Groups(n - 1), Group);
      TupleHasTwoPlaceholders();
    }
  }

  /**
   * For at least one day the statement is the head followed by one `(?, ?)` group per day,
   * separated by commas; it ends in `)` and its placeholders are exactly as many as the values.
   */
  lemma DaysStatementShape(idSection: int, idDays: seq<int>)
    requires |idDays| >= 1
    ensures var n := |idDays|;
      && DaysStatement(n) == DaysInsertHead + Groups(n - 1) + "(?, ?)"
      && DaysStatement(n)[|DaysStatement(n)| - 1] == ')'
      && Placeholders(DaysStatement(n)[|DaysInsertHead|..]) == |Interleave(idSection, idDays)|
  {
    var n := |idDays|;
    var query := DaysInsertHead + Groups(n);
    assert Groups(n) == Groups(n - 1) + "(?, ?)" + ",";
    assert query == DaysInsertHead + Groups(n - 1) + "(?, ?)" + ",";
    assert DaysStatement(n) == DaysInsertHead + Groups(n - 1) + "(?, ?)";
    assert DaysStatement(n)[|DaysInsertHead|..] == Groups(n - 1) + "(?, ?)";
    GroupsPlaceholders(n - 1);
    PlaceholdersAppend(Groups(n - 1), "(?, ?)");
    TupleHasTwoPlaceholders();
  }

  /** For no days the cut removes the `s` of `values`: the statement ends in `value`, not in a group. */
  lemma EmptyDaysStatement()
    ensures DaysStatement(0) == DaysInsertHead[..|DaysInsertHead| - 1]
    ensures DaysStatement(0)[|DaysStatement(0)| - 1] == 'e'
  {
    assert DaysInsertHead + Groups(0) == DaysInsertHead;
  }

  /**
   * Whether MySQL accepts a built statement: a multi-row insert must end with a closing
   * parenthesis of a value group.
   */
  predicate Executes(statement: string)
  {
    statement != [] && statement[|statement| - 1] == ')'
  }

  lemma ExecutesIffSomeDay(idDays: seq<int>)
    ensures Executes(DaysStatement(|idDays|)) <==> |idDays| >= 1
  {
    if |idDays| >= 1 {
      DaysStatementShape(0, idDays);
    } else {
      EmptyDaysStatement();
    }
  }

  /** The rows an executed multi-row insert adds: the values taken two at a time. */
  function Pairs(values: seq<int>): set<(int, int)>
  {
    if |values| < 2 then {} else Pairs(values[..|values| - 2]) + {(values[|values| - 2], values[|values| - 1])}
  }

  /** The day rows of a section. */
  function DayPairs(idSection: int, idDays: seq<int>): set<(int, int)>
  {
    set d | d in idDays :: (idSection, d)
  }

  /** The inserted rows are one (section, day) row per given day. */
  lemma {:induction false} PairsOfInterleave(idSection: int, idDays: seq<int>)
    ensures Pairs(Interleave(idSection, idDays)) == DayPairs(idSection, idDays)
    decreases |idDays|
  {
    if idDays != [] {
      var front := idDays[..|idDays| - 1];
      var last := idDays[|idDays| - 1];
      var v := Interleave(idSection, idDays);
      assert v == Interleave(idSection, front) + [idSection, last];
      assert v[..|v| - 2] == Interleave(idSection, front);
      PairsOfInterleave(idSection, front);
      assert idDays == front + [last];
      forall p | p in DayPairs(idSection, idDays)
        ensures p in DayPairs(idSection, front) + {(idSection, last)}
      {
        var d :| d in idDays && p == (idSection, d);
        if d != last {
          var k :| 0 <= k < |idDays| && idDays[k] == d;
          assert front[k] == d;
        }
      }
    }
  }

  /** `delete from section_x_schedule_day where id_section = ?`. */
  function WithoutSection(days: set<(int, int)>, idSection: int): (r: set<(int, int)>)
    ensures forall p :: p in r <==> p in days && p.0 != idSection
  {
    set p | p in days && p.0 != idSection
  }

  /** After a replacement the section's days are exactly the given ones; other sections keep theirs. */
  lemma ReplaceDays(days: set<(int, int)>, idSection: int, idDays: seq<int>, other: int, d: int)
    ensures var after := WithoutSection(days, idSection) + DayPairs(idSection, idDays);
      && ((idSection, d) in after <==> d in idDays)
      && (other != idSection ==> ((other, d) in after <==> (other, d) in days))
  {
  }

  /**
   * A day given twice: under the assumed pair key of `section_x_schedule_day`, the multi-row
   * insert then repeats a key, and the whole statement fails.
   */
  predicate HasRepeat(idDays: seq<int>)
  {
    exists i, j :: 0 <= i < j < |idDays| && idDays[i] == idDays[j]
  }

  /** With no repeated day, the insert adds one row per given day. */
  lemma {:induction false} DistinctDaysCount(idSection: int, idDays: seq<int>)
    requires !HasRepeat(idDays)
    ensures |DayPairs(idSection, idDays)| == |idDays|
    decreases |idDays|
  {
    if idDays != [] {
      var front, last := idDays[..|idDays| - 1], idDays[|idDays| - 1];
      assert idDays == front + [last];
      assert !HasRepeat(front) by {
        forall i, j | 0 <= i < j < |front| ensures front[i] != front[j] {
          assert front[i] == idDays[i] && front[j] == idDays[j];
        }
      }
      assert (idSection, last) !in DayPairs(idSection, front) by {
        forall k | 0 <= k < |front| ensures front[k] != last {
          assert front[k] == idDays[k];
        }
      }
      DistinctDaysCount(idSection, front);
      assert DayPairs(idSection, idDays) == DayPairs(idSection, front) + {(idSection, last)};
    }
  }

  // ---------------------------------------------------------------- the store

  /**
   * The tables of the routes: `section` with its AUTO_INCREMENT counter, `schedule_time`,
   * `section_x_schedule_day` and `section_x_student`. The schema is not part of this model;
   * both pair tables are assumed to have a primary key on the pair.
   */
  class SectionStore {
    var sections: map<int, SectionRow>
    var times: map<int, int>
    var days: set<(int, int)>
    var students: set<(int, int)>
    var nextId: int

    /** Ids are below the counter and every section starts before it finishes. */
    ghost predicate Valid()
      reads this
    {
      && nextId >= 1
      && (forall id :: id in sections ==> 1 <= id < nextId)
      && (forall id :: id in sections ==> StartsBeforeFinish(times, sections[id].idStartTime, sections[id].idFinishTime))
    }

    constructor (times: map<int, int>)
      ensures Valid()
      ensures sections == map[] && this.times == times && days == {} && students == {} && nextId == 1
    {
      sections, days, students, nextId := map[], {}, {}, 1;
      this.times := times;
    }

    /**
     * `POST /`: the guarded `insert ... select ... where`. When the guard fails no row is added
     * and the reply still reports success, with insert id 0.
     */
    method Create(row: SectionRow, insertFails: bool) returns (r: Result<int, SectionError>)
      requires Valid()
      modifies this`sections, this`nextId
      ensures Valid()
      ensures insertFails ==> r == Err(CreateFailed)
      ensures !insertFails && !StartsBeforeFinish(times, row.idStartTime, row.idFinishTime) ==> r == Ok(0)
      ensures r != Ok(old(nextId)) ==> sections == old(sections) && nextId == old(nextId)
      ensures r == Ok(old(nextId)) <==> !insertFails && StartsBeforeFinish(times, row.idStartTime, row.idFinishTime)
      ensures r == Ok(old(nextId)) ==> (old(nextId) !in old(sections) && nextId == old(nextId) + 1
        && sections == old(sections)[old(nextId) := row])
    {
      if insertFails {
        return Err(CreateFailed);
      }
      if !StartsBeforeFinish(times, row.idStartTime, row.idFinishTime) {
        return Ok(0);
      }
      var id := nextId;
      sections := sections[id := row];
      nextId := nextId + 1;
      r := Ok(id);
    }

    /**
     * `POST /days`: a non-array is rejected before any write; otherwise the section's days are
     * deleted, then the built insert runs. A failed delete skips the insert; a failed insert
     * (always the case for an empty list or a repeated day) leaves the section with no days.
     */
    method SetDays(idSection: int, idDays: Option<seq<int>>, deleteFails: bool, insertFails: bool)
      returns (r: Result<(), SectionError>)
      modifies this`days
      ensures idDays.None? ==> r == Err(DaysNotArray) && days == old(days)
      ensures idDays.Some? && deleteFails ==> r == Err(DaysDeleteFailed) && days == old(days)
      ensures idDays.Some? && !deleteFails && (insertFails || idDays.value == [] || HasRepeat(idDays.value)) ==>
        r == Err(DaysInsertFailed) && days == WithoutSection(old(days), idSection)
      ensures r.Ok? <==> idDays.Some? && !deleteFails && !insertFails && idDays.value != [] && !HasRepeat(idDays.value)
      ensures r.Ok? ==> days == WithoutSection(old(days), idSection) + DayPairs(idSection, idDays.value)
    {
      if idDays.None? {
        return Err(DaysNotArray);
      }
      var statement, values := BuildDaysInsert(idSection, idDays.value);
      if deleteFails {
        return Err(DaysDeleteFailed);
      }
      days := WithoutSection(days, idSection);
      ExecutesIffSomeDay(idDays.value);
      if insertFails || !Executes(statement) || HasRepeat(idDays.value) {
        return Err(DaysInsertFailed);
      }
      PairsOfInterleave(idSection, idDays.value);
      days := days + Pairs(values);
      r := Ok(());
    }

    /** `POST /student`: insert the pair; under the assumed pair key, an existing pair is a duplicate-key error. */
    method AddStudent(idSection: int, idStudent: int, insertFails: bool) returns (r: Result<(), SectionError>)
      modifies this`students
      ensures r.Err? ==> r.error == AddStudentFailed && students == old(students)
      ensures r.Ok? <==> !insertFails && (idSection, idStudent) !in old(students)
      ensures r.Ok? ==> students == old(students) + {(idSection, idStudent)}
    {
      if insertFails || (idSection, idStudent) in students {
        return Err(AddStudentFailed);
      }
      students := students + {(idSection, idStudent)};
      r := Ok(());
    }

    /** `DELETE /student`: delete the pair; an absent pair is not an error. */
    method RemoveStudent(idSection: int, idStudent: int, deleteFails: bool) returns (r: Result<(), SectionError>)
      modifies this`students
      ensures deleteFails ==> r == Err(RemoveStudentFailed) && students == old(students)
      ensures !deleteFails ==> r == Ok(()) && students == old(students) - {(idSection, idStudent)}
    {
      if deleteFails {
        return Err(RemoveStudentFailed);
      }
      students := students - {(idSection, idStudent)};
      r := Ok(());
    }
  }
}
