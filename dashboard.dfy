/** The dashboard's per-employee attendance status and the check-in and
    check-out cells of its table row, derived from the list of attendance
    rows it has fetched. */
module Dashboard {
  import opened Schema
  import Schedule
  import Ledger

  datatype Status = Complete | Present | Absent

  /** The check-in and check-out cells of one row; `None` is shown as '-'. */
  datatype Row = Row(masuk: Option<Record>, pulang: Option<Record>)

  /** The rows of one employee dated `today`, in list order. */
  function TodayRecords(rs: seq<Record>, karyawanId: string, today: int): (mine: seq<Record>)
    ensures |mine| <= |rs|
    ensures forall x :: x in mine <==> x in rs && x.karyawanId == karyawanId && x.day == today
  {
    if rs == [] then []
    else
      var rest := TodayRecords(rs[1..], karyawanId, today);
      assert forall x :: x in rs <==> x == rs[0] || x in rs[1..];
      if rs[0].karyawanId == karyawanId && rs[0].day == today then [rs[0]] + rest else rest
  }

  /** `some(a => a.tipeAbsen === tipe)`. */
  predicate HasType(rs: seq<Record>, tipe: string)
  {
    exists i | 0 <= i < |rs| :: rs[i].tipeAbsen == tipe
  }

  /** `find(a => a.tipeAbsen === tipe)`: the first row of that type in list
      order, or nothing when there is none. */
  function FindType(rs: seq<Record>, tipe: string): (found: Option<Record>)
    ensures found.Some? ==> found.value.tipeAbsen == tipe
    ensures found.Some? ==>
      exists i | 0 <= i < |rs| :: rs[i] == found.value && forall j | 0 <= j < i :: rs[j].tipeAbsen != tipe
    ensures found.None? <==> !HasType(rs, tipe)
  {
    if rs == [] then None
    else if rs[0].tipeAbsen == tipe then Some(rs[0])
    else
      var rest := FindType(rs[1..], tipe);
      assert forall i :: 1 <= i < |rs| ==> rs[i] == rs[1..][i - 1];
      if rest.None? then rest
      else
        var k :| 0 <= k < |rs[1..]| && rs[1..][k] == rest.value
                 && forall j | 0 <= j < k :: rs[1..][j].tipeAbsen != tipe;
        assert rs[k + 1] == rest.value;
        rest
  }

  /** Filtering by employee and day then testing the type finds a row
      exactly when the ledger's key lookup does. */
  lemma HasTypeOfToday(rs: seq<Record>, karyawanId: string, tipe: string, today: int)
    ensures HasType(TodayRecords(rs, karyawanId, today), tipe) <==> Ledger.HasAttendance(rs, karyawanId, tipe, today)
  {
    var mine := TodayRecords(rs, karyawanId, today);
    if HasType(mine, tipe) {
      var i :| 0 <= i < |mine| && mine[i].tipeAbsen == tipe;
      assert mine[i] in rs;
      var j :| 0 <= j < |rs| && rs[j] == mine[i];
    }
    if Ledger.HasAttendance(rs, karyawanId, tipe, today) {
      var j :| 0 <= j < |rs| && rs[j].karyawanId == karyawanId && rs[j].tipeAbsen == tipe && rs[j].day == today;
      assert rs[j] in mine;
      var i :| 0 <= i < |mine| && mine[i] == rs[j];
    }
  }

  /** `getAttendanceStatus(karyawan)` for the records of `today`: complete
      with both a `masuk` and a `pulang` row of the employee that day,
      present with a `masuk` only, absent otherwise (a `pulang` alone counts
      as absent). Rows of other employees or other days play no part. */
  function AttendanceStatus(rs: seq<Record>, karyawan: Employee, today: int): (s: Status)
    ensures var masuk := Ledger.HasAttendance(rs, karyawan.id, Schedule.Masuk, today);
            var pulang := Ledger.HasAttendance(rs, karyawan.id, Schedule.Pulang, today);
            && (s == Complete <==> masuk && pulang)
            && (s == Present <==> masuk && !pulang)
            && (s == Absent <==> !masuk)
  {
    var todayAbsensi := TodayRecords(rs, karyawan.id, today);
    var hasMasuk := HasType(todayAbsensi, Schedule.Masuk);
    var hasPulang := HasType(todayAbsensi, Schedule.Pulang);
    HasTypeOfToday(rs, karyawan.id, Schedule.Masuk, today);
    HasTypeOfToday(rs, karyawan.id, Schedule.Pulang, today);
    if hasMasuk && hasPulang then Complete
    else if hasMasuk then Present
    else Absent
  }

  /** The first row of the list with the given employee, type and day. */
  function FirstMatch(rs: seq<Record>, karyawanId: string, tipe: string, today: int): Option<Record>
  {
    if rs == [] then None
    else if rs[0].karyawanId == karyawanId && rs[0].tipeAbsen == tipe && rs[0].day == today then Some(rs[0])
    else FirstMatch(rs[1..], karyawanId, tipe, today)
  }

  /** `FirstMatch` is the first row in list order with the key: nothing
      exactly when the ledger's lookup finds no row, and otherwise a row at
      some index with the key and no earlier index with it. */
  lemma {:induction false} FirstMatchIsFirst(rs: seq<Record>, karyawanId: string, tipe: string, today: int)
    ensures FirstMatch(rs, karyawanId, tipe, today).None? <==> !Ledger.HasAttendance(rs, karyawanId, tipe, today)
    ensures FirstMatch(rs, karyawanId, tipe, today).Some? ==>
      exists i | 0 <= i < |rs| ::
        && rs[i] == FirstMatch(rs, karyawanId, tipe, today).value
        && rs[i].karyawanId == karyawanId && rs[i].tipeAbsen == tipe && rs[i].day == today
        && forall j | 0 <= j < i :: !(rs[j].karyawanId == karyawanId && rs[j].tipeAbsen == tipe && rs[j].day == today)
  {
    if rs != [] {
      var tail := rs[1..];
      FirstMatchIsFirst(tail, karyawanId, tipe, today);
      assert forall i :: 1 <= i < |rs| ==> rs[i] == tail[i - 1];
      var m := FirstMatch(rs, karyawanId, tipe, today);
      if rs[0].karyawanId == karyawanId && rs[0].tipeAbsen == tipe && rs[0].day == today {
        assert Ledger.HasAttendance(rs, karyawanId, tipe, today) by {
          assert rs[0].karyawanId == karyawanId && rs[0].tipeAbsen == tipe && rs[0].day == today;
        }
      } else {
        if Ledger.HasAttendance(rs, karyawanId, tipe, today) {
          var i :| 0 <= i < |rs| && rs[i].karyawanId == karyawanId && rs[i].tipeAbsen == tipe && rs[i].day == today;
          assert tail[i - 1] == rs[i];
        }
        if m.Some? {
          var k :| 0 <= k < |tail| && tail[k] == m.value
                   && tail[k].karyawanId == karyawanId && tail[k].tipeAbsen == tipe && tail[k].day == today
                   && forall j | 0 <= j < k :: !(tail[j].karyawanId == karyawanId && tail[j].tipeAbsen == tipe && tail[j].day == today);
          assert rs[k + 1] == m.value;
        }
      }
    }
  }

  /** Filtering the employee's rows of the day and then taking the first of
      a type gives the first row in list order with that employee, type and
      day. */
  lemma {:induction false} CellIsFirstMatch(rs: seq<Record>, karyawanId: string, tipe: string, today: int)
    ensures FindType(TodayRecords(rs, karyawanId, today), tipe) == FirstMatch(rs, karyawanId, tipe, today)
  {
    if rs != [] {
      CellIsFirstMatch(rs[1..], karyawanId, tipe, today);
    }
  }

  /** The check-in and check-out cells of the employee's table row: each
      shows the first row of that type in list order among the employee's
      rows of the day, or '-' when there is none. */
  function RowCells(rs: seq<Record>, karyawan: Employee, today: int): (row: Row)
    ensures row.masuk == FirstMatch(rs, karyawan.id, Schedule.Masuk, today)
    ensures row.pulang == FirstMatch(rs, karyawan.id, Schedule.Pulang, today)
  {
    var todayAbsensi := TodayRecords(rs, karyawan.id, today);
    CellIsFirstMatch(rs, karyawan.id, Schedule.Masuk, today);
    CellIsFirstMatch(rs, karyawan.id, Schedule.Pulang, today);
    Row(FindType(todayAbsensi, Schedule.Masuk), FindType(todayAbsensi, Schedule.Pulang))
  }

  /** The row cells agree with the status badge: a check-in cell is filled
      exactly when the employee is not absent, and both cells are filled
      exactly when the status is complete. */
  lemma RowAgreesWithStatus(rs: seq<Record>, karyawan: Employee, today: int)
    ensures RowCells(rs, karyawan, today).masuk.Some? <==> AttendanceStatus(rs, karyawan, today) != Absent
    ensures RowCells(rs, karyawan, today).masuk.Some? && RowCells(rs, karyawan, today).pulang.Some?
            <==> AttendanceStatus(rs, karyawan, today) == Complete
  {
  }

  /** A check-in written by the pipeline shows on the dashboard that day:
      the employee is then present or complete. */
  lemma CheckInShows(rs: seq<Record>, r: Record, karyawan: Employee)
    requires r.karyawanId == karyawan.id && r.tipeAbsen == Schedule.Masuk
    ensures AttendanceStatus(rs + [r], karyawan, r.day) != Absent
  {
    Ledger.WrittenKeyBlocks(rs, r);
  }
}
