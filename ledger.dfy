/** The per-day attendance key: an employee, an attendance type and a
    calendar day. Every handler that writes an attendance row first looks
    for a row with the same key between today 00:00 and tomorrow 00:00 and
    writes only when there is none. */
module Ledger {
  import opened Schema

  /** `findFirst` on `absensi` for `karyawanId`, `tipeAbsen` and
      `waktuAbsen` in [today 00:00, tomorrow 00:00) finds a row. */
  predicate HasAttendance(rs: seq<Record>, karyawanId: string, tipeAbsen: string, day: int)
  {
    exists i | 0 <= i < |rs| :: rs[i].karyawanId == karyawanId && rs[i].tipeAbsen == tipeAbsen && rs[i].day == day
  }

  predicate SameKey(a: Record, b: Record)
  {
    a.karyawanId == b.karyawanId && a.tipeAbsen == b.tipeAbsen && a.day == b.day
  }

  /** At most one row per (employee, type, day). */
  ghost predicate OnePerKey(rs: seq<Record>)
  {
    forall i, j :: 0 <= i < j < |rs| ==> !SameKey(rs[i], rs[j])
  }

  /** Appending a row keeps at most one row per key exactly when the
      duplicate check finds nothing: the check is both sufficient and
      necessary. */
  lemma AppendKeepsOnePerKey(rs: seq<Record>, r: Record)
    requires OnePerKey(rs)
    ensures OnePerKey(rs + [r]) <==> !HasAttendance(rs, r.karyawanId, r.tipeAbsen, r.day)
  {
    var rs' := rs + [r];
    if HasAttendance(rs, r.karyawanId, r.tipeAbsen, r.day) {
      var i :| 0 <= i < |rs| && SameKey(rs[i], r);
      assert SameKey(rs'[i], rs'[|rs|]);
    }
  }

  /** The handlers' form of the same fact: writing a row whose key the
      lookup did not find keeps whatever uniqueness the table had. */
  lemma FreshKeyPreserves(rs: seq<Record>, r: Record)
    requires !HasAttendance(rs, r.karyawanId, r.tipeAbsen, r.day)
    ensures OnePerKey(rs) ==> OnePerKey(rs + [r])
  {
  }

  /** A row written for one key leaves every other key's duplicate check as
      it was: a different type or a different day never blocks. */
  lemma OtherKeysUnaffected(rs: seq<Record>, r: Record, karyawanId: string, tipeAbsen: string, day: int)
    requires r.karyawanId != karyawanId || r.tipeAbsen != tipeAbsen || r.day != day
    ensures HasAttendance(rs + [r], karyawanId, tipeAbsen, day) <==> HasAttendance(rs, karyawanId, tipeAbsen, day)
  {
    var rs' := rs + [r];
    if HasAttendance(rs', karyawanId, tipeAbsen, day) {
      var i :| 0 <= i < |rs'| && rs'[i].karyawanId == karyawanId && rs'[i].tipeAbsen == tipeAbsen && rs'[i].day == day;
      assert i < |rs| && rs[i] == rs'[i];
    }
    if HasAttendance(rs, karyawanId, tipeAbsen, day) {
      var i :| 0 <= i < |rs| && rs[i].karyawanId == karyawanId && rs[i].tipeAbsen == tipeAbsen && rs[i].day == day;
      assert rs'[i] == rs[i];
    }
  }

  /** Once a key is written it stays blocked for the rest of the day: the
      second submission for the same key is rejected. */
  lemma WrittenKeyBlocks(rs: seq<Record>, r: Record)
    ensures HasAttendance(rs + [r], r.karyawanId, r.tipeAbsen, r.day)
  {
    assert (rs + [r])[|rs|] == r;
  }
}
