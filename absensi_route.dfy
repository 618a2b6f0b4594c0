/** `POST /api/absensi`: record an attendance row directly, rejecting a
    second row for the same employee, type and day. */
module AbsensiRoute {
  import opened Schema
  import Ledger

  /** Handles one POST. `today` is the calendar day of the request and
      `createFails` says whether `db.absensi.create` throws. `tipeAbsen` is
      taken as given: any value is accepted and used as part of the key. */
  method Post(db: Db, karyawanId: string, cctvId: string, tipeAbsen: string, confidence: real,
              fotoAbsen: string, today: int, createFails: bool) returns (resp: Response)
    modifies db
    ensures old(Ledger.OnePerKey(db.absensi)) ==> Ledger.OnePerKey(db.absensi)
    ensures db.karyawan == old(db.karyawan) && db.cctv == old(db.cctv)
    ensures Ledger.HasAttendance(old(db.absensi), karyawanId, tipeAbsen, today) ==>
      resp == Response(400, ErrorBody("Employee already has attendance for today")) && db.absensi == old(db.absensi)
    ensures !Ledger.HasAttendance(old(db.absensi), karyawanId, tipeAbsen, today) && createFails ==>
      resp == Response(500, ErrorBody("Failed to create absensi")) && db.absensi == old(db.absensi)
    ensures !Ledger.HasAttendance(old(db.absensi), karyawanId, tipeAbsen, today) && !createFails ==>
      var r := Record(karyawanId, cctvId, tipeAbsen, confidence, fotoAbsen, today);
      resp == Response(201, RecordBody(r)) && db.absensi == old(db.absensi) + [r]
  {
    if Ledger.HasAttendance(db.absensi, karyawanId, tipeAbsen, today) {
      return Response(400, ErrorBody("Employee already has attendance for today"));
    }
    if createFails {
      return Response(500, ErrorBody("Failed to create absensi"));
    }
    var r := Record(karyawanId, cctvId, tipeAbsen, confidence, fotoAbsen, today);
    Ledger.FreshKeyPreserves(db.absensi, r);
    db.CreateAbsensi(r);
    resp := Response(201, RecordBody(r));
  }
}
