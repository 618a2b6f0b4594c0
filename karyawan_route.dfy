/** `POST /api/karyawan`: enrol an employee, rejecting a NIK or an email
    that is already registered. */
module KaryawanRoute {
  import opened Schema
  import Registry

  /** Handles one POST. `id` and `isActive` are the values the database
      fills in (generated identifier, column default); `createFails` says
      whether `db.karyawan.create` throws. Only NIK and email are checked:
      a repeated name, position or department is accepted. */
  method Post(db: Db, nik: string, nama: string, email: string, jabatan: string, departemen: string,
              fotoWajah: Option<string>, id: string, isActive: bool, createFails: bool) returns (resp: Response)
    modifies db
    ensures old(Registry.EmployeeKeysDistinct(db.karyawan)) ==> Registry.EmployeeKeysDistinct(db.karyawan)
    ensures db.absensi == old(db.absensi) && db.cctv == old(db.cctv)
    ensures Registry.NikOrEmailTaken(old(db.karyawan), nik, email) ==>
      resp == Response(400, ErrorBody("NIK or Email already exists")) && db.karyawan == old(db.karyawan)
    ensures !Registry.NikOrEmailTaken(old(db.karyawan), nik, email) && createFails ==>
      resp == Response(500, ErrorBody("Failed to create karyawan")) && db.karyawan == old(db.karyawan)
    ensures !Registry.NikOrEmailTaken(old(db.karyawan), nik, email) && !createFails ==>
      var e := Employee(id, nik, nama, email, jabatan, departemen, fotoWajah, isActive);
      resp == Response(201, EmployeeBody(e)) && db.karyawan == old(db.karyawan) + [e]
  {
    if Registry.NikOrEmailTaken(db.karyawan, nik, email) {
      return Response(400, ErrorBody("NIK or Email already exists"));
    }
    if createFails {
      return Response(500, ErrorBody("Failed to create karyawan"));
    }
    var e := Employee(id, nik, nama, email, jabatan, departemen, fotoWajah, isActive);
    if Registry.EmployeeKeysDistinct(db.karyawan) {
      Registry.AppendEmployeeKeepsKeys(db.karyawan, e);
    }
    db.CreateKaryawan(e);
    resp := Response(201, EmployeeBody(e));
  }
}
