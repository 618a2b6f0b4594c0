/** Rows of the attendance database, the payloads the handlers return, and
    the database itself as an object whose tables the handlers append to. */
module Schema {

  datatype Option<+T> = None | Some(value: T)

  /** A `Karyawan` row: an enrolled employee. */
  datatype Employee = Employee(
    id: string,
    nik: string,
    nama: string,
    email: string,
    jabatan: string,
    departemen: string,
    fotoWajah: Option<string>,
    isActive: bool)

  /** A `CCTV` row: a registered camera. */
  datatype Camera = Camera(
    id: string,
    nama: string,
    lokasi: string,
    ip: string,
    port: int,
    username: string,
    password: string,
    isActive: bool)

  /** An `Absensi` row. `day` is the calendar day of `waktuAbsen`, which the
      database stamps with the time of the insert. */
  datatype Record = Record(
    karyawanId: string,
    cctvId: string,
    tipeAbsen: string,
    confidence: real,
    fotoAbsen: string,
    day: int)

  /** The `face-recognition-result` payload (also the JSON body of the
      recognition route); absent JSON fields are `None`. */
  datatype RecognitionResult = RecognitionResult(
    success: bool,
    message: string,
    employee: Option<Employee>,
    attendance: Option<Record>,
    confidence: Option<real>)

  datatype Body =
    | ErrorBody(error: string)
    | RecognitionBody(result: RecognitionResult)
    | RecordBody(record: Record)
    | EmployeeBody(employee: Employee)
    | CameraBody(camera: Camera)

  /** An HTTP response: status code and JSON body (`NextResponse.json`
      defaults the status to 200). */
  datatype Response = Response(status: int, body: Body)

  /** The database: three tables kept in insertion order. */
  class Db {
    var karyawan: seq<Employee>
    var cctv: seq<Camera>
    var absensi: seq<Record>

    constructor ()
      ensures karyawan == [] && cctv == [] && absensi == []
    {
      karyawan, cctv, absensi := [], [], [];
    }

    /** `db.absensi.create`: appends one row. */
    method CreateAbsensi(r: Record)
      modifies this`absensi
      ensures absensi == old(absensi) + [r]
    {
      absensi := absensi + [r];
    }

    /** `db.karyawan.create`: appends one row. */
    method CreateKaryawan(e: Employee)
      modifies this`karyawan
      ensures karyawan == old(karyawan) + [e]
    {
      karyawan := karyawan + [e];
    }

    /** `db.cCTV.create`: appends one row. */
    method CreateCctv(c: Camera)
      modifies this`cctv
      ensures cctv == old(cctv) + [c]
    {
      cctv := cctv + [c];
    }
  }
}
