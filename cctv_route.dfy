/** `POST /api/cctv`: register a camera, rejecting an IP address that is
    already registered. */
module CctvRoute {
  import opened Schema
  import Registry

  /** Handles one POST. `id` and `isActive` are the values the database
      fills in (generated identifier, column default); `createFails` says
      whether `db.cCTV.create` throws. Only the IP is checked: a repeated
      name, location or port is accepted. */
  method Post(db: Db, nama: string, lokasi: string, ip: string, port: int, username: string,
              password: string, id: string, isActive: bool, createFails: bool) returns (resp: Response)
    modifies db
    ensures old(Registry.IpsDistinct(db.cctv)) ==> Registry.IpsDistinct(db.cctv)
    ensures db.absensi == old(db.absensi) && db.karyawan == old(db.karyawan)
    ensures Registry.IpTaken(old(db.cctv), ip) ==>
      resp == Response(400, ErrorBody("CCTV with this IP already exists")) && db.cctv == old(db.cctv)
    ensures !Registry.IpTaken(old(db.cctv), ip) && createFails ==>
      resp == Response(500, ErrorBody("Failed to create CCTV")) && db.cctv == old(db.cctv)
    ensures !Registry.IpTaken(old(db.cctv), ip) && !createFails ==>
      var c := Camera(id, nama, lokasi, ip, port, username, password, isActive);
      resp == Response(201, CameraBody(c)) && db.cctv == old(db.cctv) + [c]
  {
    if Registry.IpTaken(db.cctv, ip) {
      return Response(400, ErrorBody("CCTV with this IP already exists"));
    }
    if createFails {
      return Response(500, ErrorBody("Failed to create CCTV"));
    }
    var c := Camera(id, nama, lokasi, ip, port, username, password, isActive);
    if Registry.IpsDistinct(db.cctv) {
      Registry.AppendCameraKeepsIps(db.cctv, c);
    }
    db.CreateCctv(c);
    resp := Response(201, CameraBody(c));
  }
}
