/** `POST /api/face-recognition`: the request/response entry point of the
    recognition pipeline (validate, match, classify, check for a duplicate,
    record). */
module FaceRecognitionRoute {
  import opened Schema
  import opened Matching
  import Schedule
  import Ledger

  /** A JSON field is usable when it is present and not the empty string
      (the handler rejects any falsy value). */
  predicate Present(field: Option<string>)
  {
    field.Some? && field.value != ""
  }

  /** Handles one POST. `scores[i]` is the comparison result for the i-th
      active employee with a face photo (`None` when the comparison threw);
      `hours`, `minutes` and `today` are the local time and calendar day of
      the request; `createFails` says whether `db.absensi.create` throws. */
  method Post(db: Db, imageData: Option<string>, cctvId: Option<string>, scores: seq<Option<real>>,
              hours: int, minutes: int, today: int, createFails: bool) returns (resp: Response)
    requires |scores| == |ActiveWithFace(db.karyawan)|
    requires 0 <= hours < 24 && 0 <= minutes < 60
    modifies db
    ensures old(Ledger.OnePerKey(db.absensi)) ==> Ledger.OnePerKey(db.absensi)
    ensures db.karyawan == old(db.karyawan) && db.cctv == old(db.cctv)
    // Validation comes first, before any lookup or comparison.
    ensures !Present(imageData) || !Present(cctvId) ==>
      resp == Response(400, ErrorBody("Image data and CCTV ID are required")) && db.absensi == old(db.absensi)
    ensures Present(imageData) && Present(cctvId) && ActiveWithFace(db.karyawan) == [] ==>
      resp == Response(404, ErrorBody("No active employees found")) && db.absensi == old(db.absensi)
    ensures Present(imageData) && Present(cctvId) && ActiveWithFace(db.karyawan) != [] && Best(scores) == NoMatch ==>
      resp == Response(200, RecognitionBody(RecognitionResult(false, "No face recognized", None, None, Some(0.0))))
      && db.absensi == old(db.absensi)
    ensures Present(imageData) && Present(cctvId) && Best(scores).Matched? ==>
      var e := ActiveWithFace(db.karyawan)[Best(scores).index];
      var confidence := Best(scores).score;
      var tipe := Schedule.Classify(hours, minutes);
      var r := Record(e.id, cctvId.value, tipe, confidence, imageData.value, today);
      if Ledger.HasAttendance(old(db.absensi), e.id, tipe, today) then
        resp == Response(200, RecognitionBody(RecognitionResult(
                  false, "Employee already has attendance for today", Some(e), None, Some(confidence))))
        && db.absensi == old(db.absensi)
      else if createFails then
        resp == Response(500, ErrorBody("Failed to process face recognition")) && db.absensi == old(db.absensi)
      else
        resp == Response(200, RecognitionBody(RecognitionResult(
                  true, "Attendance recorded for " + e.nama, Some(e), Some(r), Some(confidence))))
        && db.absensi == old(db.absensi) + [r]
  {
    if !Present(imageData) || !Present(cctvId) {
      return Response(400, ErrorBody("Image data and CCTV ID are required"));
    }
    var karyawan := ActiveWithFace(db.karyawan);
    if |karyawan| == 0 {
      return Response(404, ErrorBody("No active employees found"));
    }
    var recognized, highestConfidence := FindBest(scores);
    if recognized.None? {
      return Response(200, RecognitionBody(RecognitionResult(false, "No face recognized", None, None, Some(0.0))));
    }
    var employee := karyawan[recognized.value];
    var tipeAbsen := Schedule.Classify(hours, minutes);
    if Ledger.HasAttendance(db.absensi, employee.id, tipeAbsen, today) {
      return Response(200, RecognitionBody(RecognitionResult(
        false, "Employee already has attendance for today", Some(employee), None, Some(highestConfidence))));
    }
    if createFails {
      return Response(500, ErrorBody("Failed to process face recognition"));
    }
    var absensi := Record(employee.id, cctvId.value, tipeAbsen, highestConfidence, imageData.value, today);
    Ledger.FreshKeyPreserves(db.absensi, absensi);
    db.CreateAbsensi(absensi);
    resp := Response(200, RecognitionBody(RecognitionResult(
      true, "Attendance recorded for " + employee.nama, Some(employee), Some(absensi), Some(highestConfidence))));
  }
}
