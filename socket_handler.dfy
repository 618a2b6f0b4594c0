/** The `face-detected` handler of the socket server: the persistent-
    connection entry point of the recognition pipeline. Emissions are
    modelled as one ordered log: broadcasts to every connected client and the
    reply to the submitting client. */
module SocketHandler {
  import opened Schema
  import opened Matching
  import Schedule
  import Ledger

  /** One emission: `attendance-update` to all clients (`io.emit`) or
      `face-recognition-result` to the submitter (`socket.emit`). */
  datatype Emission =
    | AttendanceUpdate(kind: string, data: Record)
    | FaceRecognitionResult(result: RecognitionResult)

  /** The records broadcast to all clients, in emission order: each one is
      the data of an `attendance-update` emission of the log. */
  function Broadcasts(log: seq<Emission>): (rs: seq<Record>)
    ensures forall i | 0 <= i < |rs| ::
      exists j | 0 <= j < |log| :: log[j].AttendanceUpdate? && log[j].data == rs[i]
  {
    if log == [] then []
    else
      var rest := Broadcasts(log[1..]);
      assert forall j | 1 <= j < |log| :: log[j] == log[1..][j - 1];
      assert forall i | 0 <= i < |rest| ::
        exists j | 1 <= j < |log| :: log[j].AttendanceUpdate? && log[j].data == rest[i];
      match log[0]
      case AttendanceUpdate(_, r) => [r] + rest
      case FaceRecognitionResult(_) => rest
  }

  lemma {:induction false} BroadcastsAppend(a: seq<Emission>, b: seq<Emission>)
    ensures Broadcasts(a + b) == Broadcasts(a) + Broadcasts(b)
  {
    if a == [] {
      assert a + b == b;
    } else {
      assert (a + b)[0] == a[0];
      assert (a + b)[1..] == a[1..] + b;
      BroadcastsAppend(a[1..], b);
    }
  }

  /** A reply to the submitter adds nothing to the broadcast history. */
  lemma ReplyIsNoBroadcast(log: seq<Emission>, result: RecognitionResult)
    ensures Broadcasts(log + [FaceRecognitionResult(result)]) == Broadcasts(log)
  {
    BroadcastsAppend(log, [FaceRecognitionResult(result)]);
  }

  /** A broadcast followed by the reply adds exactly the broadcast row. */
  lemma BroadcastThenReply(log: seq<Emission>, r: Record, result: RecognitionResult)
    ensures Broadcasts(log + [AttendanceUpdate("new-attendance", r), FaceRecognitionResult(result)])
            == Broadcasts(log) + [r]
  {
    var tail := [AttendanceUpdate("new-attendance", r), FaceRecognitionResult(result)];
    assert tail[1..] == [FaceRecognitionResult(result)];
    assert Broadcasts(tail[1..]) == [];
    BroadcastsAppend(log, tail);
  }

  /** The socket server: everything it has emitted so far. */
  class Hub {
    var emitted: seq<Emission>

    constructor ()
      ensures emitted == []
    {
      emitted := [];
    }

    /** `io.emit('attendance-update', { type: 'new-attendance', data })`. */
    method BroadcastNewAttendance(data: Record)
      modifies this
      ensures emitted == old(emitted) + [AttendanceUpdate("new-attendance", data)]
    {
      emitted := emitted + [AttendanceUpdate("new-attendance", data)];
    }

    /** `socket.emit('face-recognition-result', result)`. */
    method Reply(result: RecognitionResult)
      modifies this
      ensures emitted == old(emitted) + [FaceRecognitionResult(result)]
    {
      emitted := emitted + [FaceRecognitionResult(result)];
    }
  }

  /** Handles one `face-detected` event. `scores[i]` is the comparison
      result for the i-th active employee with a face photo (`None` when the
      comparison threw); `hours`, `minutes` and `today` are the local time and
      calendar day; `createFails` says whether `db.absensi.create` throws.
      `result` is the payload sent back to the submitter. */
  method OnFaceDetected(db: Db, io: Hub, imageData: string, cctvId: string, scores: seq<Option<real>>,
                        hours: int, minutes: int, today: int, createFails: bool) returns (result: RecognitionResult)
    requires |scores| == |ActiveWithFace(db.karyawan)|
    requires 0 <= hours < 24 && 0 <= minutes < 60
    modifies db, io
    ensures old(Ledger.OnePerKey(db.absensi)) ==> Ledger.OnePerKey(db.absensi)
    ensures db.karyawan == old(db.karyawan) && db.cctv == old(db.cctv)
    // The submitter is answered last; a broadcast precedes it exactly when a
    // row was written, and it carries that row.
    ensures result.success <==> db.absensi != old(db.absensi)
    ensures result.success ==>
      result.attendance.Some? && db.absensi == old(db.absensi) + [result.attendance.value]
      && io.emitted == old(io.emitted)
           + [AttendanceUpdate("new-attendance", result.attendance.value), FaceRecognitionResult(result)]
    ensures !result.success ==>
      db.absensi == old(db.absensi) && io.emitted == old(io.emitted) + [FaceRecognitionResult(result)]
    ensures Broadcasts(io.emitted) == Broadcasts(old(io.emitted)) + db.absensi[|old(db.absensi)|..]
    ensures ActiveWithFace(db.karyawan) == [] ==>
      result == RecognitionResult(false, "No active employees found", None, None, None)
    ensures ActiveWithFace(db.karyawan) != [] && Best(scores) == NoMatch ==>
      result == RecognitionResult(false, "No face recognized", None, None, Some(0.0))
    ensures Best(scores).Matched? ==>
      var e := ActiveWithFace(db.karyawan)[Best(scores).index];
      var confidence := Best(scores).score;
      var tipe := Schedule.Classify(hours, minutes);
      if Ledger.HasAttendance(old(db.absensi), e.id, tipe, today) then
        result == RecognitionResult(false, "Employee already has attendance for today", Some(e), None, Some(confidence))
      else if createFails then
        result == RecognitionResult(false, "Failed to process face recognition", None, None, None)
      else
        result == RecognitionResult(true, "Attendance recorded for " + e.nama, Some(e),
                    Some(Record(e.id, cctvId, tipe, confidence, imageData, today)), Some(confidence))
  {
    ghost var log0 := io.emitted;
    assert db.absensi[|db.absensi|..] == [];
    var karyawan := ActiveWithFace(db.karyawan);
    if |karyawan| == 0 {
      result := RecognitionResult(false, "No active employees found", None, None, None);
      io.Reply(result);
      ReplyIsNoBroadcast(log0, result);
      return;
    }
    var recognizedEmployee, highestConfidence := FindBest(scores);
    if recognizedEmployee.None? {
      result := RecognitionResult(false, "No face recognized", None, None, Some(0.0));
      io.Reply(result);
      ReplyIsNoBroadcast(log0, result);
      return;
    }
    var employee := karyawan[recognizedEmployee.value];
    var tipeAbsen := Schedule.Classify(hours, minutes);
    if Ledger.HasAttendance(db.absensi, employee.id, tipeAbsen, today) {
      result := RecognitionResult(false, "Employee already has attendance for today",
                                  Some(employee), None, Some(highestConfidence));
      io.Reply(result);
      ReplyIsNoBroadcast(log0, result);
      return;
    }
    if createFails {
      result := RecognitionResult(false, "Failed to process face recognition", None, None, None);
      io.Reply(result);
      ReplyIsNoBroadcast(log0, result);
      return;
    }
    var absensi := Record(employee.id, cctvId, tipeAbsen, highestConfidence, imageData, today);
    Ledger.FreshKeyPreserves(db.absensi, absensi);
    ghost var before := db.absensi;
    db.CreateAbsensi(absensi);
    assert db.absensi[|before|..] == [absensi];
    io.BroadcastNewAttendance(absensi);
    result := RecognitionResult(true, "Attendance recorded for " + employee.nama,
                                Some(employee), Some(absensi), Some(highestConfidence));
    io.Reply(result);
    BroadcastThenReply(log0, absensi, result);
  }
}
