/** The attendance classifier: the time of day of the submission decides
    whether it is a check-in (`masuk`) or a check-out (`pulang`). */
module Schedule {

  const Masuk: string := "masuk"
  const Pulang: string := "pulang"

  /** 07:30 as minutes of the day. */
  const MorningTime: int := 7 * 60 + 30
  /** 16:00 as minutes of the day; the handlers compute it but never use it. */
  const EveningTime: int := 16 * 60

  /** The attendance type for a local time `hours`:`minutes`. A single
      cut-off: strictly before 07:30 is `masuk`, everything else, evening
      included, is `pulang`. */
  function Classify(hours: int, minutes: int): (tipe: string)
    requires 0 <= hours < 24 && 0 <= minutes < 60
    ensures tipe == Masuk <==> hours < 7 || (hours == 7 && minutes < 30)
    ensures tipe == Pulang <==> !(hours < 7 || (hours == 7 && minutes < 30))
  {
    var currentTime := hours * 60 + minutes;
    var morningTime := MorningTime;
    var eveningTime := EveningTime;
    if currentTime < morningTime then Masuk else Pulang
  }

  /** Classification is monotone in the time of day: once a time is
      `pulang`, every later time of the same day is `pulang` as well, so the
      16:00 boundary splits nothing. */
  lemma ClassifyMonotone(h1: int, m1: int, h2: int, m2: int)
    requires 0 <= h1 < 24 && 0 <= m1 < 60 && 0 <= h2 < 24 && 0 <= m2 < 60
    requires h1 * 60 + m1 <= h2 * 60 + m2
    requires Classify(h1, m1) == Pulang
    ensures Classify(h2, m2) == Pulang
  {
  }
}
