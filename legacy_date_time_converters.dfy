/** converter/impl/DateConverter: a round trip through ZonedDateTime that keeps the instant. */
module LegacyDateConverter {
  import opened Wrappers
  import opened JavaTime

  const SupportedType := "java.util.Date"

  /** What convert does: return a Date (or null), or let toInstant's UnsupportedOperationException out. */
  datatype Outcome = Returned(value: Option<Date>) | ThrewUnsupportedOperation

  function Convert(value: Option<Date>, fromZone: Zone, toZone: Zone, format: string): (r: Outcome)
    // java.sql.Date and java.sql.Time cannot be converted, every other Date can
    ensures r.ThrewUnsupportedOperation? <==> value.Some? && ToInstantUnsupported(value.value)
    ensures r.Returned? ==> (value.None? <==> r.value.None?)
    ensures r.Returned? && value.Some? ==> r.value.value.epoch == value.value.epoch && r.value.value.cls == UtilDate
  {
    match value
    case None => Returned(None)
    case Some(d) =>
      if ToInstantUnsupported(d) then ThrewUnsupportedOperation
      else
        // toInstant().atZone(fromZone), then withZoneSameInstant(toZone), then Date.from(toInstant())
        var zoned := ZonedDateTime(DateToInstant(d).epoch, fromZone);
        var shifted := WithZoneSameInstant(zoned, toZone);
        Returned(Some(DateFrom(Instant(shifted.epoch))))
  }

  /** Neither zone nor the format changes the outcome. */
  lemma ZonesAndFormatIgnored(value: Option<Date>, a: Zone, b: Zone, c: Zone, d: Zone, f: string, g: string)
    ensures Convert(value, a, b, f) == Convert(value, c, d, g)
  {
  }
}

/** converter/impl/ZonedDateTimeConverter: the older copy of the zoned converter. */
module LegacyZonedDateTimeConverter {
  import opened Wrappers
  import opened JavaTime
  import ZonedDateTimeConverter

  function Convert(value: Option<ZonedDateTime>, fromZone: Zone, toZone: Zone, format: string): (r: Option<ZonedDateTime>)
    ensures value.None? <==> r.None?
    ensures value.Some? ==> r.value.epoch == value.value.epoch && r.value.zone == toZone
  {
    if value.None? then None else Some(WithZoneSameInstant(value.value, toZone))
  }

  /** The two copies agree on every input. */
  lemma AgreesWithCurrent(value: Option<ZonedDateTime>, fromZone: Zone, toZone: Zone, format: string)
    ensures Convert(value, fromZone, toZone, format) == ZonedDateTimeConverter.Convert(value, fromZone, toZone, format)
  {
  }
}

/** converter/impl/OffsetDateTimeConverter: the older copy of the offset converter. */
module LegacyOffsetDateTimeConverter {
  import opened JavaTime
  import OffsetDateTimeConverter

  function Convert(value: OffsetDateTime, fromZone: Zone, toZone: Zone, format: string): (r: OffsetDateTime)
    ensures r.epoch == value.epoch && r.offset == toZone.offset
  {
    ToOffsetDateTime(AtZoneSameInstant(value, toZone))
  }

  lemma AgreesWithCurrent(value: OffsetDateTime, fromZone: Zone, toZone: Zone, format: string)
    ensures Convert(value, fromZone, toZone, format) == OffsetDateTimeConverter.Convert(value, fromZone, toZone, format)
  {
  }
}
