/** converters/ZonedDateTimeConverter: the same instant, seen from the target zone. */
module ZonedDateTimeConverter {
  import opened Wrappers
  import opened JavaTime

  const SupportedType := "java.time.ZonedDateTime"

  function Convert(value: Option<ZonedDateTime>, fromZone: Zone, toZone: Zone, format: string): (r: Option<ZonedDateTime>)
    ensures value.None? <==> r.None?
    ensures value.Some? ==> r.value.epoch == value.value.epoch && r.value.zone == toZone
  {
    match value
    case None => None
    case Some(t) => Some(WithZoneSameInstant(t, toZone))
  }

  lemma SourceZoneAndFormatIgnored(value: Option<ZonedDateTime>, a: Zone, b: Zone, toZone: Zone, f: string, g: string)
    ensures Convert(value, a, toZone, f) == Convert(value, b, toZone, g)
  {
  }

  lemma Idempotent(value: Option<ZonedDateTime>, fromZone: Zone, toZone: Zone, format: string)
    ensures Convert(Convert(value, fromZone, toZone, format), toZone, toZone, format) == Convert(value, fromZone, toZone, format)
  {
  }
}
