/**
 * converters/OffsetDateTimeConverter: the same instant at the target zone's
 * offset. The Java code has no null check, so the parameter is not optional.
 */
module OffsetDateTimeConverter {
  import opened JavaTime

  const SupportedType := "java.time.OffsetDateTime"

  function Convert(value: OffsetDateTime, fromZone: Zone, toZone: Zone, format: string): (r: OffsetDateTime)
    ensures r.epoch == value.epoch && r.offset == toZone.offset
  {
    ToOffsetDateTime(AtZoneSameInstant(value, toZone))
  }

  lemma SourceZoneAndFormatIgnored(value: OffsetDateTime, a: Zone, b: Zone, toZone: Zone, f: string, g: string)
    ensures Convert(value, a, toZone, f) == Convert(value, b, toZone, g)
  {
  }
}
