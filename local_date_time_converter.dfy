/** converters/LocalDateTimeConverter: re-reads a wall-clock time in another zone. */
module LocalDateTimeConverter {
  import opened Wrappers
  import opened JavaTime

  const SupportedType := "java.time.LocalDateTime"

  /** Attach fromZone, move to toZone keeping the instant, drop the zone again. */
  function Convert(value: Option<LocalDateTime>, fromZone: Zone, toZone: Zone, format: string): (r: Option<LocalDateTime>)
    ensures value.None? <==> r.None?
    ensures value.Some? ==> r.value.local == value.value.local + toZone.offset - fromZone.offset
  {
    match value
    case None => None
    case Some(t) =>
      var zoned := AtZone(t, fromZone);
      var shifted := WithZoneSameInstant(zoned, toZone);
      Some(ToLocalDateTime(shifted))
  }

  /** Both wall-clock readings name the same instant. */
  lemma SameInstant(t: LocalDateTime, fromZone: Zone, toZone: Zone, format: string)
    ensures AtZone(Convert(Some(t), fromZone, toZone, format).value, toZone).epoch == AtZone(t, fromZone).epoch
  {
  }

  lemma SameZoneIsIdentity(value: Option<LocalDateTime>, zone: Zone, format: string)
    ensures Convert(value, zone, zone, format) == value
  {
  }

  lemma RoundTrip(value: Option<LocalDateTime>, a: Zone, b: Zone, f: string, g: string)
    ensures Convert(Convert(value, a, b, f), b, a, g) == value
  {
  }

  lemma FormatIgnored(value: Option<LocalDateTime>, fromZone: Zone, toZone: Zone, f: string, g: string)
    ensures Convert(value, fromZone, toZone, f) == Convert(value, fromZone, toZone, g)
  {
  }
}
