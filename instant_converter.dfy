/** converters/InstantConverter: an instant has no zone, so it is handed back as it is. */
module InstantConverter {
  import opened Wrappers
  import opened JavaTime

  const SupportedType := "java.time.Instant"

  function Convert(value: Option<Instant>, fromZone: Zone, toZone: Zone, format: string): (r: Option<Instant>)
    ensures r == value
  {
    value
  }
}
