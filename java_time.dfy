/**
 * The java.time values the library converts, on fixed-offset zones.
 * Every position on the time line and every offset is a whole number of
 * seconds; a zone is its id and its one offset from UTC.
 */
module JavaTime {
  import opened Wrappers

  /** A java.time.ZoneId; ZoneId.equals compares ids, and the table ties each id to one offset. */
  datatype Zone = Zone(id: string, offset: int)

  /** Wall-clock reading without a zone: seconds since 1970-01-01T00:00 on the local time line. */
  datatype LocalDateTime = LocalDateTime(local: int)

  /** A point on the UTC time line: seconds since the epoch. */
  datatype Instant = Instant(epoch: int)

  /** An instant seen from a zone. */
  datatype ZonedDateTime = ZonedDateTime(epoch: int, zone: Zone)

  /** An instant seen at a fixed offset. */
  datatype OffsetDateTime = OffsetDateTime(epoch: int, offset: int)

  /** java.util.Date and its java.sql subclasses, each holding an instant. */
  datatype DateClass = UtilDate | SqlDate | SqlTime | SqlTimestamp
  datatype Date = Date(epoch: int, cls: DateClass)

  const UTC := Zone("UTC", 0)

  /** ZoneId.equals: two region ids are equal when their ids are. */
  predicate ZoneEquals(a: Zone, b: Zone)
  {
    a.id == b.id
  }

  /** ZoneId.of over the zones this model knows; None stands for the DateTimeException it throws. */
  function ZoneOf(id: string): (z: Option<Zone>)
    ensures z.Some? ==> z.value.id == id
    ensures id == "UTC" ==> z == Some(UTC)
  {
    if id == "UTC" then Some(UTC)
    else if id == "GMT" then Some(Zone("GMT", 0))
    else if id == "Z" then Some(Zone("Z", 0))
    else if id == "Asia/Shanghai" then Some(Zone("Asia/Shanghai", 8 * 3600))
    else if id == "Asia/Tokyo" then Some(Zone("Asia/Tokyo", 9 * 3600))
    else if id == "Asia/Kolkata" then Some(Zone("Asia/Kolkata", 5 * 3600 + 1800))
    else if id == "Etc/GMT+5" then Some(Zone("Etc/GMT+5", -5 * 3600))
    else None
  }

  /** LocalDateTime.atZone: the instant whose wall clock in z reads t. */
  function AtZone(t: LocalDateTime, z: Zone): (r: ZonedDateTime)
    ensures r.zone == z && r.epoch + z.offset == t.local
  {
    ZonedDateTime(t.local - z.offset, z)
  }

  /** ZonedDateTime.withZoneSameInstant. */
  function WithZoneSameInstant(t: ZonedDateTime, z: Zone): (r: ZonedDateTime)
    ensures r.epoch == t.epoch && r.zone == z
  {
    t.(zone := z)
  }

  /** ZonedDateTime.toLocalDateTime: the wall clock in the value's own zone. */
  function ToLocalDateTime(t: ZonedDateTime): (r: LocalDateTime)
    ensures AtZone(r, t.zone) == t
  {
    LocalDateTime(t.epoch + t.zone.offset)
  }

  /** OffsetDateTime.atZoneSameInstant. */
  function AtZoneSameInstant(t: OffsetDateTime, z: Zone): (r: ZonedDateTime)
    ensures r.epoch == t.epoch && r.zone == z
  {
    ZonedDateTime(t.epoch, z)
  }

  /** ZonedDateTime.toOffsetDateTime: the same instant at the zone's offset. */
  function ToOffsetDateTime(t: ZonedDateTime): (r: OffsetDateTime)
    ensures r.epoch == t.epoch && r.offset == t.zone.offset
  {
    OffsetDateTime(t.epoch, t.zone.offset)
  }

  /**
   * java.sql.Date and java.sql.Time override toInstant() to throw
   * UnsupportedOperationException; java.util.Date and java.sql.Timestamp
   * answer it.
   */
  predicate ToInstantUnsupported(d: Date)
  {
    d.cls == SqlDate || d.cls == SqlTime
  }

  /** Date.toInstant, where it returns. */
  function DateToInstant(d: Date): (r: Instant)
    requires !ToInstantUnsupported(d)
    ensures r.epoch == d.epoch
  {
    Instant(d.epoch)
  }

  /** Date.from: always a plain java.util.Date. */
  function DateFrom(i: Instant): (r: Date)
    ensures r.epoch == i.epoch && r.cls == UtilDate
  {
    Date(i.epoch, UtilDate)
  }
}
