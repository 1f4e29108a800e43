/**
 * TypeConverter implementations as tagged values, the registry that maps an
 * exact class name to one of them, and the dispatch from a tag to the
 * conversion it performs.
 */
module TypeConverters {
  import opened Wrappers
  import opened JavaTime
  import opened JavaHeap
  import LocalDateTimeConverter
  import ZonedDateTimeConverter
  import OffsetDateTimeConverter
  import InstantConverter
  import StringDateTimeConverter
  import LegacyDateConverter
  import LegacyZonedDateTimeConverter
  import LegacyOffsetDateTimeConverter

  datatype Converter =
    | StringDateTimeConv
    | LocalDateTimeConv
    | ZonedDateTimeConv
    | OffsetDateTimeConv
    | InstantConv
    | DateConv
    | LegacyZonedDateTimeConv
    | LegacyOffsetDateTimeConv
    | Custom(supported: string, id: nat)   // an application-supplied TypeConverter bean

  /** TypeConverter.supportedType, as a class name. */
  function SupportedType(c: Converter): string
  {
    match c
    case StringDateTimeConv => StringDateTimeConverter.SupportedType
    case LocalDateTimeConv => LocalDateTimeConverter.SupportedType
    case ZonedDateTimeConv => ZonedDateTimeConverter.SupportedType
    case OffsetDateTimeConv => OffsetDateTimeConverter.SupportedType
    case InstantConv => InstantConverter.SupportedType
    case DateConv => LegacyDateConverter.SupportedType
    case LegacyZonedDateTimeConv => ZonedDateTimeConverter.SupportedType
    case LegacyOffsetDateTimeConv => OffsetDateTimeConverter.SupportedType
    case Custom(t, _) => t
  }

  /**
   * What lies outside the library: the JDK's pattern handling and the
   * convert methods of application-supplied converters.
   */
  datatype Runtime = Runtime(
    codec: StringDateTimeConverter.Codec,
    custom: (nat, Leaf, Zone, Zone, string) -> Leaf)

  /** TypeConverter.convert throws on l: DateConverter given a java.sql.Date or java.sql.Time. */
  predicate Unsupported(c: Converter, l: Leaf)
  {
    c.DateConv? && l.LegacyDate? && ToInstantUnsupported(l.date)
  }

  /** TypeConverter.convert on a non-null value it returns on. */
  function Apply(rt: Runtime, c: Converter, l: Leaf, fromZone: Zone, toZone: Zone, format: string): (r: Leaf)
    requires !Unsupported(c, l)
    // a built-in converter only acts on its own class (DateConverter also on java.sql.Timestamp)
    ensures !c.Custom? && ClassOf(l).name != SupportedType(c) && !(c.DateConv? && l.LegacyDate?) ==> r == l
    // and keeps the class, except that DateConverter always yields a java.util.Date
    ensures !c.Custom? && !c.DateConv? ==> ClassOf(r) == ClassOf(l)
    ensures c.DateConv? && l.LegacyDate? ==> r == LegacyDate(Date(l.date.epoch, UtilDate))
  {
    match c
    case StringDateTimeConv =>
      if l.Text? then Text(StringDateTimeConverter.Convert(Some(l.text), fromZone, toZone, format, rt.codec).value) else l
    case LocalDateTimeConv =>
      if l.LocalDT? then LocalDT(LocalDateTimeConverter.Convert(Some(l.ldt), fromZone, toZone, format).value) else l
    case ZonedDateTimeConv =>
      if l.ZonedDT? then ZonedDT(ZonedDateTimeConverter.Convert(Some(l.zdt), fromZone, toZone, format).value) else l
    case OffsetDateTimeConv =>
      if l.OffsetDT? then OffsetDT(OffsetDateTimeConverter.Convert(l.odt, fromZone, toZone, format)) else l
    case InstantConv =>
      if l.Moment? then Moment(InstantConverter.Convert(Some(l.instant), fromZone, toZone, format).value) else l
    case DateConv =>
      if l.LegacyDate? then LegacyDate(LegacyDateConverter.Convert(Some(l.date), fromZone, toZone, format).value.value) else l
    case LegacyZonedDateTimeConv =>
      if l.ZonedDT? then ZonedDT(LegacyZonedDateTimeConverter.Convert(Some(l.zdt), fromZone, toZone, format).value) else l
    case LegacyOffsetDateTimeConv =>
      if l.OffsetDT? then OffsetDT(LegacyOffsetDateTimeConverter.Convert(l.odt, fromZone, toZone, format)) else l
    case Custom(_, id) => rt.custom(id, l, fromZone, toZone, format)
  }

  /** A registry keyed the way registerConverter keys it: each converter under its own class. */
  ghost predicate WellKeyed(m: map<string, Converter>)
  {
    forall t :: t in m ==> SupportedType(m[t]) == t
  }

  /**
   * For a leaf looked up under its exact class in a well-keyed registry, a
   * built-in converter does its own conversion: text goes through the
   * string converter, zoned values keep the instant, wall clocks move by
   * the difference of the offsets, instants stay put.
   */
  lemma ApplyByClass(rt: Runtime, m: map<string, Converter>, l: Leaf, fromZone: Zone, toZone: Zone, format: string)
    requires WellKeyed(m) && ClassOf(l).name in m && !m[ClassOf(l).name].Custom?
    ensures var r := Apply(rt, m[ClassOf(l).name], l, fromZone, toZone, format);
      && (l.Text? ==> r == Text(StringDateTimeConverter.Convert(Some(l.text), fromZone, toZone, format, rt.codec).value))
      && (l.LocalDT? ==> r == LocalDT(LocalDateTime(l.ldt.local + toZone.offset - fromZone.offset)))
      && (l.ZonedDT? ==> r == ZonedDT(ZonedDateTime(l.zdt.epoch, toZone)))
      && (l.OffsetDT? ==> r == OffsetDT(OffsetDateTime(l.odt.epoch, toZone.offset)))
      && (l.Moment? ==> r == l)
      && (l.LegacyDate? ==> r == LegacyDate(Date(l.date.epoch, UtilDate)))
  {
    var c := m[ClassOf(l).name];
    assert SupportedType(c) == ClassOf(l).name;
  }

  /** The registry of a mutable holder: kronos-core's typeConverters map. */
  class ConverterRegistry {
    var entries: map<string, Converter>

    constructor (entries: map<string, Converter>)
      ensures this.entries == entries
    {
      this.entries := entries;
    }

    /** registerConverter: put, replacing whatever was registered for that class. */
    method Register(typeName: string, c: Converter)
      modifies this
      ensures entries == old(entries)[typeName := c]
    {
      entries := entries[typeName := c];
    }
  }
}
