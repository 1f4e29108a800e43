/**
 * converters/StringDateTimeConverter: a best-effort rewrite of date-time text.
 * The pattern language of java.time.format.DateTimeFormatter is not modelled;
 * a Codec supplies what compiling, parsing and rendering with a pattern give.
 */
module StringDateTimeConverter {
  import opened Wrappers
  import opened JavaText
  import opened JavaTime

  const SupportedType := "java.lang.String"

  /**
   * DateTimeFormatter behaviour for a pattern. None stands for the exception
   * the Java call throws.
   */
  datatype Codec = Codec(
    validPattern: string -> bool,                            // ofPattern does not throw
    parseZoned: (string, string) -> Option<ZonedDateTime>,   // ZonedDateTime.parse(text, formatter)
    parseLocal: (string, string) -> Option<LocalDateTime>,   // LocalDateTime.parse(text, formatter)
    render: (ZonedDateTime, string) -> Option<string>)       // formatter.format(zoned)

  /** Reads text as a zoned date-time; zone-aware parsing first, else a wall clock placed in fromZone. */
  function Parse(text: string, fromZone: Zone, format: string, codec: Codec): (r: Option<ZonedDateTime>)
    ensures codec.parseZoned(text, format).Some? ==> r == codec.parseZoned(text, format)
    ensures codec.parseZoned(text, format).None? && codec.parseLocal(text, format).Some? ==>
              r == Some(AtZone(codec.parseLocal(text, format).value, fromZone))
    ensures r.None? <==> codec.parseZoned(text, format).None? && codec.parseLocal(text, format).None?
  {
    match codec.parseZoned(text, format)
    case Some(zoned) => Some(zoned)
    case None =>
      match codec.parseLocal(text, format)
      case Some(local) => Some(AtZone(local, fromZone))
      case None => None
  }

  function Convert(value: Option<string>, fromZone: Zone, toZone: Zone, format: string, codec: Codec): (r: Option<string>)
    // null stays null, text stays text; text that trims to nothing is returned as it is
    ensures value.None? <==> r.None?
    ensures value.Some? && Trim(value.value) == [] ==> r == value
    // every failure hands the input back; nothing escapes
    ensures value.Some? && !codec.validPattern(format) ==> r == value
    ensures value.Some? && Parse(value.value, fromZone, format, codec).None? ==> r == value
    // parsable text under a valid pattern is the parsed instant rendered in toZone, when that renders
    ensures value.Some? && Trim(value.value) != [] && codec.validPattern(format)
            && Parse(value.value, fromZone, format, codec).Some?
            && codec.render(WithZoneSameInstant(Parse(value.value, fromZone, format, codec).value, toZone), format).Some? ==>
              r == codec.render(WithZoneSameInstant(Parse(value.value, fromZone, format, codec).value, toZone), format)
    // and a changed result is always of that form
    ensures r != value ==>
              value.Some? && Parse(value.value, fromZone, format, codec).Some? &&
              r == codec.render(WithZoneSameInstant(Parse(value.value, fromZone, format, codec).value, toZone), format)
  {
    match value
    case None => value
    case Some(text) =>
      if Trim(text) == [] then value
      else if !codec.validPattern(format) then value
      else
        match Parse(text, fromZone, format, codec)
        case None => value
        case Some(zoned) =>
          match codec.render(WithZoneSameInstant(zoned, toZone), format)
          case None => value
          case Some(out) => Some(out)
  }

  /** When the text carries its own zone, the zone it is read in plays no part. */
  lemma SourceZoneIgnoredWhenZoned(text: string, a: Zone, b: Zone, toZone: Zone, format: string, codec: Codec)
    requires codec.parseZoned(text, format).Some?
    ensures Convert(Some(text), a, toZone, format, codec) == Convert(Some(text), b, toZone, format, codec)
  {
  }

  /** Local text is read as a wall clock in fromZone and re-rendered as the wall clock in toZone. */
  lemma LocalTextShifted(text: string, fromZone: Zone, toZone: Zone, format: string, codec: Codec)
    requires Trim(text) != [] && codec.validPattern(format)
    requires codec.parseZoned(text, format).None? && codec.parseLocal(text, format).Some?
    requires codec.render(ZonedDateTime(codec.parseLocal(text, format).value.local - fromZone.offset, toZone), format).Some?
    ensures Convert(Some(text), fromZone, toZone, format, codec)
         == codec.render(ZonedDateTime(codec.parseLocal(text, format).value.local - fromZone.offset, toZone), format)
  {
  }

  /**
   * The laws of a zone-less pattern: it never yields a zoned value, what it
   * renders it parses back as the same wall clock, and what it renders depends
   * only on the wall clock.
   */
  ghost predicate LocalPattern(codec: Codec, format: string)
  {
    codec.validPattern(format)
    && (forall text :: codec.parseZoned(text, format).None?)
    && (forall t: ZonedDateTime, out :: codec.render(t, format) == Some(out) ==>
          Trim(out) != [] && codec.parseLocal(out, format) == Some(ToLocalDateTime(t)))
    && (forall t: ZonedDateTime, u: ZonedDateTime :: ToLocalDateTime(t) == ToLocalDateTime(u) ==>
          codec.render(t, format) == codec.render(u, format))
  }

  /**
   * With a zone-less pattern, converting A to B and back to A gives back any
   * text that the pattern renders in its canonical form.
   */
  lemma {:induction false} RoundTrip(text: string, a: Zone, b: Zone, format: string, codec: Codec)
    requires LocalPattern(codec, format)
    requires Trim(text) != []
    requires codec.parseLocal(text, format).Some?
    requires codec.render(AtZone(codec.parseLocal(text, format).value, a), format) == Some(text)
    requires codec.render(WithZoneSameInstant(AtZone(codec.parseLocal(text, format).value, a), b), format).Some?
    ensures Convert(Convert(Some(text), a, b, format, codec), b, a, format, codec) == Some(text)
  {
    var local := codec.parseLocal(text, format).value;
    var inB := WithZoneSameInstant(AtZone(local, a), b);
    var mid := codec.render(inB, format).value;
    assert codec.parseZoned(text, format).None?;
    assert Convert(Some(text), a, b, format, codec) == Some(mid);
    assert codec.parseZoned(mid, format).None?;
    assert codec.parseLocal(mid, format) == Some(ToLocalDateTime(inB));
    var back := WithZoneSameInstant(AtZone(ToLocalDateTime(inB), b), a);
    assert ToLocalDateTime(back) == ToLocalDateTime(AtZone(local, a));
    assert codec.render(back, format) == Some(text);
  }
}
