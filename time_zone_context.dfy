/**
 * TimeZoneContextHolder and the servlet interceptor around it: the client's
 * zone for the request being served, kept in a thread-local slot (one
 * thread here), chosen from a request header or the configured default, and
 * cleared once the request completes.
 */
module TimeZoneContext {
  import opened Wrappers
  import opened JavaTime
  import opened JavaText
  import opened KronosProperty

  /** The outcome of a call that may fail in ZoneId.of. */
  datatype Outcome<T> = Returned(value: T) | ThrewDateTimeException

  /** A request header as the servlet container received it: its name and its value. */
  type Header = (string, string)

  /** An ASCII letter in lower case; any other character as it is. */
  function LowerAscii(c: char): char
  {
    if 'A' <= c <= 'Z' then (c as int + 32) as char else c
  }

  /** Header names that String.equalsIgnoreCase accepts as equal, for the ASCII names HTTP allows. */
  predicate SameHeaderName(a: string, b: string)
  {
    |a| == |b| && forall i :: 0 <= i < |a| ==> LowerAscii(a[i]) == LowerAscii(b[i])
  }

  /** Where getHeader finds name: the first header of that name, case ignored, or |headers| when there is none. */
  function HeaderIndex(headers: seq<Header>, name: string): (k: nat)
    ensures k <= |headers|
    ensures k < |headers| ==> SameHeaderName(headers[k].0, name)
    ensures forall j :: 0 <= j < k ==> !SameHeaderName(headers[j].0, name)
  {
    if headers == [] then 0
    else if SameHeaderName(headers[0].0, name) then 0
    else 1 + HeaderIndex(headers[1..], name)
  }

  /**
   * HttpServletRequest.getHeader: the value of the first header with that
   * name, whatever the case of its letters; null when the request has none.
   */
  function GetHeader(headers: seq<Header>, name: string): (v: Option<string>)
    ensures v.None? <==> forall j :: 0 <= j < |headers| ==> !SameHeaderName(headers[j].0, name)
    ensures v.Some? ==> exists k :: 0 <= k < |headers| && SameHeaderName(headers[k].0, name) && v.value == headers[k].1
  {
    var k := HeaderIndex(headers, name);
    if k < |headers| then Some(headers[k].1) else None
  }

  /** Asking for a name in another case finds the same header. */
  lemma {:induction false} HeaderNameCaseIgnored(headers: seq<Header>, a: string, b: string)
    requires SameHeaderName(a, b)
    ensures HeaderIndex(headers, a) == HeaderIndex(headers, b)
    ensures GetHeader(headers, a) == GetHeader(headers, b)
  {
    if headers != [] {
      assert SameHeaderName(headers[0].0, a) == SameHeaderName(headers[0].0, b);
      HeaderNameCaseIgnored(headers[1..], a, b);
    }
  }

  class TimeZoneContextHolder {
    /** The thread-local slot: empty until a zone is set, and again after clear. */
    var slot: Option<Zone>

    /** The slot only ever holds a zone ZoneId.of produced for its own id. */
    predicate Valid()
      reads this
    {
      slot.Some? ==> ZoneOf(slot.value.id) == slot
    }

    constructor ()
      ensures slot.None? && Valid()
    {
      slot := None;
    }

    /** setTimeZone: ZoneId.of(id) into the slot; an unknown id throws and the slot keeps what it had. */
    method SetTimeZone(zoneId: string) returns (r: Outcome<()>)
      requires Valid()
      modifies this
      ensures Valid()
      ensures r.Returned? <==> ZoneOf(zoneId).Some?
      ensures r.Returned? ==> GetTimeZone() == ZoneOf(zoneId).value
      ensures r.ThrewDateTimeException? ==> slot == old(slot)
    {
      var z := ZoneOf(zoneId);
      if z.None? {
        return ThrewDateTimeException;
      }
      slot := z;
      r := Returned(());
    }

    /** getTimeZone: the zone in the slot, UTC when there is none; a zone whose id ZoneId.of maps back to it. */
    function GetTimeZone(): (z: Zone)
      reads this
      requires Valid()
      ensures ZoneOf(z.id) == Some(z)
      ensures slot.None? ==> z == UTC
    {
      slot.GetOr(UTC)
    }

    /** clear: the slot is emptied, so the next read is UTC. */
    method Clear()
      requires Valid()
      modifies this
      ensures Valid() && slot.None?
      ensures GetTimeZone() == UTC
    {
      slot := None;
    }
  }

  /** The servlet HandlerInterceptor that fills the holder for each request. */
  class TimeZoneInterceptor {
    const properties: Properties
    const holder: TimeZoneContextHolder

    constructor (properties: Properties, holder: TimeZoneContextHolder)
      ensures this.properties == properties && this.holder == holder
    {
      this.properties := properties;
      this.holder := holder;
    }

    /**
     * preHandle: the header named by clientZoneIdHeader, when it has text,
     * else the configured default client zone, goes to the holder; the
     * request then always goes on, unless ZoneId.of rejects the id.
     */
    method PreHandle(headers: seq<Header>) returns (r: Outcome<bool>)
      requires holder.Valid()
      modifies holder
      ensures holder.Valid()
      ensures var chosen := ChosenZoneId(properties, headers);
        && (r.Returned? <==> ZoneOf(chosen).Some?)
        && (r.Returned? ==> r.value && holder.GetTimeZone() == ZoneOf(chosen).value)
        && (r.ThrewDateTimeException? ==> holder.slot == old(holder.slot))
    {
      var timeZoneId := GetHeader(headers, properties.clientZoneIdHeader);
      var stored: Outcome<()>;
      if timeZoneId.Some? && HasText(timeZoneId.value) {
        stored := holder.SetTimeZone(timeZoneId.value);
      } else {
        stored := holder.SetTimeZone(properties.defaultClientZoneId);
      }
      if stored.ThrewDateTimeException? {
        return ThrewDateTimeException;
      }
      r := Returned(true);
    }

    /** afterCompletion: the holder is cleared, so later reads give UTC. */
    method AfterCompletion()
      requires holder.Valid()
      modifies holder
      ensures holder.Valid() && holder.slot.None? && holder.GetTimeZone() == UTC
    {
      holder.Clear();
    }
  }

  /**
   * The zone id preHandle picks: the value of the first header named
   * clientZoneIdHeader, in any case, when it has text; else the configured
   * default.
   */
  function ChosenZoneId(properties: Properties, headers: seq<Header>): (id: string)
    ensures (forall j :: 0 <= j < |headers| ==> !SameHeaderName(headers[j].0, properties.clientZoneIdHeader)) ==>
              id == properties.defaultClientZoneId
    ensures forall k :: 0 <= k < |headers| && SameHeaderName(headers[k].0, properties.clientZoneIdHeader)
                        && (forall j :: 0 <= j < k ==> !SameHeaderName(headers[j].0, properties.clientZoneIdHeader)) ==>
              id == if HasText(headers[k].1) then headers[k].1 else properties.defaultClientZoneId
  {
    var v := GetHeader(headers, properties.clientZoneIdHeader);
    if v.Some? && HasText(v.value) then v.value else properties.defaultClientZoneId
  }

  /** With the default configuration and no header, the request runs in Asia/Shanghai. */
  lemma DefaultClientZone()
    ensures ChosenZoneId(Defaults, []) == "Asia/Shanghai"
    ensures ZoneOf(ChosenZoneId(Defaults, [])) == Some(Zone("Asia/Shanghai", 8 * 3600))
  {
  }

  /** An HTTP/2 request sends header names in lower case; the configured X-Time-Zone still finds its header. */
  lemma LowerCaseHeaderFound()
    ensures ChosenZoneId(Defaults, [("x-time-zone", "Europe/Paris")]) == "Europe/Paris"
  {
    var name: string := "x-time-zone";
    assert forall i :: 0 <= i < |name| ==> LowerAscii(name[i]) == LowerAscii(Defaults.clientZoneIdHeader[i]);
    assert !IsWhitespace("Europe/Paris"[0]);
  }
}
