/**
 * kronos-core's TimeZoneConverter: the registry of type converters it builds
 * once and shares with its ObjectProcessor, and the two entry points that
 * convert an object graph from the client zone to the backend zone and back.
 */
module KronosTimeZoneConverter {
  import opened Wrappers
  import opened JavaTime
  import opened JavaHeap
  import opened TypeConverters
  import opened ConversionContext
  import opened ObjectProcessor
  import opened KronosProperty
  import LocalDateTimeConverter

  /** What registerDefaultConverters puts in: six classes, each with its converter. */
  const DefaultConverters: map<string, Converter> := map[
    StringName := StringDateTimeConv,
    UtilDateName := DateConv,
    LocalDateTimeName := LocalDateTimeConv,
    ZonedDateTimeName := ZonedDateTimeConv,
    InstantName := InstantConv,
    OffsetDateTimeName := OffsetDateTimeConv]

  /** Each default converter sits under the class it supports. */
  lemma DefaultsWellKeyed()
    ensures WellKeyed(DefaultConverters)
    ensures DefaultConverters.Keys == {StringName, UtilDateName, LocalDateTimeName, ZonedDateTimeName, InstantName, OffsetDateTimeName}
  {
  }

  /** The registry after putting each custom converter under its supported type, first to last. */
  function PutCustoms(base: map<string, Converter>, customs: seq<Converter>): (m: map<string, Converter>)
    ensures m.Keys == base.Keys + set c | c in customs :: SupportedType(c)
    ensures forall t :: t in m ==> (t in base && m[t] == base[t]) || m[t] in customs
    decreases |customs|
  {
    if customs == [] then base
    else
      var last := customs[|customs| - 1];
      PutCustoms(base, customs[..|customs| - 1])[SupportedType(last) := last]
  }

  /** initializeTypeConverters: the defaults, then the custom converters when there is a list. */
  function InitialConverters(customs: Option<seq<Converter>>): map<string, Converter>
  {
    match customs
    case None => DefaultConverters
    case Some(cs) => PutCustoms(DefaultConverters, cs)
  }

  /** Of several custom converters for one class, the last in the list is the one registered. */
  lemma {:induction false} LastCustomWins(base: map<string, Converter>, customs: seq<Converter>, i: nat)
    requires i < |customs|
    requires forall j :: i < j < |customs| ==> SupportedType(customs[j]) != SupportedType(customs[i])
    ensures SupportedType(customs[i]) in PutCustoms(base, customs)
    ensures PutCustoms(base, customs)[SupportedType(customs[i])] == customs[i]
  {
    var n := |customs|;
    var prefix := customs[..n - 1];
    assert PutCustoms(base, customs) == PutCustoms(base, prefix)[SupportedType(customs[n - 1]) := customs[n - 1]];
    if i < n - 1 {
      assert prefix[i] == customs[i];
      forall j | i < j < |prefix|
        ensures SupportedType(prefix[j]) != SupportedType(prefix[i])
      {
        assert prefix[j] == customs[j];
      }
      LastCustomWins(base, prefix, i);
    }
  }

  /** A class no custom converter claims keeps the converter it had before. */
  lemma {:induction false} UnclaimedKept(base: map<string, Converter>, customs: seq<Converter>, t: string)
    requires t in base
    requires forall j :: 0 <= j < |customs| ==> SupportedType(customs[j]) != t
    ensures t in PutCustoms(base, customs) && PutCustoms(base, customs)[t] == base[t]
  {
    if customs != [] {
      UnclaimedKept(base, customs[..|customs| - 1], t);
    }
  }

  /** Putting converters under their own supported type keeps a registry well keyed. */
  lemma {:induction false} PutCustomsWellKeyed(base: map<string, Converter>, customs: seq<Converter>)
    requires WellKeyed(base)
    ensures WellKeyed(PutCustoms(base, customs))
  {
    if customs != [] {
      PutCustomsWellKeyed(base, customs[..|customs| - 1]);
    }
  }

  /**
   * The registry a converter starts with: a custom converter for a built-in
   * class replaces the built-in one, every other built-in stays, and every
   * entry sits under its own class.
   */
  lemma InitialConvertersShape(customs: seq<Converter>, t: string)
    requires t in DefaultConverters
    ensures WellKeyed(InitialConverters(Some(customs)))
    ensures (forall j :: 0 <= j < |customs| ==> SupportedType(customs[j]) != t) ==>
              InitialConverters(Some(customs))[t] == DefaultConverters[t]
    ensures (exists j :: 0 <= j < |customs| && SupportedType(customs[j]) == t) ==>
              t in InitialConverters(Some(customs)) && InitialConverters(Some(customs))[t] in customs
  {
    DefaultsWellKeyed();
    PutCustomsWellKeyed(DefaultConverters, customs);
    if forall j :: 0 <= j < |customs| ==> SupportedType(customs[j]) != t {
      UnclaimedKept(DefaultConverters, customs, t);
    } else {
      var j :| 0 <= j < |customs| && SupportedType(customs[j]) == t;
      var m := InitialConverters(Some(customs));
      assert SupportedType(m[t]) == t;
      assert m[t] != DefaultConverters[t] ==> m[t] in customs;
      if m[t] == DefaultConverters[t] {
        // the last custom converter for t is the one in the map
        var k := LastFor(customs, t, j);
        LastCustomWins(DefaultConverters, customs, k);
      }
    }
  }

  /** The position of the last converter for class t, given one at position j. */
  function LastFor(customs: seq<Converter>, t: string, j: nat): (k: nat)
    requires j < |customs| && SupportedType(customs[j]) == t
    ensures j <= k < |customs| && SupportedType(customs[k]) == t
    ensures forall i :: k < i < |customs| ==> SupportedType(customs[i]) != t
    decreases |customs| - j
  {
    if exists i :: j < i < |customs| && SupportedType(customs[i]) == t then
      var i :| j < i < |customs| && SupportedType(customs[i]) == t;
      LastFor(customs, t, i)
    else j
  }

  /** registerDefaultConverters: six puts into the given map. */
  method RegisterDefaultConverters(converters: ConverterRegistry)
    modifies converters
    ensures converters.entries == old(converters.entries) + DefaultConverters
  {
    ghost var m := old(converters.entries);
    converters.Register(StringName, StringDateTimeConv);
    converters.Register(UtilDateName, DateConv);
    converters.Register(LocalDateTimeName, LocalDateTimeConv);
    converters.Register(ZonedDateTimeName, ZonedDateTimeConv);
    converters.Register(InstantName, InstantConv);
    converters.Register(OffsetDateTimeName, OffsetDateTimeConv);
    UpdatesAreUnion(m);
  }

  /** Six puts into a map are the union with the six-entry map. */
  lemma UpdatesAreUnion(m: map<string, Converter>)
    ensures m[StringName := StringDateTimeConv][UtilDateName := DateConv][LocalDateTimeName := LocalDateTimeConv]
             [ZonedDateTimeName := ZonedDateTimeConv][InstantName := InstantConv][OffsetDateTimeName := OffsetDateTimeConv]
            == m + DefaultConverters
  {
  }

  /** initializeTypeConverters: a fresh map, the defaults, then each custom converter under its supported type. */
  method InitializeTypeConverters(customs: Option<seq<Converter>>) returns (converters: ConverterRegistry)
    ensures fresh(converters)
    ensures converters.entries == InitialConverters(customs)
  {
    converters := new ConverterRegistry(map[]);
    RegisterDefaultConverters(converters);
    assert converters.entries == DefaultConverters;
    if customs.Some? {
      var cs := customs.value;
      for i := 0 to |cs|
        invariant converters.entries == PutCustoms(DefaultConverters, cs[..i])
      {
        assert cs[..i + 1][..i] == cs[..i];
        converters.Register(SupportedType(cs[i]), cs[i]);
      }
      assert cs[..|cs|] == cs;
    }
  }

  /**
   * What convertTimeZone promises about one value, from heap a to heap b:
   * null and a conversion between equal zones change nothing; otherwise the
   * value is processed from a fresh context, whose processed set is empty,
   * and every node of the heap keeps its shape.
   */
  ghost predicate Converted(p: Processor, reg: map<string, Converter>, s: Setting, outlines: map<Id, Outline>,
                            a: map<Id, Node>, b: map<Id, Node>, v: Value, r: Value)
  {
    if v.Null? || ZoneEquals(s.fromZone, s.toZone) then r == v && b == a
    else
      p.Step(reg, s, outlines, v, r)
      && ShapeKept(outlines, a, b)
      && (!v.Ref? && !v.Built? ==> b == a)
      && (v.Ref? && v.id !in a ==> r == v && b == a)
      && (v.Ref? && v.id in a ==> v.id in b && p.NodeStep(reg, s, outlines, a, b, v.id, r))
  }

  /**
   * toClientTimeZone undoes toBackendTimeZone on a LocalDateTime field of
   * the object passed in, when the built-in LocalDateTime converter is the
   * one registered and the field can be read and set.
   */
  lemma LocalDateTimeFieldRoundTrip(p: Processor, reg: map<string, Converter>, clientZone: Zone, backendZone: Zone, format: string,
                                    outlines: map<Id, Outline>, a: map<Id, Node>, b: map<Id, Node>, c: map<Id, Node>,
                                    x: Id, r1: Value, r2: Value, j: nat)
    requires LocalDateTimeName in reg && reg[LocalDateTimeName] == LocalDateTimeConv
    requires x in a && a[x].ObjectNode? && j < |a[x].fields|
    requires a[x].fields[j].decl.readable && a[x].fields[j].decl.writable
    requires a[x].fields[j].value.Atom? && a[x].fields[j].value.leaf.LocalDT?
    requires Converted(p, reg, Setting(clientZone, backendZone, format), outlines, a, b, Ref(x), r1)
    requires Converted(p, reg, Setting(backendZone, clientZone, format), outlines, b, c, Ref(x), r2)
    ensures x in c && c[x].ObjectNode? && j < |c[x].fields| && c[x].fields[j] == a[x].fields[j]
  {
    if ZoneEquals(clientZone, backendZone) {
      return;
    }
    var f := a[x].fields[j];
    var t := f.value.leaf.ldt;
    assert Rewritten(outlines, f) by {
      assert IsTimeType(ClassOfValue(outlines, f.value));
    }
    var g := b[x].fields[j];
    assert g == f.(value := Atom(LocalDT(LocalDateTimeConverter.Convert(Some(t), clientZone, backendZone, format).value)));
    assert Rewritten(outlines, g) by {
      assert IsTimeType(ClassOfValue(outlines, g.value));
    }
    LocalDateTimeConverter.RoundTrip(Some(t), clientZone, backendZone, format, format);
  }

  /**
   * new TimeZoneConverter(properties, customConverters): ZoneId.of on the
   * configured backend id runs first, so an id it rejects ends the call
   * with DateTimeException (None) before anything is built.
   */
  method NewTimeZoneConverter(properties: Properties, customConverters: Option<seq<Converter>>, rt: Runtime)
    returns (r: Option<TimeZoneConverter>)
    ensures r.None? <==> ZoneOf(properties.backendZoneId).None?
    ensures r.Some? ==> fresh(r.value) && r.value.Valid()
                        && r.value.backendZone == ZoneOf(properties.backendZoneId).value
                        && r.value.defaultDateFormat == properties.defaultDateTimeFormat
                        && r.value.typeConverters.entries == InitialConverters(customConverters)
  {
    if ZoneOf(properties.backendZoneId).None? {
      return None;
    }
    var c := new TimeZoneConverter(properties, customConverters, rt);
    r := Some(c);
  }

  class TimeZoneConverter {
    const backendZone: Zone
    const defaultDateFormat: string
    const typeConverters: ConverterRegistry
    const objectProcessor: Processor

    /** The processor works on this converter's own registry. */
    predicate Valid()
    {
      objectProcessor.registry == typeConverters
    }

    /**
     * The constructor once ZoneId.of has accepted the configured backend id;
     * NewTimeZoneConverter is the whole call, rejected id included.
     */
    constructor (properties: Properties, customConverters: Option<seq<Converter>>, rt: Runtime)
      requires ZoneOf(properties.backendZoneId).Some?
      ensures Valid()
      ensures backendZone == ZoneOf(properties.backendZoneId).value
      ensures defaultDateFormat == properties.defaultDateTimeFormat
      ensures fresh(typeConverters) && typeConverters.entries == InitialConverters(customConverters)
      ensures fresh(objectProcessor) && objectProcessor.rt == rt
    {
      backendZone := ZoneOf(properties.backendZoneId).value;
      defaultDateFormat := properties.defaultDateTimeFormat;
      var converters := InitializeTypeConverters(customConverters);
      typeConverters := converters;
      objectProcessor := new Processor(converters, rt);
    }

    /** registerConverter: the shared map gets the entry, so later traversals use it. */
    method RegisterConverter(typeName: string, c: Converter)
      requires Valid()
      modifies typeConverters
      ensures typeConverters.entries == old(typeConverters.entries)[typeName := c]
      ensures objectProcessor.registry.entries == typeConverters.entries
    {
      typeConverters.Register(typeName, c);
    }

    /** convertTimeZone: nothing to do for null or equal zones, else process with a fresh context. */
    method ConvertTimeZone(v: Value, fromZone: Zone, toZone: Zone, h: Heap) returns (r: Value)
      requires Valid() && h.Valid()
      modifies h
      ensures h.Valid()
      ensures Converted(objectProcessor, typeConverters.entries, Setting(fromZone, toZone, defaultDateFormat),
                        h.outlines, old(h.nodes), h.nodes, v, r)
    {
      if v.Null? || ZoneEquals(fromZone, toZone) {
        return v;
      }
      var context := new Context(fromZone, toZone, defaultDateFormat);
      r := objectProcessor.Process(v, context, h);
    }

    /** toBackendTimeZone: from the client's zone to the backend's. */
    method ToBackendTimeZone(v: Value, clientZone: Zone, h: Heap) returns (r: Value)
      requires Valid() && h.Valid()
      modifies h
      ensures h.Valid()
      ensures Converted(objectProcessor, typeConverters.entries, Setting(clientZone, backendZone, defaultDateFormat),
                        h.outlines, old(h.nodes), h.nodes, v, r)
    {
      r := ConvertTimeZone(v, clientZone, backendZone, h);
    }

    /** toClientTimeZone: from the backend's zone to the client's. */
    method ToClientTimeZone(v: Value, clientZone: Zone, h: Heap) returns (r: Value)
      requires Valid() && h.Valid()
      modifies h
      ensures h.Valid()
      ensures Converted(objectProcessor, typeConverters.entries, Setting(backendZone, clientZone, defaultDateFormat),
                        h.outlines, old(h.nodes), h.nodes, v, r)
    {
      r := ConvertTimeZone(v, backendZone, clientZone, h);
    }
  }
}
