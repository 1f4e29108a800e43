/**
 * kronos-core's KronosAnnotationInterceptor: around a controller method, every
 * argument is converted to the backend zone before the call and the result
 * to the client zone after it, both with the zone the holder gives.
 */
module CoreAnnotationInterceptor {
  import opened Wrappers
  import opened JavaTime
  import opened JavaHeap
  import opened ConversionContext
  import opened KronosTimeZoneConverter
  import opened TimeZoneContext

  class KronosAnnotationInterceptor {
    const converter: TimeZoneConverter

    constructor (converter: TimeZoneConverter)
      ensures this.converter == converter
    {
      this.converter := converter;
    }

    /** The argument at one position went through toBackendTimeZone, from heap a to heap b. */
    ghost predicate ArgumentConverted(zone: Zone, a: map<Id, Node>, b: map<Id, Node>, outlines: map<Id, Outline>, v: Value, r: Value)
      reads converter, converter.typeConverters
    {
      Converted(converter.objectProcessor, converter.typeConverters.entries,
                Setting(zone, converter.backendZone, converter.defaultDateFormat), outlines, a, b, v, r)
    }

    /**
     * beforeMethod: each non-null argument is replaced by what
     * toBackendTimeZone makes of it, left to right; heaps[i] is the heap
     * before argument i is converted.
     */
    method BeforeMethod(zone: Zone, params: array<Value>, h: Heap) returns (ghost heaps: seq<map<Id, Node>>)
      requires converter.Valid() && h.Valid()
      modifies params, h
      ensures h.Valid()
      ensures |heaps| == params.Length + 1 && heaps[0] == old(h.nodes) && heaps[params.Length] == h.nodes
      ensures forall i :: 0 <= i < params.Length ==> ArgumentConverted(zone, heaps[i], heaps[i + 1], h.outlines, old(params[i]), params[i])
    {
      heaps := [h.nodes];
      for i := 0 to params.Length
        invariant h.Valid()
        invariant |heaps| == i + 1 && heaps[0] == old(h.nodes) && heaps[i] == h.nodes
        invariant forall j :: 0 <= j < i ==> ArgumentConverted(zone, heaps[j], heaps[j + 1], h.outlines, old(params[j]), params[j])
        invariant forall j :: i <= j < params.Length ==> params[j] == old(params[j])
      {
        var param := params[i];
        if param != Null {
          var convertedParam := converter.ToBackendTimeZone(param, zone, h);
          if convertedParam != param {
            params[i] := convertedParam;
          }
        }
        heaps := heaps + [h.nodes];
      }
    }

    /**
     * invoke: the zone comes from the holder, the arguments are converted
     * before the method runs (it sees exactly the converted arguments), and
     * what it returns is converted back with the same zone.
     */
    method Invoke(proceed: seq<Value> -> Value, holder: TimeZoneContextHolder, params: array<Value>, h: Heap)
      returns (r: Value, ghost zone: Zone, ghost heaps: seq<map<Id, Node>>, ghost returned: Value)
      requires converter.Valid() && h.Valid() && holder.Valid()
      modifies params, h
      ensures h.Valid()
      ensures zone == holder.GetTimeZone()
      ensures |heaps| == params.Length + 1 && heaps[0] == old(h.nodes)
      ensures forall i :: 0 <= i < params.Length ==> ArgumentConverted(zone, heaps[i], heaps[i + 1], h.outlines, old(params[i]), params[i])
      ensures returned == proceed(params[..])
      ensures Converted(converter.objectProcessor, converter.typeConverters.entries,
                        Setting(converter.backendZone, zone, converter.defaultDateFormat),
                        h.outlines, heaps[params.Length], h.nodes, returned, r)
    {
      var zoneId := ZoneOf(holder.GetTimeZone().id).value;
      heaps := BeforeMethod(zoneId, params, h);
      var result := proceed(params[..]);
      r := converter.ToClientTimeZone(result, zoneId, h);
      zone, returned := zoneId, result;
    }
  }
}
