/**
 * kronos-spring's KronosAnnotationInterceptor, around controller methods:
 * before the call every argument annotated @Time goes through
 * convertToBackendTimeZone; after the call the result of a @GetMapping
 * method goes through convertToClientTimeZone, both with the zone the
 * holder gives.
 */
module SpringAnnotationInterceptor {
  import opened Wrappers
  import opened JavaTime
  import opened JavaHeap
  import opened TimeZoneContext
  import opened TypeConverters
  import opened LegacyTimeZoneConverter

  /** The annotations on a parameter that matter here: @Time, and any other. */
  datatype Annotation = TimeAnnotation | OtherAnnotation

  /**
   * What the interceptor reads off the invoked Method: the annotations on
   * each parameter, whether it carries @GetMapping, and whether it is
   * declared by java.lang.Object.
   */
  datatype MethodInfo = MethodInfo(parameterAnnotations: seq<seq<Annotation>>, getMapping: bool, declaredByObject: bool)

  /** No argument is both annotated @Time and not null: beforeMethod converts nothing. */
  predicate NoTimeArguments(annotations: seq<seq<Annotation>>, args: seq<Value>)
  {
    forall j :: 0 <= j < |annotations| && j < |args| ==> TimeAnnotation !in annotations[j] || args[j].Null?
  }

  /** How many @Time annotations a parameter carries; each one sends its argument through the converter once more. */
  function TimeCount(anns: seq<Annotation>): (n: nat)
    ensures n == 0 <==> TimeAnnotation !in anns
    ensures n <= |anns|
  {
    if anns == [] then 0 else (if anns[0] == TimeAnnotation then 1 else 0) + TimeCount(anns[1..])
  }

  class KronosAnnotationInterceptor {
    const converter: TimeZoneConverter

    constructor (converter: TimeZoneConverter)
      ensures this.converter == converter
    {
      this.converter := converter;
    }

    /**
     * The argument beforeMethod leaves in a slot that held v: with @Time
     * and not null, what convertToBackendTimeZone returns unless that is
     * null (a collection or a map, converted in place); otherwise v.
     */
    function ArgumentAfter(conv: map<string, Converter>, outlines: map<Id, Outline>, zone: Zone, anns: seq<Annotation>, v: Value): (r: Value)
      ensures TimeAnnotation !in anns || v.Null? ==> r == v
      ensures r == v || r == converter.ConvertedValue(conv, outlines, zone, true, v)
      ensures v.Null? <==> r.Null?
      ensures v.Atom? ==> r.Atom?
      ensures v.Ref? ==> r == v
    {
      if TimeAnnotation in anns && !v.Null? && !converter.ConvertedValue(conv, outlines, zone, true, v).Null?
      then converter.ConvertedValue(conv, outlines, zone, true, v)
      else v
    }

    /**
     * beforeMethod: for each parameter, each @Time annotation on it sends
     * the original argument through convertToBackendTimeZone and stores a
     * non-null result in its slot. An exception from the converter ends the
     * loop and propagates.
     */
    method BeforeMethod(zone: Zone, params: array<Value>, m: MethodInfo, h: Heap, depth: nat) returns (thrown: Option<Throwable>)
      requires h.Valid() && |m.parameterAnnotations| == params.Length
      modifies params, h
      ensures h.Valid() && OnlyTimeFields(converter.converters, old(h.nodes), h.nodes)
      ensures forall i :: 0 <= i < params.Length ==>
        params[i] == old(params[i])
        || params[i] == ArgumentAfter(converter.converters, h.outlines, zone, m.parameterAnnotations[i], old(params[i]))
      ensures thrown.None? ==> forall i :: 0 <= i < params.Length ==>
        params[i] == ArgumentAfter(converter.converters, h.outlines, zone, m.parameterAnnotations[i], old(params[i]))
      ensures NoTimeArguments(m.parameterAnnotations, old(params[..])) ==> h.nodes == old(h.nodes) && thrown.None?
    {
      for i := 0 to params.Length
        invariant h.Valid() && OnlyTimeFields(converter.converters, old(h.nodes), h.nodes)
        invariant NoTimeArguments(m.parameterAnnotations, old(params[..])) ==> h.nodes == old(h.nodes)
        invariant forall j :: 0 <= j < i ==>
          params[j] == ArgumentAfter(converter.converters, h.outlines, zone, m.parameterAnnotations[j], old(params[j]))
        invariant forall j :: i <= j < params.Length ==> params[j] == old(params[j])
      {
        ghost var prev := h.nodes;
        thrown := ConvertParameter(zone, params, i, m.parameterAnnotations[i], h, depth);
        OnlyTimeFieldsTrans(converter.converters, old(h.nodes), prev, h.nodes);
        if thrown.Some? {
          return;
        }
      }
      thrown := None;
    }

    /** Heap a after convertToBackendTimeZone has converted the fields of object v, whose fields hold only nulls and leaves. */
    ghost function LeafObjectConverted(a: map<Id, Node>, v: Value, zone: Zone): map<Id, Node>
      reads this, converter
      requires converter.LeafObject(a, v)
    {
      a[v.id := ObjectNode(a[v.id].klass, converter.ConvertedLeafFields(converter.converters, a[v.id].fields, zone, true))]
    }

    /** What one @Time annotation does: convert the original argument and store a non-null result in slot i. */
    method ConvertArgument(param: Value, zone: Zone, params: array<Value>, i: nat, h: Heap, depth: nat) returns (thrown: Option<Throwable>)
      requires h.Valid() && i < params.Length && !param.Null?
      requires params[i] == param || params[i] == ArgumentAfter(converter.converters, h.outlines, zone, [TimeAnnotation], param)
      modifies params, h
      ensures h.Valid() && OnlyTimeFields(converter.converters, old(h.nodes), h.nodes)
      ensures forall j :: 0 <= j < params.Length && j != i ==> params[j] == old(params[j])
      ensures params[i] == old(params[i]) || params[i] == ArgumentAfter(converter.converters, h.outlines, zone, [TimeAnnotation], param)
      ensures thrown.None? ==> params[i] == ArgumentAfter(converter.converters, h.outlines, zone, [TimeAnnotation], param)
      ensures converter.LeafObject(old(h.nodes), param) && thrown.None? ==> h.nodes == LeafObjectConverted(old(h.nodes), param, zone)
    {
      var result := converter.ConvertTo(param, zone, true, h, depth);
      if result.Threw? {
        return Some(result.error);
      }
      if !result.value.Null? {
        params[i] := result.value;
      }
      thrown := None;
    }

    /** The inner loop of beforeMethod, over the annotations of parameter i. */
    method ConvertParameter(zone: Zone, params: array<Value>, i: nat, anns: seq<Annotation>, h: Heap, depth: nat) returns (thrown: Option<Throwable>)
      requires h.Valid() && i < params.Length
      modifies params, h
      ensures h.Valid() && OnlyTimeFields(converter.converters, old(h.nodes), h.nodes)
      ensures forall j :: 0 <= j < params.Length && j != i ==> params[j] == old(params[j])
      ensures params[i] == old(params[i]) || params[i] == ArgumentAfter(converter.converters, h.outlines, zone, anns, old(params[i]))
      ensures thrown.None? ==> params[i] == ArgumentAfter(converter.converters, h.outlines, zone, anns, old(params[i]))
      ensures TimeAnnotation !in anns || old(params[i]).Null? ==> h.nodes == old(h.nodes) && thrown.None?
      ensures TimeCount(anns) == 1 && converter.LeafObject(old(h.nodes), old(params[i])) && thrown.None? ==>
        h.nodes == LeafObjectConverted(old(h.nodes), old(params[i]), zone)
    {
      var param := params[i];
      ghost var leaf := converter.LeafObject(h.nodes, param);
      ghost var target := if leaf then LeafObjectConverted(h.nodes, param, zone) else h.nodes;
      ghost var hits: nat := 0;
      for k := 0 to |anns|
        invariant h.Valid() && OnlyTimeFields(converter.converters, old(h.nodes), h.nodes)
        invariant forall j :: 0 <= j < params.Length && j != i ==> params[j] == old(params[j])
        invariant hits + TimeCount(anns[k..]) == TimeCount(anns)
        invariant params[i] == if hits == 0 then param else ArgumentAfter(converter.converters, h.outlines, zone, [TimeAnnotation], param)
        invariant hits == 0 || param.Null? ==> h.nodes == old(h.nodes)
        invariant hits == 1 && leaf ==> h.nodes == target
      {
        if anns[k] == TimeAnnotation && !param.Null? {
          ghost var prev := h.nodes;
          thrown := ConvertArgument(param, zone, params, i, h, depth);
          OnlyTimeFieldsTrans(converter.converters, old(h.nodes), prev, h.nodes);
          if thrown.Some? {
            assert TimeAnnotation in anns;
            return;
          }
        }
        assert anns[k..][1..] == anns[k + 1..];
        hits := if anns[k] == TimeAnnotation then hits + 1 else hits;
      }
      thrown := None;
    }

    /**
     * What invoke answers once the method returned `returned`: the value
     * itself when the method has no @GetMapping or returned null, "" for a
     * method of java.lang.Object, else what convertToClientTimeZone returns.
     */
    function Response(conv: map<string, Converter>, outlines: map<Id, Outline>, zone: Zone, m: MethodInfo, returned: Value): (r: Value)
      ensures !m.getMapping || returned.Null? ==> r == returned
      ensures m.getMapping && !returned.Null? && m.declaredByObject ==> r == Atom(Text(""))
      ensures m.getMapping && !m.declaredByObject && (IsCollection(outlines, returned) || IsMap(outlines, returned)) ==> r == Null
      ensures m.getMapping && !m.declaredByObject && returned.Ref? && !IsCollection(outlines, returned) && !IsMap(outlines, returned) ==> r == returned
    {
      if !m.getMapping || returned.Null? then returned
      else if m.declaredByObject then Atom(Text(""))
      else converter.ConvertedValue(conv, outlines, zone, false, returned)
    }

    /**
     * invoke: the zone comes from the holder; the @Time arguments are
     * converted to the backend zone; the method runs on the converted
     * arguments; its result is answered as Response says.
     */
    method Invoke(proceed: seq<Value> -> Value, holder: TimeZoneContextHolder, params: array<Value>, m: MethodInfo, h: Heap, depth: nat)
      returns (r: Run, ghost zone: Zone, ghost returned: Value)
      requires h.Valid() && holder.Valid() && |m.parameterAnnotations| == params.Length
      modifies params, h
      ensures h.Valid() && OnlyTimeFields(converter.converters, old(h.nodes), h.nodes)
      ensures zone == holder.GetTimeZone()
      ensures r.Done? ==> forall i :: 0 <= i < params.Length ==>
        params[i] == ArgumentAfter(converter.converters, h.outlines, zone, m.parameterAnnotations[i], old(params[i]))
      ensures r.Done? ==> returned == proceed(params[..])
                          && r.value == Response(converter.converters, h.outlines, zone, m, returned)
      ensures NoTimeArguments(m.parameterAnnotations, old(params[..])) ==> params[..] == old(params[..])
      ensures NoTimeArguments(m.parameterAnnotations, old(params[..])) && (!m.getMapping || m.declaredByObject || returned.Null?) ==>
        r.Done? && h.nodes == old(h.nodes)
    {
      var zoneId := ZoneOf(holder.GetTimeZone().id).value;
      zone := zoneId;
      var thrown := BeforeMethod(zoneId, params, m, h, depth);
      if thrown.Some? {
        return Threw(thrown.value), zone, Null;
      }
      var result := proceed(params[..]);
      returned := result;
      if !m.getMapping || result.Null? {
        return Done(result), zone, returned;
      }
      if m.declaredByObject {
        return Done(Atom(Text(""))), zone, returned;
      }
      ghost var prev := h.nodes;
      r := converter.ConvertTo(result, zoneId, false, h, depth);
      OnlyTimeFieldsTrans(converter.converters, old(h.nodes), prev, h.nodes);
    }
  }
}
