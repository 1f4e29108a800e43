/**
 * The older walker, kronos-spring's converter.TimeZoneConverter. It has two
 * entry families that share a converter registry:
 *
 *  - convertToBackendTimeZone / convertToClientTimeZone (ConvertTo here, with
 *    the direction as a flag) descend through collections, maps and the
 *    @Time fields of objects with no record of where they have been; they
 *    only ever write @Time fields, and they return null for every
 *    collection and map;
 *  - processParameter and its handlers guard objects, collections and maps
 *    with a thread-local processed set, but not arrays.
 *
 * Neither family stops on every cycle, so the JVM's stack is part of the
 * model: `depth` is how many more nested convertTo* or processParameter
 * calls the stack can take, and a call made with none left throws
 * StackOverflowError.
 */
module LegacyTimeZoneConverter {
  import opened Wrappers
  import opened JavaTime
  import opened JavaHeap
  import opened TypeConverters
  import opened KronosProperty
  import ObjectProcessor
  import LocalDateTimeConverter

  /** What escapes the walker: a stack overflow, or ReflectionUtils' IllegalStateException around a field access error. */
  datatype Throwable = StackOverflowError | IllegalStateException | UnsupportedOperationException

  /** A call that returns a value or throws. */
  datatype Run = Done(value: Value) | Threw(error: Throwable)

  /** The four converters the constructor registers. */
  const LegacyDefaults: map<string, Converter> := map[
    StringName := StringDateTimeConv,
    UtilDateName := DateConv,
    LocalDateTimeName := LocalDateTimeConv,
    ZonedDateTimeName := LegacyZonedDateTimeConv]

  /** isCustomObject of the older walker: five JDK package prefixes (without the dot) are excluded. */
  predicate IsCustomObject(c: JClass)
  {
    c.cat != Primitive
    && !ObjectProcessor.StartsWith(c.name, "java.lang") && !ObjectProcessor.StartsWith(c.name, "java.math")
    && !ObjectProcessor.StartsWith(c.name, "java.util") && !ObjectProcessor.StartsWith(c.name, "java.time")
    && !ObjectProcessor.StartsWith(c.name, "java.sql")
    && c.cat != EnumType && c.cat != ArrayType
  }

  lemma PrefixOfPrefix(s: string, p: string, q: string)
    requires ObjectProcessor.StartsWith(s, p) && ObjectProcessor.StartsWith(p, q)
    ensures ObjectProcessor.StartsWith(s, q)
  {
    assert s[..|q|] == s[..|p|][..|q|];
  }

  /**
   * The older walker descends into more classes than the newer one: every
   * application class of the newer walker is one for the older, while a JDK
   * class outside the five packages (java.net.URI, say) is one only for the
   * older.
   */
  lemma CustomObjectsCompared(c: JClass)
    ensures ObjectProcessor.IsCustomObject(c) ==> IsCustomObject(c)
    ensures IsCustomObject(JClass("java.net.URI", Reference))
    ensures !ObjectProcessor.IsCustomObject(JClass("java.net.URI", Reference))
  {
    var java := "java.";
    forall p | p in ["java.lang", "java.math", "java.util", "java.time", "java.sql"] && ObjectProcessor.StartsWith(c.name, p)
      ensures ObjectProcessor.StartsWith(c.name, java)
    {
      PrefixOfPrefix(c.name, p, java);
    }
    var uri := "java.net.URI";
    assert uri[5] == 'n';
    DiffersAt(uri, "java.lang", 5);
    DiffersAt(uri, "java.math", 5);
    DiffersAt(uri, "java.util", 5);
    DiffersAt(uri, "java.time", 5);
    DiffersAt(uri, "java.sql", 5);
    assert uri[..5] == java;
  }

  /** A string that differs from p at a position of p does not start with p. */
  lemma DiffersAt(s: string, p: string, i: nat)
    requires i < |p| && i < |s| && s[i] != p[i]
    ensures !ObjectProcessor.StartsWith(s, p)
  {
    if |p| <= |s| {
      assert s[..|p|][i] != p[i];
    }
  }

  /** The fields processFields may write: @Time fields whose declared class has a converter. */
  predicate TimeConvertible(conv: map<string, Converter>, d: FieldDecl)
  {
    d.time.Some? && d.declared.name in conv
  }

  /**
   * callConvert throws UnsupportedOperationException on field f: the
   * converter of its declared class is DateConverter and the field holds a
   * java.sql.Date or java.sql.Time.
   */
  predicate ConversionUnsupported(conv: map<string, Converter>, f: Field)
  {
    TimeConvertible(conv, f.decl) && f.value.Atom? && Unsupported(conv[f.decl.declared.name], f.value.leaf)
  }

  /** The fields of an object with every value processFields may write blanked out. */
  function MaskFields(conv: map<string, Converter>, fs: seq<Field>): (r: seq<Field>)
    ensures |r| == |fs|
    ensures forall j :: 0 <= j < |fs| ==> r[j].decl == fs[j].decl
    ensures forall j :: 0 <= j < |fs| && !TimeConvertible(conv, fs[j].decl) ==> r[j] == fs[j]
  {
    seq(|fs|, j requires 0 <= j < |fs| => if TimeConvertible(conv, fs[j].decl) then fs[j].(value := Null) else fs[j])
  }

  /** A node with what processFields may write blanked out; other kinds of node are kept whole. */
  function Masked(conv: map<string, Converter>, n: Node): (m: Node)
    ensures !n.ObjectNode? ==> m == n
    ensures n.ObjectNode? ==> m.ObjectNode? && m.klass == n.klass
  {
    if n.ObjectNode? then ObjectNode(n.klass, MaskFields(conv, n.fields)) else n
  }

  /** Every field holds null or a leaf: nothing in the object leads back into the heap. */
  predicate LeafFields(fs: seq<Field>)
  {
    forall j :: 0 <= j < |fs| ==> fs[j].value.Null? || fs[j].value.Atom?
  }

  /** From heap a to heap b, at most the @Time fields with a registered declared class changed. */
  ghost predicate OnlyTimeFields(conv: map<string, Converter>, a: map<Id, Node>, b: map<Id, Node>)
  {
    forall y :: y in a ==> y in b && Masked(conv, b[y]) == Masked(conv, a[y])
  }

  lemma OnlyTimeFieldsTrans(conv: map<string, Converter>, a: map<Id, Node>, b: map<Id, Node>, c: map<Id, Node>)
    requires OnlyTimeFields(conv, a, b) && OnlyTimeFields(conv, b, c)
    ensures OnlyTimeFields(conv, a, c)
  {
  }

  /**
   * What OnlyTimeFields keeps: every collection, map and array as it was,
   * every object with its class, its fields' declarations and the value of
   * each field that is not a registered @Time field.
   */
  lemma OnlyTimeFieldsKeeps(conv: map<string, Converter>, a: map<Id, Node>, b: map<Id, Node>, y: Id)
    requires OnlyTimeFields(conv, a, b) && y in a
    ensures y in b
    ensures !a[y].ObjectNode? ==> b[y] == a[y]
    ensures a[y].ObjectNode? ==> b[y].ObjectNode? && b[y].klass == a[y].klass && |b[y].fields| == |a[y].fields|
    ensures a[y].ObjectNode? ==> forall j :: 0 <= j < |a[y].fields| ==>
              b[y].fields[j].decl == a[y].fields[j].decl
              && (TimeConvertible(conv, a[y].fields[j].decl) || b[y].fields[j].value == a[y].fields[j].value)
  {
    if a[y].ObjectNode? {
      var fa, fb := MaskFields(conv, a[y].fields), MaskFields(conv, b[y].fields);
      assert b[y].ObjectNode? && fb == fa;
      forall j | 0 <= j < |a[y].fields|
        ensures b[y].fields[j].decl == a[y].fields[j].decl
        ensures TimeConvertible(conv, a[y].fields[j].decl) || b[y].fields[j].value == a[y].fields[j].value
      {
        assert fb[j] == fa[j];
      }
    }
  }

  /** Writing a registered @Time field leaves the masked node as it was. */
  lemma MaskedWrite(conv: map<string, Converter>, n: Node, i: nat, v: Value)
    requires n.ObjectNode? && i < |n.fields| && TimeConvertible(conv, n.fields[i].decl)
    ensures Masked(conv, ObjectNode(n.klass, n.fields[i := n.fields[i].(value := v)])) == Masked(conv, n)
  {
    var fs := n.fields[i := n.fields[i].(value := v)];
    assert MaskFields(conv, fs) == MaskFields(conv, n.fields);
  }

  /** A collection or map that holds a reference to itself. */
  ghost predicate ContainsItself(a: map<Id, Node>, x: Id)
  {
    x in a &&
    match a[x]
    case ListNode(_, items) => Ref(x) in items
    case QueueNode(_, items) => Ref(x) in items
    case SetNode(_, elems) => Ref(x) in elems
    case MapNode(_, entries) => Ref(x) in entries.Values
    case _ => false
  }

  lemma ContainsItselfKept(conv: map<string, Converter>, a: map<Id, Node>, b: map<Id, Node>, x: Id)
    requires OnlyTimeFields(conv, a, b) && ContainsItself(a, x)
    ensures ContainsItself(b, x)
  {
    OnlyTimeFieldsKeeps(conv, a, b, x);
  }

  lemma MergeUpdate(entries: map<Value, Value>, out: map<Value, Value>, k: Value, p: Value)
    ensures (entries + out)[k := p] == entries + out[k := p]
  {
  }

  lemma MergeAll(entries: map<Value, Value>, out: map<Value, Value>)
    requires out.Keys == entries.Keys
    ensures entries + out == out
  {
  }

  /** When no element changed, the new set is the old one. */
  lemma UnchangedImage(w: map<Value, Value>)
    requires forall e :: e in w ==> w[e] == e
    ensures w.Values == w.Keys
  {
    forall y | y in w.Values ensures y in w.Keys {
      var k :| k in w && w[k] == y;
    }
    forall y | y in w.Keys ensures y in w.Values {
      assert w[y] == y;
    }
  }

  /** A field processObject may set: readable, writable and not null. */
  predicate Settable(f: Field)
  {
    f.decl.readable && f.decl.writable && !f.value.Null?
  }

  /** Node n became m keeping its shape and the value of every field processObject may not set. */
  ghost predicate ParamKept(n: Node, m: Node)
  {
    SameShape(n, m)
    && (n.ObjectNode? ==>
          m.ObjectNode? && |m.fields| == |n.fields|
          && forall j :: 0 <= j < |n.fields| && !Settable(n.fields[j]) ==> m.fields[j].value == n.fields[j].value)
  }

  /**
   * The invariant of processParameter: every node of heap a is still in
   * heap b, with the same shape (lists and arrays of the same length, maps
   * with the same keys, objects with the same fields, other collections and
   * primitive arrays untouched), and only fields it may set have new values.
   */
  ghost predicate ParamShapeKept(a: map<Id, Node>, b: map<Id, Node>)
  {
    forall y :: y in a ==> y in b && ParamKept(a[y], b[y])
  }

  lemma ParamKeptTrans(n1: Node, n2: Node, n3: Node)
    requires ParamKept(n1, n2) && ParamKept(n2, n3)
    ensures ParamKept(n1, n3)
  {
    if n1.ObjectNode? {
      forall j | 0 <= j < |n1.fields| && !Settable(n1.fields[j])
        ensures n3.fields[j].value == n1.fields[j].value
      {
        assert n2.fields[j] == n1.fields[j];
      }
    }
  }

  lemma ParamShapeKeptRefl(a: map<Id, Node>)
    ensures ParamShapeKept(a, a)
  {
  }

  lemma ParamShapeKeptTrans(a: map<Id, Node>, b: map<Id, Node>, c: map<Id, Node>)
    requires ParamShapeKept(a, b) && ParamShapeKept(b, c)
    ensures ParamShapeKept(a, c)
  {
    forall y | y in a ensures y in c && ParamKept(a[y], c[y]) {
      ParamKeptTrans(a[y], b[y], c[y]);
    }
  }

  /** Overwriting node x with a node that keeps its shape keeps the invariant. */
  lemma ParamShapeKeptWrite(a: map<Id, Node>, b: map<Id, Node>, x: Id, m: Node)
    requires ParamShapeKept(a, b) && x in b && ParamKept(b[x], m)
    ensures ParamShapeKept(a, b[x := m])
  {
    if x in a {
      ParamKeptTrans(a[x], b[x], m);
    }
  }

  /** Setting a field processObject may set keeps the node's shape. */
  lemma ParamKeptFieldWrite(n: Node, i: nat, v: Value)
    requires n.ObjectNode? && i < |n.fields| && Settable(n.fields[i])
    ensures ParamKept(n, ObjectNode(n.klass, n.fields[i := n.fields[i].(value := v)]))
  {
  }

  /** Putting a new value under a key a map already has keeps the node's shape. */
  lemma ParamKeptEntryWrite(n: Node, k: Value, v: Value)
    requires n.MapNode? && k in n.entries
    ensures ParamKept(n, MapNode(n.mapClass, n.entries[k := v]))
  {
    assert n.entries[k := v].Keys == n.entries.Keys;
  }

  /** Setting a slot of an object array keeps the node's shape. */
  lemma ParamKeptSlotWrite(n: Node, i: nat, v: Value)
    requires n.ArrayNode? && n.component.cat != Primitive && i < |n.slots|
    ensures ParamKept(n, ArrayNode(n.component, n.slots[i := v]))
  {
  }

  /** The thread-local processedObjects set (one thread). */
  class ProcessedObjects {
    var ids: set<Id>

    constructor ()
      ensures ids == {}
    {
      ids := {};
    }
  }

  class TimeZoneConverter {
    /** ZoneId.of(backendZoneId), which the walker evaluates at each conversion. */
    const backendZone: Zone
    const defaultDateTimeFormat: string
    const rt: Runtime
    var converters: map<string, Converter>
    const processedObjects: ProcessedObjects

    constructor (properties: Properties, rt: Runtime)
      requires ZoneOf(properties.backendZoneId).Some?
      ensures backendZone == ZoneOf(properties.backendZoneId).value
      ensures defaultDateTimeFormat == properties.defaultDateTimeFormat && this.rt == rt
      ensures converters == LegacyDefaults
      ensures fresh(processedObjects) && processedObjects.ids == {}
    {
      backendZone := ZoneOf(properties.backendZoneId).value;
      defaultDateTimeFormat := properties.defaultDateTimeFormat;
      this.rt := rt;
      processedObjects := new ProcessedObjects();
      converters := LegacyDefaults;
    }

    /** registerConverter: put, replacing whatever was registered for that class. */
    method RegisterConverter(typeName: string, c: Converter)
      modifies this
      ensures converters == old(converters)[typeName := c]
    {
      converters := converters[typeName := c];
    }

    /** The zones of a conversion: client to backend, or backend to client. */
    function Direction(clientZone: Zone, toBackend: bool): (zones: (Zone, Zone))
      ensures toBackend ==> zones == (clientZone, backendZone)
      ensures !toBackend ==> zones == (backendZone, clientZone)
    {
      if toBackend then (clientZone, backendZone) else (backendZone, clientZone)
    }

    /**
     * processBasicType: the converter registered for the leaf's own class,
     * between the client and the backend zone in the given direction, with
     * the configured default pattern; an unregistered leaf comes back as is.
     */
    function ProcessBasicType(conv: map<string, Converter>, l: Leaf, clientZone: Zone, toBackend: bool): (r: Leaf)
      ensures ClassOf(l).name !in conv ==> r == l
    {
      var key := ClassOf(l).name;
      if ObjectProcessor.IsSimpleType(conv, ClassOf(l)) && key in conv && !Unsupported(conv[key], l)
      then Apply(rt, conv[key], l, Direction(clientZone, toBackend).0, Direction(clientZone, toBackend).1, defaultDateTimeFormat)
      else l
    }

    /**
     * With the four built-in converters, a LocalDateTime, a ZonedDateTime
     * and a java.util.Date taken to the backend zone and back to the client
     * zone are where they started, as far as the instant and the wall clock
     * go: the wall clock comes back, the zoned value comes back to the
     * client zone at the same instant, the Date keeps its instant.
     */
    lemma BasicTypeRoundTrip(l: Leaf, clientZone: Zone)
      ensures l.LocalDT? ==>
        ProcessBasicType(LegacyDefaults, ProcessBasicType(LegacyDefaults, l, clientZone, true), clientZone, false) == l
      ensures l.ZonedDT? ==>
        ProcessBasicType(LegacyDefaults, ProcessBasicType(LegacyDefaults, l, clientZone, true), clientZone, false)
        == ZonedDT(ZonedDateTime(l.zdt.epoch, clientZone))
      ensures l.LegacyDate? && l.date.cls == UtilDate ==>
        ProcessBasicType(LegacyDefaults, ProcessBasicType(LegacyDefaults, l, clientZone, true), clientZone, false) == l
      ensures l.Moment? ==> ProcessBasicType(LegacyDefaults, l, clientZone, true) == l
    {
      var back := ProcessBasicType(LegacyDefaults, l, clientZone, true);
      if l.LocalDT? {
        ApplyByClass(rt, LegacyDefaults, l, clientZone, backendZone, defaultDateTimeFormat);
        ApplyByClass(rt, LegacyDefaults, back, backendZone, clientZone, defaultDateTimeFormat);
      } else if l.ZonedDT? {
        ApplyByClass(rt, LegacyDefaults, l, clientZone, backendZone, defaultDateTimeFormat);
        ApplyByClass(rt, LegacyDefaults, back, backendZone, clientZone, defaultDateTimeFormat);
      } else if l.LegacyDate? && l.date.cls == UtilDate {
        ApplyByClass(rt, LegacyDefaults, l, clientZone, backendZone, defaultDateTimeFormat);
        ApplyByClass(rt, LegacyDefaults, back, backendZone, clientZone, defaultDateTimeFormat);
      }
    }

    /** What processFields writes into a registered @Time field holding leaf l: its converter with the annotation's pattern. */
    function FieldConversion(conv: map<string, Converter>, d: FieldDecl, l: Leaf, clientZone: Zone, toBackend: bool): Leaf
      requires TimeConvertible(conv, d) && !Unsupported(conv[d.declared.name], l)
    {
      Apply(rt, conv[d.declared.name], l, Direction(clientZone, toBackend).0, Direction(clientZone, toBackend).1, d.time.value)
    }

    /**
     * A field after processFields: a readable, writable registered @Time
     * field holding a leaf its converter accepts gets its conversion, any
     * other is kept.
     */
    function ConvertedLeafField(conv: map<string, Converter>, f: Field, clientZone: Zone, toBackend: bool): (g: Field)
      ensures g.decl == f.decl
      ensures !TimeConvertible(conv, f.decl) || f.value.Null? || ConversionUnsupported(conv, f) ==> g == f
      ensures g.value.Null? == f.value.Null? && g.value.Atom? == f.value.Atom?
    {
      if TimeConvertible(conv, f.decl) && f.value.Atom? && f.decl.readable && f.decl.writable && !ConversionUnsupported(conv, f)
      then f.(value := Atom(FieldConversion(conv, f.decl, f.value.leaf, clientZone, toBackend)))
      else f
    }

    /** Every field of an object after processFields. */
    function ConvertedLeafFields(conv: map<string, Converter>, fs: seq<Field>, clientZone: Zone, toBackend: bool): (r: seq<Field>)
      ensures |r| == |fs|
      ensures forall j :: 0 <= j < |fs| ==> r[j] == ConvertedLeafField(conv, fs[j], clientZone, toBackend)
    {
      seq(|fs|, j requires 0 <= j < |fs| => ConvertedLeafField(conv, fs[j], clientZone, toBackend))
    }

    /**
     * A field the doWithFields callback does not throw on: readable, and,
     * when it is a registered @Time leaf, accepted by its converter and
     * writable.
     */
    predicate FieldSettable(conv: map<string, Converter>, f: Field)
    {
      f.decl.readable && (TimeConvertible(conv, f.decl) && f.value.Atom? ==> !ConversionUnsupported(conv, f) && f.decl.writable)
    }

    /**
     * convertToClientTimeZone after convertToBackendTimeZone on an object
     * whose fields hold only nulls and leaves (ConvertTo's contract gives
     * heaps b and c) puts every @Time LocalDateTime field back as it was,
     * when the LocalDateTime converter is the built-in one.
     */
    lemma LocalDateTimeFieldsRoundTrip(conv: map<string, Converter>, a: map<Id, Node>, b: map<Id, Node>, c: map<Id, Node>,
                                       x: Id, clientZone: Zone)
      requires LocalDateTimeName in conv && conv[LocalDateTimeName] == LocalDateTimeConv
      requires x in a && a[x].ObjectNode? && LeafFields(a[x].fields)
      requires b == a[x := ObjectNode(a[x].klass, ConvertedLeafFields(conv, a[x].fields, clientZone, true))]
      requires c == b[x := ObjectNode(b[x].klass, ConvertedLeafFields(conv, b[x].fields, clientZone, false))]
      ensures c.Keys == a.Keys && c[x].ObjectNode? && |c[x].fields| == |a[x].fields|
      ensures forall j :: 0 <= j < |a[x].fields| && a[x].fields[j].decl.declared.name == LocalDateTimeName
                          && a[x].fields[j].value.Atom? && a[x].fields[j].value.leaf.LocalDT? ==>
                c[x].fields[j] == a[x].fields[j]
    {
      forall j | 0 <= j < |a[x].fields| && a[x].fields[j].decl.declared.name == LocalDateTimeName
                 && a[x].fields[j].value.Atom? && a[x].fields[j].value.leaf.LocalDT?
        ensures c[x].fields[j] == a[x].fields[j]
      {
        var f := a[x].fields[j];
        var g := b[x].fields[j];
        assert g == ConvertedLeafField(conv, f, clientZone, true);
        if TimeConvertible(conv, f.decl) && f.decl.readable && f.decl.writable {
          var t := f.value.leaf.ldt;
          var (p, q) := Direction(clientZone, true);
          assert g.value == Atom(LocalDT(LocalDateTimeConverter.Convert(Some(t), p, q, f.decl.time.value).value));
          LocalDateTimeConverter.RoundTrip(Some(t), p, q, f.decl.time.value, f.decl.time.value);
        }
      }
    }

    /** No field makes processFields throw IllegalStateException. */
    predicate FieldsSettable(conv: map<string, Converter>, fs: seq<Field>)
    {
      forall j :: 0 <= j < |fs| ==> FieldSettable(conv, fs[j])
    }

    /** v refers to an object convertTo* descends into, whose fields hold only nulls and leaves. */
    predicate LeafObject(a: map<Id, Node>, v: Value)
      reads this
    {
      v.Ref? && v.id in a && a[v.id].ObjectNode? && !ObjectProcessor.IsSimpleType(converters, a[v.id].klass) && LeafFields(a[v.id].fields)
    }

    /**
     * What convertTo* returns when it returns: null for null and for every
     * collection and map (whatever happened inside them), the converted leaf
     * for a leaf, and the object itself for anything else.
     */
    function ConvertedValue(conv: map<string, Converter>, outlines: map<Id, Outline>, clientZone: Zone, toBackend: bool, v: Value): (r: Value)
      ensures IsCollection(outlines, v) || IsMap(outlines, v) ==> r == Null
      ensures v.Ref? && !IsCollection(outlines, v) && !IsMap(outlines, v) ==> r == v
    {
      match v
      case Null => Null
      case Atom(l) => Atom(ProcessBasicType(conv, l, clientZone, toBackend))
      case Built(_, _, _) => Null
      case Ref(_) => if IsCollection(outlines, v) || IsMap(outlines, v) then Null else v
    }

    /**
     * convertToBackendTimeZone (toBackend) and convertToClientTimeZone.
     * Only registered @Time fields are ever written; a collection or a map
     * that holds itself sends the walk round for ever, until the stack
     * overflows (or a field access error ends it first).
     */
    method ConvertTo(v: Value, clientZone: Zone, toBackend: bool, h: Heap, depth: nat) returns (r: Run)
      requires h.Valid()
      modifies h
      decreases depth, 3
      ensures h.Valid() && OnlyTimeFields(converters, old(h.nodes), h.nodes)
      ensures r.Done? ==> r.value == ConvertedValue(converters, h.outlines, clientZone, toBackend, v)
      ensures depth == 0 ==> r == Threw(StackOverflowError) && h.nodes == old(h.nodes)
      ensures 0 < depth && (v.Null? || v.Atom?) ==> r.Done? && h.nodes == old(h.nodes)
      ensures v.Ref? && ContainsItself(old(h.nodes), v.id) ==> r.Threw?
      ensures LeafObject(old(h.nodes), v) && !FieldsSettable(converters, old(h.nodes)[v.id].fields) ==> r.Threw?
      ensures LeafObject(old(h.nodes), v) && FieldsSettable(converters, old(h.nodes)[v.id].fields) && 1 < depth ==> r.Done?
      ensures LeafObject(old(h.nodes), v) && r.Done? ==>
        h.nodes == old(h.nodes)[v.id := ObjectNode(old(h.nodes)[v.id].klass,
                                                   ConvertedLeafFields(converters, old(h.nodes)[v.id].fields, clientZone, toBackend))]
    {
      if depth == 0 {
        return Threw(StackOverflowError);
      }
      var failure: Option<Throwable> := None;
      match v {
        case Null =>
          return Done(Null);
        case Atom(l) =>
          return Done(Atom(ProcessBasicType(converters, l, clientZone, toBackend)));
        case Built(_, _, items) =>
          failure := ConvertItems(items, clientZone, toBackend, h, depth);
        case Ref(x) =>
          if x !in h.nodes {
            return Done(v);
          }
          match h.nodes[x] {
            case ListNode(_, items) =>
              failure := ConvertItems(items, clientZone, toBackend, h, depth);
            case QueueNode(_, items) =>
              failure := ConvertItems(items, clientZone, toBackend, h, depth);
            case SetNode(_, elems) =>
              failure := ConvertElements(elems, clientZone, toBackend, h, depth);
            case MapNode(_, entries) =>
              failure := ConvertMapValues(entries, clientZone, toBackend, h, depth);
            case ArrayNode(_, _) =>
              // processFields on an array: reflection finds no fields
              return Done(v);
            case ObjectNode(klass, _) =>
              if ObjectProcessor.IsSimpleType(converters, klass) {
                return Done(v);
              }
              failure := ConvertFields(x, clientZone, toBackend, h, depth);
              return if failure.Some? then Threw(failure.value) else Done(v);
          }
      }
      r := if failure.Some? then Threw(failure.value) else Done(Null);
    }

    /** forEach over a list, another collection or a built collection: convertTo* on each item, results dropped. */
    method ConvertItems(items: seq<Value>, clientZone: Zone, toBackend: bool, h: Heap, depth: nat) returns (failure: Option<Throwable>)
      requires h.Valid() && 0 < depth
      modifies h
      decreases depth, 0
      ensures h.Valid() && OnlyTimeFields(converters, old(h.nodes), h.nodes)
      ensures (exists j :: 0 <= j < |items| && items[j].Ref? && ContainsItself(old(h.nodes), items[j].id)) ==> failure.Some?
    {
      for i := 0 to |items|
        invariant h.Valid() && OnlyTimeFields(converters, old(h.nodes), h.nodes)
        invariant forall j :: 0 <= j < i && items[j].Ref? ==> !ContainsItself(old(h.nodes), items[j].id)
      {
        ghost var prev := h.nodes;
        if items[i].Ref? && ContainsItself(old(h.nodes), items[i].id) {
          ContainsItselfKept(converters, old(h.nodes), prev, items[i].id);
        }
        var r := ConvertTo(items[i], clientZone, toBackend, h, depth - 1);
        OnlyTimeFieldsTrans(converters, old(h.nodes), prev, h.nodes);
        if r.Threw? {
          return Some(r.error);
        }
      }
      return None;
    }

    /** forEach over a set. */
    method ConvertElements(elems: set<Value>, clientZone: Zone, toBackend: bool, h: Heap, depth: nat) returns (failure: Option<Throwable>)
      requires h.Valid() && 0 < depth
      modifies h
      decreases depth, 0
      ensures h.Valid() && OnlyTimeFields(converters, old(h.nodes), h.nodes)
      ensures (exists e :: e in elems && e.Ref? && ContainsItself(old(h.nodes), e.id)) ==> failure.Some?
    {
      var remaining := elems;
      ghost var visited: set<Value> := {};
      while remaining != {}
        invariant h.Valid() && OnlyTimeFields(converters, old(h.nodes), h.nodes)
        invariant remaining + visited == elems && remaining !! visited
        invariant forall e :: e in visited && e.Ref? ==> !ContainsItself(old(h.nodes), e.id)
        decreases |remaining|
      {
        var e :| e in remaining;
        ghost var prev := h.nodes;
        if e.Ref? && ContainsItself(old(h.nodes), e.id) {
          ContainsItselfKept(converters, old(h.nodes), prev, e.id);
        }
        var r := ConvertTo(e, clientZone, toBackend, h, depth - 1);
        OnlyTimeFieldsTrans(converters, old(h.nodes), prev, h.nodes);
        if r.Threw? {
          return Some(r.error);
        }
        ObjectProcessor.MoveOne(remaining, visited, e);
        visited := visited + {e};
        remaining := remaining - {e};
      }
      return None;
    }

    /** values().forEach over a map. */
    method ConvertMapValues(entries: map<Value, Value>, clientZone: Zone, toBackend: bool, h: Heap, depth: nat) returns (failure: Option<Throwable>)
      requires h.Valid() && 0 < depth
      modifies h
      decreases depth, 0
      ensures h.Valid() && OnlyTimeFields(converters, old(h.nodes), h.nodes)
      ensures (exists k :: k in entries && entries[k].Ref? && ContainsItself(old(h.nodes), entries[k].id)) ==> failure.Some?
    {
      var visited: set<Value> := {};
      while visited != entries.Keys
        invariant h.Valid() && OnlyTimeFields(converters, old(h.nodes), h.nodes)
        invariant visited <= entries.Keys
        invariant forall k :: k in visited && entries[k].Ref? ==> !ContainsItself(old(h.nodes), entries[k].id)
        decreases |entries.Keys - visited|
      {
        var k :| k in entries && k !in visited;
        ghost var prev := h.nodes;
        if entries[k].Ref? && ContainsItself(old(h.nodes), entries[k].id) {
          ContainsItselfKept(converters, old(h.nodes), prev, entries[k].id);
        }
        var r := ConvertTo(entries[k], clientZone, toBackend, h, depth - 1);
        OnlyTimeFieldsTrans(converters, old(h.nodes), prev, h.nodes);
        if r.Threw? {
          return Some(r.error);
        }
        ObjectProcessor.CardinalityDrops(entries.Keys, visited, k);
        visited := visited + {k};
      }
      return None;
    }

    /**
     * Heap b is heap a with only object x rewritten, keeping its class:
     * the first i of its original fields fs are settable and converted,
     * the rest still hold their original values.
     */
    ghost predicate FieldsDone(conv: map<string, Converter>, a: map<Id, Node>, b: map<Id, Node>, x: Id, klass: JClass, fs: seq<Field>,
                               i: nat, clientZone: Zone, toBackend: bool)
    {
      x in b && b[x].ObjectNode? && |b[x].fields| == |fs| && i <= |fs|
      && b == a[x := ObjectNode(klass, b[x].fields)]
      && (forall j :: 0 <= j < i ==> FieldSettable(conv, fs[j]) && b[x].fields[j] == ConvertedLeafField(conv, fs[j], clientZone, toBackend))
      && (forall j :: i <= j < |fs| ==> b[x].fields[j] == fs[j])
    }

    lemma FieldsDoneNext(conv: map<string, Converter>, a: map<Id, Node>, b: map<Id, Node>, c: map<Id, Node>, x: Id, klass: JClass,
                         fs: seq<Field>, i: nat, clientZone: Zone, toBackend: bool)
      requires FieldsDone(conv, a, b, x, klass, fs, i, clientZone, toBackend) && i < |fs|
      requires FieldSettable(conv, b[x].fields[i])
      requires c == b[x := ObjectNode(b[x].klass, b[x].fields[i := ConvertedLeafField(conv, b[x].fields[i], clientZone, toBackend)])]
      ensures FieldsDone(conv, a, c, x, klass, fs, i + 1, clientZone, toBackend)
    {
      assert c == a[x := ObjectNode(klass, c[x].fields)];
    }

    lemma FieldsDoneAll(conv: map<string, Converter>, a: map<Id, Node>, b: map<Id, Node>, x: Id, klass: JClass,
                        fs: seq<Field>, clientZone: Zone, toBackend: bool)
      requires FieldsDone(conv, a, b, x, klass, fs, |fs|, clientZone, toBackend)
      ensures FieldsSettable(conv, fs)
      ensures b == a[x := ObjectNode(klass, ConvertedLeafFields(conv, fs, clientZone, toBackend))]
    {
      assert b[x].fields == ConvertedLeafFields(conv, fs, clientZone, toBackend);
    }

    /** processFields: ReflectionUtils.doWithFields over every field of the object's class chain. */
    method ConvertFields(x: Id, clientZone: Zone, toBackend: bool, h: Heap, depth: nat) returns (failure: Option<Throwable>)
      requires h.Valid() && x in h.nodes && h.nodes[x].ObjectNode? && 0 < depth
      modifies h
      decreases depth, 2
      ensures h.Valid() && OnlyTimeFields(converters, old(h.nodes), h.nodes)
      ensures LeafFields(old(h.nodes)[x].fields) && failure.None? ==>
        h.nodes == old(h.nodes)[x := ObjectNode(old(h.nodes)[x].klass,
                                                ConvertedLeafFields(converters, old(h.nodes)[x].fields, clientZone, toBackend))]
      ensures LeafFields(old(h.nodes)[x].fields) && FieldsSettable(converters, old(h.nodes)[x].fields) && 1 < depth ==> failure.None?
      ensures LeafFields(old(h.nodes)[x].fields) && !FieldsSettable(converters, old(h.nodes)[x].fields) ==> failure.Some?
    {
      var count := |h.nodes[x].fields|;
      ghost var fs := h.nodes[x].fields;
      ghost var klass := h.nodes[x].klass;
      ghost var leaves := LeafFields(fs);
      for i := 0 to count
        invariant h.Valid() && OnlyTimeFields(converters, old(h.nodes), h.nodes)
        invariant h.nodes[x].ObjectNode? && |h.nodes[x].fields| == count
        invariant leaves ==> FieldsDone(converters, old(h.nodes), h.nodes, x, klass, fs, i, clientZone, toBackend)
      {
        ghost var prev := h.nodes;
        failure := ConvertField(x, i, clientZone, toBackend, h, depth);
        OnlyTimeFieldsTrans(converters, old(h.nodes), prev, h.nodes);
        OnlyTimeFieldsKeeps(converters, old(h.nodes), h.nodes, x);
        if failure.Some? {
          return;
        }
        if leaves {
          FieldsDoneNext(converters, old(h.nodes), prev, h.nodes, x, klass, fs, i, clientZone, toBackend);
        }
      }
      if leaves {
        FieldsDoneAll(converters, old(h.nodes), h.nodes, x, klass, fs, clientZone, toBackend);
      }
      failure := None;
    }

    /**
     * The doWithFields callback on field i: an unreadable field throws; a
     * null field or one without @Time is skipped; a nested object has its
     * own fields processed (the result is dropped); a collection or map has
     * its items converted; a field whose declared class has a converter gets
     * the converted value, with the annotation's pattern, or throws when the
     * converter rejects the value or the field cannot be set.
     */
    method ConvertField(x: Id, i: nat, clientZone: Zone, toBackend: bool, h: Heap, depth: nat) returns (failure: Option<Throwable>)
      requires h.Valid() && x in h.nodes && h.nodes[x].ObjectNode? && i < |h.nodes[x].fields| && 0 < depth
      modifies h
      decreases depth, 1
      ensures h.Valid() && OnlyTimeFields(converters, old(h.nodes), h.nodes)
      ensures var f := old(h.nodes)[x].fields[i];
        && (!f.decl.readable ==> failure == Some(IllegalStateException) && h.nodes == old(h.nodes))
        && (f.decl.readable && (f.value.Null? || f.decl.time.None?) ==> failure.None? && h.nodes == old(h.nodes))
        && (f.decl.readable && ConversionUnsupported(converters, f) ==>
              failure == Some(UnsupportedOperationException) && h.nodes == old(h.nodes))
        && (f.decl.readable && TimeConvertible(converters, f.decl) && f.value.Atom? && !ConversionUnsupported(converters, f)
            && !f.decl.writable ==>
              failure == Some(IllegalStateException) && h.nodes == old(h.nodes))
        && (f.decl.readable && TimeConvertible(converters, f.decl) && f.value.Atom? && !ConversionUnsupported(converters, f)
            && f.decl.writable ==>
              failure.None?
              && h.nodes == old(h.nodes)[x := ObjectNode(old(h.nodes)[x].klass, old(h.nodes)[x].fields[i :=
                   f.(value := Atom(FieldConversion(converters, f.decl, f.value.leaf, clientZone, toBackend)))])])
        && (f.decl.readable && f.value.Atom? && !TimeConvertible(converters, f.decl) ==>
              h.nodes == old(h.nodes) && (1 < depth ==> failure.None?))
      ensures var f := old(h.nodes)[x].fields[i];
        (f.value.Null? || f.value.Atom?) ==>
          (failure.None? ==> FieldSettable(converters, f)
                             && h.nodes == old(h.nodes)[x := ObjectNode(old(h.nodes)[x].klass,
                                  old(h.nodes)[x].fields[i := ConvertedLeafField(converters, f, clientZone, toBackend)])])
          && (FieldSettable(converters, f) && 1 < depth ==> failure.None?)
    {
      var n := h.nodes[x];
      var f := n.fields[i];
      assert n.fields[i := f] == n.fields;
      assert h.nodes[x := n] == h.nodes;
      if !f.decl.readable {
        return Some(IllegalStateException);
      }
      var value := f.value;
      if value.Null? || f.decl.time.None? {
        return None;
      }
      if !ObjectProcessor.IsSimpleType(converters, f.decl.declared) && !IsCollection(h.outlines, value) && !IsMap(h.outlines, value) {
        var r := ConvertTo(value, clientZone, toBackend, h, depth - 1);
        return if r.Threw? then Some(r.error) else None;
      }
      if IsCollection(h.outlines, value) {
        if value.Built? {
          failure := None;
          if value.items != [] { failure := ConvertItems(value.items, clientZone, toBackend, h, depth); }
        } else {
          match h.nodes[value.id] {
            case ListNode(_, items) =>
              failure := None;
              if items != [] { failure := ConvertItems(items, clientZone, toBackend, h, depth); }
            case QueueNode(_, items) =>
              failure := None;
              if items != [] { failure := ConvertItems(items, clientZone, toBackend, h, depth); }
            case SetNode(_, elems) =>
              failure := None;
              if elems != {} { failure := ConvertElements(elems, clientZone, toBackend, h, depth); }
          }
        }
        return;
      }
      if IsMap(h.outlines, value) {
        var entries := h.nodes[value.id].entries;
        failure := None;
        if entries != map[] { failure := ConvertMapValues(entries, clientZone, toBackend, h, depth); }
        return;
      }
      if f.decl.declared.name in converters && value.Atom? {
        if Unsupported(converters[f.decl.declared.name], value.leaf) {
          return Some(UnsupportedOperationException);
        }
        var converted := FieldConversion(converters, f.decl, value.leaf, clientZone, toBackend);
        if !f.decl.writable {
          return Some(IllegalStateException);
        }
        MaskedWrite(converters, n, i, Atom(converted));
        h.nodes := h.nodes[x := ObjectNode(n.klass, n.fields[i := f.(value := Atom(converted))])];
      }
      return None;
    }

    // ---- processParameter and its handlers ----

    /** What processParameter makes of a leaf: with forceProcess a time value or a String goes through convertToBackendTimeZone, anything else comes back as is. */
    function LeafParam(conv: map<string, Converter>, l: Leaf, zone: Zone, force: bool): (r: Leaf)
      ensures !force ==> r == l
      ensures ClassOf(l).name !in conv ==> r == l
      ensures !ObjectProcessor.IsTimeType(ClassOf(l)) && ClassOf(l).name != StringName ==> r == l
    {
      if force && (ObjectProcessor.IsTimeType(ClassOf(l)) || ClassOf(l).name == StringName)
      then ProcessBasicType(conv, l, zone, true)
      else l
    }

    /**
     * What processParameter(v) returns: null stays null, a leaf becomes
     * LeafParam of it, a reference stays the same reference unless it leads
     * to a collection that is neither a list nor a set (that one may be
     * rebuilt), and a non-empty collection the walker built comes back with
     * its processed items (a list keeps its class; any other keeps itself or
     * is a similar new one).
     */
    ghost predicate ParamStep(conv: map<string, Converter>, zone: Zone, outlines: map<Id, Outline>, force: bool, v: Value, r: Value)
      decreases v
    {
      match v
      case Null => r == Null
      case Atom(l) => r == Atom(LeafParam(conv, l, zone, force))
      case Ref(y) => r == v || (y in outlines && outlines[y].kind == QueueKind && r.Built?)
      case Built(c, isList, items) =>
        if items == [] then r == v
        else r.Built? && |r.items| == |items|
             && (if isList then (r.cls, r.list) == (c, true) else r == v || (r.cls, r.list) == CreateSimilarCollection(c, false))
             && forall i :: 0 <= i < |items| ==> ParamStep(conv, zone, outlines, false, items[i], r.items[i])
    }

    /** Items of a collection, array or map are processed without forceProcess. */
    ghost predicate ItemsStep(conv: map<string, Converter>, zone: Zone, outlines: map<Id, Outline>, items: seq<Value>, out: seq<Value>)
    {
      |out| == |items| && forall i :: 0 <= i < |items| ==> ParamStep(conv, zone, outlines, false, items[i], out[i])
    }

    lemma ItemsStepSnoc(conv: map<string, Converter>, zone: Zone, outlines: map<Id, Outline>, items: seq<Value>, out: seq<Value>, i: nat, p: Value)
      requires i < |items| && ItemsStep(conv, zone, outlines, items[..i], out) && ParamStep(conv, zone, outlines, false, items[i], p)
      ensures ItemsStep(conv, zone, outlines, items[..i + 1], out + [p])
    {
    }

    /** Slots before i hold the processed form of the original item, the others still the original. */
    ghost predicate ItemsPrefix(conv: map<string, Converter>, zone: Zone, outlines: map<Id, Outline>, items: seq<Value>, cur: seq<Value>, i: nat)
    {
      i <= |items| == |cur|
      && (forall j :: 0 <= j < i ==> ParamStep(conv, zone, outlines, false, items[j], cur[j]))
      && (forall j :: i <= j < |items| ==> cur[j] == items[j])
    }

    lemma ItemsPrefixNext(conv: map<string, Converter>, zone: Zone, outlines: map<Id, Outline>, items: seq<Value>, cur: seq<Value>, i: nat, p: Value)
      requires ItemsPrefix(conv, zone, outlines, items, cur, i) && i < |items| && ParamStep(conv, zone, outlines, false, items[i], p)
      ensures ItemsPrefix(conv, zone, outlines, items, cur[i := p], i + 1)
    {
    }

    /** The new set holds exactly the values w chose as the processed form of each old element. */
    ghost predicate ElementsImage(conv: map<string, Converter>, zone: Zone, outlines: map<Id, Outline>, elems: set<Value>, out: set<Value>, w: map<Value, Value>)
    {
      w.Keys == elems && out == w.Values && forall e :: e in w ==> ParamStep(conv, zone, outlines, false, e, w[e])
    }

    lemma ElementsImageAdd(conv: map<string, Converter>, zone: Zone, outlines: map<Id, Outline>, w: map<Value, Value>, out: set<Value>, e: Value, p: Value)
      requires ElementsImage(conv, zone, outlines, w.Keys, out, w) && e !in w && ParamStep(conv, zone, outlines, false, e, p)
      ensures ElementsImage(conv, zone, outlines, w.Keys + {e}, out + {p}, w[e := p])
    {
      ObjectProcessor.ValuesAdd(w, e, p);
    }

    /** A field processObject has handled: processed with forceProcess = its @Time annotation, kept when unreadable, null or unwritable. */
    ghost predicate FieldParam(conv: map<string, Converter>, zone: Zone, outlines: map<Id, Outline>, f: Field, g: Field)
    {
      g.decl == f.decl
      && if Settable(f)
         then ParamStep(conv, zone, outlines, f.decl.time.Some?, f.value, g.value)
         else g.value == f.value
    }

    ghost predicate FieldsPrefix(conv: map<string, Converter>, zone: Zone, outlines: map<Id, Outline>, fields: seq<Field>, cur: seq<Field>, i: nat)
    {
      i <= |fields| == |cur|
      && (forall j :: 0 <= j < i ==> FieldParam(conv, zone, outlines, fields[j], cur[j]))
      && (forall j :: i <= j < |fields| ==> cur[j] == fields[j])
    }

    lemma FieldsPrefixNext(conv: map<string, Converter>, zone: Zone, outlines: map<Id, Outline>, fields: seq<Field>, cur: seq<Field>, i: nat, g: Field)
      requires FieldsPrefix(conv, zone, outlines, fields, cur, i) && i < |fields| && FieldParam(conv, zone, outlines, fields[i], g)
      ensures FieldsPrefix(conv, zone, outlines, fields, cur[i := g], i + 1)
    {
    }

    /** The map's values processed so far, bound to their keys. */
    ghost predicate EntriesParam(conv: map<string, Converter>, zone: Zone, outlines: map<Id, Outline>, entries: map<Value, Value>, out: map<Value, Value>)
    {
      out.Keys <= entries.Keys && forall k :: k in out ==> ParamStep(conv, zone, outlines, false, entries[k], out[k])
    }

    lemma EntriesParamAdd(conv: map<string, Converter>, zone: Zone, outlines: map<Id, Outline>, entries: map<Value, Value>,
                          out: map<Value, Value>, k: Value, v: Value)
      requires EntriesParam(conv, zone, outlines, entries, out) && k in entries
      requires ParamStep(conv, zone, outlines, false, entries[k], v)
      ensures EntriesParam(conv, zone, outlines, entries, out[k := v])
    {
    }

    /** processCollection on a List: the same list, slot by slot processed. */
    ghost predicate ListParam(conv: map<string, Converter>, zone: Zone, outlines: map<Id, Outline>, n: Node, m: Node)
      requires n.ListNode?
    {
      m.ListNode? && m.cls == n.cls && ItemsStep(conv, zone, outlines, n.items, m.items)
    }

    /** processCollection on a Set: the same set, now holding the processed elements. */
    ghost predicate SetParam(conv: map<string, Converter>, zone: Zone, outlines: map<Id, Outline>, n: Node, m: Node)
      requires n.SetNode?
    {
      m.SetNode? && m.cls == n.cls && exists w :: ElementsImage(conv, zone, outlines, n.elems, m.elems, w)
    }

    /** processCollection on another collection: itself when nothing changed, else a similar new one with the processed items. */
    ghost predicate OtherParam(conv: map<string, Converter>, zone: Zone, outlines: map<Id, Outline>, n: Node, x: Id, r: Value)
      requires n.QueueNode?
    {
      exists out :: ItemsStep(conv, zone, outlines, n.items, out)
        && r == if out == n.items then Ref(x) else Built(CreateSimilarCollection(n.cls, false).0, CreateSimilarCollection(n.cls, false).1, out)
    }

    /** processMap: the same map and keys, every value processed. */
    ghost predicate MapParam(conv: map<string, Converter>, zone: Zone, outlines: map<Id, Outline>, n: Node, m: Node)
      requires n.MapNode?
    {
      m.MapNode? && m.mapClass == n.mapClass && m.entries.Keys == n.entries.Keys
      && forall k :: k in n.entries ==> ParamStep(conv, zone, outlines, false, n.entries[k], m.entries[k])
    }

    /** processObject: the same object, each field handled. */
    ghost predicate ObjectParam(conv: map<string, Converter>, zone: Zone, outlines: map<Id, Outline>, n: Node, m: Node)
      requires n.ObjectNode?
    {
      m.ObjectNode? && m.klass == n.klass && |m.fields| == |n.fields|
      && forall j :: 0 <= j < |n.fields| ==> FieldParam(conv, zone, outlines, n.fields[j], m.fields[j])
    }

    /** How processParameter changes a guarded node or an array x that was not on the current path (from a to b), and what it returns. */
    ghost predicate NodeParam(conv: map<string, Converter>, zone: Zone, outlines: map<Id, Outline>, a: map<Id, Node>, b: map<Id, Node>, x: Id, r: Value)
      requires x in a && x in b
    {
      match a[x]
      case ListNode(_, _) => r == Ref(x) && ListParam(conv, zone, outlines, a[x], b[x])
      case SetNode(_, _) => r == Ref(x) && SetParam(conv, zone, outlines, a[x], b[x])
      case QueueNode(_, _) => b[x] == a[x] && OtherParam(conv, zone, outlines, a[x], x, r)
      case MapNode(_, _) => r == Ref(x) && MapParam(conv, zone, outlines, a[x], b[x])
      case ArrayNode(c, _) => r == Ref(x) && (c.cat == Primitive ==> b[x] == a[x])
      case ObjectNode(_, _) => r == Ref(x) && ObjectParam(conv, zone, outlines, a[x], b[x])
    }

    /** The kinds processParameter guards with the processed set: non-empty collections and maps, and application objects. */
    predicate Guarded(n: Node)
    {
      match n
      case ListNode(_, items) => items != []
      case SetNode(_, elems) => elems != {}
      case QueueNode(_, items) => items != []
      case MapNode(_, entries) => entries != map[]
      case ArrayNode(_, _) => false
      case ObjectNode(klass, _) => IsCustomObject(klass)
    }

    /** The processed set only ever holds guarded nodes: no array is ever in it. */
    ghost predicate NoArrayOnPath(outlines: map<Id, Outline>, ids: set<Id>)
    {
      forall y :: y in ids && y in outlines ==> outlines[y].kind != ArrayKind
    }

    /** An object array whose first slot that is not null or a leaf is the array itself. */
    ghost predicate ReachesItselfFirst(a: map<Id, Node>, x: Id)
    {
      x in a && a[x].ArrayNode? && a[x].component.cat != Primitive
      && exists k :: 0 <= k < |a[x].slots| && a[x].slots[k] == Ref(x)
                     && forall j :: 0 <= j < k ==> a[x].slots[j].Null? || a[x].slots[j].Atom?
    }

    /**
     * processParameter. Collections, maps and application objects on the
     * current path are returned as they are; arrays are not guarded, so an
     * object array that reaches itself is entered again and again until the
     * stack overflows. Nothing else is thrown.
     */
    method ProcessParameter(v: Value, zone: Zone, force: bool, h: Heap, depth: nat) returns (r: Run)
      requires h.Valid() && NoArrayOnPath(h.outlines, processedObjects.ids)
      modifies h, processedObjects
      decreases depth, 4
      ensures h.Valid() && processedObjects.ids == old(processedObjects.ids)
      ensures Untouched(old(h.nodes), h.nodes, old(processedObjects.ids))
      ensures ParamShapeKept(old(h.nodes), h.nodes)
      ensures r.Threw? ==> r.error == StackOverflowError
      ensures r.Done? ==> ParamStep(converters, zone, h.outlines, force, v, r.value)
      ensures !v.Ref? && !v.Built? ==> h.nodes == old(h.nodes)
      ensures var a := old(h.nodes);
        0 < depth && v.Ref? && (v.id !in a || (!Guarded(a[v.id]) && !a[v.id].ArrayNode?) || v.id in old(processedObjects.ids)) ==>
          r == Done(v) && h.nodes == a
      ensures r.Done? && v.Ref? && v.id in old(h.nodes) && v.id !in old(processedObjects.ids)
              && (Guarded(old(h.nodes)[v.id]) || old(h.nodes)[v.id].ArrayNode?) ==>
        NodeParam(converters, zone, h.outlines, old(h.nodes), h.nodes, v.id, r.value)
      ensures v.Ref? && ReachesItselfFirst(old(h.nodes), v.id) ==> r.Threw?
    {
      if depth == 0 {
        return Threw(StackOverflowError);
      }
      match v {
        case Null =>
          return Done(Null);
        case Atom(l) =>
          if force && (ObjectProcessor.IsTimeType(ClassOf(l)) || ClassOf(l).name == StringName) {
            r := ConvertTo(v, zone, true, h, depth - 1);
          } else {
            r := Done(v);
          }
        case Built(c, isList, items) =>
          if items == [] {
            return Done(v);
          }
          var out, thrown := ProcessItems(items, zone, h, depth);
          if thrown {
            return Threw(StackOverflowError);
          }
          if isList {
            r := Done(Built(c, true, out));
          } else if out == items {
            r := Done(v);
          } else {
            var similar := CreateSimilarCollection(c, false);
            r := Done(Built(similar.0, similar.1, out));
          }
        case Ref(x) =>
          if x !in h.nodes {
            return Done(v);
          }
          if h.nodes[x].ArrayNode? {
            r := ProcessArray(x, zone, h, depth);
          } else if !Guarded(h.nodes[x]) || x in processedObjects.ids {
            r := Done(v);
          } else {
            r := ProcessMarked(x, zone, h, depth);
          }
      }
    }

    /** The part of processCollection, processMap and processObject that runs with x in the processed set. */
    method ProcessMarked(x: Id, zone: Zone, h: Heap, depth: nat) returns (r: Run)
      requires h.Valid() && NoArrayOnPath(h.outlines, processedObjects.ids) && 0 < depth
      requires x in h.nodes && Guarded(h.nodes[x]) && x !in processedObjects.ids
      modifies h, processedObjects
      decreases depth, 3
      ensures h.Valid() && processedObjects.ids == old(processedObjects.ids)
      ensures Untouched(old(h.nodes), h.nodes, old(processedObjects.ids))
      ensures ParamShapeKept(old(h.nodes), h.nodes)
      ensures r.Threw? ==> r.error == StackOverflowError
      ensures r.Done? ==> NodeParam(converters, zone, h.outlines, old(h.nodes), h.nodes, x, r.value)
    {
      processedObjects.ids := processedObjects.ids + {x};
      assert processedObjects.ids - {x} == old(processedObjects.ids);
      match h.nodes[x] {
        case ListNode(_, _) =>
          r := ProcessList(x, zone, h, depth);
        case SetNode(_, _) =>
          r := ProcessSet(x, zone, h, depth);
        case QueueNode(_, _) =>
          r := ProcessOther(x, zone, h, depth);
        case MapNode(_, _) =>
          r := ProcessMap(x, zone, h, depth);
        case ObjectNode(_, _) =>
          r := ProcessObject(x, zone, h, depth);
      }
      processedObjects.ids := processedObjects.ids - {x};
    }

    /** processCollection on a List: slot i is replaced when processParameter(slot i) differs from it. */
    method ProcessList(x: Id, zone: Zone, h: Heap, depth: nat) returns (r: Run)
      requires h.Valid() && NoArrayOnPath(h.outlines, processedObjects.ids) && 0 < depth
      requires x in h.nodes && h.nodes[x].ListNode? && x in processedObjects.ids
      modifies h, processedObjects
      decreases depth, 2
      ensures h.Valid() && processedObjects.ids == old(processedObjects.ids)
      ensures Untouched(old(h.nodes), h.nodes, old(processedObjects.ids) - {x})
      ensures ParamShapeKept(old(h.nodes), h.nodes)
      ensures r.Threw? ==> r.error == StackOverflowError
      ensures r.Done? ==> r.value == Ref(x) && ListParam(converters, zone, h.outlines, old(h.nodes)[x], h.nodes[x])
    {
      var c := h.nodes[x].cls;
      var items := h.nodes[x].items;
      for i := 0 to |items|
        invariant h.Valid() && processedObjects.ids == old(processedObjects.ids)
        invariant Untouched(old(h.nodes), h.nodes, old(processedObjects.ids) - {x})
        invariant ParamShapeKept(old(h.nodes), h.nodes)
        invariant h.nodes[x].ListNode? && h.nodes[x].cls == c && ItemsPrefix(converters, zone, h.outlines, items, h.nodes[x].items, i)
      {
        ghost var prev := h.nodes;
        var p := ProcessListSlot(x, i, zone, h, depth);
        ObjectProcessor.UntouchedTrans(old(h.nodes), prev, h.nodes, old(processedObjects.ids) - {x});
        ParamShapeKeptTrans(old(h.nodes), prev, h.nodes);
        if p.Threw? {
          return p;
        }
        ItemsPrefixNext(converters, zone, h.outlines, items, prev[x].items, i, p.value);
      }
      r := Done(Ref(x));
    }

    /** One turn of the list loop. */
    method ProcessListSlot(x: Id, i: nat, zone: Zone, h: Heap, depth: nat) returns (p: Run)
      requires h.Valid() && NoArrayOnPath(h.outlines, processedObjects.ids) && 0 < depth
      requires x in h.nodes && h.nodes[x].ListNode? && i < |h.nodes[x].items| && x in processedObjects.ids
      modifies h, processedObjects
      decreases depth, 1
      ensures h.Valid() && processedObjects.ids == old(processedObjects.ids)
      ensures Untouched(old(h.nodes), h.nodes, old(processedObjects.ids) - {x})
      ensures ParamShapeKept(old(h.nodes), h.nodes)
      ensures p.Threw? ==> p.error == StackOverflowError
      ensures p.Done? ==> ParamStep(converters, zone, h.outlines, false, old(h.nodes)[x].items[i], p.value)
                          && h.nodes[x] == ListNode(old(h.nodes)[x].cls, old(h.nodes)[x].items[i := p.value])
    {
      var n := h.nodes[x];
      p := ProcessParameter(n.items[i], zone, false, h, depth - 1);
      if p.Done? {
        if p.value != n.items[i] {
          h.nodes := h.nodes[x := ListNode(n.cls, n.items[i := p.value])];
        } else {
          assert n.items[i := p.value] == n.items;
        }
      }
    }

    /** processCollection on a Set: a LinkedHashSet of the processed elements replaces the contents when one of them changed. */
    method ProcessSet(x: Id, zone: Zone, h: Heap, depth: nat) returns (r: Run)
      requires h.Valid() && NoArrayOnPath(h.outlines, processedObjects.ids) && 0 < depth
      requires x in h.nodes && h.nodes[x].SetNode? && x in processedObjects.ids
      modifies h, processedObjects
      decreases depth, 2
      ensures h.Valid() && processedObjects.ids == old(processedObjects.ids)
      ensures Untouched(old(h.nodes), h.nodes, old(processedObjects.ids) - {x})
      ensures ParamShapeKept(old(h.nodes), h.nodes)
      ensures r.Threw? ==> r.error == StackOverflowError
      ensures r.Done? ==> r.value == Ref(x) && SetParam(converters, zone, h.outlines, old(h.nodes)[x], h.nodes[x])
    {
      var c := h.nodes[x].cls;
      var elems := h.nodes[x].elems;
      var newSet, modified, thrown := ProcessSetElements(elems, zone, h, depth);
      if thrown {
        return Threw(StackOverflowError);
      }
      if modified {
        h.nodes := h.nodes[x := SetNode(c, newSet)];
      }
      r := Done(Ref(x));
    }

    /** The set loop: newSet collects processParameter(item) for every item; modified says whether one differed. */
    method ProcessSetElements(elems: set<Value>, zone: Zone, h: Heap, depth: nat) returns (newSet: set<Value>, modified: bool, thrown: bool)
      requires h.Valid() && NoArrayOnPath(h.outlines, processedObjects.ids) && 0 < depth
      modifies h, processedObjects
      decreases depth, 1
      ensures h.Valid() && processedObjects.ids == old(processedObjects.ids)
      ensures Untouched(old(h.nodes), h.nodes, old(processedObjects.ids))
      ensures ParamShapeKept(old(h.nodes), h.nodes)
      ensures !thrown ==> (exists w :: ElementsImage(converters, zone, h.outlines, elems, newSet, w)) && (!modified ==> newSet == elems)
    {
      newSet, modified, thrown := {}, false, false;
      var remaining := elems;
      ghost var w: map<Value, Value> := map[];
      ParamShapeKeptRefl(h.nodes);
      while remaining != {}
        invariant h.Valid() && processedObjects.ids == old(processedObjects.ids)
        invariant Untouched(old(h.nodes), h.nodes, old(processedObjects.ids))
        invariant ParamShapeKept(old(h.nodes), h.nodes)
        invariant remaining + w.Keys == elems && remaining !! w.Keys
        invariant ElementsImage(converters, zone, h.outlines, w.Keys, newSet, w)
        invariant !modified ==> forall e :: e in w ==> w[e] == e
        decreases |remaining|
      {
        var e :| e in remaining;
        ghost var prev := h.nodes;
        var p := ProcessParameter(e, zone, false, h, depth - 1);
        ObjectProcessor.UntouchedTrans(old(h.nodes), prev, h.nodes, old(processedObjects.ids));
        ParamShapeKeptTrans(old(h.nodes), prev, h.nodes);
        if p.Threw? {
          thrown := true;
          return;
        }
        ElementsImageAdd(converters, zone, h.outlines, w, newSet, e, p.value);
        newSet := newSet + {p.value};
        if p.value != e {
          modified := true;
        }
        ObjectProcessor.MoveOne(remaining, w.Keys, e);
        w := w[e := p.value];
        remaining := remaining - {e};
      }
      if !modified {
        UnchangedImage(w);
      }
    }

    /** processCollection on any other collection: a similar new one with the processed items, or the original when none changed. */
    method ProcessOther(x: Id, zone: Zone, h: Heap, depth: nat) returns (r: Run)
      requires h.Valid() && NoArrayOnPath(h.outlines, processedObjects.ids) && 0 < depth
      requires x in h.nodes && h.nodes[x].QueueNode? && x in processedObjects.ids
      modifies h, processedObjects
      decreases depth, 2
      ensures h.Valid() && processedObjects.ids == old(processedObjects.ids)
      ensures Untouched(old(h.nodes), h.nodes, old(processedObjects.ids))
      ensures ParamShapeKept(old(h.nodes), h.nodes)
      ensures r.Threw? ==> r.error == StackOverflowError
      ensures r.Done? ==> OtherParam(converters, zone, h.outlines, old(h.nodes)[x], x, r.value)
    {
      var c := h.nodes[x].cls;
      var items := h.nodes[x].items;
      var similar := CreateSimilarCollection(c, false);
      var out, thrown := ProcessItems(items, zone, h, depth);
      if thrown {
        return Threw(StackOverflowError);
      }
      r := if out == items then Done(Ref(x)) else Done(Built(similar.0, similar.1, out));
    }

    /** The loop over a collection that is rebuilt: processParameter of every item, in order. */
    method ProcessItems(items: seq<Value>, zone: Zone, h: Heap, depth: nat) returns (out: seq<Value>, thrown: bool)
      requires h.Valid() && NoArrayOnPath(h.outlines, processedObjects.ids) && 0 < depth
      modifies h, processedObjects
      decreases depth, 1
      ensures h.Valid() && processedObjects.ids == old(processedObjects.ids)
      ensures Untouched(old(h.nodes), h.nodes, old(processedObjects.ids))
      ensures ParamShapeKept(old(h.nodes), h.nodes)
      ensures !thrown ==> ItemsStep(converters, zone, h.outlines, items, out)
    {
      out, thrown := [], false;
      for i := 0 to |items|
        invariant h.Valid() && processedObjects.ids == old(processedObjects.ids)
        invariant Untouched(old(h.nodes), h.nodes, old(processedObjects.ids))
        invariant ParamShapeKept(old(h.nodes), h.nodes)
        invariant ItemsStep(converters, zone, h.outlines, items[..i], out)
      {
        ghost var prev := h.nodes;
        var p := ProcessParameter(items[i], zone, false, h, depth - 1);
        ObjectProcessor.UntouchedTrans(old(h.nodes), prev, h.nodes, old(processedObjects.ids));
        ParamShapeKeptTrans(old(h.nodes), prev, h.nodes);
        if p.Threw? {
          thrown := true;
          return;
        }
        ItemsStepSnoc(converters, zone, h.outlines, items, out, i, p.value);
        out := out + [p.value];
      }
      assert items[..|items|] == items;
    }

    /** processMap: over a snapshot of the entries, each value that processParameter changes is put back under its key. */
    method ProcessMap(x: Id, zone: Zone, h: Heap, depth: nat) returns (r: Run)
      requires h.Valid() && NoArrayOnPath(h.outlines, processedObjects.ids) && 0 < depth
      requires x in h.nodes && h.nodes[x].MapNode? && x in processedObjects.ids
      modifies h, processedObjects
      decreases depth, 2
      ensures h.Valid() && processedObjects.ids == old(processedObjects.ids)
      ensures Untouched(old(h.nodes), h.nodes, old(processedObjects.ids) - {x})
      ensures ParamShapeKept(old(h.nodes), h.nodes)
      ensures r.Threw? ==> r.error == StackOverflowError
      ensures r.Done? ==> r.value == Ref(x) && MapParam(converters, zone, h.outlines, old(h.nodes)[x], h.nodes[x])
    {
      var c := h.nodes[x].mapClass;
      var entries := h.nodes[x].entries;
      var out: map<Value, Value> := map[];
      while out.Keys != entries.Keys
        invariant h.Valid() && processedObjects.ids == old(processedObjects.ids)
        invariant Untouched(old(h.nodes), h.nodes, old(processedObjects.ids) - {x})
        invariant ParamShapeKept(old(h.nodes), h.nodes)
        invariant EntriesParam(converters, zone, h.outlines, entries, out)
        invariant h.nodes[x] == MapNode(c, entries + out)
        decreases |entries.Keys - out.Keys|
      {
        var k :| k in entries && k !in out;
        ghost var prev := h.nodes;
        var p := ProcessMapEntry(x, k, entries[k], zone, h, depth);
        ObjectProcessor.UntouchedTrans(old(h.nodes), prev, h.nodes, old(processedObjects.ids) - {x});
        ParamShapeKeptTrans(old(h.nodes), prev, h.nodes);
        if p.Threw? {
          return p;
        }
        ObjectProcessor.CardinalityDrops(entries.Keys, out.Keys, k);
        MergeUpdate(entries, out, k, p.value);
        EntriesParamAdd(converters, zone, h.outlines, entries, out, k, p.value);
        out := out[k := p.value];
      }
      MergeAll(entries, out);
      r := Done(Ref(x));
    }

    /** One turn of the map loop: objectMap.put(key, converted) when processParameter changed the value. */
    method ProcessMapEntry(x: Id, k: Value, value: Value, zone: Zone, h: Heap, depth: nat) returns (p: Run)
      requires h.Valid() && NoArrayOnPath(h.outlines, processedObjects.ids) && 0 < depth
      requires x in h.nodes && h.nodes[x].MapNode? && x in processedObjects.ids && k in h.nodes[x].entries && h.nodes[x].entries[k] == value
      modifies h, processedObjects
      decreases depth, 1
      ensures h.Valid() && processedObjects.ids == old(processedObjects.ids)
      ensures Untouched(old(h.nodes), h.nodes, old(processedObjects.ids) - {x})
      ensures ParamShapeKept(old(h.nodes), h.nodes)
      ensures p.Threw? ==> p.error == StackOverflowError
      ensures p.Done? ==> ParamStep(converters, zone, h.outlines, false, value, p.value)
                          && h.nodes[x] == MapNode(old(h.nodes)[x].mapClass, old(h.nodes)[x].entries[k := p.value])
    {
      var n := h.nodes[x];
      p := ProcessParameter(value, zone, false, h, depth - 1);
      if p.Done? {
        if p.value != value {
          ParamKeptEntryWrite(n, k, p.value);
          ParamShapeKeptWrite(old(h.nodes), h.nodes, x, MapNode(n.mapClass, n.entries[k := p.value]));
          h.nodes := h.nodes[x := MapNode(n.mapClass, n.entries[k := p.value])];
        } else {
          assert n.entries[k := p.value] == n.entries;
        }
      }
    }

    /**
     * processArray: a primitive array is returned untouched; an object array
     * has each slot replaced when processParameter changes it. The array is
     * not put in the processed set.
     */
    method ProcessArray(x: Id, zone: Zone, h: Heap, depth: nat) returns (r: Run)
      requires h.Valid() && NoArrayOnPath(h.outlines, processedObjects.ids) && 0 < depth
      requires x in h.nodes && h.nodes[x].ArrayNode?
      modifies h, processedObjects
      decreases depth, 2
      ensures h.Valid() && processedObjects.ids == old(processedObjects.ids)
      ensures Untouched(old(h.nodes), h.nodes, old(processedObjects.ids))
      ensures ParamShapeKept(old(h.nodes), h.nodes)
      ensures r.Threw? ==> r.error == StackOverflowError
      ensures r.Done? ==> r.value == Ref(x)
      ensures old(h.nodes)[x].component.cat == Primitive ==> r == Done(Ref(x)) && h.nodes == old(h.nodes)
      ensures ReachesItselfFirst(old(h.nodes), x) ==> r.Threw?
    {
      var comp := h.nodes[x].component;
      if comp.cat == Primitive {
        return Done(Ref(x));
      }
      var len := |h.nodes[x].slots|;
      ghost var reach := ReachesItselfFirst(h.nodes, x);
      ghost var k: nat := 0;
      if reach {
        k :| 0 <= k < len && h.nodes[x].slots[k] == Ref(x)
             && forall j :: 0 <= j < k ==> h.nodes[x].slots[j].Null? || h.nodes[x].slots[j].Atom?;
      }
      for i := 0 to len
        invariant h.Valid() && processedObjects.ids == old(processedObjects.ids)
        invariant Untouched(old(h.nodes), h.nodes, old(processedObjects.ids))
        invariant ParamShapeKept(old(h.nodes), h.nodes)
        invariant h.nodes[x].ArrayNode? && h.nodes[x].component == comp && |h.nodes[x].slots| == len
        invariant reach ==> i <= k && h.nodes == old(h.nodes)
      {
        ghost var prev := h.nodes;
        var p := ProcessArraySlot(x, i, zone, h, depth);
        ObjectProcessor.UntouchedTrans(old(h.nodes), prev, h.nodes, old(processedObjects.ids));
        ParamShapeKeptTrans(old(h.nodes), prev, h.nodes);
        if p.Threw? {
          return p;
        }
      }
      r := Done(Ref(x));
    }

    /** One turn of the array loop: objectArray[i] is replaced when processParameter changes it. */
    method ProcessArraySlot(x: Id, i: nat, zone: Zone, h: Heap, depth: nat) returns (p: Run)
      requires h.Valid() && NoArrayOnPath(h.outlines, processedObjects.ids) && 0 < depth
      requires x in h.nodes && h.nodes[x].ArrayNode? && i < |h.nodes[x].slots|
      requires h.nodes[x].component.cat != Primitive
      modifies h, processedObjects
      decreases depth, 1
      ensures h.Valid() && processedObjects.ids == old(processedObjects.ids)
      ensures Untouched(old(h.nodes), h.nodes, old(processedObjects.ids))
      ensures ParamShapeKept(old(h.nodes), h.nodes)
      ensures p.Threw? ==> p.error == StackOverflowError
      ensures x in h.nodes && h.nodes[x].ArrayNode? && h.nodes[x].component == old(h.nodes)[x].component
      ensures |h.nodes[x].slots| == |old(h.nodes)[x].slots|
      ensures p.Done? ==> ParamStep(converters, zone, h.outlines, false, old(h.nodes)[x].slots[i], p.value)
      ensures p.Done? && p.value != old(h.nodes)[x].slots[i] ==> h.nodes[x].slots[i] == p.value
      ensures old(h.nodes)[x].slots[i].Null? || old(h.nodes)[x].slots[i].Atom? ==>
        h.nodes == old(h.nodes) && (p.Done? ==> ParamStep(converters, zone, h.outlines, false, old(h.nodes)[x].slots[i], p.value))
      ensures old(h.nodes)[x].slots[i] == Ref(x) && ReachesItselfFirst(old(h.nodes), x) ==> p.Threw?
    {
      var item := h.nodes[x].slots[i];
      p := ProcessParameter(item, zone, false, h, depth - 1);
      if p.Done? && p.value != item {
        var n := h.nodes[x];
        ParamKeptSlotWrite(n, i, p.value);
        ParamShapeKeptWrite(old(h.nodes), h.nodes, x, ArrayNode(n.component, n.slots[i := p.value]));
        h.nodes := h.nodes[x := ArrayNode(n.component, n.slots[i := p.value])];
      }
    }

    /** field.set(object, value) on a field processObject may set. */
    static method SetField(x: Id, i: nat, v: Value, h: Heap)
      requires h.Valid() && x in h.nodes && h.nodes[x].ObjectNode? && i < |h.nodes[x].fields|
      requires Settable(h.nodes[x].fields[i])
      modifies h
      ensures h.Valid() && ParamShapeKept(old(h.nodes), h.nodes)
      ensures h.nodes == old(h.nodes)[x := ObjectNode(old(h.nodes)[x].klass, old(h.nodes)[x].fields[i := old(h.nodes)[x].fields[i].(value := v)])]
    {
      var n := h.nodes[x];
      ParamShapeKeptRefl(h.nodes);
      ParamKeptFieldWrite(n, i, v);
      ParamShapeKeptWrite(h.nodes, h.nodes, x, ObjectNode(n.klass, n.fields[i := n.fields[i].(value := v)]));
      h.nodes := h.nodes[x := ObjectNode(n.klass, n.fields[i := n.fields[i].(value := v)])];
    }

    /** processObject: every field of the class chain in turn; access errors are logged and skipped. */
    method ProcessObject(x: Id, zone: Zone, h: Heap, depth: nat) returns (r: Run)
      requires h.Valid() && NoArrayOnPath(h.outlines, processedObjects.ids) && 0 < depth
      requires x in h.nodes && h.nodes[x].ObjectNode? && x in processedObjects.ids
      modifies h, processedObjects
      decreases depth, 2
      ensures h.Valid() && processedObjects.ids == old(processedObjects.ids)
      ensures Untouched(old(h.nodes), h.nodes, old(processedObjects.ids) - {x})
      ensures ParamShapeKept(old(h.nodes), h.nodes)
      ensures r.Threw? ==> r.error == StackOverflowError
      ensures r.Done? ==> r.value == Ref(x) && ObjectParam(converters, zone, h.outlines, old(h.nodes)[x], h.nodes[x])
    {
      var c := h.nodes[x].klass;
      var fields := h.nodes[x].fields;
      for i := 0 to |fields|
        invariant h.Valid() && processedObjects.ids == old(processedObjects.ids)
        invariant Untouched(old(h.nodes), h.nodes, old(processedObjects.ids) - {x})
        invariant ParamShapeKept(old(h.nodes), h.nodes)
        invariant h.nodes[x].ObjectNode? && h.nodes[x].klass == c && FieldsPrefix(converters, zone, h.outlines, fields, h.nodes[x].fields, i)
      {
        ghost var prev := h.nodes;
        var g := ProcessObjectField(x, i, zone, h, depth);
        ObjectProcessor.UntouchedTrans(old(h.nodes), prev, h.nodes, old(processedObjects.ids) - {x});
        ParamShapeKeptTrans(old(h.nodes), prev, h.nodes);
        if g.None? {
          return Threw(StackOverflowError);
        }
        FieldsPrefixNext(converters, zone, h.outlines, fields, prev[x].fields, i, g.value);
      }
      r := Done(Ref(x));
    }

    /**
     * One turn of the field loop: an unreadable or null field is skipped,
     * any other is processed with forceProcess when it carries @Time, and
     * the result is set when it differs (an unwritable field is skipped).
     * None: processParameter threw.
     */
    method ProcessObjectField(x: Id, i: nat, zone: Zone, h: Heap, depth: nat) returns (g: Option<Field>)
      requires h.Valid() && NoArrayOnPath(h.outlines, processedObjects.ids) && 0 < depth
      requires x in h.nodes && h.nodes[x].ObjectNode? && i < |h.nodes[x].fields| && x in processedObjects.ids
      modifies h, processedObjects
      decreases depth, 1
      ensures h.Valid() && processedObjects.ids == old(processedObjects.ids)
      ensures Untouched(old(h.nodes), h.nodes, old(processedObjects.ids) - {x})
      ensures ParamShapeKept(old(h.nodes), h.nodes)
      ensures g.Some? ==> FieldParam(converters, zone, h.outlines, old(h.nodes)[x].fields[i], g.value)
                          && h.nodes[x] == ObjectNode(old(h.nodes)[x].klass, old(h.nodes)[x].fields[i := g.value])
    {
      var n := h.nodes[x];
      var f := n.fields[i];
      if !f.decl.readable || f.value.Null? {
        assert n.fields[i := f] == n.fields;
        ParamShapeKeptRefl(h.nodes);
        return Some(f);
      }
      var p := ProcessParameter(f.value, zone, f.decl.time.Some?, h, depth - 1);
      if p.Threw? {
        return None;
      }
      if p.value != f.value && f.decl.writable {
        g := Some(f.(value := p.value));
        ghost var prev := h.nodes;
        SetField(x, i, p.value, h);
        ParamShapeKeptTrans(old(h.nodes), prev, h.nodes);
      } else {
        assert n.fields[i := f] == n.fields;
        g := Some(f);
      }
    }
  }
}
