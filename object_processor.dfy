/**
 * ObjectProcessor: the recursive walker behind kronos-core's converter. It
 * rewrites date/time leaves found anywhere in an object graph, in place
 * where the container allows it, and returns what each value became. The
 * context's processed set holds the objects on the current path, which is
 * what stops it on cycles.
 */
module ObjectProcessor {
  import opened Wrappers
  import opened JavaTime
  import opened JavaHeap
  import opened TypeConverters
  import opened ConversionContext

  /** isTimeType: the date and time classes of java.time, java.util and java.sql. */
  predicate IsTimeType(c: JClass)
  {
    c.name in {LocalDateTimeName, LocalDateName, LocalTimeName, ZonedDateTimeName, OffsetDateTimeName,
               InstantName, UtilDateName, SqlTimestampName, SqlDateName, SqlTimeName}
  }

  predicate StartsWith(s: string, prefix: string)
  {
    |prefix| <= |s| && s[..|prefix|] == prefix
  }

  /** isCustomObject: an application class, that is none of the JDK's and no primitive, enum or array. */
  predicate IsCustomObject(c: JClass)
  {
    c.cat != Primitive && !StartsWith(c.name, "java.") && !StartsWith(c.name, "javax.")
    && c.cat != EnumType && c.cat != ArrayType
  }

  /** isSimpleType: primitives, String, numbers, Boolean, Character and every registered class. */
  predicate IsSimpleType(registry: map<string, Converter>, c: JClass)
  {
    c.cat == Primitive || c.name == StringName || c.cat == Numeric || c.cat == BooleanBox
    || c.cat == CharacterBox || c.name in registry
  }

  /** shouldProcessField: @Time fields, and fields holding a time value, a collection, a map or an application object. */
  predicate ShouldProcessField(outlines: map<Id, Outline>, d: FieldDecl, v: Value)
    requires !v.Null?
  {
    d.time.Some? || IsTimeType(ClassOfValue(outlines, v)) || IsCollection(outlines, v) || IsMap(outlines, v)
    || IsCustomObject(ClassOfValue(outlines, v))
  }

  /** A field the walker rewrites: readable, writable, set, and selected by shouldProcessField. */
  predicate Rewritten(outlines: map<Id, Outline>, f: Field)
  {
    f.decl.readable && f.decl.writable && !f.value.Null? && ShouldProcessField(outlines, f.decl, f.value)
  }

  /** Node n became m keeping its shape and the value of every field the walker does not rewrite. */
  ghost predicate Kept(outlines: map<Id, Outline>, n: Node, m: Node)
  {
    SameShape(n, m)
    && (n.ObjectNode? ==>
          m.ObjectNode? && |m.fields| == |n.fields|
          && forall j :: 0 <= j < |n.fields| && !Rewritten(outlines, n.fields[j]) ==> m.fields[j].value == n.fields[j].value)
  }

  /**
   * The invariant of a walk: every node of heap a is still in heap b, with
   * the same shape (lists and arrays of the same length, maps with the same
   * keys, objects with the same fields, other collections and primitive
   * arrays untouched), and only fields the walker rewrites have new values.
   */
  ghost predicate ShapeKept(outlines: map<Id, Outline>, a: map<Id, Node>, b: map<Id, Node>)
  {
    forall y :: y in a ==> y in b && Kept(outlines, a[y], b[y])
  }

  lemma KeptTrans(outlines: map<Id, Outline>, n1: Node, n2: Node, n3: Node)
    requires Kept(outlines, n1, n2) && Kept(outlines, n2, n3)
    ensures Kept(outlines, n1, n3)
  {
    if n1.ObjectNode? {
      forall j | 0 <= j < |n1.fields| && !Rewritten(outlines, n1.fields[j])
        ensures n3.fields[j].value == n1.fields[j].value
      {
        assert n2.fields[j] == n1.fields[j];
      }
    }
  }

  lemma ShapeKeptRefl(outlines: map<Id, Outline>, a: map<Id, Node>)
    ensures ShapeKept(outlines, a, a)
  {
  }

  lemma ShapeKeptTrans(outlines: map<Id, Outline>, a: map<Id, Node>, b: map<Id, Node>, c: map<Id, Node>)
    requires ShapeKept(outlines, a, b) && ShapeKept(outlines, b, c)
    ensures ShapeKept(outlines, a, c)
  {
    forall y | y in a ensures y in c && Kept(outlines, a[y], c[y]) {
      KeptTrans(outlines, a[y], b[y], c[y]);
    }
  }

  /** Overwriting node x with a node that keeps its shape keeps the invariant. */
  lemma ShapeKeptWrite(outlines: map<Id, Outline>, a: map<Id, Node>, b: map<Id, Node>, x: Id, m: Node)
    requires ShapeKept(outlines, a, b) && x in b && Kept(outlines, b[x], m)
    ensures ShapeKept(outlines, a, b[x := m])
  {
    if x in a {
      KeptTrans(outlines, a[x], b[x], m);
    }
  }

  /** Setting a field the walker rewrites keeps the object. */
  lemma KeptFieldWrite(outlines: map<Id, Outline>, n: Node, i: nat, v: Value)
    requires n.ObjectNode? && i < |n.fields| && Rewritten(outlines, n.fields[i])
    ensures Kept(outlines, n, ObjectNode(n.klass, n.fields[i := n.fields[i].(value := v)]))
  {
  }

  /** Setting a slot of an object array keeps the array. */
  lemma KeptSlotWrite(outlines: map<Id, Outline>, n: Node, i: nat, v: Value)
    requires n.ArrayNode? && n.component.cat != Primitive && i < |n.slots|
    ensures Kept(outlines, n, ArrayNode(n.component, n.slots[i := v]))
  {
  }

  lemma UntouchedTrans(a: map<Id, Node>, b: map<Id, Node>, c: map<Id, Node>, s: set<Id>)
    requires Untouched(a, b, s) && Untouched(b, c, s)
    ensures Untouched(a, c, s)
  {
  }

  lemma CardinalityDrops<T>(keys: set<T>, visited: set<T>, x: T)
    requires x in keys && x !in visited
    ensures |keys - (visited + {x})| < |keys - visited|
  {
    assert keys - visited == (keys - (visited + {x})) + {x};
  }

  /** Moving one element from the items still to visit to the visited ones keeps their union. */
  lemma MoveOne<T>(remaining: set<T>, visited: set<T>, e: T)
    requires e in remaining && remaining !! visited
    ensures (remaining - {e}) + (visited + {e}) == remaining + visited
    ensures (remaining - {e}) !! (visited + {e})
  {
  }

  /** Adding one more key to a map adds its value to the map's values. */
  lemma ValuesAdd(w: map<Value, Value>, e: Value, p: Value)
    requires e !in w
    ensures w[e := p].Values == w.Values + {p}
  {
    var w' := w[e := p];
    forall y | y in w'.Values ensures y in w.Values + {p} {
      var k :| k in w' && w'[k] == y;
      if k != e {
        assert k in w && w[k] == y;
      }
    }
    forall y | y in w.Values + {p} ensures y in w'.Values {
      if y == p {
        assert w'[e] == y;
      } else {
        var k :| k in w && w[k] == y;
        assert w'[k] == y;
      }
    }
  }

  class Processor {
    /** The typeConverters map, shared with the TimeZoneConverter that built this processor. */
    const registry: ConverterRegistry
    const rt: Runtime

    constructor (registry: ConverterRegistry, rt: Runtime)
      ensures this.registry == registry && this.rt == rt
    {
      this.registry := registry;
      this.rt := rt;
    }

    /**
     * processSimpleType: the registered converter with the context's zones
     * and pattern, else the value itself. A converter that would throw on
     * the leaf (Unsupported) is not applied.
     */
    function ProcessSimpleType(reg: map<string, Converter>, l: Leaf, cs: Setting): (r: Leaf)
      ensures ClassOf(l).name !in reg ==> r == l
    {
      var key := ClassOf(l).name;
      if key in reg && !Unsupported(reg[key], l)
      then Apply(rt, reg[key], l, cs.fromZone, cs.toZone, cs.format)
      else l
    }

    /** What process makes of a leaf. Leaves outside isSimpleType have no fields the walker could reach. */
    function LeafResult(reg: map<string, Converter>, l: Leaf, cs: Setting): Leaf
    {
      if IsSimpleType(reg, ClassOf(l)) then ProcessSimpleType(reg, l, cs) else l
    }

    /**
     * What process(v) returns: null stays null, a leaf becomes its converted
     * value, a reference stays the same reference unless it leads to a
     * collection that is neither a list nor a set (that one may be rebuilt),
     * and a non-empty collection the walker built comes back as a collection
     * of its processed items (a list keeps its class, anything else gets a
     * similar one).
     */
    ghost predicate Step(reg: map<string, Converter>, cs: Setting, outlines: map<Id, Outline>, v: Value, r: Value)
      decreases v
    {
      match v
      case Null => r == Null
      case Atom(l) => r == Atom(LeafResult(reg, l, cs))
      case Ref(y) => r == v || (y in outlines && outlines[y].kind == QueueKind && r.Built?)
      case Built(c, isList, items) =>
        if items == [] then r == v
        else r.Built? && (r.cls, r.list) == (if isList then (c, true) else CreateSimilarCollection(c, false))
             && |r.items| == |items|
             && forall i :: 0 <= i < |items| ==> Step(reg, cs, outlines, items[i], r.items[i])
    }

    ghost predicate StepAll(reg: map<string, Converter>, cs: Setting, outlines: map<Id, Outline>, items: seq<Value>, out: seq<Value>)
    {
      |out| == |items| && forall i :: 0 <= i < |items| ==> Step(reg, cs, outlines, items[i], out[i])
    }

    /** The new set holds exactly the values w chose as the processed form of each old element. */
    ghost predicate SetImage(reg: map<string, Converter>, cs: Setting, outlines: map<Id, Outline>, elems: set<Value>, out: set<Value>, w: map<Value, Value>)
    {
      w.Keys == elems && out == w.Values && forall e :: e in w ==> Step(reg, cs, outlines, e, w[e])
    }

    lemma SetImageAdd(reg: map<string, Converter>, cs: Setting, outlines: map<Id, Outline>, w: map<Value, Value>, out: set<Value>, e: Value, p: Value)
      requires SetImage(reg, cs, outlines, w.Keys, out, w) && e !in w && Step(reg, cs, outlines, e, p)
      ensures SetImage(reg, cs, outlines, w.Keys + {e}, out + {p}, w[e := p])
    {
      ValuesAdd(w, e, p);
    }

    /** A field the walker has handled: the same declaration, and the processed value exactly when it is rewritten. */
    ghost predicate FieldStep(reg: map<string, Converter>, cs: Setting, outlines: map<Id, Outline>, f: Field, g: Field)
    {
      g.decl == f.decl
      && if Rewritten(outlines, f) then Step(reg, cs, outlines, f.value, g.value) else g.value == f.value
    }

    ghost predicate FieldsStep(reg: map<string, Converter>, cs: Setting, outlines: map<Id, Outline>, fs: seq<Field>, out: seq<Field>)
    {
      |out| == |fs| && forall i :: 0 <= i < |fs| ==> FieldStep(reg, cs, outlines, fs[i], out[i])
    }

    lemma StepAllSnoc(reg: map<string, Converter>, cs: Setting, outlines: map<Id, Outline>, items: seq<Value>, out: seq<Value>, i: nat, p: Value)
      requires i < |items| && StepAll(reg, cs, outlines, items[..i], out) && Step(reg, cs, outlines, items[i], p)
      ensures StepAll(reg, cs, outlines, items[..i + 1], out + [p])
    {
    }

    /** Slots before i hold the processed form of the original item, the others still the original. */
    ghost predicate StepPrefix(reg: map<string, Converter>, cs: Setting, outlines: map<Id, Outline>, items: seq<Value>, cur: seq<Value>, i: nat)
    {
      i <= |items| == |cur|
      && (forall j :: 0 <= j < i ==> Step(reg, cs, outlines, items[j], cur[j]))
      && (forall j :: i <= j < |items| ==> cur[j] == items[j])
    }

    lemma StepPrefixNext(reg: map<string, Converter>, cs: Setting, outlines: map<Id, Outline>, items: seq<Value>, cur: seq<Value>, i: nat, p: Value)
      requires StepPrefix(reg, cs, outlines, items, cur, i) && i < |items| && Step(reg, cs, outlines, items[i], p)
      ensures StepPrefix(reg, cs, outlines, items, cur[i := p], i + 1)
    {
    }

    /** The same as StepPrefix, for the fields of an object. */
    ghost predicate FieldsPrefix(reg: map<string, Converter>, cs: Setting, outlines: map<Id, Outline>, fields: seq<Field>, cur: seq<Field>, i: nat)
    {
      i <= |fields| == |cur|
      && (forall j :: 0 <= j < i ==> FieldStep(reg, cs, outlines, fields[j], cur[j]))
      && (forall j :: i <= j < |fields| ==> cur[j] == fields[j])
    }

    lemma FieldsPrefixNext(reg: map<string, Converter>, cs: Setting, outlines: map<Id, Outline>, fields: seq<Field>, cur: seq<Field>, i: nat, g: Field)
      requires FieldsPrefix(reg, cs, outlines, fields, cur, i) && i < |fields| && FieldStep(reg, cs, outlines, fields[i], g)
      ensures FieldsPrefix(reg, cs, outlines, fields, cur[i := g], i + 1)
    {
    }

    /** processCollection on a List: the same list, slot by slot processed. */
    ghost predicate ListStep(reg: map<string, Converter>, cs: Setting, outlines: map<Id, Outline>, n: Node, m: Node)
      requires n.ListNode?
    {
      m.ListNode? && m.cls == n.cls && StepAll(reg, cs, outlines, n.items, m.items)
    }

    /** processCollection on a Set: the same set, now holding the processed elements. */
    ghost predicate SetStep(reg: map<string, Converter>, cs: Setting, outlines: map<Id, Outline>, n: Node, m: Node)
      requires n.SetNode?
    {
      m.SetNode? && m.cls == n.cls && exists w :: SetImage(reg, cs, outlines, n.elems, m.elems, w)
    }

    /** processCollection on another collection: itself when empty, else a similar new collection of the processed items. */
    ghost predicate QueueStep(reg: map<string, Converter>, cs: Setting, outlines: map<Id, Outline>, n: Node, x: Id, r: Value)
      requires n.QueueNode?
    {
      if n.items == [] then r == Ref(x)
      else r.Built? && (r.cls, r.list) == CreateSimilarCollection(n.cls, false) && StepAll(reg, cs, outlines, n.items, r.items)
    }

    /** processMap: the same map and keys, every value processed. */
    ghost predicate MapStep(reg: map<string, Converter>, cs: Setting, outlines: map<Id, Outline>, n: Node, m: Node)
      requires n.MapNode?
    {
      m.MapNode? && m.mapClass == n.mapClass && m.entries.Keys == n.entries.Keys
      && forall k :: k in n.entries ==> Step(reg, cs, outlines, n.entries[k], m.entries[k])
    }

    /** The values processed so far: each key of out is a key of the map, bound to its value's processed form. */
    ghost predicate EntriesStep(reg: map<string, Converter>, cs: Setting, outlines: map<Id, Outline>, entries: map<Value, Value>, out: map<Value, Value>)
    {
      out.Keys <= entries.Keys && forall k :: k in out ==> Step(reg, cs, outlines, entries[k], out[k])
    }

    lemma EntriesStepAdd(reg: map<string, Converter>, cs: Setting, outlines: map<Id, Outline>, entries: map<Value, Value>, out: map<Value, Value>, k: Value, p: Value)
      requires EntriesStep(reg, cs, outlines, entries, out) && k in entries && Step(reg, cs, outlines, entries[k], p)
      ensures EntriesStep(reg, cs, outlines, entries, out[k := p])
    {
    }

    /** processArray: a primitive array is left alone, an object array is processed slot by slot. */
    ghost predicate ArrayStep(reg: map<string, Converter>, cs: Setting, outlines: map<Id, Outline>, n: Node, m: Node)
      requires n.ArrayNode?
    {
      if n.component.cat == Primitive then m == n
      else m.ArrayNode? && m.component == n.component && StepAll(reg, cs, outlines, n.slots, m.slots)
    }

    /** processCustomObject: the same object, each rewritten field processed. */
    ghost predicate ObjectStep(reg: map<string, Converter>, cs: Setting, outlines: map<Id, Outline>, n: Node, m: Node)
      requires n.ObjectNode?
    {
      m.ObjectNode? && m.klass == n.klass && FieldsStep(reg, cs, outlines, n.fields, m.fields)
    }

    /** How processing node x, off the current path, changes it (from a to b) and what it returns. */
    ghost predicate NodeStep(reg: map<string, Converter>, cs: Setting, outlines: map<Id, Outline>, a: map<Id, Node>, b: map<Id, Node>, x: Id, r: Value)
      requires x in a && x in b
    {
      match a[x]
      case ListNode(_, _) => r == Ref(x) && ListStep(reg, cs, outlines, a[x], b[x])
      case SetNode(_, _) => r == Ref(x) && SetStep(reg, cs, outlines, a[x], b[x])
      case QueueNode(_, _) => b[x] == a[x] && QueueStep(reg, cs, outlines, a[x], x, r)
      case MapNode(_, _) => r == Ref(x) && MapStep(reg, cs, outlines, a[x], b[x])
      case ArrayNode(_, _) => r == Ref(x) && ArrayStep(reg, cs, outlines, a[x], b[x])
      case ObjectNode(_, _) => r == Ref(x) && ObjectStep(reg, cs, outlines, a[x], b[x])
    }

    /** process: dispatch on the value, guarding the current path against cycles. */
    method Process(v: Value, ctx: Context, h: Heap) returns (r: Value)
      requires h.Valid()
      modifies h, ctx
      decreases |h.outlines.Keys - ctx.processed|, 1, v
      ensures h.Valid() && ctx.processed == old(ctx.processed)
      ensures Untouched(old(h.nodes), h.nodes, old(ctx.processed))
      ensures ShapeKept(h.outlines, old(h.nodes), h.nodes)
      ensures Step(registry.entries, ctx.Settings(), h.outlines, v, r)
      ensures !v.Ref? && !v.Built? ==> h.nodes == old(h.nodes)
      ensures v.Ref? && (v.id !in old(h.nodes) || v.id in old(ctx.processed)) ==> r == v && h.nodes == old(h.nodes)
      ensures v.Ref? && v.id in old(h.nodes) && v.id !in old(ctx.processed) ==>
        NodeStep(registry.entries, ctx.Settings(), h.outlines, old(h.nodes), h.nodes, v.id, r)
    {
      match v
      case Null =>
        ShapeKeptRefl(h.outlines, h.nodes);
        r := Null;
      case Atom(l) =>
        ShapeKeptRefl(h.outlines, h.nodes);
        r := Atom(LeafResult(registry.entries, l, ctx.Settings()));
      case Ref(x) =>
        if x !in h.nodes || ctx.IsProcessed(x) {
          ShapeKeptRefl(h.outlines, h.nodes);
          r := v;
        } else {
          r := ProcessNode(x, ctx, h);
        }
      case Built(c, isList, items) =>
        if items == [] {
          ShapeKeptRefl(h.outlines, h.nodes);
          r := v;
          return;
        }
        var out: seq<Value> := [];
        ShapeKeptRefl(h.outlines, h.nodes);
        for i := 0 to |items|
          invariant h.Valid() && ctx.processed == old(ctx.processed)
          invariant Untouched(old(h.nodes), h.nodes, old(ctx.processed))
          invariant ShapeKept(h.outlines, old(h.nodes), h.nodes)
          invariant StepAll(registry.entries, ctx.Settings(), h.outlines, items[..i], out)
        {
          ghost var prev := h.nodes;
          var p := Process(items[i], ctx, h);
          UntouchedTrans(old(h.nodes), prev, h.nodes, old(ctx.processed));
          ShapeKeptTrans(h.outlines, old(h.nodes), prev, h.nodes);
          StepAllSnoc(registry.entries, ctx.Settings(), h.outlines, items, out, i, p);
          out := out + [p];
        }
        assert items[..|items|] == items;
        var similar := if isList then (c, true) else CreateSimilarCollection(c, false);
        r := Built(similar.0, similar.1, out);
    }

    /** The part of process that runs with x marked: the dispatch on its kind, then the unmarking. */
    method ProcessNode(x: Id, ctx: Context, h: Heap) returns (r: Value)
      requires h.Valid() && x in h.nodes && x !in ctx.processed
      modifies h, ctx
      decreases |h.outlines.Keys - ctx.processed|, 0
      ensures h.Valid() && ctx.processed == old(ctx.processed)
      ensures Untouched(old(h.nodes), h.nodes, old(ctx.processed))
      ensures ShapeKept(h.outlines, old(h.nodes), h.nodes)
      ensures NodeStep(registry.entries, ctx.Settings(), h.outlines, old(h.nodes), h.nodes, x, r)
    {
      CardinalityDrops(h.outlines.Keys, ctx.processed, x);
      ctx.MarkProcessed(x);
      assert ctx.processed - {x} == old(ctx.processed);
      match h.nodes[x] {
        case ListNode(_, _) =>
          ProcessList(x, ctx, h);
          r := Ref(x);
        case SetNode(_, _) =>
          ProcessSet(x, ctx, h);
          r := Ref(x);
        case QueueNode(_, _) =>
          r := ProcessQueue(x, ctx, h);
        case MapNode(_, _) =>
          ProcessMap(x, ctx, h);
          r := Ref(x);
        case ArrayNode(_, _) =>
          ProcessArray(x, ctx, h);
          r := Ref(x);
        case ObjectNode(_, _) =>
          ProcessCustomObject(x, ctx, h);
          r := Ref(x);
      }
      ctx.UnmarkProcessed(x);
    }

    /** processCollection on a List: slot i becomes process(slot i), in place. */
    method ProcessList(x: Id, ctx: Context, h: Heap)
      requires h.Valid() && x in h.nodes && h.nodes[x].ListNode? && x in ctx.processed
      modifies h, ctx
      decreases |h.outlines.Keys - ctx.processed|, 2
      ensures h.Valid() && ctx.processed == old(ctx.processed)
      ensures Untouched(old(h.nodes), h.nodes, old(ctx.processed) - {x})
      ensures ShapeKept(h.outlines, old(h.nodes), h.nodes)
      ensures ListStep(registry.entries, ctx.Settings(), h.outlines, old(h.nodes)[x], h.nodes[x])
    {
      var c := h.nodes[x].cls;
      var items := h.nodes[x].items;
      ShapeKeptRefl(h.outlines, h.nodes);
      for i := 0 to |items|
        invariant h.Valid() && ctx.processed == old(ctx.processed)
        invariant Untouched(old(h.nodes), h.nodes, old(ctx.processed) - {x})
        invariant ShapeKept(h.outlines, old(h.nodes), h.nodes)
        invariant h.nodes[x].ListNode? && h.nodes[x].cls == c && StepPrefix(registry.entries, ctx.Settings(), h.outlines, items, h.nodes[x].items, i)
      {
        ghost var prev := h.nodes;
        var p := ProcessListSlot(x, i, ctx, h);
        UntouchedTrans(old(h.nodes), prev, h.nodes, old(ctx.processed) - {x});
        ShapeKeptTrans(h.outlines, old(h.nodes), prev, h.nodes);
        StepPrefixNext(registry.entries, ctx.Settings(), h.outlines, items, prev[x].items, i, p);
      }
    }

    /** One turn of the list loop: list.set(i, process(list.get(i))). */
    method ProcessListSlot(x: Id, i: nat, ctx: Context, h: Heap) returns (p: Value)
      requires h.Valid() && x in h.nodes && h.nodes[x].ListNode? && i < |h.nodes[x].items| && x in ctx.processed
      modifies h, ctx
      decreases |h.outlines.Keys - ctx.processed|, 2, 0
      ensures h.Valid() && ctx.processed == old(ctx.processed)
      ensures Untouched(old(h.nodes), h.nodes, old(ctx.processed) - {x})
      ensures ShapeKept(h.outlines, old(h.nodes), h.nodes)
      ensures Step(registry.entries, ctx.Settings(), h.outlines, old(h.nodes)[x].items[i], p)
      ensures h.nodes[x] == ListNode(old(h.nodes)[x].cls, old(h.nodes)[x].items[i := p])
    {
      var n := h.nodes[x];
      p := Process(n.items[i], ctx, h);
      h.nodes := h.nodes[x := ListNode(n.cls, n.items[i := p])];
    }

    /** processCollection on a Set: the set keeps its identity and now holds the processed elements. */
    method ProcessSet(x: Id, ctx: Context, h: Heap)
      requires h.Valid() && x in h.nodes && h.nodes[x].SetNode? && x in ctx.processed
      modifies h, ctx
      decreases |h.outlines.Keys - ctx.processed|, 2
      ensures h.Valid() && ctx.processed == old(ctx.processed)
      ensures Untouched(old(h.nodes), h.nodes, old(ctx.processed) - {x})
      ensures ShapeKept(h.outlines, old(h.nodes), h.nodes)
      ensures SetStep(registry.entries, ctx.Settings(), h.outlines, old(h.nodes)[x], h.nodes[x])
    {
      var c := h.nodes[x].cls;
      var newSet := ProcessSetElements(h.nodes[x].elems, ctx, h);
      h.nodes := h.nodes[x := SetNode(c, newSet)];
    }

    /** The set loop: newSet collects process(item) for every item. */
    method ProcessSetElements(elems: set<Value>, ctx: Context, h: Heap) returns (newSet: set<Value>)
      requires h.Valid()
      modifies h, ctx
      decreases |h.outlines.Keys - ctx.processed|, 2, 0
      ensures h.Valid() && ctx.processed == old(ctx.processed)
      ensures Untouched(old(h.nodes), h.nodes, old(ctx.processed))
      ensures ShapeKept(h.outlines, old(h.nodes), h.nodes)
      ensures exists w :: SetImage(registry.entries, ctx.Settings(), h.outlines, elems, newSet, w)
    {
      newSet := {};
      var remaining := elems;
      ghost var w: map<Value, Value> := map[];
      ShapeKeptRefl(h.outlines, h.nodes);
      while remaining != {}
        invariant h.Valid() && ctx.processed == old(ctx.processed)
        invariant Untouched(old(h.nodes), h.nodes, old(ctx.processed))
        invariant ShapeKept(h.outlines, old(h.nodes), h.nodes)
        invariant remaining + w.Keys == elems && remaining !! w.Keys
        invariant SetImage(registry.entries, ctx.Settings(), h.outlines, w.Keys, newSet, w)
        decreases |remaining|
      {
        var e :| e in remaining;
        ghost var prev := h.nodes;
        var p := Process(e, ctx, h);
        UntouchedTrans(old(h.nodes), prev, h.nodes, old(ctx.processed));
        ShapeKeptTrans(h.outlines, old(h.nodes), prev, h.nodes);
        SetImageAdd(registry.entries, ctx.Settings(), h.outlines, w, newSet, e, p);
        newSet := newSet + {p};
        MoveOne(remaining, w.Keys, e);
        w := w[e := p];
        remaining := remaining - {e};
      }
    }

    /** processCollection on any other collection: a new one of a similar class with the processed items. */
    method ProcessQueue(x: Id, ctx: Context, h: Heap) returns (r: Value)
      requires h.Valid() && x in h.nodes && h.nodes[x].QueueNode? && x in ctx.processed
      modifies h, ctx
      decreases |h.outlines.Keys - ctx.processed|, 2
      ensures h.Valid() && ctx.processed == old(ctx.processed)
      ensures Untouched(old(h.nodes), h.nodes, old(ctx.processed))
      ensures ShapeKept(h.outlines, old(h.nodes), h.nodes)
      ensures QueueStep(registry.entries, ctx.Settings(), h.outlines, old(h.nodes)[x], x, r)
    {
      var c := h.nodes[x].cls;
      var items := h.nodes[x].items;
      if items == [] {
        ShapeKeptRefl(h.outlines, h.nodes);
        return Ref(x);
      }
      var similar := CreateSimilarCollection(c, false);
      var out := ProcessCollectionItems(items, ctx, h);
      r := Built(similar.0, similar.1, out);
    }

    /** The loop over any other collection: newCollection gets process(item) for every item, in order. */
    method ProcessCollectionItems(items: seq<Value>, ctx: Context, h: Heap) returns (out: seq<Value>)
      requires h.Valid()
      modifies h, ctx
      decreases |h.outlines.Keys - ctx.processed|, 2, 0
      ensures h.Valid() && ctx.processed == old(ctx.processed)
      ensures Untouched(old(h.nodes), h.nodes, old(ctx.processed))
      ensures ShapeKept(h.outlines, old(h.nodes), h.nodes)
      ensures StepAll(registry.entries, ctx.Settings(), h.outlines, items, out)
    {
      out := [];
      ShapeKeptRefl(h.outlines, h.nodes);
      for i := 0 to |items|
        invariant h.Valid() && ctx.processed == old(ctx.processed)
        invariant Untouched(old(h.nodes), h.nodes, old(ctx.processed))
        invariant ShapeKept(h.outlines, old(h.nodes), h.nodes)
        invariant StepAll(registry.entries, ctx.Settings(), h.outlines, items[..i], out)
      {
        ghost var prev := h.nodes;
        var p := Process(items[i], ctx, h);
        UntouchedTrans(old(h.nodes), prev, h.nodes, old(ctx.processed));
        ShapeKeptTrans(h.outlines, old(h.nodes), prev, h.nodes);
        StepAllSnoc(registry.entries, ctx.Settings(), h.outlines, items, out, i, p);
        out := out + [p];
      }
      assert items[..|items|] == items;
    }

    /** processMap: the same map and keys; every value replaced by its processed value. */
    method ProcessMap(x: Id, ctx: Context, h: Heap)
      requires h.Valid() && x in h.nodes && h.nodes[x].MapNode? && x in ctx.processed
      modifies h, ctx
      decreases |h.outlines.Keys - ctx.processed|, 2
      ensures h.Valid() && ctx.processed == old(ctx.processed)
      ensures Untouched(old(h.nodes), h.nodes, old(ctx.processed) - {x})
      ensures ShapeKept(h.outlines, old(h.nodes), h.nodes)
      ensures MapStep(registry.entries, ctx.Settings(), h.outlines, old(h.nodes)[x], h.nodes[x])
    {
      var c := h.nodes[x].mapClass;
      var entries := h.nodes[x].entries;
      if entries == map[] {
        ShapeKeptRefl(h.outlines, h.nodes);
        return;
      }
      var processedEntries := ProcessMapValues(entries, ctx, h);
      h.nodes := h.nodes[x := MapNode(c, entries + processedEntries)];
    }

    /** The map loop: processedEntries maps every key to process(its value). */
    method ProcessMapValues(entries: map<Value, Value>, ctx: Context, h: Heap) returns (processedEntries: map<Value, Value>)
      requires h.Valid()
      modifies h, ctx
      decreases |h.outlines.Keys - ctx.processed|, 2, 0
      ensures h.Valid() && ctx.processed == old(ctx.processed)
      ensures Untouched(old(h.nodes), h.nodes, old(ctx.processed))
      ensures ShapeKept(h.outlines, old(h.nodes), h.nodes)
      ensures processedEntries.Keys == entries.Keys
      ensures forall k :: k in entries ==> Step(registry.entries, ctx.Settings(), h.outlines, entries[k], processedEntries[k])
    {
      processedEntries := map[];
      ShapeKeptRefl(h.outlines, h.nodes);
      while processedEntries.Keys != entries.Keys
        invariant h.Valid() && ctx.processed == old(ctx.processed)
        invariant Untouched(old(h.nodes), h.nodes, old(ctx.processed))
        invariant ShapeKept(h.outlines, old(h.nodes), h.nodes)
        invariant EntriesStep(registry.entries, ctx.Settings(), h.outlines, entries, processedEntries)
        decreases |entries.Keys - processedEntries.Keys|
      {
        var k :| k in entries && k !in processedEntries;
        ghost var prev := h.nodes;
        var p := Process(entries[k], ctx, h);
        UntouchedTrans(old(h.nodes), prev, h.nodes, old(ctx.processed));
        ShapeKeptTrans(h.outlines, old(h.nodes), prev, h.nodes);
        CardinalityDrops(entries.Keys, processedEntries.Keys, k);
        EntriesStepAdd(registry.entries, ctx.Settings(), h.outlines, entries, processedEntries, k, p);
        processedEntries := processedEntries[k := p];
      }
    }

    /** processArray: primitive arrays stay as they are; object arrays are rewritten slot by slot. */
    method ProcessArray(x: Id, ctx: Context, h: Heap)
      requires h.Valid() && x in h.nodes && h.nodes[x].ArrayNode? && x in ctx.processed
      modifies h, ctx
      decreases |h.outlines.Keys - ctx.processed|, 2
      ensures h.Valid() && ctx.processed == old(ctx.processed)
      ensures Untouched(old(h.nodes), h.nodes, old(ctx.processed) - {x})
      ensures ShapeKept(h.outlines, old(h.nodes), h.nodes)
      ensures ArrayStep(registry.entries, ctx.Settings(), h.outlines, old(h.nodes)[x], h.nodes[x])
    {
      var comp := h.nodes[x].component;
      if comp.cat == Primitive {
        ShapeKeptRefl(h.outlines, h.nodes);
        return;
      }
      var slots := h.nodes[x].slots;
      ShapeKeptRefl(h.outlines, h.nodes);
      for i := 0 to |slots|
        invariant h.Valid() && ctx.processed == old(ctx.processed)
        invariant Untouched(old(h.nodes), h.nodes, old(ctx.processed) - {x})
        invariant ShapeKept(h.outlines, old(h.nodes), h.nodes)
        invariant h.nodes[x].ArrayNode? && h.nodes[x].component == comp && StepPrefix(registry.entries, ctx.Settings(), h.outlines, slots, h.nodes[x].slots, i)
      {
        ghost var prev := h.nodes;
        var p := ProcessArraySlot(x, i, ctx, h);
        UntouchedTrans(old(h.nodes), prev, h.nodes, old(ctx.processed) - {x});
        ShapeKeptTrans(h.outlines, old(h.nodes), prev, h.nodes);
        StepPrefixNext(registry.entries, ctx.Settings(), h.outlines, slots, prev[x].slots, i, p);
      }
    }

    /** One turn of the array loop: objectArray[i] = process(objectArray[i]). */
    method ProcessArraySlot(x: Id, i: nat, ctx: Context, h: Heap) returns (p: Value)
      requires h.Valid() && x in h.nodes && h.nodes[x].ArrayNode? && h.nodes[x].component.cat != Primitive
      requires i < |h.nodes[x].slots| && x in ctx.processed
      modifies h, ctx
      decreases |h.outlines.Keys - ctx.processed|, 2, 0
      ensures h.Valid() && ctx.processed == old(ctx.processed)
      ensures Untouched(old(h.nodes), h.nodes, old(ctx.processed) - {x})
      ensures ShapeKept(h.outlines, old(h.nodes), h.nodes)
      ensures Step(registry.entries, ctx.Settings(), h.outlines, old(h.nodes)[x].slots[i], p)
      ensures h.nodes[x] == ArrayNode(old(h.nodes)[x].component, old(h.nodes)[x].slots[i := p])
    {
      var n := h.nodes[x];
      p := Process(n.slots[i], ctx, h);
      KeptSlotWrite(h.outlines, n, i, p);
      ShapeKeptWrite(h.outlines, old(h.nodes), h.nodes, x, ArrayNode(n.component, n.slots[i := p]));
      h.nodes := h.nodes[x := ArrayNode(n.component, n.slots[i := p])];
    }

    /** processCustomObject: every field of the class chain in turn. */
    method ProcessCustomObject(x: Id, ctx: Context, h: Heap)
      requires h.Valid() && x in h.nodes && h.nodes[x].ObjectNode? && x in ctx.processed
      modifies h, ctx
      decreases |h.outlines.Keys - ctx.processed|, 2
      ensures h.Valid() && ctx.processed == old(ctx.processed)
      ensures Untouched(old(h.nodes), h.nodes, old(ctx.processed) - {x})
      ensures ShapeKept(h.outlines, old(h.nodes), h.nodes)
      ensures ObjectStep(registry.entries, ctx.Settings(), h.outlines, old(h.nodes)[x], h.nodes[x])
    {
      var c := h.nodes[x].klass;
      var fields := h.nodes[x].fields;
      ShapeKeptRefl(h.outlines, h.nodes);
      for i := 0 to |fields|
        invariant h.Valid() && ctx.processed == old(ctx.processed)
        invariant Untouched(old(h.nodes), h.nodes, old(ctx.processed) - {x})
        invariant ShapeKept(h.outlines, old(h.nodes), h.nodes)
        invariant h.nodes[x].ObjectNode? && h.nodes[x].klass == c && FieldsPrefix(registry.entries, ctx.Settings(), h.outlines, fields, h.nodes[x].fields, i)
      {
        ghost var prev := h.nodes;
        var g := ProcessField(x, i, ctx, h);
        UntouchedTrans(old(h.nodes), prev, h.nodes, old(ctx.processed) - {x});
        ShapeKeptTrans(h.outlines, old(h.nodes), prev, h.nodes);
        FieldsPrefixNext(registry.entries, ctx.Settings(), h.outlines, fields, prev[x].fields, i, g);
      }
    }

    /** field.set(object, value) on a field the walker rewrites. */
    static method SetField(x: Id, i: nat, v: Value, h: Heap)
      requires h.Valid() && x in h.nodes && h.nodes[x].ObjectNode? && i < |h.nodes[x].fields|
      requires Rewritten(h.outlines, h.nodes[x].fields[i])
      modifies h
      ensures h.Valid() && ShapeKept(h.outlines, old(h.nodes), h.nodes)
      ensures h.nodes == old(h.nodes)[x := ObjectNode(old(h.nodes)[x].klass, old(h.nodes)[x].fields[i := old(h.nodes)[x].fields[i].(value := v)])]
    {
      var n := h.nodes[x];
      ShapeKeptRefl(h.outlines, h.nodes);
      KeptFieldWrite(h.outlines, n, i, v);
      ShapeKeptWrite(h.outlines, h.nodes, h.nodes, x, ObjectNode(n.klass, n.fields[i := n.fields[i].(value := v)]));
      h.nodes := h.nodes[x := ObjectNode(n.klass, n.fields[i := n.fields[i].(value := v)])];
    }

    /**
     * One turn of the field loop: a null or unreadable field is skipped, a
     * field shouldProcessField selects is processed, and the result is
     * written back when the field can be set (otherwise the access error is
     * logged and the loop goes on).
     */
    method ProcessField(x: Id, i: nat, ctx: Context, h: Heap) returns (g: Field)
      requires h.Valid() && x in h.nodes && h.nodes[x].ObjectNode? && i < |h.nodes[x].fields| && x in ctx.processed
      modifies h, ctx
      decreases |h.outlines.Keys - ctx.processed|, 2, 0
      ensures h.Valid() && ctx.processed == old(ctx.processed)
      ensures Untouched(old(h.nodes), h.nodes, old(ctx.processed) - {x})
      ensures ShapeKept(h.outlines, old(h.nodes), h.nodes)
      ensures FieldStep(registry.entries, ctx.Settings(), h.outlines, old(h.nodes)[x].fields[i], g)
      ensures h.nodes[x] == ObjectNode(old(h.nodes)[x].klass, old(h.nodes)[x].fields[i := g])
    {
      var n := h.nodes[x];
      var f := n.fields[i];
      g := f;
      if f.decl.readable && !f.value.Null? && ShouldProcessField(h.outlines, f.decl, f.value) {
        var p := Process(f.value, ctx, h);
        if f.decl.writable {
          g := f.(value := p);
          ghost var prev := h.nodes;
          SetField(x, i, p, h);
          ShapeKeptTrans(h.outlines, old(h.nodes), prev, h.nodes);
          return;
        }
      }
      ShapeKeptRefl(h.outlines, old(h.nodes));
      assert n.fields[i := g] == n.fields;
    }
  }
}
