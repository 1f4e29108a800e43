/**
 * The object graph the walkers traverse. Immutable JDK values (strings,
 * dates, numbers, enum constants, ...) are leaves held by value; everything
 * the walkers can change in place (lists, sets, other collections, maps,
 * arrays, plain objects) is a node in the heap, reached through a reference.
 */
module JavaHeap {
  import opened Wrappers
  import opened JavaTime

  type Id = nat

  /** What reflection tells the walkers about a class. */
  datatype Category = Primitive | Numeric | BooleanBox | CharacterBox | EnumType | ArrayType | Reference
  datatype JClass = JClass(name: string, cat: Category)

  const StringName := "java.lang.String"
  const ObjectName := "java.lang.Object"
  const UtilDateName := "java.util.Date"
  const SqlDateName := "java.sql.Date"
  const SqlTimeName := "java.sql.Time"
  const SqlTimestampName := "java.sql.Timestamp"
  const LocalDateTimeName := "java.time.LocalDateTime"
  const LocalDateName := "java.time.LocalDate"
  const LocalTimeName := "java.time.LocalTime"
  const ZonedDateTimeName := "java.time.ZonedDateTime"
  const OffsetDateTimeName := "java.time.OffsetDateTime"
  const InstantName := "java.time.Instant"
  const ArrayListName := "java.util.ArrayList"
  const LinkedHashSetName := "java.util.LinkedHashSet"

  function DateClassName(c: DateClass): string
  {
    match c
    case UtilDate => UtilDateName
    case SqlDate => SqlDateName
    case SqlTime => SqlTimeName
    case SqlTimestamp => SqlTimestampName
  }

  /**
   * An immutable value. Opaque covers every other such class (boxed numbers,
   * Boolean, Character, LocalDate, LocalTime, enum constants, ...): the walkers
   * only ever look at its class.
   */
  datatype Leaf =
    | Text(text: string)
    | LocalDT(ldt: LocalDateTime)
    | ZonedDT(zdt: ZonedDateTime)
    | OffsetDT(odt: OffsetDateTime)
    | Moment(instant: Instant)
    | LegacyDate(date: Date)
    | Opaque(cls: JClass, bits: int)

  /** Object.getClass() of a leaf. */
  function ClassOf(l: Leaf): (c: JClass)
    ensures !l.Opaque? ==> c.cat == Reference
  {
    match l
    case Text(_) => JClass(StringName, Reference)
    case LocalDT(_) => JClass(LocalDateTimeName, Reference)
    case ZonedDT(_) => JClass(ZonedDateTimeName, Reference)
    case OffsetDT(_) => JClass(OffsetDateTimeName, Reference)
    case Moment(_) => JClass(InstantName, Reference)
    case LegacyDate(d) => JClass(DateClassName(d.cls), Reference)
    case Opaque(c, _) => c
  }

  /** A collection class, and whether its public no-argument constructor can be called. */
  datatype CollClass = CollClass(name: string, constructible: bool)

  /**
   * A value stored in a variable, a field, a slot or an entry. Built is a
   * collection that a walker created itself; it is stored in exactly one
   * place, so it is held by value.
   */
  datatype Value =
    | Null
    | Atom(leaf: Leaf)
    | Ref(id: Id)
    | Built(cls: CollClass, list: bool, items: seq<Value>)

  /** A declared field: its type, its @Time annotation (with its pattern) and whether reflection may read and write it. */
  datatype FieldDecl = FieldDecl(name: string, declared: JClass, time: Option<string>, readable: bool, writable: bool)
  datatype Field = Field(decl: FieldDecl, value: Value)

  datatype Node =
    | ListNode(cls: CollClass, items: seq<Value>)           // a java.util.List
    | SetNode(cls: CollClass, elems: set<Value>)            // a java.util.Set
    | QueueNode(cls: CollClass, items: seq<Value>)          // any other java.util.Collection
    | MapNode(mapClass: string, entries: map<Value, Value>) // a java.util.Map
    | ArrayNode(component: JClass, slots: seq<Value>)       // an array; primitive when its component is
    | ObjectNode(klass: JClass, fields: seq<Field>)           // anything else, with every field of its class chain

  /** What never changes about a node once allocated: its kind, its class and, for an array, its length. */
  datatype Kind = ListKind | SetKind | QueueKind | MapKind | ArrayKind | ObjectKind
  datatype Outline = Outline(kind: Kind, cls: JClass, length: nat)

  /** The kind of a node and its getClass(); an array's class is its component's followed by []. */
  function OutlineOf(n: Node): (o: Outline)
    ensures o.kind == ArrayKind <==> n.ArrayNode?
    ensures n.ArrayNode? ==> o.length == |n.slots|
  {
    match n
    case ListNode(c, _) => Outline(ListKind, JClass(c.name, Reference), 0)
    case SetNode(c, _) => Outline(SetKind, JClass(c.name, Reference), 0)
    case QueueNode(c, _) => Outline(QueueKind, JClass(c.name, Reference), 0)
    case MapNode(c, _) => Outline(MapKind, JClass(c, Reference), 0)
    case ArrayNode(c, slots) => Outline(ArrayKind, JClass(c.name + "[]", ArrayType), |slots|)
    case ObjectNode(c, _) => Outline(ObjectKind, c, 0)
  }

  /**
   * The heap: every node by its identity, next to what the JVM fixes when it
   * allocates an object (its class, hence its kind), which no walker changes.
   */
  class Heap {
    const outlines: map<Id, Outline>
    var nodes: map<Id, Node>

    ghost predicate Valid()
      reads this
    {
      nodes.Keys == outlines.Keys && forall y :: y in nodes ==> OutlineOf(nodes[y]) == outlines[y]
    }

    constructor (nodes: map<Id, Node>)
      ensures this.nodes == nodes && Valid()
    {
      this.nodes := nodes;
      this.outlines := map y | y in nodes :: OutlineOf(nodes[y]);
    }
  }

  /** The nodes in s are untouched from a to b. */
  ghost predicate Untouched(a: map<Id, Node>, b: map<Id, Node>, s: set<Id>)
  {
    forall y :: y in s && y in a ==> y in b && b[y] == a[y]
  }

  /**
   * What a walk keeps of a node n that it turns into m: its kind and class,
   * the length of a list or an array, the keys of a map and the field
   * declarations of an object; any other collection and a primitive array
   * are kept whole.
   */
  ghost predicate SameShape(n: Node, m: Node)
  {
    match n
    case ListNode(c, items) => m.ListNode? && m.cls == c && |m.items| == |items|
    case SetNode(c, _) => m.SetNode? && m.cls == c
    case QueueNode(_, _) => m == n
    case MapNode(c, entries) => m.MapNode? && m.mapClass == c && m.entries.Keys == entries.Keys
    case ArrayNode(c, slots) => m.ArrayNode? && m.component == c && |m.slots| == |slots| && (c.cat == Primitive ==> m == n)
    case ObjectNode(c, fields) =>
      m.ObjectNode? && m.klass == c && |m.fields| == |fields|
      && forall j :: 0 <= j < |fields| ==> m.fields[j].decl == fields[j].decl
  }

  predicate IsCollection(outlines: map<Id, Outline>, v: Value)
  {
    v.Built? || (v.Ref? && v.id in outlines && outlines[v.id].kind in {ListKind, SetKind, QueueKind})
  }

  predicate IsMap(outlines: map<Id, Outline>, v: Value)
  {
    v.Ref? && v.id in outlines && outlines[v.id].kind == MapKind
  }

  /** Object.getClass() of a value that is not null; a reference that leads nowhere reads as Object. */
  function ClassOfValue(outlines: map<Id, Outline>, v: Value): JClass
    requires !v.Null?
  {
    match v
    case Atom(l) => ClassOf(l)
    case Built(c, _, _) => JClass(c.name, Reference)
    case Ref(x) => if x in outlines then outlines[x].cls else JClass(ObjectName, Reference)
  }

  /**
   * createSimilarCollection: a new instance of the original's class when it
   * can be constructed, else a LinkedHashSet for a set and an ArrayList for
   * anything else. The second component says whether the result is a List.
   */
  function CreateSimilarCollection(original: CollClass, isSet: bool): (r: (CollClass, bool))
    ensures original.constructible ==> r.0 == original
    ensures !original.constructible && isSet ==> r.0.name == LinkedHashSetName && !r.1
    ensures !original.constructible && !isSet ==> r.0.name == ArrayListName && r.1
  {
    if original.constructible then (original, false)
    else if isSet then (CollClass(LinkedHashSetName, true), false)
    else (CollClass(ArrayListName, true), true)
  }
}
