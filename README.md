# Kronos time-zone conversion, modelled in Dafny

Kronos is a Spring Boot starter. It lets a web backend keep all its dates and
times in one zone (the backend zone, UTC by default) while each client works
in its own zone. The client sends its zone in a request header, `X-Time-Zone`
by default. A servlet interceptor stores that zone in a thread-bound holder.
An AOP interceptor around controller methods then converts every time value
in the arguments from the client zone to the backend zone. It converts every
time value in the result back to the client zone.

The conversions are done by type converters, one per value class. These are:

- `LocalDateTime`: shift the wall clock;
- `ZonedDateTime`, `OffsetDateTime`: keep the instant, take the new zone;
- `Instant`: unchanged;
- `java.util.Date`: keep the instant;
- `String`: parse with a pattern, shift, format again; text that does not
  parse comes back unchanged.

Two walkers apply the converters to whole object graphs:

- **The newer walker, `ObjectProcessor`**, used by kronos-core's
  `TimeZoneConverter`. It descends into lists, sets, other collections, maps,
  arrays and application objects. It rewrites them in place where the
  container allows it, and uses a set of the objects on the current path to
  stop on cycles.
- **The older walker**, kronos-spring's `converter.TimeZoneConverter`, has two
  families:
  - `convertToBackendTimeZone`/`convertToClientTimeZone` have no cycle guard.
    They only write `@Time` fields, and they return `null` for every
    collection and map.
  - `processParameter` guards collections, maps and objects, but not arrays.

The model is a set of Dafny modules, one per source class:

- **Value types.** Zones, date-time values, leaves, heap nodes and
  converters are values.
- **Mutable state becomes classes.** The heap of objects, the conversion
  context, the registries, the thread-bound holder and the two walkers are
  classes whose methods update their fields.
- **The heap.** It maps object ids to nodes: list, set, other collection,
  map, array, or object with its fields along the class chain. The walkers'
  loops are `while`/`for` loops over it.
- **Contracts.** Every walker method is proved against specification
  predicates and a whole-heap invariant:
  - `Step`/`NodeStep` in `ObjectProcessor`, with the invariant `ShapeKept`;
  - `ParamStep`/`NodeParam` for `processParameter`, with the invariant
    `ParamShapeKept`;
  - `ConvertedValue`/`OnlyTimeFields` for `convertTo*`, and
    `ConvertedLeafFields` for an object whose fields hold only nulls and
    leaves.
  `Step` and `ParamStep` follow a value into the collections the walker
  builds. A reference comes back as the same reference, except that a
  non-empty collection other than a list or set may come back rebuilt.
  The invariants keep every node's kind and class, the length of lists and
  arrays, the keys of maps, the declarations of fields, and every field the
  walker may not set.
- **Shared nodes.** Both walkers remember only the objects on the current
  path. An object reached along two paths is therefore walked twice, and
  its time values are shifted twice. The contracts state the node being
  processed exactly. Nodes reached through references are held only to the
  invariants.
- **The JVM stack.** The older walker can recurse for ever, so the stack is
  explicit. `depth` is how many more nested calls fit. A call with none left
  ends in `StackOverflowError`.

`supportedType` of each converter is the `SupportedType` constant of its
module, together with `TypeConverters.SupportedType`.

Points of the code that the model keeps as they are:

- `getAllFields` keeps every declared field of every class below
  `java.lang.Object`, including a subclass field that shadows a superclass
  field of the same name. Both fields are walked.
- Both AOP interceptors call `getID()` on a `java.time.ZoneId`. `ZoneId`
  has no such method; the model reads it as `getId()`, so the zone is
  looked up again by its own id.
- kronos-spring's interceptor answers `""` for a method declared by
  `java.lang.Object` only when the method carries `@GetMapping` and returned
  a non-null result. That is the order of the code's tests.
- Through `convertToClientTimeZone`, a `@GetMapping` method that returns a
  collection or a map answers `null`. That is what the older walker returns
  for them.
- kronos-spring's interceptor sends an argument through
  `convertToBackendTimeZone` once per `@Time` annotation on its parameter,
  each time from the original argument.

## Model

| member | source | states |
|---|---|---|
| LocalDateTimeConverter.Convert | kronos-spring/src/main/java/com/kronos/spring/support/converters/LocalDateTimeConverter.java:16-29 | null stays null; otherwise the wall clock moves by the difference of the two zone offsets |
| LocalDateTimeConverter.SameInstant | kronos-spring/src/main/java/com/kronos/spring/support/converters/LocalDateTimeConverter.java:16-29 | the converted wall clock read in the target zone names the same instant as the input read in the source zone |
| LocalDateTimeConverter.SameZoneIsIdentity | kronos-spring/src/main/java/com/kronos/spring/support/converters/LocalDateTimeConverter.java:16-29 | converting between a zone and itself changes nothing |
| LocalDateTimeConverter.RoundTrip | kronos-spring/src/main/java/com/kronos/spring/support/converters/LocalDateTimeConverter.java:16-29 | converting from a to b and back from b to a gives the original value, whatever patterns are passed |
| LocalDateTimeConverter.FormatIgnored | kronos-spring/src/main/java/com/kronos/spring/support/converters/LocalDateTimeConverter.java:16-29 | the pattern argument plays no part in the result |
| ZonedDateTimeConverter.Convert | kronos-spring/src/main/java/com/kronos/spring/support/converters/ZonedDateTimeConverter.java:15-22 | null stays null; otherwise the same instant, now in the target zone |
| ZonedDateTimeConverter.SourceZoneAndFormatIgnored | kronos-spring/src/main/java/com/kronos/spring/support/converters/ZonedDateTimeConverter.java:15-22 | the source zone and the pattern play no part in the result |
| ZonedDateTimeConverter.Idempotent | kronos-spring/src/main/java/com/kronos/spring/support/converters/ZonedDateTimeConverter.java:15-22 | converting an already converted value into the same target zone changes nothing more |
| OffsetDateTimeConverter.Convert | kronos-spring/src/main/java/com/kronos/spring/support/converters/OffsetDateTimeConverter.java:15-17 | the same instant at the target zone's offset |
| OffsetDateTimeConverter.SourceZoneAndFormatIgnored | kronos-spring/src/main/java/com/kronos/spring/support/converters/OffsetDateTimeConverter.java:15-17 | the source zone and the pattern play no part in the result |
| InstantConverter.Convert | kronos-spring/src/main/java/com/kronos/spring/support/converters/InstantConverter.java:15-18 | an instant, or null, is returned unchanged whatever the zones |
| StringDateTimeConverter.Parse | kronos-spring/src/main/java/com/kronos/spring/support/converters/StringDateTimeConverter.java:26-34 | zone-aware parsing wins when it succeeds; else the text is read as a wall clock placed in the source zone; it fails exactly when both parses fail |
| StringDateTimeConverter.Convert | kronos-spring/src/main/java/com/kronos/spring/support/converters/StringDateTimeConverter.java:17-45 | null stays null and null comes back only for null; blank text comes back as it is; parsable text, zoned or not, with a valid pattern and a formattable result becomes the parsed instant formatted in the target zone; a bad pattern, unparsable text or a formatting failure gives the input back; any changed result is of that form |
| StringDateTimeConverter.SourceZoneIgnoredWhenZoned | kronos-spring/src/main/java/com/kronos/spring/support/converters/StringDateTimeConverter.java:28-29 | text that carries its own zone converts the same whatever source zone is given |
| StringDateTimeConverter.LocalTextShifted | kronos-spring/src/main/java/com/kronos/spring/support/converters/StringDateTimeConverter.java:32-40 | zone-less text becomes the instant of its wall clock in the source zone, formatted in the target zone |
| StringDateTimeConverter.RoundTrip | kronos-spring/src/main/java/com/kronos/spring/support/converters/StringDateTimeConverter.java:17-45 | for a zone-less pattern whose format and parse agree, text converted from a to b and back to a is the original text |
| LegacyDateConverter.Convert | kronos-spring/src/main/java/com/kronos/spring/support/converter/impl/DateConverter.java:18-31 | null stays null; a java.sql.Date or java.sql.Time throws UnsupportedOperationException from toInstant(), exactly those; any other Date becomes a java.util.Date holding the same instant, java.sql.Timestamp included |
| LegacyDateConverter.ZonesAndFormatIgnored | kronos-spring/src/main/java/com/kronos/spring/support/converter/impl/DateConverter.java:18-31 | neither zone nor the pattern changes the result |
| LegacyZonedDateTimeConverter.Convert | kronos-spring/src/main/java/com/kronos/spring/support/converter/impl/ZonedDateTimeConverter.java:15-22 | null stays null; otherwise the same instant in the target zone |
| LegacyZonedDateTimeConverter.AgreesWithCurrent | kronos-spring/src/main/java/com/kronos/spring/support/converter/impl/ZonedDateTimeConverter.java:15-22 | the older ZonedDateTime converter and the newer one give equal results on every input |
| LegacyOffsetDateTimeConverter.Convert | kronos-spring/src/main/java/com/kronos/spring/support/converter/impl/OffsetDateTimeConverter.java:15-17 | the same instant at the target zone's offset |
| LegacyOffsetDateTimeConverter.AgreesWithCurrent | kronos-spring/src/main/java/com/kronos/spring/support/converter/impl/OffsetDateTimeConverter.java:15-17 | the older OffsetDateTime converter and the newer one give equal results on every input |
| TypeConverters.Apply | kronos-core/src/main/java/com/kronos/spring/support/TypeConverter.java:20 | defined where convert returns (not Unsupported: the Date converter on a java.sql.Date or java.sql.Time); a built-in converter leaves values of other classes alone and keeps the class, except that the Date converter yields a java.util.Date with the same instant |
| TypeConverters.ApplyByClass | kronos-core/src/main/java/com/kronos/spring/support/TypeConverter.java:20-26 | looked up by the value's own class in a registry keyed by supportedType: a LocalDateTime is shifted, a ZonedDateTime, OffsetDateTime or Date keeps its instant, an Instant is kept, and a String goes through the String converter |
| TypeConverters.ConverterRegistry.Register | kronos-core/src/main/java/com/kronos/spring/support/TimeZoneConverter.java:48-50 | put: the class now maps to the new converter, every other entry is kept |
| JavaText.Trim | kronos-spring/src/main/java/com/kronos/spring/support/converters/StringDateTimeConverter.java:18 | String.trim: no longer than the input, empty exactly when every character is at most a space, otherwise starting and ending above a space |
| JavaHeap.CreateSimilarCollection | kronos-spring/src/main/java/com/kronos/spring/support/ObjectProcessor.java:284-290 | a class with a public no-argument constructor is instantiated again; otherwise a LinkedHashSet for a set and an ArrayList for anything else |
| JavaHeap.OutlineOf | kronos-spring/src/main/java/com/kronos/spring/support/ObjectProcessor.java:61 | a node is an array exactly when its class is an array class, and an array's length is its slot count |
| ClassFields.GetAllFields | kronos-spring/src/main/java/com/kronos/spring/support/ObjectProcessor.java:256-266 | the loop collects the declared fields of each class of the chain, subclass first, up to java.lang.Object |
| ClassFields.FieldPosition | kronos-spring/src/main/java/com/kronos/spring/support/converter/TimeZoneConverter.java:507-518 | field j of class i in the chain sits at position Offset(i) + j of the collected list |
| ClassFields.OffsetShift | kronos-spring/src/main/java/com/kronos/spring/support/converter/TimeZoneConverter.java:507-518 | the fields of class i start after all the fields of the classes before it |
| ConversionContext.Context.constructor | kronos-core/src/main/java/com/kronos/spring/support/ConversionContext.java:18-23 | the zones and pattern given, and nothing processed yet |
| ConversionContext.Context.Settings | kronos-core/src/main/java/com/kronos/spring/support/ConversionContext.java:25-27 | the three getters: source zone, target zone and default pattern |
| ConversionContext.Context.MarkProcessed | kronos-core/src/main/java/com/kronos/spring/support/ConversionContext.java:33-35 | the object is now processed; every other object's status is unchanged |
| ConversionContext.Context.UnmarkProcessed | kronos-core/src/main/java/com/kronos/spring/support/ConversionContext.java:37-39 | the object is no longer processed; every other object's status is unchanged |
| ConversionContext.MarkThenUnmark | kronos-core/src/main/java/com/kronos/spring/support/ConversionContext.java:29-39 | marking an unprocessed object and unmarking it again leaves the processed set as it was |
| TimeZoneContext.TimeZoneContextHolder.SetTimeZone | kronos-spring/src/main/java/com/kronos/spring/support/TimeZoneContextHolder.java:13-15 | succeeds exactly when ZoneId.of knows the id, after which getTimeZone gives that zone; an unknown id throws and leaves the holder as it was |
| TimeZoneContext.TimeZoneContextHolder.GetTimeZone | kronos-spring/src/main/java/com/kronos/spring/support/TimeZoneContextHolder.java:17-19 | the stored zone, or UTC when none is stored; either way a zone ZoneId.of gives back for its own id |
| TimeZoneContext.TimeZoneContextHolder.Clear | kronos-spring/src/main/java/com/kronos/spring/support/TimeZoneContextHolder.java:21-23 | nothing is stored any more, so getTimeZone answers UTC |
| TimeZoneContext.ChosenZoneId | kronos-spring/src/main/java/com/kronos/spring/support/TimeZoneInterceptor.java:25-32 | the value of the first header whose name matches clientZoneIdHeader in any letter case, when it has text; the configured default client zone when there is no such header or its value is blank |
| TimeZoneContext.HeaderIndex | kronos-spring/src/main/java/com/kronos/spring/support/TimeZoneInterceptor.java:25 | the position of the first header whose name matches, case ignored; no header before it matches; the length of the list when none matches |
| TimeZoneContext.GetHeader | kronos-spring/src/main/java/com/kronos/spring/support/TimeZoneInterceptor.java:25 | null exactly when no header name matches, case ignored; otherwise the value of a header whose name matches |
| TimeZoneContext.HeaderNameCaseIgnored | kronos-spring/src/main/java/com/kronos/spring/support/TimeZoneInterceptor.java:25 | names that differ only in letter case find the same header |
| TimeZoneContext.LowerCaseHeaderFound | kronos-spring/src/main/java/com/kronos/spring/support/TimeZoneInterceptor.java:25-28 | a request carrying x-time-zone: Europe/Paris runs in Europe/Paris under the default X-Time-Zone setting |
| TimeZoneContext.TimeZoneInterceptor.PreHandle | kronos-spring/src/main/java/com/kronos/spring/support/TimeZoneInterceptor.java:23-35 | returns true and stores the chosen zone when ZoneId.of accepts it; throws otherwise, leaving the holder unchanged |
| TimeZoneContext.TimeZoneInterceptor.AfterCompletion | kronos-spring/src/main/java/com/kronos/spring/support/TimeZoneInterceptor.java:38-41 | the holder is cleared and answers UTC again |
| TimeZoneContext.DefaultClientZone | kronos-spring/src/main/java/com/kronos/spring/config/KronosProperty.java:24-39 | with the default properties and no header, a request runs in Asia/Shanghai (UTC+8) |
| KronosTimeZoneConverter.DefaultsWellKeyed | kronos-core/src/main/java/com/kronos/spring/support/TimeZoneConverter.java:84-91 | the six default converters are each registered under the class they support, and under no other class |
| KronosTimeZoneConverter.RegisterDefaultConverters | kronos-core/src/main/java/com/kronos/spring/support/TimeZoneConverter.java:84-91 | the six puts leave the map equal to the old map overridden by the six defaults |
| KronosTimeZoneConverter.PutCustoms | kronos-core/src/main/java/com/kronos/spring/support/TimeZoneConverter.java:72-76 | the keys are the old keys plus every custom converter's supported class; each entry is either the old one or one of the custom converters |
| KronosTimeZoneConverter.LastCustomWins | kronos-core/src/main/java/com/kronos/spring/support/TimeZoneConverter.java:73-75 | among custom converters for the same class, the last in the list is the one registered |
| KronosTimeZoneConverter.UnclaimedKept | kronos-core/src/main/java/com/kronos/spring/support/TimeZoneConverter.java:73-75 | a class no custom converter claims keeps its earlier converter |
| KronosTimeZoneConverter.PutCustomsWellKeyed | kronos-core/src/main/java/com/kronos/spring/support/TimeZoneConverter.java:74 | each converter is registered under its own supportedType, so this keying stays true after the custom converters are added |
| KronosTimeZoneConverter.LastFor | kronos-core/src/main/java/com/kronos/spring/support/TimeZoneConverter.java:73-75 | given one custom converter for a class, the position of the last one for that class |
| KronosTimeZoneConverter.InitialConvertersShape | kronos-core/src/main/java/com/kronos/spring/support/TimeZoneConverter.java:65-79 | after initialisation each default class keeps its default converter unless a custom converter claims it, in which case a custom converter holds it; the registry stays keyed by supported class |
| KronosTimeZoneConverter.InitializeTypeConverters | kronos-core/src/main/java/com/kronos/spring/support/TimeZoneConverter.java:65-79 | a fresh registry holding the defaults followed by the custom converters in list order (none when the list is null) |
| KronosTimeZoneConverter.TimeZoneConverter.constructor | kronos-core/src/main/java/com/kronos/spring/support/TimeZoneConverter.java:24-29 | once ZoneId.of has accepted the configured id: that zone as the backend zone, the pattern from the properties, the registry initialised and shared with a fresh ObjectProcessor |
| KronosTimeZoneConverter.NewTimeZoneConverter | kronos-core/src/main/java/com/kronos/spring/support/TimeZoneConverter.java:24-29 | the whole constructor call: DateTimeException exactly when ZoneId.of rejects the configured backend id; otherwise a fresh converter with that zone, the pattern and the initialised registry |
| KronosTimeZoneConverter.TimeZoneConverter.RegisterConverter | kronos-core/src/main/java/com/kronos/spring/support/TimeZoneConverter.java:48-50 | the entry is put into the shared map, so the processor sees it from then on |
| KronosTimeZoneConverter.TimeZoneConverter.ConvertTimeZone | kronos-core/src/main/java/com/kronos/spring/support/TimeZoneConverter.java:56-63 | null or equal zones: the object comes back and nothing changes; otherwise one walk with a fresh context: the result is Step of the value, the object passed in changes as NodeStep says, and every node of the heap keeps its shape (ShapeKept) |
| KronosTimeZoneConverter.TimeZoneConverter.ToBackendTimeZone | kronos-core/src/main/java/com/kronos/spring/support/TimeZoneConverter.java:34-36 | Converted from the client zone to the backend zone: Step of the value, NodeStep of the object passed in, and ShapeKept for the whole heap |
| KronosTimeZoneConverter.TimeZoneConverter.ToClientTimeZone | kronos-core/src/main/java/com/kronos/spring/support/TimeZoneConverter.java:41-43 | Converted from the backend zone to the client zone: Step of the value, NodeStep of the object passed in, and ShapeKept for the whole heap |
| KronosTimeZoneConverter.LocalDateTimeFieldRoundTrip | kronos-core/src/main/java/com/kronos/spring/support/TimeZoneConverter.java:34-43 | toClientTimeZone after toBackendTimeZone gives back the original value of a readable, settable LocalDateTime field of the object passed in, with the built-in LocalDateTime converter registered |
| ObjectProcessor.Processor.constructor | kronos-spring/src/main/java/com/kronos/spring/support/ObjectProcessor.java:23-26 | the processor works on the converter map it is given |
| ObjectProcessor.Processor.ProcessSimpleType | kronos-spring/src/main/java/com/kronos/spring/support/ObjectProcessor.java:77-83 | a leaf whose class has no registered converter comes back unchanged; otherwise the converter is applied with the context's zones and pattern, unless it is Unsupported on the leaf |
| ObjectProcessor.Processor.Process | kronos-spring/src/main/java/com/kronos/spring/support/ObjectProcessor.java:31-71 | null stays null; a leaf is converted; an object already on the path is returned untouched; an object off the path is processed by kind (NodeStep); the path set is restored; nodes on the path are not changed; every node of the heap keeps its shape (ShapeKept) |
| ObjectProcessor.Processor.ProcessNode | kronos-spring/src/main/java/com/kronos/spring/support/ObjectProcessor.java:48-70 | with the object marked: the dispatch on collection, map, array or application object, then the unmarking; the node changes as its kind's step says; every node of the heap keeps its shape (ShapeKept) |
| ObjectProcessor.Processor.ProcessList | kronos-spring/src/main/java/com/kronos/spring/support/ObjectProcessor.java:94-98 | the same list, each slot holding the processed form of its original item; every node of the heap keeps its shape (ShapeKept) |
| ObjectProcessor.Processor.ProcessListSlot | kronos-spring/src/main/java/com/kronos/spring/support/ObjectProcessor.java:96 | list.set(i, process(list.get(i))): only slot i changes, to the processed item; every node of the heap keeps its shape (ShapeKept) |
| ObjectProcessor.Processor.ProcessSet | kronos-spring/src/main/java/com/kronos/spring/support/ObjectProcessor.java:99-106 | the same set, of the same class, now holding exactly the processed elements; every node of the heap keeps its shape (ShapeKept) |
| ObjectProcessor.Processor.ProcessSetElements | kronos-spring/src/main/java/com/kronos/spring/support/ObjectProcessor.java:100-104 | the new set is the image of the old elements under processing; every node of the heap keeps its shape (ShapeKept) |
| ObjectProcessor.Processor.ProcessQueue | kronos-spring/src/main/java/com/kronos/spring/support/ObjectProcessor.java:107-114 | any other collection: itself when empty, else a new collection of a similar class holding the processed items in order; the original is not changed; every node of the heap keeps its shape (ShapeKept) |
| ObjectProcessor.Processor.ProcessCollectionItems | kronos-spring/src/main/java/com/kronos/spring/support/ObjectProcessor.java:109-112 | the processed items in iteration order, as many as there were; every node of the heap keeps its shape (ShapeKept) |
| ObjectProcessor.Processor.ProcessMap | kronos-spring/src/main/java/com/kronos/spring/support/ObjectProcessor.java:123-138 | the same map, with the same keys, each bound to its processed value; every node of the heap keeps its shape (ShapeKept) |
| ObjectProcessor.Processor.ProcessMapValues | kronos-spring/src/main/java/com/kronos/spring/support/ObjectProcessor.java:128-135 | a map with the same keys, each bound to the processed form of its value; every node of the heap keeps its shape (ShapeKept) |
| ObjectProcessor.Processor.ProcessArray | kronos-spring/src/main/java/com/kronos/spring/support/ObjectProcessor.java:143-154 | a primitive array is unchanged; an object array keeps its component type and each slot holds its processed value; every node of the heap keeps its shape (ShapeKept) |
| ObjectProcessor.Processor.ProcessArraySlot | kronos-spring/src/main/java/com/kronos/spring/support/ObjectProcessor.java:149-151 | only slot i changes, to its processed value; every node of the heap keeps its shape (ShapeKept) |
| ObjectProcessor.Processor.ProcessCustomObject | kronos-spring/src/main/java/com/kronos/spring/support/ObjectProcessor.java:159-185 | the same object of the same class; each field shouldProcessField selects and that can be read and set holds its processed value; every other field is unchanged; every node of the heap keeps its shape (ShapeKept) |
| ObjectProcessor.Processor.ProcessField | kronos-spring/src/main/java/com/kronos/spring/support/ObjectProcessor.java:163-182 | a null, unreadable or unselected field is kept; a selected field is processed and written when it can be set, else kept with its old value; every node of the heap keeps its shape (ShapeKept) |
| ObjectProcessor.ShapeKeptTrans | kronos-spring/src/main/java/com/kronos/spring/support/ObjectProcessor.java:31-71 | two walks that each keep every node's shape and every field they may not rewrite together keep them too |
| ObjectProcessor.ShapeKeptWrite | kronos-spring/src/main/java/com/kronos/spring/support/ObjectProcessor.java:96-180 | overwriting one node with a node that keeps its shape, as list.set, map.put, Array.set and field.set of a selected field do, keeps the whole-heap shape invariant |
| LegacyTimeZoneConverter.TimeZoneConverter.constructor | kronos-spring/src/main/java/com/kronos/spring/support/converter/TimeZoneConverter.java:34-40 | the four converters for String, Date, LocalDateTime and ZonedDateTime, an empty processed set, the configured backend zone and pattern |
| LegacyTimeZoneConverter.TimeZoneConverter.RegisterConverter | kronos-spring/src/main/java/com/kronos/spring/support/converter/TimeZoneConverter.java:42-44 | put, replacing whatever was registered for that class |
| LegacyTimeZoneConverter.TimeZoneConverter.Direction | kronos-spring/src/main/java/com/kronos/spring/support/converter/TimeZoneConverter.java:114-119 | towards the backend: client zone to backend zone; towards the client: the reverse |
| LegacyTimeZoneConverter.TimeZoneConverter.ProcessBasicType | kronos-spring/src/main/java/com/kronos/spring/support/converter/TimeZoneConverter.java:109-120 | a leaf whose class has no converter is returned as it is; otherwise its converter runs in the given direction with the default pattern, unless it is Unsupported on the leaf |
| LegacyTimeZoneConverter.TimeZoneConverter.BasicTypeRoundTrip | kronos-spring/src/main/java/com/kronos/spring/support/converter/TimeZoneConverter.java:109-120 | with the built-in converters, to the backend and back: a LocalDateTime and a java.util.Date come back equal, a ZonedDateTime comes back at the same instant in the client zone, an Instant is never touched |
| LegacyTimeZoneConverter.TimeZoneConverter.ConvertedValue | kronos-spring/src/main/java/com/kronos/spring/support/converter/TimeZoneConverter.java:49-71 | null for every collection and map; the object itself for every other object; the converted leaf for a leaf |
| LegacyTimeZoneConverter.TimeZoneConverter.ConvertTo | kronos-spring/src/main/java/com/kronos/spring/support/converter/TimeZoneConverter.java:49-98 | returns ConvertedValue when it returns; only registered @Time fields ever change; null and leaves change nothing; an object whose fields are nulls and leaves gets exactly ConvertedLeafFields, returns when every field is readable and every registered @Time leaf is accepted by its converter and writable (FieldsSettable) and the stack has room for one more call, and throws when a field fails that test; a collection or map that holds itself throws |
| LegacyTimeZoneConverter.TimeZoneConverter.ConvertItems | kronos-spring/src/main/java/com/kronos/spring/support/converter/TimeZoneConverter.java:54-57 | the forEach over a list's items; only @Time fields change; an item that holds itself makes it throw |
| LegacyTimeZoneConverter.TimeZoneConverter.ConvertElements | kronos-spring/src/main/java/com/kronos/spring/support/converter/TimeZoneConverter.java:54-57 | the forEach over a set's elements; only @Time fields change; an element that holds itself makes it throw |
| LegacyTimeZoneConverter.TimeZoneConverter.ConvertMapValues | kronos-spring/src/main/java/com/kronos/spring/support/converter/TimeZoneConverter.java:59-62 | the forEach over a map's values; only @Time fields change; a value that holds itself makes it throw |
| LegacyTimeZoneConverter.TimeZoneConverter.ConvertFields | kronos-spring/src/main/java/com/kronos/spring/support/converter/TimeZoneConverter.java:125-196 | doWithFields over every field of the class chain; only registered @Time fields change; when the fields are nulls and leaves, the object afterwards holds ConvertedLeafFields of its fields, and the call throws exactly when a field is unreadable or a registered @Time leaf is rejected by its converter (a java.sql.Date or java.sql.Time under DateConverter) or unwritable, given room on the stack |
| LegacyTimeZoneConverter.TimeZoneConverter.ConvertField | kronos-spring/src/main/java/com/kronos/spring/support/converter/TimeZoneConverter.java:131-193 | an unreadable field throws IllegalStateException; a null or un-annotated field is left alone; a registered @Time leaf that its converter rejects (ConversionUnsupported) throws UnsupportedOperationException and is not written; any other registered @Time leaf is converted with the annotation's pattern and written, or throws IllegalStateException when it cannot be set; any other leaf changes nothing and returns when the stack has room |
| LegacyTimeZoneConverter.TimeZoneConverter.ConvertedLeafField | kronos-spring/src/main/java/com/kronos/spring/support/converter/TimeZoneConverter.java:180-193 | a field that is not a registered @Time field, is null, or holds a value its converter rejects, is kept; a value stays null or a leaf |
| LegacyTimeZoneConverter.TimeZoneConverter.LocalDateTimeFieldsRoundTrip | kronos-spring/src/main/java/com/kronos/spring/support/converter/TimeZoneConverter.java:49-98 | convertToClientTimeZone after convertToBackendTimeZone on an object whose fields are nulls and leaves gives every LocalDateTime field back its original value, with the built-in LocalDateTime converter |
| LegacyTimeZoneConverter.CustomObjectsCompared | kronos-spring/src/main/java/com/kronos/spring/support/converter/TimeZoneConverter.java:485-495 | every class the newer walker counts as an application object the older one does too; java.net.URI is one only for the older walker |
| LegacyTimeZoneConverter.MaskFields | kronos-spring/src/main/java/com/kronos/spring/support/converter/TimeZoneConverter.java:138-141 | the same field declarations, in order, with every field that is not a registered @Time field kept as it is |
| LegacyTimeZoneConverter.Masked | kronos-spring/src/main/java/com/kronos/spring/support/converter/TimeZoneConverter.java:125-196 | collections, maps and arrays are kept whole; an object keeps its class |
| LegacyTimeZoneConverter.OnlyTimeFieldsKeeps | kronos-spring/src/main/java/com/kronos/spring/support/converter/TimeZoneConverter.java:125-196 | after convertTo*, every collection, map and array is as it was; every object keeps its class, its field declarations and all fields except registered @Time fields |
| LegacyTimeZoneConverter.OnlyTimeFieldsTrans | kronos-spring/src/main/java/com/kronos/spring/support/converter/TimeZoneConverter.java:125-196 | two calls that only change @Time fields together only change @Time fields |
| LegacyTimeZoneConverter.MaskedWrite | kronos-spring/src/main/java/com/kronos/spring/support/converter/TimeZoneConverter.java:192 | the field.set of processFields writes only what OnlyTimeFields allows |
| LegacyTimeZoneConverter.ContainsItselfKept | kronos-spring/src/main/java/com/kronos/spring/support/converter/TimeZoneConverter.java:54-62 | a collection or map that holds itself still does after convertTo* |
| LegacyTimeZoneConverter.TimeZoneConverter.LeafParam | kronos-spring/src/main/java/com/kronos/spring/support/converter/TimeZoneConverter.java:222-235 | without forceProcess, or for a leaf that is neither a time type nor a String, or with no converter for its class, the leaf is returned as it is |
| LegacyTimeZoneConverter.TimeZoneConverter.ProcessParameter | kronos-spring/src/main/java/com/kronos/spring/support/converter/TimeZoneConverter.java:214-258 | only a stack overflow escapes; nodes on the path are not changed; null, unguarded objects and objects already on the path come back untouched; otherwise NodeParam; an object array that reaches itself throws; every node of the heap keeps its shape (ParamShapeKept) |
| LegacyTimeZoneConverter.TimeZoneConverter.ProcessMarked | kronos-spring/src/main/java/com/kronos/spring/support/converter/TimeZoneConverter.java:238-255 | with the node in processedObjects: the dispatch, then its removal in finally; the path set is restored; every node of the heap keeps its shape (ParamShapeKept) |
| LegacyTimeZoneConverter.TimeZoneConverter.ProcessList | kronos-spring/src/main/java/com/kronos/spring/support/converter/TimeZoneConverter.java:331-340 | the same list, each slot the processed form (without forceProcess) of its item; every node of the heap keeps its shape (ParamShapeKept) |
| LegacyTimeZoneConverter.TimeZoneConverter.ProcessListSlot | kronos-spring/src/main/java/com/kronos/spring/support/converter/TimeZoneConverter.java:333-339 | only slot i changes, to the processed item; every node of the heap keeps its shape (ParamShapeKept) |
| LegacyTimeZoneConverter.TimeZoneConverter.ProcessSet | kronos-spring/src/main/java/com/kronos/spring/support/converter/TimeZoneConverter.java:341-354 | the same set, now holding exactly the processed elements; every node of the heap keeps its shape (ParamShapeKept) |
| LegacyTimeZoneConverter.TimeZoneConverter.ProcessSetElements | kronos-spring/src/main/java/com/kronos/spring/support/converter/TimeZoneConverter.java:343-353 | the image of the elements under processing, equal to the old set when nothing was modified; every node of the heap keeps its shape (ParamShapeKept) |
| LegacyTimeZoneConverter.TimeZoneConverter.ProcessOther | kronos-spring/src/main/java/com/kronos/spring/support/converter/TimeZoneConverter.java:355-367 | any other collection: itself when no item changed, else a similar new collection holding the processed items; every node of the heap keeps its shape (ParamShapeKept) |
| LegacyTimeZoneConverter.TimeZoneConverter.ProcessItems | kronos-spring/src/main/java/com/kronos/spring/support/converter/TimeZoneConverter.java:357-364 | the processed items, in order, as many as there were; every node of the heap keeps its shape (ParamShapeKept) |
| LegacyTimeZoneConverter.TimeZoneConverter.ProcessMap | kronos-spring/src/main/java/com/kronos/spring/support/converter/TimeZoneConverter.java:428-464 | the same map and keys, each value processed; every node of the heap keeps its shape (ParamShapeKept) |
| LegacyTimeZoneConverter.TimeZoneConverter.ProcessMapEntry | kronos-spring/src/main/java/com/kronos/spring/support/converter/TimeZoneConverter.java:447-457 | only the entry for k changes, to its processed value; every node of the heap keeps its shape (ParamShapeKept) |
| LegacyTimeZoneConverter.TimeZoneConverter.ProcessArray | kronos-spring/src/main/java/com/kronos/spring/support/converter/TimeZoneConverter.java:397-422 | returns the array itself; a primitive array is untouched; an object array whose first object slot is itself overflows the stack; every node of the heap keeps its shape (ParamShapeKept) |
| LegacyTimeZoneConverter.TimeZoneConverter.ProcessArraySlot | kronos-spring/src/main/java/com/kronos/spring/support/converter/TimeZoneConverter.java:412-419 | the result is ParamStep of the slot; a changed result is stored in the slot; the array keeps its component type and length; a null or leaf slot changes no node; a slot holding the array itself overflows the stack; every node keeps its shape (ParamShapeKept) |
| LegacyTimeZoneConverter.TimeZoneConverter.ProcessObject | kronos-spring/src/main/java/com/kronos/spring/support/converter/TimeZoneConverter.java:263-310 | the same object; each readable, writable, non-null field processed with forceProcess set by its @Time annotation; every other field kept; every node of the heap keeps its shape (ParamShapeKept) |
| LegacyTimeZoneConverter.TimeZoneConverter.ProcessObjectField | kronos-spring/src/main/java/com/kronos/spring/support/converter/TimeZoneConverter.java:280-303 | only field i changes, as FieldParam says; every node of the heap keeps its shape (ParamShapeKept) |
| LegacyTimeZoneConverter.ParamShapeKeptTrans | kronos-spring/src/main/java/com/kronos/spring/support/converter/TimeZoneConverter.java:214-258 | two calls of processParameter that each keep every node's shape and every field they may not set together keep them too |
| LegacyTimeZoneConverter.ParamShapeKeptWrite | kronos-spring/src/main/java/com/kronos/spring/support/converter/TimeZoneConverter.java:331-457 | overwriting one node with a node that keeps its shape, as list.set, map.put, Array.set and field.set of a settable field do, keeps the whole-heap shape invariant |
| SpringAnnotationInterceptor.KronosAnnotationInterceptor.constructor | kronos-spring/src/main/java/com/kronos/spring/aop/KronosAnnotationInterceptor.java:27-29 | the interceptor uses the converter it is given |
| SpringAnnotationInterceptor.KronosAnnotationInterceptor.ArgumentAfter | kronos-spring/src/main/java/com/kronos/spring/aop/KronosAnnotationInterceptor.java:55-65 | without @Time, or when null, the argument is kept; null exactly when the argument was; an object reference is never replaced, because convertTo* returns it or null |
| SpringAnnotationInterceptor.TimeCount | kronos-spring/src/main/java/com/kronos/spring/aop/KronosAnnotationInterceptor.java:57-59 | the number of @Time annotations on a parameter, the number of conversions its argument gets; zero exactly when the parameter carries no @Time |
| SpringAnnotationInterceptor.KronosAnnotationInterceptor.ConvertArgument | kronos-spring/src/main/java/com/kronos/spring/aop/KronosAnnotationInterceptor.java:59-64 | one @Time annotation on a non-null argument: only slot i changes; once it has held the converted argument it keeps holding it, and without an exception it holds ArgumentAfter of a single @Time; only @Time fields change in the heap; an object whose fields are nulls and leaves ends up holding ConvertedLeafFields of its fields, towards the backend |
| SpringAnnotationInterceptor.KronosAnnotationInterceptor.ConvertParameter | kronos-spring/src/main/java/com/kronos/spring/aop/KronosAnnotationInterceptor.java:57-65 | only slot i changes, to ArgumentAfter of its annotations, unless a conversion throws; a parameter without @Time, or a null one, changes nothing and does not throw; with one @Time annotation, an object whose fields are nulls and leaves ends up holding ConvertedLeafFields of its fields, towards the backend |
| SpringAnnotationInterceptor.KronosAnnotationInterceptor.BeforeMethod | kronos-spring/src/main/java/com/kronos/spring/aop/KronosAnnotationInterceptor.java:49-69 | every argument becomes ArgumentAfter of its own annotations; only @Time fields change in the heap; when no argument is both @Time and non-null, nothing changes and nothing is thrown |
| SpringAnnotationInterceptor.KronosAnnotationInterceptor.Response | kronos-spring/src/main/java/com/kronos/spring/aop/KronosAnnotationInterceptor.java:38-46 | without @GetMapping or for null, the result itself; for a method of java.lang.Object, ""; otherwise null for a collection or map and the object itself for another object |
| SpringAnnotationInterceptor.KronosAnnotationInterceptor.Invoke | kronos-spring/src/main/java/com/kronos/spring/aop/KronosAnnotationInterceptor.java:32-47 | uses the holder's zone; the method sees the converted arguments; the answer is Response of what it returned; with no @Time non-null argument the arguments are untouched, and when the result is not converted either, the call returns and the heap is unchanged |
| CoreAnnotationInterceptor.KronosAnnotationInterceptor.constructor | kronos-core/src/main/java/com/kronos/spring/aop/KronosAnnotationInterceptor.java:19-21 | the interceptor uses the converter it is given |
| CoreAnnotationInterceptor.KronosAnnotationInterceptor.BeforeMethod | kronos-core/src/main/java/com/kronos/spring/aop/KronosAnnotationInterceptor.java:31-43 | each argument, left to right, becomes what toBackendTimeZone makes of it in the heap left by the arguments before it |
| CoreAnnotationInterceptor.KronosAnnotationInterceptor.Invoke | kronos-core/src/main/java/com/kronos/spring/aop/KronosAnnotationInterceptor.java:24-29 | uses the holder's zone; the arguments are converted to the backend zone, the method sees them, and its result is converted to the client zone |

## Left out

- Zones are fixed offsets. The model has no daylight saving time and no
  region rules. ZoneId.of is a fixed table of known ids.
- Time values are whole seconds on one time line. Date's milliseconds and
  the nanoseconds of java.time are not modelled separately.
- DateTimeFormatter patterns have no semantics here. Pattern validity,
  parsing and formatting are function parameters (`Codec`).
- Application-supplied TypeConverter beans are an uninterpreted function of
  their inputs.
- Reflection plumbing (`setAccessible`, module access checks) is left out.
  Each field carries only its readable/writable flags.
- Static fields are not part of the model.
- The field caches are left out. They only memoise getAllFields.
- Thread safety and ThreadLocal semantics are left out. There is one thread,
  so the holder and processedObjects are plain fields.
- Logging and System.err output are left out.
- The processed sets hold node ids, so they compare by identity, where the
  source's HashSets compare by equals/hashCode (the consequences are on the
  Process and ProcessParameter lines below). HashSet/HashMap ordering is an
  arbitrary choice in the set and map loops.
- ObjectProcessor.Processor.Process: both processed sets are HashSets, so
  marking a List, Set or Map calls its hashCode. For a collection or map
  that contains itself, directly or through other collections and maps,
  that hashCode recurses until the stack overflows. The model marks such a
  collection by identity and walks it to the end instead. A collection whose
  contents change while it is marked has a new hashCode; `remove` may then
  miss it and leave it marked. The model always unmarks it.
- LegacyTimeZoneConverter.TimeZoneConverter.ProcessParameter: the same
  HashSet consequences as for ObjectProcessor.Processor.Process. A
  self-containing List, Set or Map overflows the stack at the first
  `contains` or `add` in the source. The model walks it and returns `Done`,
  and a mutated collection is always removed again.
- ObjectProcessor.Processor.Process: a node reached through a reference is
  held only to ShapeKept, not to what processing it did to its contents.
  Only the path is remembered, so a node reachable along two paths is
  processed once per path and its time values are shifted twice.
- ObjectProcessor.Processor.ProcessNode: the same as Process. The node being
  processed is stated exactly; the nodes it refers to only keep their shape.
- ObjectProcessor.Processor.ProcessList: a slot that refers to another node
  keeps the reference; what happens inside that node is held only to
  ShapeKept. The same holds for ProcessListSlot, ProcessSet,
  ProcessSetElements, ProcessQueue, ProcessCollectionItems, ProcessMap,
  ProcessMapValues, ProcessArray, ProcessArraySlot, ProcessCustomObject and
  ProcessField.
- ConvertTimeZone: beyond the object passed in, the heap is held only to
  ShapeKept, for the shared-node reason given for Process.
- ToBackendTimeZone: as ConvertTimeZone.
- ToClientTimeZone: as ConvertTimeZone.
- LegacyTimeZoneConverter.TimeZoneConverter.ProcessMarked: a node reached
  through a reference is held only to ParamShapeKept. A node reachable
  along two paths is processed once per path.
- LegacyTimeZoneConverter.TimeZoneConverter.ProcessList: a slot that refers
  to another node keeps the reference; what happens inside that node is held
  only to ParamShapeKept. The same holds for ProcessListSlot, ProcessSet,
  ProcessSetElements, ProcessOther, ProcessItems, ProcessMap,
  ProcessMapEntry, ProcessArraySlot, ProcessObject and ProcessObjectField.
- LegacyTimeZoneConverter.TimeZoneConverter.ConvertItems: only the
  OnlyTimeFields frame is stated for what the items' walks write. convertTo*
  keeps no record of visited objects, so an item reachable twice is
  converted twice. The same holds for ConvertElements and ConvertMapValues.
- LegacyTimeZoneConverter.TimeZoneConverter.ConvertFields: the new field
  values are stated for an object whose fields hold only nulls and leaves.
  For other objects only the OnlyTimeFields frame is stated, because nested
  objects may lead back to this one. The same holds for ConvertTo.
- SpringAnnotationInterceptor.KronosAnnotationInterceptor.ConvertParameter:
  the converted fields of an object argument are stated only for an object
  whose fields hold only nulls and leaves and a parameter with one @Time
  annotation. Otherwise only the OnlyTimeFields frame is stated.
- SpringAnnotationInterceptor.KronosAnnotationInterceptor.BeforeMethod: the
  heap is stated exactly only when nothing is converted. Otherwise only the
  OnlyTimeFields frame is stated.
- SpringAnnotationInterceptor.KronosAnnotationInterceptor.Invoke: as
  BeforeMethod, for the argument and result conversions.
- Unmodifiable collections are left out: Java would throw from set or clear.
- Collections the walkers build are inline values (`Built`), not heap
  objects. Each is stored in exactly one place.
- Nodes never have a time or String class. Every such value is a leaf, and a
  leaf outside isSimpleType has no fields the walkers can reach.
- A converter registered for a collection, map or object class is not
  applied to that node.
- ObjectProcessor.Processor.Process: the newer walker's own stack overflow is
  not modelled. It always terminates through its path guard.
- `depth`: only the older walker's convertTo* and processParameter calls
  consume stack. The helper frames between them do not.
- LegacyTimeZoneConverter.TimeZoneConverter.ProcessArray: for an object
  array, the contract states only the returned value, primitive arrays and
  the self-reaching overflow. It does not state the new slot contents,
  because an unguarded array can be re-entered through its own slots and
  rewritten from under the loop.
- ObjectProcessor.Processor.ProcessSimpleType: a DateConverter registered
  under java.sql.Date or java.sql.Time would throw UnsupportedOperationException
  on such a leaf. kronos-core's typed registerConverter rules that registration
  out, and the model does not carry the typing: it leaves the leaf unchanged.
- LegacyTimeZoneConverter.TimeZoneConverter.ProcessBasicType: the untyped
  registerConverter accepts a DateConverter under java.sql.Date or
  java.sql.Time, and processBasicType would then throw
  UnsupportedOperationException on such a leaf. The model leaves the leaf
  unchanged. The default converters are keyed by their own class and never
  meet this case.
- ChosenZoneId: header names are compared with ASCII letters folded to lower
  case. HTTP header names are ASCII tokens (section 3.2.6 of RFC 7230);
  String.equalsIgnoreCase's folding of other letters is not modelled. The
  same holds for PreHandle, GetHeader and HeaderIndex.
- ObjectProcessor.Processor.ProcessField: field.set throws
  IllegalArgumentException when the value does not fit the field's declared
  type. A rebuilt collection whose class has no usable constructor falls
  back to ArrayList or LinkedHashSet and may not fit. The model writes it
  anyway, because field types are not related to collection classes here.
- ObjectProcessor.Processor.ProcessCustomObject: the same
  IllegalArgumentException as ProcessField, which ends the whole walk.
- ObjectProcessor.Processor.ProcessArraySlot: storing a rebuilt collection
  into an array whose component type it does not fit throws
  ArrayStoreException. The model stores it anyway.
- LegacyTimeZoneConverter.TimeZoneConverter.ProcessObjectField: the same
  IllegalArgumentException from field.set as ProcessField, for a collection
  rebuilt as ArrayList or LinkedHashSet.
- LegacyTimeZoneConverter.TimeZoneConverter.ProcessArraySlot: the same
  ArrayStoreException as ObjectProcessor's ProcessArraySlot.
- LegacyTimeZoneConverter.TimeZoneConverter.ProcessParameter: its contract
  says only StackOverflowError escapes. In the source the
  IllegalArgumentException of ProcessObjectField and the ArrayStoreException
  of ProcessArraySlot escape as well.
- LegacyTimeZoneConverter.TimeZoneConverter.constructor: the backend zone is
  resolved once, here. The source calls ZoneId.of(backendZoneId) on every
  conversion.
- The arguments and results of `invocation.proceed()` are a function
  parameter. Its side effects and exceptions are left out.
- KronosBeanPostProcessor, the configuration classes, the Spring
  auto-configuration and the test controller only wire beans. They are not
  part of this model.
- kronos-spring's unused private getAllFields in the AOP interceptor is not
  modelled: it is never called.
- `LocalDateTimeConverter` and `StringDateTimeConverter` of the
  converter/impl package are not part of this model. The older walker is
  modelled with the converters package versions.
- The converters-package `DateConverter` that kronos-core registers is not
  part of this model. It is modelled by the converter/impl `DateConverter`.
