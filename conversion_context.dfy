/**
 * ConversionContext: the zones and pattern of one conversion, fixed at
 * construction, and the set of objects on the current traversal path.
 */
module ConversionContext {
  import opened JavaTime
  import opened JavaHeap

  /** What a conversion is asked to do: the two zones and the pattern for text. */
  datatype Setting = Setting(fromZone: Zone, toZone: Zone, format: string)

  class Context {
    const fromZone: Zone
    const toZone: Zone
    const defaultFormat: string
    var processed: set<Id>

    constructor (fromZone: Zone, toZone: Zone, defaultFormat: string)
      ensures this.fromZone == fromZone && this.toZone == toZone && this.defaultFormat == defaultFormat
      ensures processed == {}
      ensures forall o :: !IsProcessed(o)
    {
      this.fromZone := fromZone;
      this.toZone := toZone;
      this.defaultFormat := defaultFormat;
      processed := {};
    }

    /** The three getters together. */
    function Settings(): (s: Setting)
      ensures s.fromZone == fromZone && s.toZone == toZone && s.format == defaultFormat
    {
      Setting(fromZone, toZone, defaultFormat)
    }

    predicate IsProcessed(o: Id)
      reads this
    {
      o in processed
    }

    method MarkProcessed(o: Id)
      modifies this
      ensures IsProcessed(o)
      ensures forall p :: p != o ==> (IsProcessed(p) <==> old(IsProcessed(p)))
      ensures processed == old(processed) + {o}
    {
      processed := processed + {o};
    }

    method UnmarkProcessed(o: Id)
      modifies this
      ensures !IsProcessed(o)
      ensures forall p :: p != o ==> (IsProcessed(p) <==> old(IsProcessed(p)))
      ensures processed == old(processed) - {o}
    {
      processed := processed - {o};
    }
  }

  /** Marking an object that was absent and then unmarking it restores the set. */
  method MarkThenUnmark(ctx: Context, o: Id)
    requires !ctx.IsProcessed(o)
    modifies ctx
    ensures ctx.processed == old(ctx.processed)
  {
    ctx.MarkProcessed(o);
    ctx.UnmarkProcessed(o);
  }
}
