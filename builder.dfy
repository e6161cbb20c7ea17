/** The external query builder, seen only through the calls it receives. */
module RecordingBuilder {
  import opened QueryBuilderParts

  class Builder {
    /** The alias the builder binds to the base entity. */
    const alias: string
    /** Every call made on this builder so far, in order. */
    var calls: seq<Invocation>

    constructor (alias: string)
      ensures this.alias == alias && calls == []
    {
      this.alias := alias;
      calls := [];
    }

    /** `clone()`: an independent builder with the same calls. */
    constructor Clone(other: Builder)
      ensures alias == other.alias && calls == other.calls
    {
      alias := other.alias;
      calls := other.calls;
    }

    /** `queryAction.call(builder, ...params)`. */
    method Apply(call: Invocation)
      modifies this
      ensures calls == old(calls) + [call]
    {
      calls := calls + [call];
    }
  }
}
