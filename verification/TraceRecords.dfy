/**
  The records a run's trace is rebuilt from, reduced to what the span tree looks at
  (logquill/cli/trace_tree.py:47-87).
 */
module TraceRecords {
  import opened OrderedDicts

  /** What a key holds: nothing, a JSON scalar, or something else (a list, a nested object, a foreign type). */
  datatype Value = Absent | Null | Bool(b: bool) | Int(n: int) | Float(x: real) | Str(s: string) | Other

  /** The keys of `meta` that place a record in a trace, and the remaining ones. */
  datatype Meta = Meta(runId: Value, spanId: Value, parentSpanId: Value, extra: map<string, Value>)

  datatype Llm = Llm(tokensIn: Value, tokensOut: Value, costUsd: Value)

  /** `meta`/`llm` are `None` when the record has no such key or its value is not a dict. */
  datatype Record = Record(level: string, message: string, meta: Option<Meta>, llm: Option<Llm>)

  /** A non-empty string; anything else counts as absent. */
  function Text(v: Value): Option<string> {
    if v.Str? && v.s != "" then Some(v.s) else None
  }

  function SpanId(r: Record): Option<string> {
    if r.meta.Some? then Text(r.meta.value.spanId) else None
  }

  function ParentSpanId(r: Record): Option<string> {
    if r.meta.Some? then Text(r.meta.value.parentSpanId) else None
  }

  predicate Belongs(r: Record, runId: string) {
    r.meta.Some? && r.meta.value.runId == Str(runId)
  }

  /** Token and cost totals; cost is a real number here, not a float. */
  datatype Rollup = Rollup(tokensIn: int, tokensOut: int, costUsd: real) {
    function Plus(other: Rollup): Rollup {
      Rollup(tokensIn + other.tokensIn, tokensOut + other.tokensOut, costUsd + other.costUsd)
    }
  }

  const ZERO := Rollup(0, 0, 0.0)

  /** A token count; a Boolean is not an integer here, although Python's `bool` subclasses `int`. */
  function Count(v: Value): int {
    if v.Int? then v.n else 0
  }

  function Amount(v: Value): real {
    match v
    case Int(n) => n as real
    case Float(x) => x
    case _ => 0.0
  }

  /** What one record contributes by itself. */
  function OwnTokensCost(r: Record): Rollup {
    match r.llm
    case None => ZERO
    case Some(llm) => Rollup(Count(llm.tokensIn), Count(llm.tokensOut), Amount(llm.costUsd))
  }
}
