/**
 * The ABNF definition tree: `AbnfDefinition` and `RepeatTimes`. The repository
 * declares it twice under different names (`BnfDefinition` with a `Choose`
 * variant in src/abnf/definition.rs, `AbnfDefinition` with `Select` where it is
 * used); this is the one datatype both stand for.
 */
module AbnfDefinitions {
  /** A repetition bound: a count (`i64` in the source) or no bound. */
  datatype RepeatTimes = Times(n: int) | Infinity

  datatype AbnfDefinition =
    | Series(items: seq<AbnfDefinition>)
    | Select(branches: seq<AbnfDefinition>)
    | Terminal(value: string)
    | Rule(name: string)
    | Group(inner: AbnfDefinition)
    | Options(inner: AbnfDefinition)
    | Range(low: int, high: int)
    | Repeat(min: RepeatTimes, max: RepeatTimes, inner: AbnfDefinition)
}
