// The aspect records the weaver consumes: a pointcut, its advice and the
// imports the advice needs (the Go struct fields pointkut, advize, importz).

module Aspects {

  datatype Option<+T> = None | Some(value: T)

  /** Pointcut kind codes as the weaver compares them (`pointkut.kind`). */
  const CallKind: int := 1
  const ExecutionKind: int := 2

  /** The pointcut definition that selects the global (file-scope) phase. */
  const GlobalDef: string := "*"

  /** `kind` is the integer code of the joinpoint kind, `def` the pattern text. */
  datatype Pointcut = Pointcut(kind: int, def: string)

  /** Code blocks to inject; an empty string means "no such advice". */
  datatype Advice = Advice(before: string, after: string, around: string)

  datatype Aspect = Aspect(pointcut: Pointcut, advice: Advice, imports: seq<string>)
}
