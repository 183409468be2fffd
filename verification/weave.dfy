// The weaving phases of weave/transform.go: the once-only global phase, the
// call-site phase and the execution phase, as methods of the Weave object,
// each proved against a specification of the writes it performs.

module Weaving {
  import opened Aspects
  import opened Patterns
  import opened Matching
  import opened Drift

  /** What a phase asks of the file: the writeAtLine calls in order, and the
      imports it asks writeMissingImports to add (in order, with repeats). */
  datatype Outcome = Outcome(writes: seq<Write>, imports: seq<string>)

  /** The string a phase returns. `Blank` is the empty string; `Rewritten`
      is the phase's input text after the given writeAtLine calls, then
      writeMissingImports with the given list when one is present. */
  datatype Rout = Blank | Rewritten(writes: seq<Write>, importsWritten: Option<seq<string>>)

  /** The parser, as the weaver uses it: the parse of the phase's input
      text after the given writes. */
  type Parser = seq<Write> -> ParsedFile

  /** The parameter-list check of an execution pointcut (containArgs). */
  type ArgCheck = (string, seq<string>) -> bool

  /** Matched joinpoints of a pointcut definition in a parsed file. */
  type JoinpointSelect = (string, ParsedFile) -> seq<Joinpoint>

  /** `xs` once per matched joinpoint: the imports an aspect asks for. */
  function AspectImports(xs: seq<string>, jps: seq<Joinpoint>): seq<string>
    decreases |jps|
  {
    if jps == [] then [] else AspectImports(xs, jps[..|jps| - 1]) + xs
  }

  lemma {:induction false} AspectImportsMembers(xs: seq<string>, jps: seq<Joinpoint>)
    ensures |AspectImports(xs, jps)| == |jps| * |xs|
    ensures forall s :: s in AspectImports(xs, jps) ==> s in xs
    decreases |jps|
  {
    if jps != [] {
      var n := |jps| - 1;
      AspectImportsMembers(xs, jps[..n]);
      assert (n + 1) * |xs| == n * |xs| + |xs|;
    }
  }

  function CallSelect(def: string, file: ParsedFile): seq<Joinpoint>
  {
    CallJoinpoints(def, file.calls)
  }

  function ExecSelect(containArgs: ArgCheck): JoinpointSelect
  {
    (def: string, file: ParsedFile) => ExecJoinpoints(def, file.decls, containArgs)
  }

  /** The writes and imports of the aspects of one kind, in order. Each
      aspect of the kind is matched against the parse of the text as the
      earlier aspects left it, and its drift starts again from zero. */
  function PhaseOutcome(kind: int, aspects: seq<Aspect>, parse: Parser, select: JoinpointSelect): Outcome
    decreases |aspects|
  {
    if aspects == [] then Outcome([], [])
    else
      var prev := PhaseOutcome(kind, aspects[..|aspects| - 1], parse, select);
      var a := aspects[|aspects| - 1];
      if a.pointcut.kind != kind then prev
      else
        var jps := select(a.pointcut.def, parse(prev.writes));
        Outcome(prev.writes + AspectWrites(a.advice, jps), prev.imports + AspectImports(a.imports, jps))
  }

  /** writeMissingImports runs only when some import is needed. */
  function ImportsCall(imports: seq<string>): Option<seq<string>>
  {
    if |imports| > 0 then Some(imports) else None
  }

  /** Every write and every import a phase asks for comes from an aspect of
      that phase's kind: a non-empty before- or after-block of it, or one of
      its imports. */
  lemma {:induction false} PhaseProvenance(kind: int, aspects: seq<Aspect>, parse: Parser, select: JoinpointSelect)
    ensures forall w :: w in PhaseOutcome(kind, aspects, parse, select).writes ==>
              exists a :: a in aspects && a.pointcut.kind == kind && w.block != "" &&
                          (w.block == a.advice.before || w.block == a.advice.after)
    ensures forall s :: s in PhaseOutcome(kind, aspects, parse, select).imports ==>
              exists a :: a in aspects && a.pointcut.kind == kind && s in a.imports
    decreases |aspects|
  {
    if aspects != [] {
      var init := aspects[..|aspects| - 1];
      var a := aspects[|aspects| - 1];
      PhaseProvenance(kind, init, parse, select);
      assert forall b :: b in init ==> b in aspects;
      var prev := PhaseOutcome(kind, init, parse, select);
      if a.pointcut.kind == kind {
        var jps := select(a.pointcut.def, parse(prev.writes));
        AspectWritesBlocks(a.advice, jps);
        AspectImportsMembers(a.imports, jps);
      }
    }
  }

  /** When no aspect of the kind has advice blocks, the phase writes nothing. */
  lemma {:induction false} SilentPhase(kind: int, aspects: seq<Aspect>, parse: Parser, select: JoinpointSelect)
    requires forall a :: a in aspects && a.pointcut.kind == kind ==> a.advice.before == "" && a.advice.after == ""
    ensures PhaseOutcome(kind, aspects, parse, select).writes == []
    decreases |aspects|
  {
    if aspects != [] {
      var init := aspects[..|aspects| - 1];
      var a := aspects[|aspects| - 1];
      SilentPhase(kind, init, parse, select);
      if a.pointcut.kind == kind {
        var jps := select(a.pointcut.def, parse(PhaseOutcome(kind, init, parse, select).writes));
        AspectWritesCount(a.advice, jps);
      }
    }
  }

  /** When no aspect of the kind lists an import, the phase never calls
      writeMissingImports. */
  lemma {:induction false} QuietImports(kind: int, aspects: seq<Aspect>, parse: Parser, select: JoinpointSelect)
    requires forall a :: a in aspects && a.pointcut.kind == kind ==> a.imports == []
    ensures ImportsCall(PhaseOutcome(kind, aspects, parse, select).imports) == None
    decreases |aspects|
  {
    if aspects != [] {
      var init := aspects[..|aspects| - 1];
      var a := aspects[|aspects| - 1];
      QuietImports(kind, init, parse, select);
      if a.pointcut.kind == kind {
        var jps := select(a.pointcut.def, parse(PhaseOutcome(kind, init, parse, select).writes));
        AspectImportsMembers(a.imports, jps);
      }
    }
  }

  // ---------------------------------------------------------------------
  // The global phase

  /** The two writes of a global aspect, both one line past the last
      import: no drift separates them. */
  function AnchorWrites(adv: Advice, line: int): seq<Write>
  {
    (if adv.before != "" then [Write(line, adv.before)] else [])
    + (if adv.after != "" then [Write(line, adv.after)] else [])
  }

  /** The writes of the global phase when it runs, or None when it reaches a
      "*" aspect while the file has no import (the source indexes past the
      end of the import list there). */
  function GlobalWrites(aspects: seq<Aspect>, parse: Parser): Option<seq<Write>>
    decreases |aspects|
  {
    if aspects == [] then Some([])
    else
      match GlobalWrites(aspects[..|aspects| - 1], parse)
      case None => None
      case Some(prev) =>
        var a := aspects[|aspects| - 1];
        if a.pointcut.def != GlobalDef then Some(prev)
        else
          var ends := parse(prev).importEnds;
          if ends == [] then None
          else Some(prev + AnchorWrites(a.advice, ends[|ends| - 1] + 1))
  }

  ghost predicate HasGlobalAspect(aspects: seq<Aspect>)
  {
    exists i :: 0 <= i < |aspects| && aspects[i].pointcut.def == GlobalDef
  }

  /** Number of writes the global aspects call for. */
  function GlobalBlockCount(aspects: seq<Aspect>): nat
    decreases |aspects|
  {
    if aspects == [] then 0
    else
      var a := aspects[|aspects| - 1];
      GlobalBlockCount(aspects[..|aspects| - 1]) + (if a.pointcut.def == GlobalDef then BlockCount(a.advice) else 0)
  }

  lemma {:induction false} GlobalWritesPrefix(aspects: seq<Aspect>, parse: Parser, i: nat)
    requires i <= |aspects|
    requires GlobalWrites(aspects, parse).Some?
    ensures GlobalWrites(aspects[..i], parse).Some?
    decreases |aspects|
  {
    if i < |aspects| {
      var init := aspects[..|aspects| - 1];
      GlobalWritesPrefix(init, parse, i);
      assert init[..i] == aspects[..i];
    } else {
      assert aspects[..i] == aspects;
    }
  }

  /** The flag the global phase sets grows by one aspect at a time. */
  lemma HasGlobalAspectStep(aspects: seq<Aspect>, i: nat)
    requires i < |aspects|
    ensures HasGlobalAspect(aspects[..i + 1]) == (HasGlobalAspect(aspects[..i]) || aspects[i].pointcut.def == GlobalDef)
  {
    var upto := aspects[..i + 1];
    assert upto[i] == aspects[i];
    assert forall k :: 0 <= k < i ==> upto[k] == aspects[..i][k];
  }

  /** One more aspect of the global phase: a "*" aspect reached with the
      writes so far needs an import in their parse, and adds its anchor
      writes; any other aspect adds nothing. */
  lemma GlobalStep(aspects: seq<Aspect>, parse: Parser, i: nat, writes: seq<Write>)
    requires i < |aspects|
    requires GlobalWrites(aspects[..i], parse) == Some(writes)
    requires GlobalWrites(aspects[..i + 1], parse).Some?
    ensures aspects[i].pointcut.def != GlobalDef ==> GlobalWrites(aspects[..i + 1], parse) == Some(writes)
    ensures aspects[i].pointcut.def == GlobalDef ==>
              var ends := parse(writes).importEnds;
              ends != [] &&
              GlobalWrites(aspects[..i + 1], parse) == Some(writes + AnchorWrites(aspects[i].advice, ends[|ends| - 1] + 1))
  {
    var upto := aspects[..i + 1];
    assert upto[..i] == aspects[..i];
    assert upto[i] == aspects[i];
  }

  /** Every "*" aspect is applied, not only the first: the global phase
      performs exactly the writes all of their non-empty blocks call for. */
  lemma {:induction false} GlobalAppliesEveryAspect(aspects: seq<Aspect>, parse: Parser)
    requires GlobalWrites(aspects, parse).Some?
    ensures |GlobalWrites(aspects, parse).value| == GlobalBlockCount(aspects)
    decreases |aspects|
  {
    if aspects != [] {
      var init := aspects[..|aspects| - 1];
      GlobalWritesPrefix(aspects, parse, |aspects| - 1);
      GlobalAppliesEveryAspect(init, parse);
    }
  }

  /** When the import block ends on the same line however the text below
      it has been rewritten, every global write targets the line after it. */
  lemma {:induction false} GlobalNoDrift(aspects: seq<Aspect>, parse: Parser, lastImport: int)
    requires forall ws :: parse(ws).importEnds != [] && parse(ws).importEnds[|parse(ws).importEnds| - 1] == lastImport
    ensures GlobalWrites(aspects, parse).Some?
    ensures forall w :: w in GlobalWrites(aspects, parse).value ==> w.line == lastImport + 1
    decreases |aspects|
  {
    if aspects != [] {
      GlobalNoDrift(aspects[..|aspects| - 1], parse, lastImport);
    }
  }

  /** The writes of one "*" aspect in the global phase: each non-empty
      block is written on the line after the last import. */
  method WriteAnchors(adv: Advice, ei: int, writes0: seq<Write>) returns (writes: seq<Write>)
    ensures writes == writes0 + AnchorWrites(adv, ei)
  {
    writes := writes0;
    if adv.before != "" {
      writes := writes + [Write(ei, adv.before)];
    }
    if adv.after != "" {
      writes := writes + [Write(ei, adv.after)];
    }
  }

  /** The state of the global loop after the first `i` aspects: the writes
      are those of the global phase on them, and the flag says whether one
      of them is a "*" aspect. */
  ghost predicate GlobalDone(aspects: seq<Aspect>, parse: Parser, i: nat, applied: bool, writes: seq<Write>)
  {
    i <= |aspects| &&
    GlobalWrites(aspects[..i], parse) == Some(writes) &&
    applied == HasGlobalAspect(aspects[..i])
  }

  lemma GlobalStart(aspects: seq<Aspect>, parse: Parser)
    ensures GlobalDone(aspects, parse, 0, false, [])
  {
    assert aspects[..0] == [];
  }

  /** A "*" aspect reached in a phase that does not fail finds an import. */
  lemma GlobalNeedsImport(aspects: seq<Aspect>, parse: Parser, i: nat, applied: bool, writes: seq<Write>)
    requires GlobalWrites(aspects, parse).Some?
    requires i < |aspects| && aspects[i].pointcut.def == GlobalDef
    requires GlobalDone(aspects, parse, i, applied, writes)
    ensures parse(writes).importEnds != []
  {
    GlobalWritesPrefix(aspects, parse, i + 1);
    GlobalStep(aspects, parse, i, writes);
  }

  /** One aspect of the global loop keeps GlobalDone. */
  lemma GlobalVisit(aspects: seq<Aspect>, parse: Parser, i: nat, applied0: bool, writes0: seq<Write>, applied: bool, writes: seq<Write>)
    requires GlobalWrites(aspects, parse).Some?
    requires i < |aspects|
    requires GlobalDone(aspects, parse, i, applied0, writes0)
    requires aspects[i].pointcut.def != GlobalDef ==> applied == applied0 && writes == writes0
    requires aspects[i].pointcut.def == GlobalDef ==>
               var ends := parse(writes0).importEnds;
               applied && ends != [] && writes == writes0 + AnchorWrites(aspects[i].advice, ends[|ends| - 1] + 1)
    ensures GlobalDone(aspects, parse, i + 1, applied, writes)
  {
    GlobalWritesPrefix(aspects, parse, i + 1);
    GlobalStep(aspects, parse, i, writes0);
    HasGlobalAspectStep(aspects, i);
  }

  lemma GlobalEnd(aspects: seq<Aspect>, parse: Parser, applied: bool, writes: seq<Write>)
    requires GlobalDone(aspects, parse, |aspects|, applied, writes)
    ensures GlobalWrites(aspects, parse) == Some(writes) && applied == HasGlobalAspect(aspects)
  {
    assert aspects[..|aspects|] == aspects;
  }

  // ---------------------------------------------------------------------
  // The weaver

  class Weave {
    const aspects: seq<Aspect>
    var appliedGlobal: bool

    constructor (aspects: seq<Aspect>)
      ensures this.aspects == aspects && !appliedGlobal
    {
      this.aspects := aspects;
      appliedGlobal := false;
    }

    /** applyGlobalAdvice: once the flag is set it returns the empty string
        and writes nothing; otherwise every "*" aspect sets the flag and
        writes its blocks after the imports, and no import is requested. */
    method ApplyGlobalAdvice(parse: Parser) returns (rout: Rout)
      requires !appliedGlobal ==> GlobalWrites(aspects, parse).Some?
      modifies this
      ensures old(appliedGlobal) ==> rout == Blank && appliedGlobal
      ensures !old(appliedGlobal) ==>
                rout == Rewritten(GlobalWrites(aspects, parse).value, None) &&
                appliedGlobal == HasGlobalAspect(aspects)
    {
      if appliedGlobal {
        return Blank;
      }
      var writes: seq<Write> := [];
      var importsNeeded: seq<string> := [];
      GlobalStart(aspects, parse);
      for i := 0 to |aspects|
        invariant GlobalDone(aspects, parse, i, appliedGlobal, writes)
        invariant importsNeeded == []
      {
        var aspect := aspects[i];
        ghost var applied0, writes0 := appliedGlobal, writes;
        if aspect.pointcut.def != GlobalDef {
          GlobalVisit(aspects, parse, i, applied0, writes0, appliedGlobal, writes);
          continue;
        }
        appliedGlobal := true;
        var file := parse(writes);
        GlobalNeedsImport(aspects, parse, i, applied0, writes);
        var ei := file.importEnds[|file.importEnds| - 1] + 1;
        writes := WriteAnchors(aspect.advice, ei, writes);
        GlobalVisit(aspects, parse, i, applied0, writes0, appliedGlobal, writes);
      }
      GlobalEnd(aspects, parse, appliedGlobal, writes);
      rout := Rewritten(writes, ImportsCall(importsNeeded));
    }

    /** applyCallAdvice: the writes and imports of every call aspect, in
        order, each with its own drift counter. */
    method ApplyCallAdvice(parse: Parser) returns (rout: Rout)
      ensures var o := PhaseOutcome(CallKind, aspects, parse, CallSelect);
              rout == Rewritten(o.writes, ImportsCall(o.imports))
    {
      var writes: seq<Write> := [];
      var importsNeeded: seq<string> := [];
      for i := 0 to |aspects|
        invariant PhaseOutcome(CallKind, aspects[..i], parse, CallSelect) == Outcome(writes, importsNeeded)
      {
        var aspect := aspects[i];
        assert aspects[..i + 1][..i] == aspects[..i];
        if aspect.pointcut.kind != CallKind {
          continue;
        }
        var file := parse(writes);
        writes, importsNeeded := InspectCalls(aspect, file, writes, importsNeeded);
      }
      assert aspects[..|aspects|] == aspects;
      rout := Rewritten(writes, ImportsCall(importsNeeded));
    }

    /** applyExecutionJP: the writes and imports of every execution aspect,
        in order, each with its own drift counter. */
    method ApplyExecutionJP(parse: Parser, containArgs: ArgCheck) returns (rout: Rout)
      ensures var o := PhaseOutcome(ExecutionKind, aspects, parse, ExecSelect(containArgs));
              rout == Rewritten(o.writes, ImportsCall(o.imports))
    {
      var writes: seq<Write> := [];
      var importsNeeded: seq<string> := [];
      for i := 0 to |aspects|
        invariant PhaseOutcome(ExecutionKind, aspects[..i], parse, ExecSelect(containArgs)) == Outcome(writes, importsNeeded)
      {
        var aspect := aspects[i];
        assert aspects[..i + 1][..i] == aspects[..i];
        if aspect.pointcut.kind != ExecutionKind {
          continue;
        }
        var file := parse(writes);
        writes, importsNeeded := ScanDecls(aspect, file, containArgs, writes, importsNeeded);
        assert ExecSelect(containArgs)(aspect.pointcut.def, file) == ExecJoinpoints(aspect.pointcut.def, file.decls, containArgs);
      }
      assert aspects[..|aspects|] == aspects;
      rout := Rewritten(writes, ImportsCall(importsNeeded));
    }
  }

  /** The body of the ast.Inspect callback of applyCallAdvice, run on every
      call expression of `file` in traversal order: the pattern is
      normalised, and each call it names receives the aspect's blocks and
      adds the aspect's imports. The drift counter starts at zero. */
  method InspectCalls(aspect: Aspect, file: ParsedFile, writes0: seq<Write>, imports0: seq<string>)
    returns (writes: seq<Write>, importsNeeded: seq<string>)
    ensures var jps := CallJoinpoints(aspect.pointcut.def, file.calls);
            writes == writes0 + AspectWrites(aspect.advice, jps) &&
            importsNeeded == imports0 + AspectImports(aspect.imports, jps)
  {
    writes, importsNeeded := writes0, imports0;
    var linecnt := 0;
    var pk := aspect.pointcut.def;
    VisitStart(aspect, file.calls, writes0, imports0);
    for j := 0 to |file.calls|
      invariant CallsVisited(aspect, file.calls, j, pk, linecnt, writes0, imports0, writes, importsNeeded)
    {
      pk, linecnt, writes, importsNeeded := VisitCall(aspect, file.calls, j, pk, linecnt, writes, importsNeeded, writes0, imports0);
    }
    VisitEnd(aspect, file.calls, pk, linecnt, writes0, imports0, writes, importsNeeded);
  }

  lemma VisitStart(aspect: Aspect, calls: seq<CallSite>, writes0: seq<Write>, imports0: seq<string>)
    ensures CallsVisited(aspect, calls, 0, aspect.pointcut.def, 0, writes0, imports0, writes0, imports0)
  {
    assert calls[..0] == [];
  }

  lemma VisitEnd(aspect: Aspect, calls: seq<CallSite>, pk: string, linecnt: int,
                 writes0: seq<Write>, imports0: seq<string>, writes: seq<Write>, imports: seq<string>)
    requires CallsVisited(aspect, calls, |calls|, pk, linecnt, writes0, imports0, writes, imports)
    ensures var jps := CallJoinpoints(aspect.pointcut.def, calls);
            writes == writes0 + AspectWrites(aspect.advice, jps) &&
            imports == imports0 + AspectImports(aspect.imports, jps)
  {
    assert calls[..|calls|] == calls;
  }

  /** The state of the call loop after the first `j` call expressions: the
      pattern text normalises as the pointcut does, and the counter, the
      writes and the imports are those of the joinpoints found so far. */
  ghost predicate CallsVisited(aspect: Aspect, calls: seq<CallSite>, j: nat, pk: string, linecnt: int,
                               writes0: seq<Write>, imports0: seq<string>, writes: seq<Write>, imports: seq<string>)
    requires j <= |calls|
  {
    var jps := CallJoinpoints(aspect.pointcut.def, calls[..j]);
    CallPattern(pk) == CallPattern(aspect.pointcut.def) &&
    linecnt == DriftAt(aspect.advice, |jps|) &&
    writes == writes0 + AspectWrites(aspect.advice, jps) &&
    imports == imports0 + AspectImports(aspect.imports, jps)
  }

  /** One visit of the call loop keeps CallsVisited. */
  lemma VisitStep(aspect: Aspect, calls: seq<CallSite>, j: nat, pk0: string, linecnt0: int,
                  writes0: seq<Write>, imports0: seq<string>, prior: seq<Write>, priorImports: seq<string>,
                  pk: string, linecnt: int, writes: seq<Write>, imports: seq<string>)
    requires j < |calls|
    requires CallsVisited(aspect, calls, j, pk0, linecnt0, writes0, imports0, prior, priorImports)
    requires pk == CallPattern(pk0)
    requires CalleeName(calls[j].fun) == pk ==>
               writes == prior + MatchWrites(aspect.advice, CallJP(calls[j].lparen), linecnt0) &&
               linecnt == linecnt0 + Step(aspect.advice) &&
               imports == priorImports + aspect.imports
    requires CalleeName(calls[j].fun) != pk ==>
               writes == prior && linecnt == linecnt0 && imports == priorImports
    ensures CallsVisited(aspect, calls, j + 1, pk, linecnt, writes0, imports0, writes, imports)
  {
    var def := aspect.pointcut.def;
    var jps := CallJoinpoints(def, calls[..j]);
    CallPatternIdempotent(pk0);
    CallJoinpointsStep(def, calls, j);
    if CallMatches(def, calls[j]) {
      var jp := CallJP(calls[j].lparen);
      ExtendWrites(aspect.advice, jps, jp, writes0, prior, writes);
      ExtendImports(aspect.imports, jps, jp, imports0, priorImports, imports);
    } else {
      assert jps + [] == jps;
    }
  }

  /** The ast.Inspect callback of applyCallAdvice at one call expression:
      it normalises the pointcut text in place and, when the callee is the
      name it denotes, writes the aspect's blocks at the call and notes the
      aspect's imports. A visit keeps the state of the call loop. */
  method VisitCall(aspect: Aspect, calls: seq<CallSite>, j: nat, pk: string, linecnt: int,
                   prior: seq<Write>, priorImports: seq<string>, ghost writes0: seq<Write>, ghost imports0: seq<string>)
    returns (pk': string, linecnt': int, writes: seq<Write>, importsNeeded: seq<string>)
    requires j < |calls|
    ensures pk' == CallPattern(pk)
    ensures CalleeName(calls[j].fun) == pk' ==>
              writes == prior + MatchWrites(aspect.advice, CallJP(calls[j].lparen), linecnt) &&
              linecnt' == linecnt + Step(aspect.advice) &&
              importsNeeded == priorImports + aspect.imports
    ensures CalleeName(calls[j].fun) != pk' ==>
              writes == prior && linecnt' == linecnt && importsNeeded == priorImports
    ensures CallsVisited(aspect, calls, j, pk, linecnt, writes0, imports0, prior, priorImports) ==>
              CallsVisited(aspect, calls, j + 1, pk', linecnt', writes0, imports0, writes, importsNeeded)
  {
    var call := calls[j];
    var name := CalleeName(call.fun);
    pk' := NormalizeCallPattern(pk);
    writes, linecnt', importsNeeded := prior, linecnt, priorImports;
    if name == pk' {
      writes, linecnt' := AdviseCall(aspect.advice, call.lparen, linecnt', writes);
      importsNeeded := importsNeeded + aspect.imports;
    }
    if CallsVisited(aspect, calls, j, pk, linecnt, writes0, imports0, prior, priorImports) {
      VisitStep(aspect, calls, j, pk, linecnt, writes0, imports0, prior, priorImports, pk', linecnt', writes, importsNeeded);
    }
  }

  /** The two statements of the ast.Inspect callback that normalise the
      pointcut text in place. */
  method NormalizeCallPattern(pk: string) returns (pk': string)
    ensures pk' == CallPattern(pk)
  {
    pk' := Before(pk, '(');
    if '.' in pk' {
      pk' := SecondField(pk');
    }
  }

  /** The loop of applyExecutionJP over the top-level declarations of
      `file`: each function the pointcut selects receives the aspect's blocks
      and adds the aspect's imports. The drift counter starts at zero. */
  method ScanDecls(aspect: Aspect, file: ParsedFile, containArgs: ArgCheck, writes0: seq<Write>, imports0: seq<string>)
    returns (writes: seq<Write>, importsNeeded: seq<string>)
    ensures var jps := ExecJoinpoints(aspect.pointcut.def, file.decls, containArgs);
            writes == writes0 + AspectWrites(aspect.advice, jps) &&
            importsNeeded == imports0 + AspectImports(aspect.imports, jps)
  {
    writes, importsNeeded := writes0, imports0;
    var linecnt := 0;
    ScanStart(aspect, file.decls, containArgs, writes0, imports0);
    for j := 0 to |file.decls|
      invariant DeclsScanned(aspect, file.decls, containArgs, j, linecnt, writes0, imports0, writes, importsNeeded)
    {
      linecnt, writes, importsNeeded := VisitDecl(aspect, file.decls, j, containArgs, linecnt, writes, importsNeeded, writes0, imports0);
    }
    ScanEnd(aspect, file.decls, containArgs, linecnt, writes0, imports0, writes, importsNeeded);
  }

  lemma ScanStart(aspect: Aspect, decls: seq<Decl>, containArgs: ArgCheck, writes0: seq<Write>, imports0: seq<string>)
    ensures DeclsScanned(aspect, decls, containArgs, 0, 0, writes0, imports0, writes0, imports0)
  {
    assert decls[..0] == [];
  }

  lemma ScanEnd(aspect: Aspect, decls: seq<Decl>, containArgs: ArgCheck, linecnt: int,
                writes0: seq<Write>, imports0: seq<string>, writes: seq<Write>, imports: seq<string>)
    requires DeclsScanned(aspect, decls, containArgs, |decls|, linecnt, writes0, imports0, writes, imports)
    ensures var jps := ExecJoinpoints(aspect.pointcut.def, decls, containArgs);
            writes == writes0 + AspectWrites(aspect.advice, jps) &&
            imports == imports0 + AspectImports(aspect.imports, jps)
  {
    assert decls[..|decls|] == decls;
  }

  /** One pass of the declaration loop of applyExecutionJP: anything but a
      function is skipped; a function is selected when its name is the one
      before `(` in the pointcut (any name when that is empty) and its
      parameters pass containArgs, and then receives the aspect's blocks and
      adds the aspect's imports. A pass keeps the state of the loop. */
  method VisitDecl(aspect: Aspect, decls: seq<Decl>, j: nat, containArgs: ArgCheck, linecnt: int,
                   prior: seq<Write>, priorImports: seq<string>, ghost writes0: seq<Write>, ghost imports0: seq<string>)
    returns (linecnt': int, writes: seq<Write>, importsNeeded: seq<string>)
    requires j < |decls|
    ensures var decl := decls[j];
            ExecMatches(aspect.pointcut.def, decl, containArgs) ==>
              writes == prior + MatchWrites(aspect.advice, ExecJP(decl.lbrace, decl.rbrace, decl.hasResults), linecnt) &&
              linecnt' == linecnt + Step(aspect.advice) &&
              importsNeeded == priorImports + aspect.imports
    ensures !ExecMatches(aspect.pointcut.def, decls[j], containArgs) ==>
              writes == prior && linecnt' == linecnt && importsNeeded == priorImports
    ensures DeclsScanned(aspect, decls, containArgs, j, linecnt, writes0, imports0, prior, priorImports) ==>
              DeclsScanned(aspect, decls, containArgs, j + 1, linecnt', writes0, imports0, writes, importsNeeded)
  {
    var decl := decls[j];
    linecnt', writes, importsNeeded := linecnt, prior, priorImports;
    if !decl.FuncDecl? {
      if DeclsScanned(aspect, decls, containArgs, j, linecnt, writes0, imports0, prior, priorImports) {
        ScanStep(aspect, decls, containArgs, j, linecnt, writes0, imports0, prior, priorImports, linecnt', writes, importsNeeded);
      }
      return;
    }
    var pk := aspect.pointcut.def;
    var fpk := Before(pk, '(');
    if fpk == "" {
      fpk := decl.name;
    }
    if decl.name == fpk && containArgs(pk, decl.params) {
      writes, linecnt' := AdviseFunction(aspect.advice, decl.lbrace, decl.rbrace, decl.hasResults, linecnt', writes);
      importsNeeded := importsNeeded + aspect.imports;
    }
    if DeclsScanned(aspect, decls, containArgs, j, linecnt, writes0, imports0, prior, priorImports) {
      ScanStep(aspect, decls, containArgs, j, linecnt, writes0, imports0, prior, priorImports, linecnt', writes, importsNeeded);
    }
  }

  /** The state of the declaration loop after the first `j` declarations:
      the counter, the writes and the imports are those of the joinpoints
      found so far. */
  ghost predicate DeclsScanned(aspect: Aspect, decls: seq<Decl>, containArgs: ArgCheck, j: nat, linecnt: int,
                               writes0: seq<Write>, imports0: seq<string>, writes: seq<Write>, imports: seq<string>)
    requires j <= |decls|
  {
    var jps := ExecJoinpoints(aspect.pointcut.def, decls[..j], containArgs);
    linecnt == DriftAt(aspect.advice, |jps|) &&
    writes == writes0 + AspectWrites(aspect.advice, jps) &&
    imports == imports0 + AspectImports(aspect.imports, jps)
  }

  /** One declaration of the loop keeps DeclsScanned. */
  lemma ScanStep(aspect: Aspect, decls: seq<Decl>, containArgs: ArgCheck, j: nat, linecnt0: int,
                 writes0: seq<Write>, imports0: seq<string>, prior: seq<Write>, priorImports: seq<string>,
                 linecnt: int, writes: seq<Write>, imports: seq<string>)
    requires j < |decls|
    requires DeclsScanned(aspect, decls, containArgs, j, linecnt0, writes0, imports0, prior, priorImports)
    requires ExecMatches(aspect.pointcut.def, decls[j], containArgs) ==>
               writes == prior + MatchWrites(aspect.advice, ExecJP(decls[j].lbrace, decls[j].rbrace, decls[j].hasResults), linecnt0) &&
               linecnt == linecnt0 + Step(aspect.advice) &&
               imports == priorImports + aspect.imports
    requires !ExecMatches(aspect.pointcut.def, decls[j], containArgs) ==>
               writes == prior && linecnt == linecnt0 && imports == priorImports
    ensures DeclsScanned(aspect, decls, containArgs, j + 1, linecnt, writes0, imports0, writes, imports)
  {
    var def := aspect.pointcut.def;
    var jps := ExecJoinpoints(def, decls[..j], containArgs);
    ExecJoinpointsStep(def, decls, containArgs, j);
    if ExecMatches(def, decls[j], containArgs) {
      var jp := ExecJP(decls[j].lbrace, decls[j].rbrace, decls[j].hasResults);
      ExtendWrites(aspect.advice, jps, jp, writes0, prior, writes);
      ExtendImports(aspect.imports, jps, jp, imports0, priorImports, imports);
    } else {
      assert jps + [] == jps;
    }
  }

  /** The writes applyCallAdvice makes at a matched call, with the running
      counter `linecnt`: each non-empty block is written and grows the
      counter by its line count; an empty block does neither. */
  method AdviseCall(adv: Advice, begin: int, linecnt: int, writes0: seq<Write>)
    returns (writes: seq<Write>, linecnt': int)
    ensures writes == writes0 + MatchWrites(adv, CallJP(begin), linecnt)
    ensures linecnt' == linecnt + Step(adv)
  {
    writes, linecnt' := writes0, linecnt;
    if adv.before != "" {
      writes := writes + [Write(begin + linecnt' - 1, adv.before)];
      linecnt' := linecnt' + Lines(adv.before);
    }
    if adv.after != "" {
      writes := writes + [Write(begin + linecnt', adv.after)];
      linecnt' := linecnt' + Lines(adv.after);
    }
  }

  /** The writes applyExecutionJP makes at a selected function, with the
      running counter `linecnt`; the after-block moves up by its own line
      count when the function declares results. */
  method AdviseFunction(adv: Advice, begin: int, after: int, hasResults: bool, linecnt: int, writes0: seq<Write>)
    returns (writes: seq<Write>, linecnt': int)
    ensures writes == writes0 + MatchWrites(adv, ExecJP(begin, after, hasResults), linecnt)
    ensures linecnt' == linecnt + Step(adv)
  {
    writes, linecnt' := writes0, linecnt;
    if adv.before != "" {
      writes := writes + [Write(begin + linecnt', adv.before)];
      linecnt' := linecnt' + Lines(adv.before);
    }
    if adv.after != "" {
      if hasResults {
        var lcnt := Lines(adv.after);
        writes := writes + [Write(after + linecnt' - 1 - lcnt, adv.after)];
      } else {
        writes := writes + [Write(after + linecnt' - 1, adv.after)];
      }
      linecnt' := linecnt' + Lines(adv.after);
    }
  }

  /** One more matched joinpoint extends an aspect's writes by its own. */
  lemma ExtendWrites(adv: Advice, jps: seq<Joinpoint>, jp: Joinpoint, writes0: seq<Write>, prior: seq<Write>, ws: seq<Write>)
    requires prior == writes0 + AspectWrites(adv, jps)
    requires ws == prior + MatchWrites(adv, jp, DriftAt(adv, |jps|))
    ensures ws == writes0 + AspectWrites(adv, jps + [jp])
  {
    AspectWritesSnoc(adv, jps, jp);
  }

  /** One more matched joinpoint extends an aspect's imports by its list. */
  lemma ExtendImports(xs: seq<string>, jps: seq<Joinpoint>, jp: Joinpoint, imports0: seq<string>, prior: seq<string>, imports: seq<string>)
    requires prior == imports0 + AspectImports(xs, jps)
    requires imports == prior + xs
    ensures imports == imports0 + AspectImports(xs, jps + [jp])
  {
    assert (jps + [jp])[..|jps|] == jps;
  }

  lemma AspectWritesSnoc(adv: Advice, jps: seq<Joinpoint>, jp: Joinpoint)
    ensures AspectWrites(adv, jps + [jp]) == AspectWrites(adv, jps) + MatchWrites(adv, jp, DriftAt(adv, |jps|))
  {
    var more := jps + [jp];
    assert more[..|jps|] == jps;
    assert more[|jps|] == jp;
  }

  lemma CallJoinpointsStep(def: string, calls: seq<CallSite>, j: nat)
    requires j < |calls|
    ensures CallJoinpoints(def, calls[..j + 1])
         == CallJoinpoints(def, calls[..j]) + (if CallMatches(def, calls[j]) then [CallJP(calls[j].lparen)] else [])
  {
    assert calls[..j + 1][..j] == calls[..j];
  }

  lemma ExecJoinpointsStep(def: string, decls: seq<Decl>, containArgs: ArgCheck, j: nat)
    requires j < |decls|
    ensures ExecJoinpoints(def, decls[..j + 1], containArgs)
         == ExecJoinpoints(def, decls[..j], containArgs)
            + (if ExecMatches(def, decls[j], containArgs) then [ExecJP(decls[j].lbrace, decls[j].rbrace, decls[j].hasResults)] else [])
  {
    assert decls[..j + 1][..j] == decls[..j];
  }
}
