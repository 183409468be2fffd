// Joinpoint matching: the parsed file as the weaver sees it, the callee name
// of a call expression, and which call sites and function declarations a
// pointcut selects.

module Matching {
  import opened Patterns

  /** The `Fun` part of a call expression: an identifier `f`, a selector
      `x.f` (receiver text and selected name), or any other expression. */
  datatype Fun = Ident(name: string) | Selector(receiver: string, sel: string) | OtherFun

  /** A call expression and the line of its opening parenthesis. */
  datatype CallSite = CallSite(fun: Fun, lparen: int)

  /** A top-level declaration: a function (its name, parameter list text,
      body brace lines and whether it declares results) or anything else. */
  datatype Decl =
    | FuncDecl(name: string, params: seq<string>, lbrace: int, rbrace: int, hasResults: bool)
    | OtherDecl

  /** What a parse yields that the weaver reads (after a syntax error, of the
      partial tree): the end lines of the import specs in order, every call
      expression in the traversal order of ast.Inspect, and the top-level
      declarations in order. */
  datatype ParsedFile = ParsedFile(importEnds: seq<int>, calls: seq<CallSite>, decls: seq<Decl>)

  /** A matched location, with the lines its advice is placed against. */
  datatype Joinpoint =
    | CallJP(lparen: int)
    | ExecJP(lbrace: int, rbrace: int, hasResults: bool)

  /** The name a call invokes; "WRONG" stands for a callee that is neither
      an identifier nor a selector. */
  function CalleeName(f: Fun): string
  {
    match f
    case Ident(n) => n
    case Selector(_, sel) => sel
    case OtherFun => "WRONG"
  }

  predicate CallMatches(def: string, c: CallSite)
  {
    CalleeName(c.fun) == CallPattern(def)
  }

  /** The receiver of a selector call plays no part in matching. */
  lemma MatchIgnoresReceiver(def: string, x: string, y: string, sel: string, l: int, m: int)
    ensures CallMatches(def, CallSite(Selector(x, sel), l)) == CallMatches(def, CallSite(Selector(y, sel), m))
  {
  }

  /** A call whose callee is neither an identifier nor a selector is matched
      exactly by the pointcuts that normalise to "WRONG". */
  lemma OtherCalleeMatchesWrong(def: string, l: int)
    ensures CallMatches(def, CallSite(OtherFun, l)) <==> CallPattern(def) == "WRONG"
  {
  }

  /** A pointcut `pkg.name(args)` selects exactly the calls, qualified or not
      and whatever their arguments, whose callee name is `name`. */
  lemma QualifiedPatternMatches(pkg: string, name: string, args: string, c: CallSite)
    requires '(' !in pkg && '.' !in pkg
    requires '(' !in name && '.' !in name
    requires args == [] || args[0] == '('
    ensures CallMatches(pkg + "." + name + args, c) <==> CalleeName(c.fun) == name
  {
    CallPatternOfQualified(pkg, name, args);
  }

  /** The call sites, in traversal order, whose callee a call pointcut names. */
  function CallJoinpoints(def: string, calls: seq<CallSite>): (jps: seq<Joinpoint>)
    ensures |jps| <= |calls|
    decreases |calls|
  {
    if calls == [] then []
    else
      var last := calls[|calls| - 1];
      var prefix := calls[..|calls| - 1];
      CallJoinpoints(def, prefix) + (if CallMatches(def, last) then [CallJP(last.lparen)] else [])
  }

  /** An execution pointcut `name(params)` selects a function declaration
      when the name before `(` is empty (a wildcard) or equals the function's
      name, and the parameter check `containArgs` accepts its parameters. */
  predicate ExecMatches(def: string, d: Decl, containArgs: (string, seq<string>) -> bool)
  {
    d.FuncDecl? &&
    var fpk := Before(def, '(');
    (fpk == "" || d.name == fpk) && containArgs(def, d.params)
  }

  /** A wildcard pointcut selects every function its parameter check accepts. */
  lemma WildcardMatchesEveryFunction(def: string, d: Decl, containArgs: (string, seq<string>) -> bool)
    requires d.FuncDecl?
    requires def == [] || def[0] == '('
    ensures ExecMatches(def, d, containArgs) <==> containArgs(def, d.params)
  {
    BeforeAt(def, '(', 0);
  }

  /** A named pointcut `name(...)` selects only functions called `name`. */
  lemma NamedPatternMatchesByName(name: string, args: string, d: Decl, containArgs: (string, seq<string>) -> bool)
    requires '(' !in name && name != []
    requires args == [] || args[0] == '('
    ensures ExecMatches(name + args, d, containArgs) <==>
            d.FuncDecl? && d.name == name && containArgs(name + args, d.params)
  {
    var s := name + args;
    assert s[..|name|] == name;
    BeforeAt(s, '(', |name|);
  }

  /** The top-level function declarations, in order, an execution pointcut
      selects; declarations that are not functions are never selected. */
  function ExecJoinpoints(def: string, decls: seq<Decl>, containArgs: (string, seq<string>) -> bool): (jps: seq<Joinpoint>)
    ensures |jps| <= |decls|
    decreases |decls|
  {
    if decls == [] then []
    else
      var last := decls[|decls| - 1];
      var prefix := decls[..|decls| - 1];
      ExecJoinpoints(def, prefix, containArgs)
        + (if ExecMatches(def, last, containArgs) then [ExecJP(last.lbrace, last.rbrace, last.hasResults)] else [])
  }

  /** The positions of the call sites a call pointcut names. */
  function MatchedCalls(def: string, calls: seq<CallSite>): set<nat>
  {
    set k: nat | k < |calls| && CallMatches(def, calls[k])
  }

  /** Exactly the call sites the pointcut names become joinpoints. */
  lemma {:induction false} CallJoinpointsExact(def: string, calls: seq<CallSite>)
    ensures forall jp :: jp in CallJoinpoints(def, calls) ==>
              exists c :: c in calls && CallMatches(def, c) && jp == CallJP(c.lparen)
    ensures forall c :: c in calls && CallMatches(def, c) ==> CallJP(c.lparen) in CallJoinpoints(def, calls)
    decreases |calls|
  {
    if calls != [] {
      var prefix := calls[..|calls| - 1];
      assert calls == prefix + [calls[|calls| - 1]];
      CallJoinpointsExact(def, prefix);
    }
  }

  lemma MatchedCallsSnoc(def: string, calls: seq<CallSite>)
    requires calls != []
    ensures var n := |calls| - 1;
            MatchedCalls(def, calls) ==
              MatchedCalls(def, calls[..n]) + (if CallMatches(def, calls[n]) then {n} else {})
    ensures |calls| - 1 !in MatchedCalls(def, calls[..|calls| - 1])
  {
  }

  /** One joinpoint per matching call site: a line holding two matching calls
      yields two joinpoints, and so two steps of drift. */
  lemma {:induction false} CallJoinpointsCount(def: string, calls: seq<CallSite>)
    ensures |CallJoinpoints(def, calls)| == |MatchedCalls(def, calls)|
    decreases |calls|
  {
    if calls != [] {
      var n := |calls| - 1;
      CallJoinpointsCount(def, calls[..n]);
      MatchedCallsSnoc(def, calls);
    }
  }

  /** The positions of the declarations an execution pointcut selects. */
  function SelectedDecls(def: string, decls: seq<Decl>, containArgs: (string, seq<string>) -> bool): set<nat>
  {
    set k: nat | k < |decls| && ExecMatches(def, decls[k], containArgs)
  }

  /** Exactly the function declarations the pointcut selects become
      joinpoints; declarations of anything else never do. */
  lemma {:induction false} ExecJoinpointsExact(def: string, decls: seq<Decl>, containArgs: (string, seq<string>) -> bool)
    ensures forall jp :: jp in ExecJoinpoints(def, decls, containArgs) ==>
              exists d :: d in decls && d.FuncDecl? && ExecMatches(def, d, containArgs) &&
                          jp == ExecJP(d.lbrace, d.rbrace, d.hasResults)
    ensures forall d :: d in decls && ExecMatches(def, d, containArgs) ==>
              ExecJP(d.lbrace, d.rbrace, d.hasResults) in ExecJoinpoints(def, decls, containArgs)
    decreases |decls|
  {
    if decls != [] {
      var prefix := decls[..|decls| - 1];
      assert decls == prefix + [decls[|decls| - 1]];
      ExecJoinpointsExact(def, prefix, containArgs);
    }
  }

  lemma SelectedDeclsSnoc(def: string, decls: seq<Decl>, containArgs: (string, seq<string>) -> bool)
    requires decls != []
    ensures var n := |decls| - 1;
            SelectedDecls(def, decls, containArgs) ==
              SelectedDecls(def, decls[..n], containArgs) + (if ExecMatches(def, decls[n], containArgs) then {n} else {})
    ensures |decls| - 1 !in SelectedDecls(def, decls[..|decls| - 1], containArgs)
  {
  }

  /** One joinpoint per selected function declaration. */
  lemma {:induction false} ExecJoinpointsCount(def: string, decls: seq<Decl>, containArgs: (string, seq<string>) -> bool)
    ensures |ExecJoinpoints(def, decls, containArgs)| == |SelectedDecls(def, decls, containArgs)|
    decreases |decls|
  {
    if decls != [] {
      var n := |decls| - 1;
      ExecJoinpointsCount(def, decls[..n], containArgs);
      SelectedDeclsSnoc(def, decls, containArgs);
    }
  }
}
