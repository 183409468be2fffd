// The small string helpers the weaver applies to pointcut text and advice
// blocks: strings.Split(s, c)[0], strings.Split(s, ".")[1] and
// strings.Count(s, "\n").

module Patterns {

  /** The part of `s` before the first `c`, or all of `s` when `c` does not
      occur: what strings.Split(s, c)[0] yields. */
  function Before(s: string, c: char): (r: string)
    ensures r <= s
    ensures c !in r
    ensures |r| < |s| ==> s[|r|] == c
  {
    if s == [] then []
    else if s[0] == c then []
    else [s[0]] + Before(s[1..], c)
  }

  /** A prefix that ends at the first `c` (or at the end) is what Before cuts. */
  lemma {:induction false} BeforeAt(s: string, c: char, k: nat)
    requires k <= |s|
    requires c !in s[..k]
    requires k == |s| || s[k] == c
    ensures Before(s, c) == s[..k]
  {
    if k > 0 {
      assert s[0] == s[..k][0];
      assert s[1..][..k - 1] == s[..k][1..];
      BeforeAt(s[1..], c, k - 1);
      assert s[..k] == [s[0]] + s[1..][..k - 1];
    }
  }

  /** The second `.`-separated piece of `s`: what strings.Split(s, ".")[1]
      yields when `s` holds a dot. */
  function SecondField(s: string): (r: string)
    requires '.' in s
    ensures '.' !in r
    ensures forall ch :: ch in r ==> ch in s
  {
    var head := Before(s, '.');
    assert |head| < |s|;
    var tail := s[|head| + 1..];
    var r := Before(tail, '.');
    assert forall ch :: ch in r ==> ch in tail;
    r
  }

  /** The bare callee name a call pointcut denotes: the text before the
      first `(`, and of that, when it is qualified, the piece after the
      first dot. */
  function CallPattern(def: string): (pk: string)
    ensures '(' !in pk && '.' !in pk
  {
    var p := Before(def, '(');
    if '.' in p then SecondField(p) else p
  }

  /** Normalising a pattern a second time changes nothing. */
  lemma CallPatternIdempotent(def: string)
    ensures CallPattern(CallPattern(def)) == CallPattern(def)
  {
    var pk := CallPattern(def);
    BeforeAt(pk, '(', |pk|);
    assert pk[..|pk|] == pk;
  }

  /** An unqualified name followed by an optional argument list denotes
      that name. */
  lemma CallPatternOfName(name: string, args: string)
    requires '(' !in name && '.' !in name
    requires args == [] || args[0] == '('
    ensures CallPattern(name + args) == name
  {
    var s := name + args;
    assert s[..|name|] == name;
    BeforeAt(s, '(', |name|);
  }

  /** Before passes over a prefix free of the separator. */
  lemma {:induction false} BeforeConcat(a: string, b: string, c: char)
    requires c !in a
    ensures Before(a + b, c) == a + Before(b, c)
  {
    if a == [] {
      assert a + b == b;
    } else {
      assert (a + b)[0] == a[0];
      assert (a + b)[1..] == a[1..] + b;
      BeforeConcat(a[1..], b, c);
      assert a == [a[0]] + a[1..];
    }
  }

  /** The second dot-separated piece of `pkg.name...` is `name`. */
  lemma SecondFieldOf(pkg: string, name: string, more: string)
    requires '.' !in pkg && '.' !in name
    requires more == [] || more[0] == '.'
    ensures '.' in pkg + "." + name + more
    ensures SecondField(pkg + "." + name + more) == name
  {
    var dotted := "." + name + more;
    var p := pkg + dotted;
    assert pkg + "." + name + more == p;
    assert p[|pkg|] == '.';
    assert Before(dotted, '.') == [];
    BeforeConcat(pkg, dotted, '.');
    assert p[|pkg| + 1..] == name + more;
    if more != [] {
      assert Before(more, '.') == [];
    } else {
      assert name + more == name;
    }
    BeforeConcat(name, more, '.');
  }

  /** A qualified name `pkg.name`, followed by further dotted pieces or an
      argument list, denotes the piece right after the first dot. */
  lemma CallPatternOfQualified(pkg: string, name: string, rest: string)
    requires '(' !in pkg && '.' !in pkg
    requires '(' !in name && '.' !in name
    requires rest == [] || rest[0] == '(' || rest[0] == '.'
    ensures CallPattern(pkg + "." + name + rest) == name
  {
    var head := pkg + "." + name;
    var cut := Before(rest, '(');
    assert cut == [] || cut[0] == '.';
    assert pkg + "." + name + rest == head + rest;
    assert '(' !in head;
    BeforeConcat(head, rest, '(');
    SecondFieldOf(pkg, name, cut);
    assert head + cut == pkg + "." + name + cut;
  }

  /** Number of occurrences of `c` in `s` (strings.Count with a one-character
      separator). */
  function CountChar(s: string, c: char): (n: nat)
    ensures n <= |s|
    ensures n == 0 <==> c !in s
  {
    if s == [] then 0
    else (if s[0] == c then 1 else 0) + CountChar(s[1..], c)
  }

  /** The count is the number of occurrences: the multiplicity of `c` in
      the multiset of the characters of `s`. */
  lemma {:induction false} CountCharIsOccurrences(s: string, c: char)
    ensures CountChar(s, c) == multiset(s)[c]
    decreases |s|
  {
    if s != [] {
      assert s == [s[0]] + s[1..];
      assert multiset(s) == multiset([s[0]]) + multiset(s[1..]);
      CountCharIsOccurrences(s[1..], c);
    }
  }

  /** The number of source lines a block occupies once written:
      strings.Count(block, "\n") + 1. */
  function Lines(block: string): (n: nat)
    ensures 1 <= n <= |block| + 1
  {
    CountChar(block, '\n') + 1
  }
}
