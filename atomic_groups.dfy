/** transformAtomicGroups: every atomic group `(?>BODY)` of a pattern is rewritten, one
    per pass and the first one outside any class each time, into a lookahead that captures
    the body under a numbered marker name followed by a backreference to it; when no pass
    rewrites anything, the marker names are taken out again. A pattern with no `(?>`
    outside a class is returned as it is; once the guard has found one, any numbered
    backreference outside a class aborts the transform. */
module AtomicGroups {
  import opened Tokens
  import opened ClassDepth
  import opened Pass
  import opened Rewrite
  import opened Guard
  import opened Depollution

  /** The transform's answer: the new pattern, or the error raised for a numbered
      backreference, identified by its text. */
  datatype Result<T> = Success(value: T) | Failure(escape: seq<char>)

  /** The number of `(?>` tokens outside every class. */
  function Openers(s: seq<char>): (count: nat)
  {
    CountAt0(Lex(s), 0, Opener)
  }

  /** The number of numbered backreference tokens outside every class. */
  function Backrefs(s: seq<char>): (count: nat)
  {
    CountAt0(Lex(s), 0, Backref)
  }

  /** One rewriting pass takes away exactly one `(?>` outside a class and keeps every
      numbered backreference outside a class. */
  lemma {:induction false} RewriteStep(s: seq<char>, a: nat, p: nat, n: nat)
    requires PassOf(s) == Rewrite(a, p)
    ensures a + 3 <= p < |s|
    ensures Openers(Rewritten(s, a, p, n)) + 1 == Openers(s)
    ensures Backrefs(Rewritten(s, a, p, n)) == Backrefs(s)
  {
    var pre, body, post := PassSplit(s, a, p);
    RewriteTokens(s, pre, body, post, n, a, p);
    RewriteCounts(pre, body, post, n, Opener);
    RewriteCounts(pre, body, post, n, Backref);
  }

  /** The number of group starts `(?X` outside every class. */
  function GroupStarts(s: seq<char>): (count: nat)
  {
    CountAt0(Lex(s), 0, AnyGroup)
  }

  /** The number of `)` outside every class. */
  function Closings(s: seq<char>): (count: nat)
  {
    CountAt0(Lex(s), 0, CloseParen)
  }

  /** One rewriting pass keeps the parentheses outside classes balanced: it takes away one
      `(?>` and its `)` and puts in three group starts and three `)`. */
  lemma {:induction false} RewriteBalance(s: seq<char>, a: nat, p: nat, n: nat)
    requires PassOf(s) == Rewrite(a, p)
    ensures a + 3 <= p < |s|
    ensures GroupStarts(Rewritten(s, a, p, n)) == GroupStarts(s) + 2
    ensures Closings(Rewritten(s, a, p, n)) == Closings(s) + 2
  {
    var pre, body, post := PassSplit(s, a, p);
    RewriteTokens(s, pre, body, post, n, a, p);
    RewriteKeepsParens(pre, body, post, n, AnyGroup);
    RewriteKeepsParens(pre, body, post, n, CloseParen);
  }

  /** The passes from pattern `s` on, with `n` rewrites made before: the final pattern and
      the number of rewrites, or the abort. The `n`-th rewrite uses marker `$AG$n`. */
  function Rewrites(s: seq<char>, n: nat): (r: Result<(seq<char>, nat)>)
    decreases Openers(s)
  {
    match PassOf(s)
    case NoRewrite => Success((s, n))
    case BackrefAbort(_, escape) => Failure(escape)
    case Rewrite(a, p) =>
      RewriteStep(s, a, p, n + 1);
      Rewrites(Rewritten(s, a, p, n + 1), n + 1)
  }

  /** The whole transform: the guard, the passes, then depollution. */
  function Transform(s: seq<char>): (r: Result<seq<char>>)
  {
    if !OccursUnescaped(s, AtomicOpener) then Success(s)
    else
      match Rewrites(s, 0)
      case Failure(escape) => Failure(escape)
      case Success(r) => Success(Depollute(r.0))
  }

  /** The transform as the source runs it: the guard, then passes until one rewrites
      nothing, each pass scanning from the start of the current pattern. */
  method TransformAtomicGroups(pattern: seq<char>) returns (result: Result<seq<char>>)
    ensures result == Transform(pattern)
  {
    var found := HasUnescapedInDefaultRegexContext(pattern, AtomicOpener);
    if !found {
      return Success(pattern);
    }
    var current := pattern;
    var aGCount := 0;
    var hasProcessedAG := true;
    while hasProcessedAG
      invariant hasProcessedAG ==> Rewrites(current, aGCount) == Rewrites(pattern, 0)
      invariant !hasProcessedAG ==> Rewrites(pattern, 0) == Success((current, aGCount))
      decreases Openers(current) + (if hasProcessedAG then 1 else 0)
    {
      hasProcessedAG := false;
      var outcome := RunPass(current);
      match outcome {
        case NoRewrite =>
        case BackrefAbort(_, escape) =>
          return Failure(escape);
        case Rewrite(aGPos, pos) =>
          RewriteStep(current, aGPos, pos, aGCount + 1);
          aGCount := aGCount + 1;
          current := Rewritten(current, aGPos, pos, aGCount);
          hasProcessedAG := true;
      }
    }
    result := Success(Depollute(current));
  }

  /** A pattern with no `(?>` outside a class comes back unchanged, whatever else it holds
      (an opener inside a class or after `\`, numbered backreferences). */
  lemma {:induction false} NoOpenerNoChange(s: seq<char>)
    requires Openers(s) == 0
    ensures Transform(s) == Success(s)
  {
    GuardIffOpener(s);
  }

  /** A pass that rewrites nothing and does not abort has met no numbered backreference
      outside a class; an aborting pass has met one. */
  lemma {:induction false} PassBackrefs(s: seq<char>)
    ensures PassOf(s) == NoRewrite ==> Backrefs(s) == 0
    ensures PassOf(s).BackrefAbort? ==> Backrefs(s) > 0
  {
    PassFromTokens(s, 0, Scan(0, None, 0));
    assert s[0..] == s;
    if PassOf(s) == NoRewrite {
      NoRewriteNoBackref(Lex(s), 0, Scan(0, None, 0));
    } else if PassOf(s).BackrefAbort? {
      AbortHasBackref(Lex(s), 0, Scan(0, None, 0));
    }
  }

  /** A pass over a pattern with no `(?>` and no numbered backreference outside a class
      rewrites nothing. */
  lemma {:induction false} QuietNoRewrite(s: seq<char>)
    requires Openers(s) == 0 && Backrefs(s) == 0
    ensures PassOf(s) == NoRewrite
  {
    PassFromTokens(s, 0, Scan(0, None, 0));
    assert s[0..] == s;
    QuietPass(Lex(s), 0, Scan(0, None, 0));
  }

  /** The passes abort exactly when the pattern has a numbered backreference outside a
      class: rewrites neither add nor remove one, and a pass that reaches one aborts. */
  lemma {:induction false} RewritesFailIff(s: seq<char>, n: nat)
    ensures Rewrites(s, n).Failure? <==> Backrefs(s) > 0
    decreases Openers(s)
  {
    PassBackrefs(s);
    match PassOf(s)
    case NoRewrite =>
    case BackrefAbort(_, _) =>
    case Rewrite(a, p) =>
      RewriteStep(s, a, p, n + 1);
      RewritesFailIff(Rewritten(s, a, p, n + 1), n + 1);
  }

  /** The transform fails exactly when the pattern has both a `(?>` and a numbered
      backreference outside every class, wherever the backreference stands. */
  lemma {:induction false} TransformFailsIff(s: seq<char>)
    ensures Transform(s).Failure? <==> Openers(s) > 0 && Backrefs(s) > 0
  {
    GuardIffOpener(s);
    RewritesFailIff(s, 0);
  }

  /** When the passes end, the number of rewrites made is the number of `(?>` outside a
      class that they took away, one per pass, and a further pass would rewrite nothing: the
      first `(?>` outside a class that is left over has no matching `)`, and every opener
      after it stays as it is, matched or not. */
  lemma {:induction false} RewritesCount(s: seq<char>, n: nat)
    requires Rewrites(s, n).Success?
    ensures var r := Rewrites(s, n).value;
      && r.1 + Openers(r.0) == n + Openers(s)
      && PassOf(r.0) == NoRewrite
      && Backrefs(r.0) == 0
      && forall pre, body, post :: !MatchedOpener(Lex(r.0), pre, body, post)
    decreases Openers(s)
  {
    PassBackrefs(s);
    match PassOf(s)
    case NoRewrite =>
      forall pre, body, post
        ensures !MatchedOpener(Lex(s), pre, body, post)
      {
        SplitRewrites(s, pre, body, post);
      }
    case Rewrite(a, p) =>
      RewriteStep(s, a, p, n + 1);
      RewritesCount(Rewritten(s, a, p, n + 1), n + 1);
  }
}
