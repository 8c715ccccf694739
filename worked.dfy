/** Worked examples of the transform on small patterns. */
module Examples {
  import opened Tokens
  import opened ClassDepth
  import opened Pass
  import opened Rewrite
  import opened Guard
  import opened Depollution
  import opened AtomicGroups

  /** One token read off the front of a literal text. */
  lemma {:induction false} LexStep(s: seq<char>, t: Token, rest: seq<char>)
    requires s != [] && NextToken(s, 0) == t && Len(t) <= |s| && s[Len(t)..] == rest
    ensures Lex(s) == [t] + Lex(rest)
  {
    LexCons(s);
  }

  /** An opener inside a class is left alone: `[(?>]+` comes back unchanged. */
  lemma {:induction false} OpenerInClass()
    ensures Transform("[(?>]+") == Success("[(?>]+")
  {
    LexStep("[(?>]+", Char('['), "(?>]+");
    LexStep("(?>]+", GroupStart('>'), "]+");
    LexStep("]+", Char(']'), "+");
    LexStep("+", Char('+'), "");
    NoOpenerNoChange("[(?>]+");
  }

  /** `\1` is one numbered backreference token. */
  lemma {:induction false} LexBackref()
    ensures Lex("\\1") == [NumberedBackref("1")]
  {
    assert DigitRun("\\1", 2) == 0;
    LexStep("\\1", NumberedBackref("1"), "");
  }

  lemma {:induction false} LexGroupThenBackref()
    ensures Lex("(?>a)\\1") == [GroupStart('>'), Char('a'), Char(')'), NumberedBackref("1")]
  {
    LexStep("(?>a)\\1", GroupStart('>'), "a)\\1");
    LexStep("a)\\1", Char('a'), ")\\1");
    LexStep(")\\1", Char(')'), "\\1");
    LexBackref();
  }

  /** A numbered backreference after an atomic group, outside it, still aborts the
      transform. */
  lemma {:induction false} BackrefAfterGroupFails()
    ensures Transform("(?>a)\\1").Failure?
  {
    LexGroupThenBackref();
    TransformFailsIff("(?>a)\\1");
  }

  /** An escaped opener is not an opener: `\(?>` comes back unchanged. */
  lemma {:induction false} EscapedOpener()
    ensures Transform("\\(?>") == Success("\\(?>")
  {
    LexStep("\\(?>", Escaped('('), "?>");
    LexStep("?>", Char('?'), ">");
    LexStep(">", Char('>'), "");
    NoOpenerNoChange("\\(?>");
  }

  /** The pattern `(?>a)` and the pattern its one rewriting pass produces. */
  const Atomic: seq<char> := "(?>a)"
  const Wrapped: seq<char> := "(?:(?=(?<$AG$1>a))\\k<$AG$1>)"

  /** `(?>a)` reads as the opener, `a` and `)`. */
  lemma {:induction false} LexAtomic()
    ensures Lex(Atomic) == [GroupStart('>'), Char('a'), Char(')')]
  {
    LexStep("(?>a)", GroupStart('>'), "a)");
    LexStep("a)", Char('a'), ")");
    LexStep(")", Char(')'), "");
  }

  /** The one pass over `(?>a)` tracks the opener at 0 and stops at the `)` at 4. */
  lemma {:induction false} PassAtomic()
    ensures PassOf(Atomic) == Rewrite(0, 4)
    ensures Openers(Atomic) == 1 && Backrefs(Atomic) == 0
  {
    LexAtomic();
    PassFromTokens(Atomic, 0, Scan(0, None, 0));
    assert Atomic[0..] == Atomic;
    var ts := [GroupStart('>'), Char('a'), Char(')')];
    ScanCons(GroupStart('>'), ts[1..], 0, Scan(0, None, 0));
    ScanCons(Char('a'), ts[2..], 3, Scan(0, Some(0), 0));
    ScanCons(Char(')'), [], 4, Scan(0, Some(0), 0));
  }

  /** The first rewrite uses marker `$AG$1`. */
  lemma {:induction false} RewrittenAtomic()
    ensures Rewritten(Atomic, 0, 4, 1) == Wrapped
  {
    assert Decimal(1) == "1";
  }

  /** After the rewrite a second pass finds nothing, and the loop ends with one rewrite made. */
  lemma {:induction false} RewritesAtomic()
    ensures Rewrites(Atomic, 0) == Success((Wrapped, 1))
  {
    PassAtomic();
    RewriteStep(Atomic, 0, 4, 1);
    RewrittenAtomic();
    QuietNoRewrite(Wrapped);
  }

  /** End to end: `(?>a)` is rewritten once, with marker number 1, and the markers of the
      result are then taken out. */
  lemma {:induction false} TransformAtomic(p: seq<char>)
    requires p == Atomic
    ensures Transform(p) == Success(Depollute(Wrapped))
  {
    PassAtomic();
    GuardIffOpener(p);
    RewritesAtomic();
  }

  /** `(?>a(?>b)`: an unclosed opener followed by a matched one. */
  const Unclosed: seq<char> := "(?>a(?>b)"

  lemma {:induction false} LexUnclosed()
    ensures Lex(Unclosed) == [GroupStart('>'), Char('a'), GroupStart('>'), Char('b'), Char(')')]
  {
    LexStep("(?>a(?>b)", GroupStart('>'), "a(?>b)");
    LexStep("a(?>b)", Char('a'), "(?>b)");
    LexStep("(?>b)", GroupStart('>'), "b)");
    LexStep("b)", Char('b'), ")");
    LexStep(")", Char(')'), "");
  }

  /** Only the first opener outside a class is tracked: the inner `(?>` counts as a nested
      group, its `)` closes that nested group, and the scan reaches the end without
      rewriting. */
  lemma {:induction false} ScanUnclosed()
    ensures ScanPass([GroupStart('>'), Char('a'), GroupStart('>'), Char('b'), Char(')')], 0, Scan(0, None, 0))
         == NoRewrite
  {
    var ts := [GroupStart('>'), Char('a'), GroupStart('>'), Char('b'), Char(')')];
    ScanCons(GroupStart('>'), ts[1..], 0, Scan(0, None, 0));
    ScanCons(Char('a'), ts[2..], 3, Scan(0, Some(0), 0));
    ScanCons(GroupStart('>'), ts[3..], 4, Scan(0, Some(0), 0));
    ScanCons(Char('b'), ts[4..], 7, Scan(0, Some(0), 1));
    ScanCons(Char(')'), [], 8, Scan(0, Some(0), 1));
  }

  lemma {:induction false} PassUnclosed(p: seq<char>)
    requires p == Unclosed
    ensures PassOf(p) == NoRewrite
    ensures Openers(p) == 2
  {
    LexUnclosed();
    PassFromTokens(p, 0, Scan(0, None, 0));
    assert p[0..] == p;
    ScanUnclosed();
  }

  /** The inner group `(?>b)` is matched: its `)` is the first to close it. */
  lemma {:induction false} InnerMatched()
    ensures ClosesFirst([Char('b')], 0, 0)
  {
    assert [Char('b')][..0] == [];
  }

  /** `(?>a(?>b)` holds no `$`, so depollution leaves it as it is. */
  lemma {:induction false} UnclosedUnpolluted(p: seq<char>)
    requires p == Unclosed
    ensures Depollute(p) == p
  {
    forall q | 0 <= q < |p|
      ensures p[q] != '$'
    {
    }
    NoDollarUnchanged(p);
  }

  /** The loop stops at once with the matched inner group left as it is, and the transform
      returns `(?>a(?>b)` unchanged. */
  lemma {:induction false} InnerOpenerKept(p: seq<char>)
    requires p == Unclosed
    ensures Rewrites(p, 0) == Success((p, 0))
    ensures Transform(p) == Success(p)
  {
    PassUnclosed(p);
    GuardIffOpener(p);
    UnclosedUnpolluted(p);
  }
}
